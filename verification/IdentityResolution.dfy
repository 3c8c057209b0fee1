/** Components, representatives and the resolution rows of the reference pipeline. */
module IdentityResolution {
  import opened Basics
  import opened StringOrder
  import opened Connectivity
  import opened UnionFinding
  import opened IdentityRules
  import opened IdentityGraph

  /** The row a node must get: a fact about the graph, not about how it was computed. */
  ghost predicate RowFor(links: Links, nodes: set<string>, public: set<string>, digest: string -> nat,
                         n: string, row: ResolutionRow)
  {
    && n == NodeOf(row.identifierType, row.identifierValue)
    && IsNode(row.repNode) && IsRep(row.repNode, Component(links, nodes, n))
    && row.repType == TypeOf(row.repNode)
    && row.isPublicDevice == (row.identifierType == ClientId && row.identifierValue in public)
    && row.customerKey == CustomerKey(digest, if row.isPublicDevice then n else row.repNode)
    && (row.resolutionMethod, row.confidence)
       == Verdict(row.identifierType, n == row.repNode, row.repType, row.isPublicDevice)
  }

  /** One row per node, in name order. */
  ghost predicate RowsFor(links: Links, nodes: set<string>, public: set<string>, digest: string -> nat,
                          rows: seq<ResolutionRow>)
  {
    && |rows| == |Sorted(nodes)|
    && forall i :: 0 <= i < |rows| ==> RowFor(links, nodes, public, digest, Sorted(nodes)[i], rows[i])
  }

  ghost function Label(links: Links, nodes: set<string>, n: string): string
    requires n in nodes
  {
    Connectivity.Reflexive(links, n);
    assert n in Component(links, nodes, n);
    Least(Component(links, nodes, n))
  }

  /** The members seen so far, grouped under the least name of their component. */
  ghost predicate Grouped(links: Links, nodes: set<string>, done: seq<string>, groups: map<string, seq<string>>) {
    && (forall n :: n in done ==> n in nodes)
    && (forall r :: r in groups ==> groups[r] != [])
    && (forall r, m {:trigger m in groups[r]} :: r in groups ==>
         (m in groups[r] <==> m in done && Label(links, nodes, m) == r))
    && (forall m {:trigger Label(links, nodes, m)} :: m in done ==> Label(links, nodes, m) in groups)
  }

  lemma LabelsAgree(links: Links, nodes: set<string>, a: string, b: string)
    requires a in nodes && b in nodes
    ensures Label(links, nodes, a) == Label(links, nodes, b) <==> Connected(links, a, b)
  {
    Connectivity.Reflexive(links, a);
    Connectivity.Reflexive(links, b);
    FindDecides(links, nodes, a, b, Label(links, nodes, a), Label(links, nodes, b));
  }

  lemma GroupIsComponent(links: Links, nodes: set<string>, done: seq<string>, groups: map<string, seq<string>>, n: string)
    requires Grouped(links, nodes, done, groups) && n in nodes && forall m :: m in nodes ==> m in done
    ensures var r := Label(links, nodes, n);
            r in groups && forall m :: m in groups[r] <==> m in Component(links, nodes, n)
  {
    hide Connected, Label;
    var r := Label(links, nodes, n);
    forall m | m in nodes ensures m in groups[r] <==> m in Component(links, nodes, n) {
      LabelsAgree(links, nodes, n, m);
    }
  }

  lemma NothingGrouped(links: Links, nodes: set<string>)
    ensures Grouped(links, nodes, [], map[])
  {
  }

  lemma GroupOne(links: Links, nodes: set<string>, done: seq<string>, groups: map<string, seq<string>>, n: string, r: string)
    requires Grouped(links, nodes, done, groups) && n in nodes && r == Label(links, nodes, n)
    ensures Grouped(links, nodes, done + [n], groups[r := (if r in groups then groups[r] else []) + [n]])
  {
    hide Label;
  }

  lemma FindReturnsLabel(links: Links, nodes: set<string>, n: string, r: string)
    requires n in nodes && IsLeast(r, Component(links, nodes, n))
    ensures r == Label(links, nodes, n)
  {
    Connectivity.Reflexive(links, n);
    LeastIsUnique(r, Label(links, nodes, n), Component(links, nodes, n));
  }

  /** `min(members, key=node_sort_key)`. */
  function MinBySortKey(members: seq<string>): string
    requires members != []
  {
    if |members| == 1 then members[0] else
      var last := members[|members| - 1];
      var r := MinBySortKey(members[..|members| - 1]);
      if Lt(SortKey(last), SortKey(r)) then last else r
  }

  lemma {:induction false} MinBySortKeyIsLeast(members: seq<string>)
    requires members != []
    ensures var r := MinBySortKey(members);
            r in members && forall m :: m in members ==> Le(SortKey(r), SortKey(m))
  {
    hide SortKey, Lt;
    if |members| > 1 {
      var front, last := members[..|members| - 1], members[|members| - 1];
      MinBySortKeyIsLeast(front);
      assert members == front + [last];
      SmallerOfTwo(front, MinBySortKey(front), last);
    }
  }

  lemma SmallerOfTwo(members: seq<string>, r: string, last: string)
    requires forall m :: m in members ==> Le(SortKey(r), SortKey(m))
    ensures var least := if Lt(SortKey(last), SortKey(r)) then last else r;
            forall m :: m in members + [last] ==> Le(SortKey(least), SortKey(m))
  {
    hide SortKey, Lt;
    LtTotal(SortKey(last), SortKey(r));
    forall m | m in members && Lt(SortKey(last), SortKey(r)) ensures Le(SortKey(last), SortKey(m)) {
      LeTransitive(SortKey(last), SortKey(r), SortKey(m));
    }
  }

  method FindLabel(uf: UnionFind, n: string) returns (root: string)
    requires uf.Valid() && n in uf.parent
    modifies uf`parent
    ensures uf.Valid() && uf.parent.Keys == old(uf.parent.Keys)
    ensures root == Label(uf.links, uf.parent.Keys, n)
  {
    hide Represents, Connected, Component, Label, SameRoots, Root, OnPath, Forest, Lt;
    root := uf.Find(n);
    FindReturnsLabel(uf.links, uf.parent.Keys, n, root);
  }

  method MembersByRoot(uf: UnionFind, nodes: set<string>, nodeList: seq<string>) returns (groups: map<string, seq<string>>)
    requires uf.Valid() && uf.parent.Keys == nodes && forall n :: n in nodeList ==> n in nodes
    modifies uf`parent
    ensures Grouped(uf.links, nodes, nodeList, groups)
  {
    hide Grouped, Represents, Connected, Component, Label;
    groups := map[];
    ghost var links := uf.links;
    NothingGrouped(links, nodes);
    for i := 0 to |nodeList|
      invariant uf.Valid() && uf.parent.Keys == nodes && uf.links == links
      invariant Grouped(links, nodes, nodeList[..i], groups)
    {
      assert nodeList[..i + 1] == nodeList[..i] + [nodeList[i]];
      var root := FindLabel(uf, nodeList[i]);
      GroupOne(links, nodes, nodeList[..i], groups, nodeList[i], root);
      groups := groups[root := (if root in groups then groups[root] else []) + [nodeList[i]]];
    }
    assert nodeList[..|nodeList|] == nodeList;
  }

  ghost predicate RepsKnown(groups: map<string, seq<string>>, todo: set<string>, repByNode: map<string, string>)
    requires forall r :: r in groups ==> groups[r] != []
  {
    forall r, m :: r in groups && r !in todo && m in groups[r] ==> m in repByNode && repByNode[m] == MinBySortKey(groups[r])
  }

  method PointAt(repByNode: map<string, string>, members: seq<string>, rep: string) returns (result: map<string, string>)
    ensures forall n :: n in members ==> n in result && result[n] == rep
    ensures forall n :: n in repByNode && n !in members ==> n in result && result[n] == repByNode[n]
  {
    result := repByNode;
    for i := 0 to |members|
      invariant forall j :: 0 <= j < i ==> members[j] in result && result[members[j]] == rep
      invariant forall n :: n in repByNode && n !in members ==> n in result && result[n] == repByNode[n]
    {
      result := result[members[i] := rep];
    }
  }

  method RepresentativeOf(groups: map<string, seq<string>>) returns (repByNode: map<string, string>)
    requires forall r :: r in groups ==> groups[r] != []
    requires forall r, r', m :: r in groups && r' in groups && m in groups[r] && m in groups[r'] ==> r == r'
    ensures RepsKnown(groups, {}, repByNode)
  {
    hide MinBySortKey;
    repByNode := map[];
    var todo := groups.Keys;
    while todo != {}
      invariant todo <= groups.Keys
      invariant RepsKnown(groups, todo, repByNode)
    {
      var root :| root in todo;
      todo := todo - {root};
      repByNode := PointAt(repByNode, groups[root], MinBySortKey(groups[root]));
    }
  }

  lemma GroupsAreDisjoint(links: Links, nodes: set<string>, done: seq<string>, groups: map<string, seq<string>>)
    requires Grouped(links, nodes, done, groups)
    ensures forall r :: r in groups ==> groups[r] != []
    ensures forall r, r', m :: r in groups && r' in groups && m in groups[r] && m in groups[r'] ==> r == r'
  {
    hide Label;
  }

  lemma RepsAreRepresentatives(links: Links, nodes: set<string>, done: seq<string>, groups: map<string, seq<string>>,
                               repByNode: map<string, string>)
    requires forall n :: n in nodes ==> IsNode(n)
    requires forall r :: r in groups ==> groups[r] != []
    requires Grouped(links, nodes, done, groups) && (forall m :: m in nodes ==> m in done) && RepsKnown(groups, {}, repByNode)
    ensures forall n :: n in nodes ==>
              n in repByNode && IsNode(repByNode[n]) && IsRep(repByNode[n], Component(links, nodes, n))
  {
    hide Connected, Component, Label, SortKey, Grouped, MinBySortKey, IsNode, Lt;
    forall n | n in nodes
      ensures n in repByNode && IsNode(repByNode[n]) && IsRep(repByNode[n], Component(links, nodes, n))
    {
      GroupIsComponent(links, nodes, done, groups, n);
      Connectivity.Reflexive(links, n);
      var r := Label(links, nodes, n);
      assert n in groups[r];
      MinBySortKeyIsLeast(groups[r]);
    }
  }

  method AssignResolution(nodes: set<string>, edges: seq<Edge>, publicDevices: set<string>, digest: string -> nat)
    returns (rows: seq<ResolutionRow>)
    requires forall n :: n in nodes ==> IsNode(n)
    requires forall e :: e in edges ==> e.src in nodes && e.dst in nodes
    ensures RowsFor(LinksOf(edges), nodes, publicDevices, digest, rows)
  {
    hide Grouped, Connected, Component, Represents, RepsKnown, Label, IsRep, RowFor, Sorted, NodeOf;
    var nodeList := Sorted(nodes);
    var uf := new UnionFind(nodes);
    assert uf.links == LinksOf(edges[..0]);
    for i := 0 to |edges|
      invariant fresh(uf) && uf.Valid() && uf.parent.Keys == nodes && uf.links == LinksOf(edges[..i])
    {
      assert edges[..i + 1] == edges[..i] + [edges[i]];
      uf.Union(edges[i].src, edges[i].dst);
    }
    assert edges[..|edges|] == edges;
    ghost var links := LinksOf(edges);
    var membersByRoot := MembersByRoot(uf, nodes, nodeList);
    GroupsAreDisjoint(links, nodes, nodeList, membersByRoot);
    var repByNode := RepresentativeOf(membersByRoot);
    RepsAreRepresentatives(links, nodes, nodeList, membersByRoot, repByNode);
    rows := RowsOfNodes(nodes, nodeList, repByNode, publicDevices, links, digest);
  }

  method RowsOfNodes(nodes: set<string>, nodeList: seq<string>, repByNode: map<string, string>, publicDevices: set<string>,
                     ghost links: Links, digest: string -> nat)
    returns (rows: seq<ResolutionRow>)
    requires forall n :: n in nodeList ==> n in nodes
    requires forall n :: n in nodes ==> IsNode(n)
    requires forall n :: n in nodes ==>
               n in repByNode && IsNode(repByNode[n]) && IsRep(repByNode[n], Component(links, nodes, n))
    ensures |rows| == |nodeList|
    ensures forall i :: 0 <= i < |rows| ==> RowFor(links, nodes, publicDevices, digest, nodeList[i], rows[i])
  {
    hide Component, IsRep, Verdict, CustomerKey, IsNode, NodeOf, TypeOf;
    rows := [];
    for i := 0 to |nodeList|
      invariant |rows| == i
      invariant forall j :: 0 <= j < i ==> RowFor(links, nodes, publicDevices, digest, nodeList[j], rows[j])
    {
      var node := nodeList[i];
      assert node in nodes;
      var rep := repByNode[node];
      var row := MakeRow(node, rep, publicDevices, digest);
      rows := rows + [row];
    }
  }

  /** The body of the row loop. */
  method MakeRow(node: string, rep: string, public: set<string>, digest: string -> nat) returns (row: ResolutionRow)
    requires IsNode(node) && IsNode(rep)
    ensures node == NodeOf(row.identifierType, row.identifierValue)
    ensures row.repNode == rep && row.repType == TypeOf(rep)
    ensures row.isPublicDevice == (row.identifierType == ClientId && row.identifierValue in public)
    ensures row.customerKey == CustomerKey(digest, if row.isPublicDevice then node else rep)
    ensures (row.resolutionMethod, row.confidence)
            == Verdict(row.identifierType, node == rep, row.repType, row.isPublicDevice)
  {
    SplitOfNode(node);
    SplitOfNode(rep);
    var (t, value) := SplitNode(node).value;
    var (repType, _) := SplitNode(rep).value;
    var isPublic := t == ClientId && value in public;
    var key, confidence, how;
    if isPublic {
      key, confidence, how := CustomerKey(digest, PREFIX_CLIENT + value), 0.3, PublicDeviceExcluded;
    } else if t == LoyaltyId {
      key, confidence := CustomerKey(digest, rep), 1.0;
      how := if node == rep then ComponentAnchor else LoyaltyMember;
    } else if t == CustomerId {
      key := CustomerKey(digest, rep);
      if repType == LoyaltyId {
        confidence, how := 1.0, LoyaltyMatch;
      } else {
        confidence, how := 0.9, CustomerStandalone;
      }
    } else {
      key := CustomerKey(digest, rep);
      if repType in {LoyaltyId, CustomerId} {
        confidence, how := 0.85, SessionLinked;
      } else {
        confidence, how := 0.5, DeviceOnly;
      }
    }
    row := ResolutionRow(t, value, key, confidence, how, isPublic, rep, repType);
  }

  // ---------------------------------------------------------------- resolve_identity_graph

  lemma EdgesAreInputLinks(pairs: seq<Pair>, loyalty: set<string>, threshold: int, edges: seq<Edge>)
    requires forall e :: e in edges <==>
               IsSessionEdge(pairs, PublicDevices(pairs, threshold), e) || IsLoyaltyEdge(pairs, loyalty, e)
    ensures LinksOf(edges) == InputLinks(pairs, loyalty, threshold)
  {
    hide NodeOf;
    var public := PublicDevices(pairs, threshold);
    forall p | p in pairs && p.client !in public
      ensures (NodeOf(ClientId, p.client), NodeOf(CustomerId, p.customer)) in LinksOf(edges)
    {
      LatestPairExists(pairs, p);
      var q :| LatestPair(pairs, q) && q.client == p.client && q.customer == p.customer;
      assert SessionEdge(q) in edges;
    }
    forall p | p in pairs && p.customer in loyalty
      ensures (NodeOf(LoyaltyId, p.customer), NodeOf(CustomerId, p.customer)) in LinksOf(edges)
    {
      LatestOfCustomerExists(pairs, p);
      var q :| LatestOfCustomer(pairs, q) && q.customer == p.customer;
      assert LoyaltyEdge(q) in edges;
    }
    forall e | e in edges ensures (e.src, e.dst) in InputLinks(pairs, loyalty, threshold) {
      EdgeIsALink(pairs, loyalty, threshold, e);
    }
  }

  lemma EdgeIsALink(pairs: seq<Pair>, loyalty: set<string>, threshold: int, e: Edge)
    requires IsSessionEdge(pairs, PublicDevices(pairs, threshold), e) || IsLoyaltyEdge(pairs, loyalty, e)
    ensures (e.src, e.dst) in InputLinks(pairs, loyalty, threshold)
  {
    hide NodeOf;
    var public := PublicDevices(pairs, threshold);
    if IsSessionEdge(pairs, public, e) {
      var p :| LatestPair(pairs, p) && p.client !in public && e == SessionEdge(p);
      assert (e.src, e.dst) in SessionLinks(pairs, public);
    } else {
      var p :| LatestOfCustomer(pairs, p) && p.customer in loyalty && e == LoyaltyEdge(p);
      assert (e.src, e.dst) in LoyaltyLinks(pairs, loyalty);
    }
  }

  lemma {:induction false} LatestPairExists(pairs: seq<Pair>, p: Pair)
    requires p in pairs
    ensures exists q :: LatestPair(pairs, q) && q.client == p.client && q.customer == p.customer
  {
    var i :| 0 <= i < |pairs| && pairs[i] == p;
    var best := i;
    for j := 0 to |pairs|
      invariant 0 <= best < |pairs| && pairs[best].client == p.client && pairs[best].customer == p.customer
      invariant forall k :: 0 <= k < j && pairs[k].client == p.client && pairs[k].customer == p.customer ==>
                  pairs[k].eventTime <= pairs[best].eventTime
    {
      if pairs[j].client == p.client && pairs[j].customer == p.customer && pairs[j].eventTime > pairs[best].eventTime {
        best := j;
      }
    }
    assert LatestPair(pairs, pairs[best]);
  }

  lemma {:induction false} LatestOfCustomerExists(pairs: seq<Pair>, p: Pair)
    requires p in pairs
    ensures exists q :: LatestOfCustomer(pairs, q) && q.customer == p.customer
  {
    var i :| 0 <= i < |pairs| && pairs[i] == p;
    var best := i;
    for j := 0 to |pairs|
      invariant 0 <= best < |pairs| && pairs[best].customer == p.customer
      invariant forall k :: 0 <= k < j && pairs[k].customer == p.customer ==> pairs[k].eventTime <= pairs[best].eventTime
    {
      if pairs[j].customer == p.customer && pairs[j].eventTime > pairs[best].eventTime { best := j; }
    }
    assert LatestOfCustomer(pairs, pairs[best]);
  }

  lemma InputNodesAreNodes(rows: seq<ClickRow>, pos: seq<Option<string>>, n: string)
    requires n in InputNodes(rows, pos)
    ensures IsNode(n)
  {
    hide NormalizeIdentifier;
    if l :| l in LoyaltyIds(pos) && n == NodeOf(LoyaltyId, l) {
    } else if r :| r in rows && NormalizeIdentifier(r.customerId).Some? && n == NodeOf(CustomerId, NormalizeIdentifier(r.customerId).value) {
    } else {
      var r :| r in rows && NormalizeIdentifier(r.clientId).Some? && n == NodeOf(ClientId, NormalizeIdentifier(r.clientId).value);
    }
  }

  lemma PairEndsAreNodes(rows: seq<ClickRow>, pos: seq<Option<string>>, p: Pair)
    requires p in PairsOf(rows)
    ensures NodeOf(ClientId, p.client) in InputNodes(rows, pos) && NodeOf(CustomerId, p.customer) in InputNodes(rows, pos)
  {
    hide NormalizeIdentifier, NodeOf, PairsOf;
    var r :| r in rows && PairOfRow(r) == Some(p);
    assert NormalizeIdentifier(r.clientId) == Some(p.client) && NormalizeIdentifier(r.customerId) == Some(p.customer);
  }

  /** Both ends of every link are nodes, whatever the input. */
  lemma LinkEndsAreNodes(rows: seq<ClickRow>, pos: seq<Option<string>>, threshold: int, a: string, b: string)
    requires (a, b) in InputLinks(PairsOf(rows), LoyaltyIds(pos), threshold)
    ensures a in InputNodes(rows, pos) && b in InputNodes(rows, pos)
  {
    hide NodeOf, PairsOf, InputNodes, LoyaltyIds;
    var pairs, loyalty := PairsOf(rows), LoyaltyIds(pos);
    if (a, b) in SessionLinks(pairs, PublicDevices(pairs, threshold)) {
      var p :| p in pairs && (a, b) == (NodeOf(ClientId, p.client), NodeOf(CustomerId, p.customer));
      PairEndsAreNodes(rows, pos, p);
    } else {
      var p :| p in pairs && p.customer in loyalty && (a, b) == (NodeOf(LoyaltyId, p.customer), NodeOf(CustomerId, p.customer));
      PairEndsAreNodes(rows, pos, p);
      LoyaltyIsNode(rows, pos, p.customer);
    }
  }

  lemma LoyaltyIsNode(rows: seq<ClickRow>, pos: seq<Option<string>>, l: string)
    requires l in LoyaltyIds(pos)
    ensures NodeOf(LoyaltyId, l) in InputNodes(rows, pos)
  {
    hide NormalizeIdentifier, NodeOf;
  }

  method ResolveIdentityGraph(clickstream: seq<ClickRow>, pos: seq<Option<string>>, threshold: int, digest: string -> nat)
    returns (edges: seq<Edge>, rows: seq<ResolutionRow>, public: set<string>)
    ensures public == PublicDevices(PairsOf(clickstream), threshold)
    ensures EdgesFor(PairsOf(clickstream), LoyaltyIds(pos), public, edges)
    ensures RowsFor(InputLinks(PairsOf(clickstream), LoyaltyIds(pos), threshold), InputNodes(clickstream, pos), public, digest, rows)
  {
    hide NormalizeIdentifier, NodeOf, IsSessionEdge, IsLoyaltyEdge;
    var pairs := [];
    for i := 0 to |clickstream|
      invariant pairs == PairsOf(clickstream[..i])
    {
      var row := clickstream[i];
      assert clickstream[..i + 1][..i] == clickstream[..i];
      var client, customer := NormalizeIdentifier(row.clientId), NormalizeIdentifier(row.customerId);
      if client.Some? && customer.Some? {
        pairs := pairs + [Pair(client.value, customer.value, row.eventTime)];
      }
    }
    assert clickstream[..|clickstream|] == clickstream;
    var loyalty := LoyaltyIds(pos);
    edges, public := BuildEdges(pairs, loyalty, threshold);
    EdgesAreInputLinks(pairs, loyalty, threshold, edges);
    var nodes := InputNodes(clickstream, pos);
    forall n | n in nodes ensures IsNode(n) { InputNodesAreNodes(clickstream, pos, n); }
    forall e | e in edges ensures e.src in nodes && e.dst in nodes {
      assert (e.src, e.dst) in LinksOf(edges);
      LinkEndsAreNodes(clickstream, pos, threshold, e.src, e.dst);
    }
    rows := AssignResolution(nodes, edges, public, digest);
  }
}
