/** What the resolution rows mean, for every input. */
module IdentityTheorems {
  import opened Basics
  import opened StringOrder
  import opened Connectivity
  import opened IdentityRules
  import opened IdentityGraph
  import opened IdentityResolution
  import Sums

  /** Everything the pipeline returns about an input. */
  ghost predicate Resolved(clicks: seq<ClickRow>, pos: seq<Option<string>>, threshold: int, digest: string -> nat,
                           rows: seq<ResolutionRow>)
  {
    RowsFor(GraphLinks(clicks, pos, threshold), InputNodes(clicks, pos), PublicDevices(PairsOf(clicks), threshold), digest, rows)
  }

  function GraphLinks(clicks: seq<ClickRow>, pos: seq<Option<string>>, threshold: int): Links {
    InputLinks(PairsOf(clicks), LoyaltyIds(pos), threshold)
  }

  function RowNode(row: ResolutionRow): string {
    NodeOf(row.identifierType, row.identifierValue)
  }

  /** No link touches `n`. */
  ghost predicate Isolated(links: Links, n: string) {
    forall m :: !Adjacent(links, n, m)
  }

  // ---------------------------------------------------------------- in the fields of the input rows

  /** An identifier has a row exactly if some input row gives it, whatever else that row holds. */
  lemma RowIffGiven(clicks: seq<ClickRow>, pos: seq<Option<string>>, threshold: int, digest: string -> nat,
                    rows: seq<ResolutionRow>, t: IdType, v: string)
    requires Resolved(clicks, pos, threshold, digest, rows)
    ensures (exists i :: 0 <= i < |rows| && rows[i].identifierType == t && rows[i].identifierValue == v)
            <==> match t
                 case LoyaltyId => exists l :: l in pos && NormalizeIdentifier(l) == Some(v)
                 case CustomerId => exists r :: r in clicks && NormalizeIdentifier(r.customerId) == Some(v)
                 case ClientId => exists r :: r in clicks && NormalizeIdentifier(r.clientId) == Some(v)
  {
    hide GraphLinks, Component, CustomerKey, IsRep, Verdict, NodeOf, NormalizeIdentifier, InputNodes;
    RowsAreUnique(clicks, pos, threshold, digest, rows);
    NodeIffGiven(clicks, pos, t, v);
    if i :| 0 <= i < |rows| && RowNode(rows[i]) == NodeOf(t, v) {
      NodeIsInjective(rows[i].identifierType, rows[i].identifierValue, t, v);
    }
  }

  lemma NodeIffGiven(clicks: seq<ClickRow>, pos: seq<Option<string>>, t: IdType, v: string)
    ensures NodeOf(t, v) in InputNodes(clicks, pos)
            <==> match t
                 case LoyaltyId => exists l :: l in pos && NormalizeIdentifier(l) == Some(v)
                 case CustomerId => exists r :: r in clicks && NormalizeIdentifier(r.customerId) == Some(v)
                 case ClientId => exists r :: r in clicks && NormalizeIdentifier(r.clientId) == Some(v)
  {
    hide NodeOf, NormalizeIdentifier;
    if NodeOf(t, v) in InputNodes(clicks, pos) {
      if l :| l in LoyaltyIds(pos) && NodeOf(t, v) == NodeOf(LoyaltyId, l) {
        NodeIsInjective(t, v, LoyaltyId, l);
      } else if r :| r in clicks && NormalizeIdentifier(r.customerId).Some?
                     && NodeOf(t, v) == NodeOf(CustomerId, NormalizeIdentifier(r.customerId).value) {
        NodeIsInjective(t, v, CustomerId, NormalizeIdentifier(r.customerId).value);
      } else {
        var r :| r in clicks && NormalizeIdentifier(r.clientId).Some?
                 && NodeOf(t, v) == NodeOf(ClientId, NormalizeIdentifier(r.clientId).value);
        NodeIsInjective(t, v, ClientId, NormalizeIdentifier(r.clientId).value);
      }
    }
  }

  /** A click of device `c` by customer `k`. */
  predicate Seen(r: ClickRow, c: string, k: string) {
    NormalizeIdentifier(r.clientId) == Some(c) && NormalizeIdentifier(r.customerId) == Some(k)
  }

  ghost predicate Together(clicks: seq<ClickRow>, c: string, k: string) {
    exists r :: r in clicks && Seen(r, c, k)
  }

  ghost predicate AllTogether(clicks: seq<ClickRow>, c: string, ks: set<string>) {
    forall k :: k in ks ==> Together(clicks, c, k)
  }

  /** Different customers, `threshold` of them at least, clicked on this device. */
  ghost predicate Shared(clicks: seq<ClickRow>, threshold: int, c: string) {
    exists ks: set<string> :: |ks| >= threshold && ks != {} && AllTogether(clicks, c, ks)
  }

  lemma TogetherIffPair(clicks: seq<ClickRow>, c: string, k: string)
    ensures Together(clicks, c, k) <==> exists p :: p in PairsOf(clicks) && p.client == c && p.customer == k
  {
    hide NormalizeIdentifier, PairsOf;
    if p :| p in PairsOf(clicks) && p.client == c && p.customer == k {
      var r :| r in clicks && PairOfRow(r) == Some(p);
      assert Seen(r, c, k);
    }
    if r :| r in clicks && Seen(r, c, k) {
      assert PairOfRow(r) == Some(Pair(c, k, r.eventTime));
    }
  }

  lemma CustomerIffTogether(clicks: seq<ClickRow>, c: string, k: string)
    ensures k in CustomersOf(PairsOf(clicks), c) <==> Together(clicks, c, k)
  {
    hide PairsOf, Together;
    TogetherIffPair(clicks, c, k);
  }

  lemma PublicIffMany(pairs: seq<Pair>, threshold: int, c: string)
    ensures c in PublicDevices(pairs, threshold) <==> CustomersOf(pairs, c) != {} && |CustomersOf(pairs, c)| >= threshold
  {
    if k :| k in CustomersOf(pairs, c) {
      var p :| p in pairs && p.client == c && p.customer == k;
    }
    if p :| p in pairs && p.client == c { assert p.customer in CustomersOf(pairs, c); }
  }

  lemma PublicIffShared(clicks: seq<ClickRow>, threshold: int, c: string)
    ensures c in PublicDevices(PairsOf(clicks), threshold) <==> Shared(clicks, threshold, c)
  {
    hide PairsOf, Together, CustomersOf, PublicDevices;
    var all := CustomersOf(PairsOf(clicks), c);
    PublicIffMany(PairsOf(clicks), threshold, c);
    forall k ensures k in all <==> Together(clicks, c, k) { CustomerIffTogether(clicks, c, k); }
    if all != {} && |all| >= threshold { assert AllTogether(clicks, c, all); }
    if ks: set<string> :| |ks| >= threshold && ks != {} && AllTogether(clicks, c, ks) {
      assert ks <= all;
      Sums.SubsetSize(ks, all);
    }
  }

  /** The rows flagged public are exactly those of the devices that enough different customers clicked on. */
  lemma RowIsPublicIff(clicks: seq<ClickRow>, pos: seq<Option<string>>, threshold: int, digest: string -> nat,
                       rows: seq<ResolutionRow>, i: nat)
    requires Resolved(clicks, pos, threshold, digest, rows) && i < |rows|
    ensures rows[i].isPublicDevice <==> rows[i].identifierType == ClientId && Shared(clicks, threshold, rows[i].identifierValue)
  {
    hide GraphLinks, InputNodes, Component, CustomerKey, IsRep, Verdict, Shared, PublicDevices;
    PublicIffShared(clicks, threshold, rows[i].identifierValue);
  }

  /** Device and customer clicked together, last at `t`. */
  ghost predicate LastTogether(clicks: seq<ClickRow>, c: string, k: string, t: int) {
    && (exists r :: r in clicks && Seen(r, c, k) && r.eventTime == t)
    && forall r :: r in clicks && Seen(r, c, k) ==> r.eventTime <= t
  }

  /** The customer clicked on some device, last at `t`. */
  ghost predicate LastClick(clicks: seq<ClickRow>, k: string, t: int) {
    (exists c :: LastTogether(clicks, c, k, t)) && forall r, c :: r in clicks && Seen(r, c, k) ==> r.eventTime <= t
  }

  ghost predicate GivenInPos(pos: seq<Option<string>>, k: string) {
    exists l :: l in pos && NormalizeIdentifier(l) == Some(k)
  }

  /** A device that is not public and its customer, at their last click together. */
  ghost predicate ObservedSession(clicks: seq<ClickRow>, threshold: int, e: Edge) {
    && e.edgeType == SessionLink
    && exists c, k :: && LastTogether(clicks, c, k, e.lastObservedAt) && !Shared(clicks, threshold, c)
                      && e.src == "client:" + c && e.dst == "customer:" + k
  }

  /** A loyalty id equal to a customer, at that customer's last click on any device. */
  ghost predicate ObservedMatch(clicks: seq<ClickRow>, pos: seq<Option<string>>, e: Edge) {
    && e.edgeType == LoyaltyValueMatch
    && exists k :: && LastClick(clicks, k, e.lastObservedAt) && GivenInPos(pos, k)
                   && e.src == "loyalty:" + k && e.dst == "customer:" + k
  }

  predicate SeenAs(r: ClickRow, p: Pair) {
    Seen(r, p.client, p.customer) && r.eventTime == p.eventTime
  }

  lemma PairIff(clicks: seq<ClickRow>, p: Pair)
    ensures p in PairsOf(clicks) <==> exists r :: r in clicks && SeenAs(r, p)
  {
    hide NormalizeIdentifier;
    forall r ensures PairOfRow(r) == Some(p) <==> SeenAs(r, p) {}
  }

  lemma LatestPairIff(clicks: seq<ClickRow>, p: Pair)
    ensures LatestPair(PairsOf(clicks), p) <==> LastTogether(clicks, p.client, p.customer, p.eventTime)
  {
    hide NormalizeIdentifier, PairsOf;
    var pairs := PairsOf(clicks);
    forall q ensures q in pairs <==> exists r :: r in clicks && SeenAs(r, q) { PairIff(clicks, q); }
    forall r, c | r in clicks && Seen(r, c, p.customer) ensures SeenAs(r, Pair(c, p.customer, r.eventTime)) {}
  }

  lemma LatestOfCustomerIff(clicks: seq<ClickRow>, k: string, t: int)
    ensures (exists c :: LatestOfCustomer(PairsOf(clicks), Pair(c, k, t))) <==> LastClick(clicks, k, t)
  {
    hide NormalizeIdentifier, PairsOf;
    var pairs := PairsOf(clicks);
    forall q ensures q in pairs <==> exists r :: r in clicks && SeenAs(r, q) { PairIff(clicks, q); }
    forall r, c | r in clicks && Seen(r, c, k) ensures SeenAs(r, Pair(c, k, r.eventTime)) {}
    if c :| LatestOfCustomer(pairs, Pair(c, k, t)) {
      assert LastTogether(clicks, c, k, t);
    }
    if LastClick(clicks, k, t) {
      var c :| LastTogether(clicks, c, k, t);
      assert LatestOfCustomer(pairs, Pair(c, k, t));
    }
  }

  lemma SessionEdgeIff(clicks: seq<ClickRow>, threshold: int, e: Edge)
    ensures IsSessionEdge(PairsOf(clicks), PublicDevices(PairsOf(clicks), threshold), e) <==> ObservedSession(clicks, threshold, e)
  {
    hide PairsOf, PublicDevices, Shared, LatestPair, LastTogether;
    var pairs, public := PairsOf(clicks), PublicDevices(PairsOf(clicks), threshold);
    if IsSessionEdge(pairs, public, e) {
      var p :| LatestPair(pairs, p) && p.client !in public && e == SessionEdge(p);
      PublicIffShared(clicks, threshold, p.client);
      LatestPairIff(clicks, p);
    }
    if ObservedSession(clicks, threshold, e) {
      var c, k :| LastTogether(clicks, c, k, e.lastObservedAt)
                  && !Shared(clicks, threshold, c) && e.src == "client:" + c && e.dst == "customer:" + k;
      PublicIffShared(clicks, threshold, c);
      LatestPairIff(clicks, Pair(c, k, e.lastObservedAt));
      assert e == SessionEdge(Pair(c, k, e.lastObservedAt));
    }
  }

  lemma LoyaltyEdgeIff(clicks: seq<ClickRow>, pos: seq<Option<string>>, e: Edge)
    ensures IsLoyaltyEdge(PairsOf(clicks), LoyaltyIds(pos), e) <==> ObservedMatch(clicks, pos, e)
  {
    hide NormalizeIdentifier, PairsOf, LatestOfCustomer, LastClick;
    var pairs := PairsOf(clicks);
    if IsLoyaltyEdge(pairs, LoyaltyIds(pos), e) {
      var p :| LatestOfCustomer(pairs, p) && p.customer in LoyaltyIds(pos) && e == LoyaltyEdge(p);
      assert LatestOfCustomer(pairs, Pair(p.client, p.customer, e.lastObservedAt));
      LatestOfCustomerIff(clicks, p.customer, e.lastObservedAt);
      assert GivenInPos(pos, p.customer);
    }
    if ObservedMatch(clicks, pos, e) {
      var k :| LastClick(clicks, k, e.lastObservedAt) && GivenInPos(pos, k) && e.src == "loyalty:" + k && e.dst == "customer:" + k;
      LatestOfCustomerIff(clicks, k, e.lastObservedAt);
      var c :| LatestOfCustomer(pairs, Pair(c, k, e.lastObservedAt));
      assert e == LoyaltyEdge(Pair(c, k, e.lastObservedAt));
    }
  }

  /** An edge is in the list exactly if the input rows show it; its time is that of the last click it rests on. */
  lemma EdgeIffObserved(clicks: seq<ClickRow>, pos: seq<Option<string>>, threshold: int, edges: seq<Edge>, e: Edge)
    requires EdgesFor(PairsOf(clicks), LoyaltyIds(pos), PublicDevices(PairsOf(clicks), threshold), edges)
    ensures e in edges <==> ObservedSession(clicks, threshold, e) || ObservedMatch(clicks, pos, e)
  {
    hide IsSessionEdge, IsLoyaltyEdge, ObservedSession, ObservedMatch, PairsOf, PublicDevices, LoyaltyIds;
    SessionEdgeIff(clicks, threshold, e);
    LoyaltyEdgeIff(clicks, pos, e);
  }

  /** Edges come by type, session links first, then by source and by target name. */
  lemma EdgesInOrder(clicks: seq<ClickRow>, pos: seq<Option<string>>, threshold: int, edges: seq<Edge>, i: nat, j: nat)
    requires EdgesFor(PairsOf(clicks), LoyaltyIds(pos), PublicDevices(PairsOf(clicks), threshold), edges)
    requires i < j < |edges|
    ensures edges[i].edgeType == LoyaltyValueMatch ==> edges[j].edgeType == LoyaltyValueMatch
    ensures edges[i].edgeType == edges[j].edgeType ==>
              Lt(edges[i].src, edges[j].src) || (edges[i].src == edges[j].src && Lt(edges[i].dst, edges[j].dst))
  {
    hide Lt;
    assert EdgeLt(edges[i], edges[j]);
  }

  /** Rows come by the names of their nodes. */
  lemma RowsInOrder(clicks: seq<ClickRow>, pos: seq<Option<string>>, threshold: int, digest: string -> nat,
                    rows: seq<ResolutionRow>, i: nat, j: nat)
    requires Resolved(clicks, pos, threshold, digest, rows) && i < j < |rows|
    ensures Lt(RowNode(rows[i]), RowNode(rows[j]))
  {
    hide Lt, GraphLinks, InputNodes, Component, CustomerKey, IsRep, Verdict;
  }

  // ---------------------------------------------------------------- representatives

  lemma RepsDecide(links: Links, nodes: set<string>, a: string, b: string, ra: string, rb: string)
    requires a in nodes && b in nodes && IsNode(ra) && IsNode(rb)
    requires IsRep(ra, Component(links, nodes, a)) && IsRep(rb, Component(links, nodes, b))
    ensures ra == rb <==> Connected(links, a, b)
  {
    hide Connected, SortKey, IsNode, Lt;
    if ra == rb {
      Symmetric(links, b, ra);
      Connectivity.Transitive(links, a, ra, b);
    }
    if Connected(links, a, b) {
      SameComponent(links, nodes, a, b);
      RepIsUnique(ra, rb, Component(links, nodes, a));
    }
  }

  /** Two identifiers share a representative exactly when a chain of shared sessions on devices that
      are not public and of equal loyalty values joins them. */
  lemma SameRepIffChained(clicks: seq<ClickRow>, pos: seq<Option<string>>, threshold: int, digest: string -> nat,
                          rows: seq<ResolutionRow>, i: nat, j: nat)
    requires Resolved(clicks, pos, threshold, digest, rows) && i < |rows| && j < |rows|
    ensures rows[i].repNode == rows[j].repNode
            <==> Connected(GraphLinks(clicks, pos, threshold), RowNode(rows[i]), RowNode(rows[j]))
  {
    hide GraphLinks, InputNodes, Component, Connected, IsRep, Verdict, CustomerKey;
    var links, nodes := GraphLinks(clicks, pos, threshold), InputNodes(clicks, pos);
    assert Sorted(nodes)[i] in Sorted(nodes) && Sorted(nodes)[j] in Sorted(nodes);
    RepsDecide(links, nodes, RowNode(rows[i]), RowNode(rows[j]), rows[i].repNode, rows[j].repNode);
  }

  lemma IsolatedIsAlone(links: Links, nodes: set<string>, n: string)
    requires Isolated(links, n) && n in nodes
    ensures Component(links, nodes, n) == {n}
  {
    Reflexive(links, n);
    forall m | Connected(links, n, m) ensures m == n {
      StaysInside(links, n, m, {n});
    }
  }

  /** A public device is joined to nothing. */
  lemma PublicIsIsolated(pairs: seq<Pair>, loyalty: set<string>, threshold: int, device: string)
    requires device in PublicDevices(pairs, threshold)
    ensures Isolated(InputLinks(pairs, loyalty, threshold), NodeOf(ClientId, device))
  {
    var n, links := NodeOf(ClientId, device), InputLinks(pairs, loyalty, threshold);
    forall m ensures !Adjacent(links, n, m) {
      if (n, m) in links || (m, n) in links {
        var (a, b) := if (n, m) in links then (n, m) else (m, n);
        LinkHasAnEnd(pairs, loyalty, threshold, a, b, device);
      }
    }
  }

  lemma LinkHasAnEnd(pairs: seq<Pair>, loyalty: set<string>, threshold: int, a: string, b: string, device: string)
    requires (a, b) in InputLinks(pairs, loyalty, threshold) && device in PublicDevices(pairs, threshold)
    ensures a != NodeOf(ClientId, device) && b != NodeOf(ClientId, device)
  {
    hide NodeOf;
    var public := PublicDevices(pairs, threshold);
    if (a, b) in SessionLinks(pairs, public) {
      var p :| p in pairs && p.client !in public && (a, b) == (NodeOf(ClientId, p.client), NodeOf(CustomerId, p.customer));
      if a == NodeOf(ClientId, device) { NodeIsInjective(ClientId, p.client, ClientId, device); }
      if b == NodeOf(ClientId, device) { NodeIsInjective(CustomerId, p.customer, ClientId, device); }
    } else {
      var p :| p in pairs && (a, b) == (NodeOf(LoyaltyId, p.customer), NodeOf(CustomerId, p.customer));
      if a == NodeOf(ClientId, device) { NodeIsInjective(LoyaltyId, p.customer, ClientId, device); }
      if b == NodeOf(ClientId, device) { NodeIsInjective(CustomerId, p.customer, ClientId, device); }
    }
  }

  /** Every row's key is the key of its representative: the special branch for public devices agrees with the general one. */
  lemma KeyIsKeyOfRep(clicks: seq<ClickRow>, pos: seq<Option<string>>, threshold: int, digest: string -> nat,
                      rows: seq<ResolutionRow>, i: nat)
    requires Resolved(clicks, pos, threshold, digest, rows) && i < |rows|
    ensures rows[i].customerKey == CustomerKey(digest, rows[i].repNode)
    ensures rows[i].isPublicDevice ==> rows[i].repNode == RowNode(rows[i])
  {
    var links, nodes := GraphLinks(clicks, pos, threshold), InputNodes(clicks, pos);
    assert Sorted(nodes)[i] in Sorted(nodes);
    if rows[i].isPublicDevice {
      PublicIsIsolated(PairsOf(clicks), LoyaltyIds(pos), threshold, rows[i].identifierValue);
      hide *;
      PublicRowIsItsOwnRep(links, nodes, PublicDevices(PairsOf(clicks), threshold), digest, Sorted(nodes)[i], rows[i]);
    }
  }

  lemma PublicRowIsItsOwnRep(links: Links, nodes: set<string>, public: set<string>, digest: string -> nat, n: string, row: ResolutionRow)
    requires RowFor(links, nodes, public, digest, n, row) && n in nodes && Isolated(links, n)
    ensures row.repNode == n
  {
    IsolatedIsAlone(links, nodes, n);
  }

  // ---------------------------------------------------------------- methods are graph facts

  /** Whether an identifier is joined to some loyalty id. */
  ghost predicate JoinedToLoyalty(links: Links, nodes: set<string>, n: string) {
    exists m :: m in nodes && IsNode(m) && TypeOf(m) == LoyaltyId && Connected(links, n, m)
  }

  lemma RepTypeIsBest(links: Links, nodes: set<string>, n: string, rep: string, m: string)
    requires IsNode(rep) && IsRep(rep, Component(links, nodes, n))
    requires m in nodes && IsNode(m) && Connected(links, n, m)
    ensures Priority(TypeOf(rep)) <= Priority(TypeOf(m))
  {
    hide Connected, SortKey, Lt, IsNode;
    SortKeyOrders(rep, m);
    assert m in Component(links, nodes, n);
  }

  /** The representative is a loyalty id exactly when the component holds one. */
  lemma RepIsLoyaltyIff(links: Links, nodes: set<string>, n: string, rep: string)
    requires IsNode(rep) && IsRep(rep, Component(links, nodes, n))
    ensures TypeOf(rep) == LoyaltyId <==> JoinedToLoyalty(links, nodes, n)
  {
    hide Connected, SortKey, IsNode;
    if JoinedToLoyalty(links, nodes, n) {
      var m :| m in nodes && IsNode(m) && TypeOf(m) == LoyaltyId && Connected(links, n, m);
      RepTypeIsBest(links, nodes, n, rep, m);
    }
    if TypeOf(rep) == LoyaltyId {
      assert rep in nodes && Connected(links, n, rep);
    }
  }

  /** A device's representative is a device exactly when no link touches it: its neighbours are all customers. */
  lemma DeviceRepIff(links: Links, nodes: set<string>, device: string, rep: string)
    requires var n := NodeOf(ClientId, device); n in nodes && IsNode(rep) && IsRep(rep, Component(links, nodes, n))
    requires forall m :: Adjacent(links, NodeOf(ClientId, device), m) ==> m in nodes && exists v :: m == NodeOf(CustomerId, v)
    ensures TypeOf(rep) == ClientId <==> Isolated(links, NodeOf(ClientId, device))
  {
    hide Connected, SortKey, NodeOf, Component, IsRep;
    var n := NodeOf(ClientId, device);
    if Isolated(links, n) {
      IsolatedIsAlone(links, nodes, n);
      SoleMemberIsRep(rep, n);
      SplitInvertsNode(ClientId, device);
    } else {
      var m :| Adjacent(links, n, m);
      var v :| m == NodeOf(CustomerId, v);
      OneLink(links, n, m);
      SplitInvertsNode(CustomerId, v);
      RepTypeIsBest(links, nodes, n, rep, m);
    }
  }

  lemma SoleMemberIsRep(rep: string, n: string)
    requires IsRep(rep, {n})
    ensures rep == n
  {
  }

  lemma DeviceNeighboursAreCustomers(clicks: seq<ClickRow>, pos: seq<Option<string>>, threshold: int, device: string, m: string)
    requires Adjacent(GraphLinks(clicks, pos, threshold), NodeOf(ClientId, device), m)
    ensures m in InputNodes(clicks, pos) && exists v :: m == NodeOf(CustomerId, v)
  {
    hide NodeOf, PairsOf, LoyaltyIds, InputNodes;
    var n, links := NodeOf(ClientId, device), GraphLinks(clicks, pos, threshold);
    var pairs, loyalty := PairsOf(clicks), LoyaltyIds(pos);
    var (a, b) := if (n, m) in links then (n, m) else (m, n);
    LinkEndsAreNodes(clicks, pos, threshold, a, b);
    if (a, b) in SessionLinks(pairs, PublicDevices(pairs, threshold)) {
      var p :| p in pairs && (a, b) == (NodeOf(ClientId, p.client), NodeOf(CustomerId, p.customer));
      if b == n { NodeIsInjective(CustomerId, p.customer, ClientId, device); }
    } else {
      var p :| p in pairs && (a, b) == (NodeOf(LoyaltyId, p.customer), NodeOf(CustomerId, p.customer));
      if b == n { NodeIsInjective(CustomerId, p.customer, ClientId, device); }
      if a == n { NodeIsInjective(LoyaltyId, p.customer, ClientId, device); }
    }
  }

  /** Each method says something about the graph, and each graph fact picks its method. */
  lemma MethodsAreGraphFacts(clicks: seq<ClickRow>, pos: seq<Option<string>>, threshold: int, digest: string -> nat,
                             rows: seq<ResolutionRow>, i: nat)
    requires Resolved(clicks, pos, threshold, digest, rows) && i < |rows|
    ensures var row, links, nodes := rows[i], GraphLinks(clicks, pos, threshold), InputNodes(clicks, pos);
            && (row.resolutionMethod == PublicDeviceExcluded <==> row.isPublicDevice)
            && (row.resolutionMethod == DeviceOnly <==>
                 row.identifierType == ClientId && !row.isPublicDevice && Isolated(links, RowNode(row)))
            && (row.resolutionMethod == SessionLinked <==> row.identifierType == ClientId && !Isolated(links, RowNode(row)))
            && (row.resolutionMethod == LoyaltyMatch <==> row.identifierType == CustomerId && JoinedToLoyalty(links, nodes, RowNode(row)))
            && (row.resolutionMethod == CustomerStandalone <==>
                 row.identifierType == CustomerId && !JoinedToLoyalty(links, nodes, RowNode(row)))
            && (row.resolutionMethod == ComponentAnchor <==> row.identifierType == LoyaltyId && row.repNode == RowNode(row))
            && (row.resolutionMethod == LoyaltyMember <==> row.identifierType == LoyaltyId && row.repNode != RowNode(row))
            && row.confidence == match row.resolutionMethod {
                 case ComponentAnchor => 1.0 case LoyaltyMember => 1.0 case LoyaltyMatch => 1.0
                 case CustomerStandalone => 0.9 case SessionLinked => 0.85 case DeviceOnly => 0.5 case PublicDeviceExcluded => 0.3 }
  {
    var row, links, nodes := rows[i], GraphLinks(clicks, pos, threshold), InputNodes(clicks, pos);
    assert Sorted(nodes)[i] in Sorted(nodes);
    if row.isPublicDevice { PublicIsIsolated(PairsOf(clicks), LoyaltyIds(pos), threshold, row.identifierValue); }
    RepIsLoyaltyIff(links, nodes, RowNode(row), row.repNode);
    if row.identifierType == ClientId {
      forall m | Adjacent(links, RowNode(row), m)
        ensures m in nodes && exists v :: m == NodeOf(CustomerId, v)
      {
        DeviceNeighboursAreCustomers(clicks, pos, threshold, row.identifierValue, m);
      }
      DeviceRepIff(links, nodes, row.identifierValue, row.repNode);
    }
  }

  /** A component that holds a loyalty id has exactly one anchor row: its representative's. */
  lemma OneAnchorPerComponent(clicks: seq<ClickRow>, pos: seq<Option<string>>, threshold: int, digest: string -> nat,
                              rows: seq<ResolutionRow>, i: nat)
    requires Resolved(clicks, pos, threshold, digest, rows) && i < |rows|
    requires JoinedToLoyalty(GraphLinks(clicks, pos, threshold), InputNodes(clicks, pos), RowNode(rows[i]))
    ensures exists a: nat :: a < |rows| && RowNode(rows[a]) == rows[i].repNode &&
              forall j: nat :: j < |rows| ==>
                (j == a <==> rows[j].resolutionMethod == ComponentAnchor && rows[j].repNode == rows[i].repNode)
  {
    var links, nodes, public := GraphLinks(clicks, pos, threshold), InputNodes(clicks, pos), PublicDevices(PairsOf(clicks), threshold);
    RepIsLoyaltyIff(links, nodes, RowNode(rows[i]), rows[i].repNode);
    hide *;
    AnchorOfComponent(links, nodes, public, digest, rows, i);
  }

  lemma AnchorOfComponent(links: Links, nodes: set<string>, public: set<string>, digest: string -> nat,
                          rows: seq<ResolutionRow>, i: nat)
    requires RowsFor(links, nodes, public, digest, rows) && i < |rows| && IsNode(rows[i].repNode)
    requires TypeOf(rows[i].repNode) == LoyaltyId
    ensures exists a: nat :: a < |rows| && RowNode(rows[a]) == rows[i].repNode &&
              forall j: nat :: j < |rows| ==>
                (j == a <==> rows[j].resolutionMethod == ComponentAnchor && rows[j].repNode == rows[i].repNode)
  {
    hide RowsFor, RowFor, Sorted, StrictlySorted, IsNode, NodeOf;
    RepsNodeHasARow(links, nodes, public, digest, rows, i);
    var a: nat :| a < |rows| && Sorted(nodes)[a] == rows[i].repNode;
    forall j: nat | j < |rows|
      ensures j == a <==> rows[j].resolutionMethod == ComponentAnchor && rows[j].repNode == rows[i].repNode
    {
      AnchorAt(links, nodes, public, digest, rows, i, a, j);
    }
    AnchorAt(links, nodes, public, digest, rows, i, a, a);
  }

  lemma AnchorAt(links: Links, nodes: set<string>, public: set<string>, digest: string -> nat,
                 rows: seq<ResolutionRow>, i: nat, a: nat, j: nat)
    requires RowsFor(links, nodes, public, digest, rows) && i < |rows| && a < |rows| && j < |rows|
    requires IsNode(rows[i].repNode) && TypeOf(rows[i].repNode) == LoyaltyId && Sorted(nodes)[a] == rows[i].repNode
    ensures j == a <==> rows[j].resolutionMethod == ComponentAnchor && rows[j].repNode == rows[i].repNode
    ensures RowNode(rows[a]) == rows[i].repNode
  {
    hide Component, SortKey, CustomerKey, Connected, IsNode, IsRep, Sorted, StrictlySorted, Verdict, NodeOf;
    assert Sorted(nodes)[i] in Sorted(nodes);
    RepOfRep(links, nodes, Sorted(nodes)[i], rows[i].repNode, rows[a].repNode);
    AnchorIffOwnRep(links, nodes, public, digest, Sorted(nodes)[j], rows[j]);
    if Sorted(nodes)[j] == Sorted(nodes)[a] { SortedOnce(nodes, j, a); }
  }

  lemma SortedOnce(nodes: set<string>, i: nat, j: nat)
    requires i < |Sorted(nodes)| && j < |Sorted(nodes)| && Sorted(nodes)[i] == Sorted(nodes)[j]
    ensures i == j
  {
    LtIrreflexive(Sorted(nodes)[i]);
  }

  lemma AnchorIffOwnRep(links: Links, nodes: set<string>, public: set<string>, digest: string -> nat, n: string, row: ResolutionRow)
    requires RowFor(links, nodes, public, digest, n, row)
    ensures row.resolutionMethod == ComponentAnchor <==> row.repNode == n && TypeOf(row.repNode) == LoyaltyId
  {
    hide Component, SortKey, CustomerKey, NodeOf;
    SplitInvertsNode(row.identifierType, row.identifierValue);
  }

  /** A representative represents itself. */
  lemma RepOfRep(links: Links, nodes: set<string>, n: string, rep: string, rep': string)
    requires n in nodes && IsNode(rep) && IsNode(rep')
    requires IsRep(rep, Component(links, nodes, n)) && IsRep(rep', Component(links, nodes, rep))
    ensures rep' == rep
  {
    hide SortKey, IsNode;
    SameComponent(links, nodes, n, rep);
    RepIsUnique(rep, rep', Component(links, nodes, n));
  }

  lemma RepIsJoined(links: Links, nodes: set<string>, n: string, rep: string)
    requires IsRep(rep, Component(links, nodes, n))
    ensures rep in nodes && Connected(links, n, rep)
  {
  }

  lemma RepsNodeHasARow(links: Links, nodes: set<string>, public: set<string>, digest: string -> nat, rows: seq<ResolutionRow>, i: nat)
    requires RowsFor(links, nodes, public, digest, rows) && i < |rows|
    ensures |rows| == |Sorted(nodes)| && exists a: nat :: a < |rows| && Sorted(nodes)[a] == rows[i].repNode
  {
    RepIsJoined(links, nodes, Sorted(nodes)[i], rows[i].repNode);
    assert rows[i].repNode in Sorted(nodes);
  }

  /** Every node has exactly one row, and type and value together identify it. */
  lemma RowsAreUnique(clicks: seq<ClickRow>, pos: seq<Option<string>>, threshold: int, digest: string -> nat, rows: seq<ResolutionRow>)
    requires Resolved(clicks, pos, threshold, digest, rows)
    ensures forall n :: n in InputNodes(clicks, pos) <==> exists i :: 0 <= i < |rows| && RowNode(rows[i]) == n
    ensures forall i, j :: 0 <= i < j < |rows| ==>
              (rows[i].identifierType, rows[i].identifierValue) != (rows[j].identifierType, rows[j].identifierValue)
  {
    hide InputNodes, GraphLinks, Component, CustomerKey, IsRep, Verdict;
    var nodes := InputNodes(clicks, pos);
    assert forall i :: 0 <= i < |rows| ==> RowNode(rows[i]) == Sorted(nodes)[i];
    forall i, j | 0 <= i < j < |rows|
      ensures (rows[i].identifierType, rows[i].identifierValue) != (rows[j].identifierType, rows[j].identifierValue)
    {
      LtIrreflexive(Sorted(nodes)[i]);
      assert Lt(Sorted(nodes)[i], Sorted(nodes)[j]);
    }
    forall n | n in nodes ensures exists i :: 0 <= i < |rows| && RowNode(rows[i]) == n {
      assert n in Sorted(nodes);
      var i :| 0 <= i < |rows| && Sorted(nodes)[i] == n;
      assert RowNode(rows[i]) == n;
    }
  }

  // ---------------------------------------------------------------- threshold and input order

  /** A higher threshold makes fewer devices public. */
  lemma FewerPublicDevices(pairs: seq<Pair>, t: int, t': int)
    requires t <= t'
    ensures PublicDevices(pairs, t') <= PublicDevices(pairs, t)
  {
  }

  /** Raising the threshold only merges: rows that shared a representative still do. */
  lemma ThresholdOnlyMerges(clicks: seq<ClickRow>, pos: seq<Option<string>>, t: int, t': int, digest: string -> nat,
                            rows: seq<ResolutionRow>, rows': seq<ResolutionRow>, i: nat, j: nat)
    requires t <= t' && Resolved(clicks, pos, t, digest, rows) && Resolved(clicks, pos, t', digest, rows')
    requires i < |rows| && j < |rows| && rows[i].repNode == rows[j].repNode
    ensures |rows'| == |rows| && rows'[i].repNode == rows'[j].repNode
    ensures RowNode(rows'[i]) == RowNode(rows[i])
  {
    SameRepIffChained(clicks, pos, t, digest, rows, i, j);
    FewerPublicDevices(PairsOf(clicks), t, t');
    MoreLinks(PairsOf(clicks), LoyaltyIds(pos), t, t');
    Monotone(GraphLinks(clicks, pos, t), GraphLinks(clicks, pos, t'), RowNode(rows[i]), RowNode(rows[j]));
    hide InputNodes, GraphLinks, Component, CustomerKey, IsRep, Verdict, Connected;
    SameRepIffChained(clicks, pos, t', digest, rows', i, j);
  }

  lemma MoreLinks(pairs: seq<Pair>, loyalty: set<string>, t: int, t': int)
    requires PublicDevices(pairs, t') <= PublicDevices(pairs, t)
    ensures InputLinks(pairs, loyalty, t) <= InputLinks(pairs, loyalty, t')
  {
  }

  lemma RowIsDetermined(links: Links, nodes: set<string>, public: set<string>, digest: string -> nat, n: string,
                        row: ResolutionRow, row': ResolutionRow)
    requires RowFor(links, nodes, public, digest, n, row) && RowFor(links, nodes, public, digest, n, row')
    ensures row == row'
  {
    hide Component, SortKey, CustomerKey, Verdict, NodeOf;
    NodeIsInjective(row.identifierType, row.identifierValue, row'.identifierType, row'.identifierValue);
    RepIsUnique(row.repNode, row'.repNode, Component(links, nodes, n));
  }

  /** The resolution depends on the set of input rows only, not on their order or repetition. */
  lemma OrderDoesNotMatter(clicks: seq<ClickRow>, pos: seq<Option<string>>, clicks': seq<ClickRow>, pos': seq<Option<string>>,
                           threshold: int, digest: string -> nat, rows: seq<ResolutionRow>, rows': seq<ResolutionRow>)
    requires (forall r :: r in clicks <==> r in clicks') && (forall l :: l in pos <==> l in pos')
    requires Resolved(clicks, pos, threshold, digest, rows) && Resolved(clicks', pos', threshold, digest, rows')
    ensures rows == rows'
  {
    SamePairs(clicks, clicks', threshold, LoyaltyIds(pos));
    assert LoyaltyIds(pos) == LoyaltyIds(pos');
    SameNodes(clicks, clicks', pos, pos');
    var links, nodes, public := GraphLinks(clicks, pos, threshold), InputNodes(clicks, pos), PublicDevices(PairsOf(clicks), threshold);
    hide InputNodes, GraphLinks, PublicDevices, RowFor, PairsOf, LoyaltyIds;
    forall i | 0 <= i < |rows| ensures rows[i] == rows'[i] {
      RowIsDetermined(links, nodes, public, digest, Sorted(nodes)[i], rows[i], rows'[i]);
    }
  }

  lemma SameNodes(clicks: seq<ClickRow>, clicks': seq<ClickRow>, pos: seq<Option<string>>, pos': seq<Option<string>>)
    requires (forall r :: r in clicks <==> r in clicks') && (forall l :: l in pos <==> l in pos')
    ensures InputNodes(clicks, pos) == InputNodes(clicks', pos')
  {
    hide NormalizeIdentifier, NodeOf;
    assert LoyaltyIds(pos) == LoyaltyIds(pos');
  }

  lemma SamePairs(clicks: seq<ClickRow>, clicks': seq<ClickRow>, threshold: int, loyalty: set<string>)
    requires forall r :: r in clicks <==> r in clicks'
    ensures PublicDevices(PairsOf(clicks), threshold) == PublicDevices(PairsOf(clicks'), threshold)
    ensures InputLinks(PairsOf(clicks), loyalty, threshold) == InputLinks(PairsOf(clicks'), loyalty, threshold)
  {
    hide NormalizeIdentifier, NodeOf, PairsOf;
    var pairs, pairs' := PairsOf(clicks), PairsOf(clicks');
    assert forall p :: p in pairs <==> p in pairs';
    assert forall c :: CustomersOf(pairs, c) == CustomersOf(pairs', c);
  }

  /** A strictly sorted edge list is determined by its members. */
  lemma {:induction false} SortedEdgesAreEqual(a: seq<Edge>, b: seq<Edge>)
    requires EdgesSorted(a) && EdgesSorted(b) && forall e :: e in a <==> e in b
    ensures a == b
  {
    hide PairLt;
    if a != [] { assert a[0] in a; }
    if b != [] { assert b[0] in b; }
    if a != [] && b != [] {
      assert a[0] in b && b[0] in a;
      EdgeOrder(a[0], b[0]);
      assert a[0] == b[0];
      forall e ensures e in a[1..] <==> e in b[1..] {
        TailMembers(a, e);
        TailMembers(b, e);
      }
      SortedEdgesAreEqual(a[1..], b[1..]);
      assert a == [a[0]] + a[1..] && b == [b[0]] + b[1..];
    }
  }

  lemma EdgeOrder(e: Edge, f: Edge)
    ensures !EdgeLt(e, e) && !(EdgeLt(e, f) && EdgeLt(f, e))
  {
    PairLaws((e.src, e.dst), (f.src, f.dst), (e.src, e.dst));
  }

  lemma TailMembers(a: seq<Edge>, e: Edge)
    requires EdgesSorted(a) && a != []
    ensures e in a[1..] <==> e in a && e != a[0]
  {
    hide EdgeLt;
    EdgeOrder(a[0], a[0]);
    assert a == [a[0]] + a[1..];
  }

  /** The edge list, too, depends on the set of input rows only. */
  lemma EdgesIgnoreOrder(clicks: seq<ClickRow>, clicks': seq<ClickRow>, loyalty: set<string>, threshold: int,
                         edges: seq<Edge>, edges': seq<Edge>)
    requires forall r :: r in clicks <==> r in clicks'
    requires EdgesFor(PairsOf(clicks), loyalty, PublicDevices(PairsOf(clicks), threshold), edges)
    requires EdgesFor(PairsOf(clicks'), loyalty, PublicDevices(PairsOf(clicks'), threshold), edges')
    ensures edges == edges'
  {
    hide NormalizeIdentifier, NodeOf, PairsOf, EdgesSorted;
    SamePairs(clicks, clicks', threshold, loyalty);
    var pairs, pairs' := PairsOf(clicks), PairsOf(clicks');
    assert forall p :: p in pairs <==> p in pairs';
    assert forall p :: LatestPair(pairs, p) <==> LatestPair(pairs', p);
    assert forall p :: LatestOfCustomer(pairs, p) <==> LatestOfCustomer(pairs', p);
    SortedEdgesAreEqual(edges, edges');
  }
}
