/** The same rules as DataFrame expressions: joins, group-bys and CASE chains over a components table. */
module SparkIdentity {
  import opened StringOrder
  import opened Connectivity
  import opened IdentityRules
  import opened IdentityGraph
  import opened IdentityResolution

  /** The smallest sort key among the vertices of `n`'s component. */
  function RepSortKey(vertices: set<string>, component: map<string, int>, n: string): string
    requires n in vertices && vertices <= component.Keys
  {
    var keys := set m | m in vertices && component[m] == component[n] :: SortKey(m);
    assert SortKey(n) in keys;
    Least(keys)
  }

  function TypeOfKey(key: string): IdType {
    if "1:" <= key then LoyaltyId else if "2:" <= key then CustomerId else ClientId
  }

  function TypeByPrefix(node: string): IdType {
    if PREFIX_LOYALTY <= node then LoyaltyId else if PREFIX_CUSTOMER <= node then CustomerId else ClientId
  }

  function ValueAfterColon(node: string): string {
    var k := IndexOf(node, ':');
    if k < |node| then node[k + 1..] else node
  }

  function Confidence(t: IdType, repType: IdType, isPublic: bool): real {
    if isPublic then 0.3
    else if t == LoyaltyId then 1.0
    else if t == CustomerId && repType == LoyaltyId then 1.0
    else if t == CustomerId then 0.9
    else if t == ClientId && repType in {LoyaltyId, CustomerId} then 0.85
    else 0.5
  }

  function HowResolved(t: IdType, isRep: bool, repType: IdType, isPublic: bool): Method {
    if isPublic then PublicDeviceExcluded
    else if t == LoyaltyId && isRep then ComponentAnchor
    else if t == LoyaltyId then LoyaltyMember
    else if t == CustomerId && repType == LoyaltyId then LoyaltyMatch
    else if t == CustomerId then CustomerStandalone
    else if t == ClientId && repType in {LoyaltyId, CustomerId} then SessionLinked
    else DeviceOnly
  }

  function SparkRow(vertices: set<string>, component: map<string, int>, publicNodes: set<string>, digest: string -> nat,
                    n: string): ResolutionRow
    requires n in vertices && vertices <= component.Keys
  {
    var key := RepSortKey(vertices, component, n);
    var rep := if |key| >= 2 then key[2..] else "";
    var t, value := TypeByPrefix(n), ValueAfterColon(n);
    var isPublic := n in publicNodes;
    ResolutionRow(t, value, CustomerKey(digest, if isPublic then PREFIX_CLIENT + value else rep),
                  Confidence(t, TypeOfKey(key), isPublic), HowResolved(t, n == rep, TypeOfKey(key), isPublic),
                  isPublic, rep, TypeOfKey(key))
  }

  lemma TablesAgree(t: IdType, isRep: bool, repType: IdType, isPublic: bool)
    ensures Verdict(t, isRep, repType, isPublic) == (HowResolved(t, isRep, repType, isPublic), Confidence(t, repType, isPublic))
  {
  }

  /** Dropping two characters of the smallest sort key gives the representative, and its first one the type. */
  lemma DecodedKeyIsRep(links: Links, vertices: set<string>, component: map<string, int>, n: string)
    requires n in vertices && vertices <= component.Keys && forall m :: m in vertices ==> IsNode(m)
    requires forall m :: m in vertices ==> (component[n] == component[m] <==> Connected(links, n, m))
    ensures var key := RepSortKey(vertices, component, n);
            && |key| >= 2 && IsNode(key[2..]) && IsRep(key[2..], Component(links, vertices, n))
            && TypeOfKey(key) == TypeOf(key[2..])
  {
    hide Connected, IsNode, SortKey, Lt;
    var keys := set m | m in vertices && component[m] == component[n] :: SortKey(m);
    var key := RepSortKey(vertices, component, n);
    assert key in keys;
    var r :| r in vertices && component[r] == component[n] && SortKey(r) == key;
    SortKeyShape(r);
    assert r in Component(links, vertices, n);
    forall m | m in Component(links, vertices, n) ensures Le(SortKey(r), SortKey(m)) {
      assert SortKey(m) in keys;
    }
    KeyPrefixIsType(r);
  }

  lemma KeyPrefixIsType(r: string)
    requires IsNode(r)
    ensures TypeOfKey(SortKey(r)) == TypeOf(r)
  {
    SortKeyShape(r);
    assert SortKey(r)[0] == '0' + Priority(TypeOf(r)) as char;
  }

  lemma NodePartsAgree(t: IdType, v: string)
    ensures TypeByPrefix(NodeOf(t, v)) == t && ValueAfterColon(NodeOf(t, v)) == v
  {
    var n := NodeOf(t, v);
    SplitInvertsNode(t, v);
    StartsWithItsPrefix(n, LoyaltyId);
    StartsWithItsPrefix(n, CustomerId);
    ColonEndsPrefix(t);
    assert n[|PrefixOf(t)| - 1] == ':';
  }

  /** For any components table that is reachability, the DataFrame form gives the same row for every node. */
  lemma SparkAgrees(links: Links, vertices: set<string>, public: set<string>, digest: string -> nat,
                    component: map<string, int>, rows: seq<ResolutionRow>, i: nat)
    requires RowsFor(links, vertices, public, digest, rows) && i < |rows|
    requires vertices <= component.Keys && forall m :: m in vertices ==> IsNode(m)
    requires forall a, b :: a in vertices && b in vertices ==> (component[a] == component[b] <==> Connected(links, a, b))
    ensures Sorted(vertices)[i] in vertices
    ensures SparkRow(vertices, component, set d | d in public :: NodeOf(ClientId, d), digest, Sorted(vertices)[i]) == rows[i]
  {
    hide Connected, Component, SortKey, IsNode, CustomerKey, Lt, Sorted, RepSortKey, TypeByPrefix, ValueAfterColon, TypeOfKey,
         Verdict, Confidence, HowResolved;
    var n, row := Sorted(vertices)[i], rows[i];
    assert n in Sorted(vertices);
    DecodedKeyIsRep(links, vertices, component, n);
    RepIsUnique(row.repNode, RepSortKey(vertices, component, n)[2..], Component(links, vertices, n));
    NodePartsAgree(row.identifierType, row.identifierValue);
    PublicNodesAgree(public, row.identifierType, row.identifierValue);
    TablesAgree(row.identifierType, n == row.repNode, row.repType, row.isPublicDevice);
  }

  lemma PublicNodesAgree(public: set<string>, t: IdType, v: string)
    ensures NodeOf(t, v) in (set d | d in public :: NodeOf(ClientId, d)) <==> t == ClientId && v in public
  {
    hide NodeOf;
    if NodeOf(t, v) in (set d | d in public :: NodeOf(ClientId, d)) {
      var d :| d in public && NodeOf(t, v) == NodeOf(ClientId, d);
      NodeIsInjective(t, v, ClientId, d);
    }
  }

  /** `build_edges` as group-bys, an anti-join with the public nodes, and a join of loyalty ids with customers. */
  ghost function SparkEdges(pairs: seq<Pair>, loyalty: set<string>, publicNodes: set<string>): set<Edge> {
    (set p | p in pairs && LatestPair(pairs, p) && NodeOf(ClientId, p.client) !in publicNodes :: SessionEdge(p))
    + (set l, p | l in loyalty && p in pairs && LatestOfCustomer(pairs, p) && l == p.customer ::
         Edge(NodeOf(LoyaltyId, l), NodeOf(CustomerId, p.customer), LoyaltyValueMatch, p.eventTime))
  }

  /** The DataFrame form and the loops give the same edges. */
  lemma SparkEdgesAgree(pairs: seq<Pair>, loyalty: set<string>, public: set<string>, edges: seq<Edge>)
    requires EdgesFor(pairs, loyalty, public, edges)
    ensures (set e | e in edges) == SparkEdges(pairs, loyalty, set d | d in public :: NodeOf(ClientId, d))
  {
    hide NodeOf, LatestPair, LatestOfCustomer, EdgesSorted;
    var publicNodes := set d | d in public :: NodeOf(ClientId, d);
    var found := SparkEdges(pairs, loyalty, publicNodes);
    forall p | LatestPair(pairs, p) ensures p in pairs { LatestIsThere(pairs, p); }
    forall p | LatestOfCustomer(pairs, p) ensures p in pairs { LatestOfCustomerIsThere(pairs, p); }
    forall p: Pair ensures NodeOf(ClientId, p.client) in publicNodes <==> p.client in public {
      PublicNodesAgree(public, ClientId, p.client);
    }
    forall e ensures IsSessionEdge(pairs, public, e) || IsLoyaltyEdge(pairs, loyalty, e) <==> e in found {
    }
  }

  lemma LatestIsThere(pairs: seq<Pair>, p: Pair)
    requires LatestPair(pairs, p)
    ensures p in pairs
  {
  }

  lemma LatestOfCustomerIsThere(pairs: seq<Pair>, p: Pair)
    requires LatestOfCustomer(pairs, p)
    ensures p in pairs
  {
  }
}
