/** The reference pipeline: public devices, edges, components, one resolution row per node. */
module IdentityGraph {
  import opened Basics
  import opened StringOrder
  import opened Connectivity
  import opened UnionFinding
  import opened IdentityRules

  datatype Pair = Pair(client: string, customer: string, eventTime: int)
  datatype ClickRow = ClickRow(clientId: Option<string>, customerId: Option<string>, eventTime: int)

  // ---------------------------------------------------------------- what the input means

  function CustomersOf(pairs: seq<Pair>, client: string): set<string> {
    set p | p in pairs && p.client == client :: p.customer
  }

  /** Devices seen with at least `threshold` different customers. */
  function PublicDevices(pairs: seq<Pair>, threshold: int): set<string> {
    set p | p in pairs && |CustomersOf(pairs, p.client)| >= threshold :: p.client
  }

  ghost predicate LatestPair(pairs: seq<Pair>, p: Pair) {
    p in pairs && forall q :: q in pairs && q.client == p.client && q.customer == p.customer ==> q.eventTime <= p.eventTime
  }

  ghost predicate LatestOfCustomer(pairs: seq<Pair>, p: Pair) {
    p in pairs && forall q :: q in pairs && q.customer == p.customer ==> q.eventTime <= p.eventTime
  }

  function SessionEdge(p: Pair): Edge {
    Edge(NodeOf(ClientId, p.client), NodeOf(CustomerId, p.customer), SessionLink, p.eventTime)
  }

  function LoyaltyEdge(p: Pair): Edge {
    Edge(NodeOf(LoyaltyId, p.customer), NodeOf(CustomerId, p.customer), LoyaltyValueMatch, p.eventTime)
  }

  /** `e` records the last co-occurrence of a device that is not public and a customer. */
  ghost predicate IsSessionEdge(pairs: seq<Pair>, public: set<string>, e: Edge) {
    exists p :: LatestPair(pairs, p) && p.client !in public && e == SessionEdge(p)
  }

  /** `e` records a loyalty id that is also a clickstream customer, at that customer's last event. */
  ghost predicate IsLoyaltyEdge(pairs: seq<Pair>, loyalty: set<string>, e: Edge) {
    exists p :: LatestOfCustomer(pairs, p) && p.customer in loyalty && e == LoyaltyEdge(p)
  }

  /** The order of the edge list: session links before loyalty matches, by name within each. */
  predicate EdgeLt(a: Edge, b: Edge) {
    || (a.edgeType == SessionLink && b.edgeType == LoyaltyValueMatch)
    || (a.edgeType == b.edgeType && PairLt((a.src, a.dst), (b.src, b.dst)))
  }

  predicate EdgesSorted(edges: seq<Edge>) {
    forall i, j :: 0 <= i < j < |edges| ==> EdgeLt(edges[i], edges[j])
  }

  /** The edge list an input must give. */
  ghost predicate EdgesFor(pairs: seq<Pair>, loyalty: set<string>, public: set<string>, edges: seq<Edge>) {
    && EdgesSorted(edges)
    && forall e :: e in edges <==> IsSessionEdge(pairs, public, e) || IsLoyaltyEdge(pairs, loyalty, e)
  }

  function LinksOf(edges: seq<Edge>): Links {
    set e | e in edges :: (e.src, e.dst)
  }

  function SessionLinks(pairs: seq<Pair>, public: set<string>): Links {
    set p | p in pairs && p.client !in public :: (NodeOf(ClientId, p.client), NodeOf(CustomerId, p.customer))
  }

  function LoyaltyLinks(pairs: seq<Pair>, loyalty: set<string>): Links {
    set p | p in pairs && p.customer in loyalty :: (NodeOf(LoyaltyId, p.customer), NodeOf(CustomerId, p.customer))
  }

  /** The links the input rows call for: shared sessions on devices that are not public, and equal loyalty values. */
  function InputLinks(pairs: seq<Pair>, loyalty: set<string>, threshold: int): Links {
    SessionLinks(pairs, PublicDevices(pairs, threshold)) + LoyaltyLinks(pairs, loyalty)
  }

  function PairsOf(rows: seq<ClickRow>): (pairs: seq<Pair>)
    ensures forall p :: p in pairs <==> exists r :: r in rows && PairOfRow(r) == Some(p)
  {
    if rows == [] then [] else
      var last := rows[|rows| - 1];
      assert rows == rows[..|rows| - 1] + [last];
      PairsOf(rows[..|rows| - 1]) + PairsOfRow(last)
  }

  function PairsOfRow(r: ClickRow): seq<Pair> {
    match PairOfRow(r) { case None => [] case Some(p) => [p] }
  }

  /** The pairs come in row order, at most one per row. */
  lemma {:induction false} PairsComeInRowOrder(a: seq<ClickRow>, b: seq<ClickRow>)
    ensures PairsOf(a + b) == PairsOf(a) + PairsOf(b)
    ensures |b| == 1 ==> PairsOf(b) == PairsOfRow(b[0])
  {
    hide PairOfRow, PairsOfRow;
    if b == [] {
      assert a + b == a;
    } else {
      var front := b[..|b| - 1];
      PairsComeInRowOrder(a, front);
      assert (a + b)[..|a + b| - 1] == a + front;
      PairsSnoc(a + b);
      PairsSnoc(b);
    }
  }

  lemma PairsSnoc(rows: seq<ClickRow>)
    requires rows != []
    ensures PairsOf(rows) == PairsOf(rows[..|rows| - 1]) + PairsOfRow(rows[|rows| - 1])
  {
    hide PairOfRow;
  }

  function PairOfRow(r: ClickRow): Option<Pair> {
    match (NormalizeIdentifier(r.clientId), NormalizeIdentifier(r.customerId))
    case (Some(c), Some(k)) => Some(Pair(c, k, r.eventTime))
    case _ => None
  }

  function LoyaltyIds(pos: seq<Option<string>>): set<string> {
    set l | l in pos && NormalizeIdentifier(l).Some? :: NormalizeIdentifier(l).value
  }

  function InputNodes(rows: seq<ClickRow>, pos: seq<Option<string>>): set<string> {
    (set l | l in LoyaltyIds(pos) :: NodeOf(LoyaltyId, l)) +
    (set r | r in rows && NormalizeIdentifier(r.customerId).Some? :: NodeOf(CustomerId, NormalizeIdentifier(r.customerId).value)) +
    (set r | r in rows && NormalizeIdentifier(r.clientId).Some? :: NodeOf(ClientId, NormalizeIdentifier(r.clientId).value))
  }

  // ---------------------------------------------------------------- find_public_devices, build_edges

  method FindPublicDevices(pairs: seq<Pair>, threshold: int) returns (public: set<string>)
    ensures public == PublicDevices(pairs, threshold)
  {
    var customersByClient: map<string, set<string>> := map[];
    for i := 0 to |pairs|
      invariant forall c :: c in customersByClient <==> exists p :: p in pairs[..i] && p.client == c
      invariant forall c :: c in customersByClient ==> customersByClient[c] == CustomersOf(pairs[..i], c)
    {
      var p := pairs[i];
      assert pairs[..i + 1] == pairs[..i] + [p];
      var known := if p.client in customersByClient then customersByClient[p.client] else {};
      assert known == CustomersOf(pairs[..i], p.client);
      customersByClient := customersByClient[p.client := known + {p.customer}];
    }
    assert pairs[..|pairs|] == pairs;
    public := set c | c in customersByClient && |customersByClient[c]| >= threshold;
  }

  method BuildEdges(pairs: seq<Pair>, loyaltyIds: set<string>, threshold: int)
    returns (edges: seq<Edge>, public: set<string>)
    ensures public == PublicDevices(pairs, threshold)
    ensures EdgesFor(pairs, loyaltyIds, public, edges)
  {
    public := FindPublicDevices(pairs, threshold);
    var lastByPair, lastByCustomer := LastSeen(pairs);
    var sessions := SessionEdges(pairs, public, lastByPair);
    var matches := LoyaltyEdges(pairs, loyaltyIds, lastByCustomer);
    edges := sessions + matches;
    forall i | 0 <= i < |sessions| ensures sessions[i].edgeType == SessionLink { assert sessions[i] in sessions; }
    forall i | 0 <= i < |matches| ensures matches[i].edgeType == LoyaltyValueMatch { assert matches[i] in matches; }
  }

  ghost predicate PairTimes(pairs: seq<Pair>, last: map<(string, string), int>) {
    && (forall p :: p in pairs ==> (p.client, p.customer) in last)
    && (forall k :: k in last ==> LatestPair(pairs, Pair(k.0, k.1, last[k])))
  }

  ghost predicate CustomerTimes(pairs: seq<Pair>, last: map<string, int>) {
    && (forall p :: p in pairs ==> p.customer in last)
    && (forall k :: k in last ==> exists c :: LatestOfCustomer(pairs, Pair(c, k, last[k])))
  }

  method SessionEdges(pairs: seq<Pair>, public: set<string>, last: map<(string, string), int>) returns (edges: seq<Edge>)
    requires PairTimes(pairs, last)
    ensures forall e :: e in edges <==> IsSessionEdge(pairs, public, e)
    ensures EdgesSorted(edges)
  {
    hide EdgeLt, PairLt;
    edges := [];
    var keys := SortedPairs(last.Keys);
    for i := 0 to |keys|
      invariant EdgesSorted(edges)
      invariant forall e :: e in edges <==>
                  exists j :: 0 <= j < i && keys[j].0 !in public && e == SessionEdge(Pair(keys[j].0, keys[j].1, last[keys[j]]))
    {
      var k := keys[i];
      var e := SessionEdge(Pair(k.0, k.1, last[k]));
      if k.0 !in public {
        forall x | x in edges ensures EdgeLt(x, e) {
          var j :| 0 <= j < i && keys[j].0 !in public && x == SessionEdge(Pair(keys[j].0, keys[j].1, last[keys[j]]));
          SessionEdgesOrder(keys[j], last[keys[j]], k, last[k]);
        }
        edges := edges + [e];
      }
    }
    SessionEdgesFromTimes(pairs, public, last, keys, edges);
  }

  lemma SessionEdgesFromTimes(pairs: seq<Pair>, public: set<string>, last: map<(string, string), int>, keys: seq<(string, string)>,
                              edges: seq<Edge>)
    requires PairTimes(pairs, last) && forall k :: k in keys <==> k in last
    requires forall e :: e in edges <==>
               exists j :: 0 <= j < |keys| && keys[j].0 !in public && e == SessionEdge(Pair(keys[j].0, keys[j].1, last[keys[j]]))
    ensures forall e :: e in edges <==> IsSessionEdge(pairs, public, e)
  {
    hide NodeOf;
    forall e | IsSessionEdge(pairs, public, e) ensures e in edges {
      var p :| LatestPair(pairs, p) && p.client !in public && e == SessionEdge(p);
      var k := (p.client, p.customer);
      assert LatestPair(pairs, Pair(k.0, k.1, last[k]));
      assert last[k] == p.eventTime;
      assert k in keys;
    }
    forall e | e in edges ensures IsSessionEdge(pairs, public, e) {
      var j :| 0 <= j < |keys| && keys[j].0 !in public && e == SessionEdge(Pair(keys[j].0, keys[j].1, last[keys[j]]));
      assert LatestPair(pairs, Pair(keys[j].0, keys[j].1, last[keys[j]]));
    }
  }

  lemma SessionEdgesOrder(k: (string, string), t: int, k': (string, string), t': int)
    requires PairLt(k, k')
    ensures EdgeLt(SessionEdge(Pair(k.0, k.1, t)), SessionEdge(Pair(k'.0, k'.1, t')))
  {
    hide Lt;
    PrefixCancels(PREFIX_CLIENT, k.0, k'.0);
    PrefixCancels(PREFIX_CUSTOMER, k.1, k'.1);
  }

  lemma LoyaltyEdgesOrder(l: string, t: int, l': string, t': int)
    requires Lt(l, l')
    ensures EdgeLt(LoyaltyEdge(Pair("", l, t)), LoyaltyEdge(Pair("", l', t')))
  {
    hide Lt;
    PrefixCancels(PREFIX_LOYALTY, l, l');
  }

  method LoyaltyEdges(pairs: seq<Pair>, loyaltyIds: set<string>, last: map<string, int>) returns (edges: seq<Edge>)
    requires CustomerTimes(pairs, last)
    ensures forall e :: e in edges <==> IsLoyaltyEdge(pairs, loyaltyIds, e)
    ensures EdgesSorted(edges)
  {
    hide EdgeLt, Lt;
    edges := [];
    var sorted := Sorted(loyaltyIds);
    for i := 0 to |sorted|
      invariant EdgesSorted(edges)
      invariant forall e :: e in edges <==>
                  exists j :: 0 <= j < i && sorted[j] in last && e == LoyaltyEdge(Pair("", sorted[j], last[sorted[j]]))
    {
      var l := sorted[i];
      if l in last {
        var e := LoyaltyEdge(Pair("", l, last[l]));
        forall x | x in edges ensures EdgeLt(x, e) {
          var j :| 0 <= j < i && sorted[j] in last && x == LoyaltyEdge(Pair("", sorted[j], last[sorted[j]]));
          LoyaltyEdgesOrder(sorted[j], last[sorted[j]], l, last[l]);
        }
        edges := edges + [e];
      }
    }
    forall e | e in edges ensures IsLoyaltyEdge(pairs, loyaltyIds, e) {
      var j :| 0 <= j < |sorted| && sorted[j] in last && e == LoyaltyEdge(Pair("", sorted[j], last[sorted[j]]));
      assert sorted[j] in sorted;
      LoyaltyEdgeFromTimes(pairs, loyaltyIds, last, sorted[j]);
    }
    forall e | IsLoyaltyEdge(pairs, loyaltyIds, e) ensures e in edges {
      var l := LoyaltyEdgeHasTime(pairs, loyaltyIds, last, e);
      assert l in sorted;
    }
  }

  lemma LoyaltyEdgeFromTimes(pairs: seq<Pair>, loyaltyIds: set<string>, last: map<string, int>, l: string)
    requires CustomerTimes(pairs, last) && l in last && l in loyaltyIds
    ensures IsLoyaltyEdge(pairs, loyaltyIds, LoyaltyEdge(Pair("", l, last[l])))
  {
    var c :| LatestOfCustomer(pairs, Pair(c, l, last[l]));
    assert LoyaltyEdge(Pair("", l, last[l])) == LoyaltyEdge(Pair(c, l, last[l]));
  }

  lemma LoyaltyEdgeHasTime(pairs: seq<Pair>, loyaltyIds: set<string>, last: map<string, int>, e: Edge) returns (l: string)
    requires CustomerTimes(pairs, last) && IsLoyaltyEdge(pairs, loyaltyIds, e)
    ensures l in loyaltyIds && l in last && e == LoyaltyEdge(Pair("", l, last[l]))
  {
    var p :| LatestOfCustomer(pairs, p) && p.customer in loyaltyIds && e == LoyaltyEdge(p);
    l := p.customer;
    var c :| LatestOfCustomer(pairs, Pair(c, l, last[l]));
    assert last[l] == p.eventTime;
  }

  method LastSeen(pairs: seq<Pair>)
    returns (lastByPair: map<(string, string), int>, lastByCustomer: map<string, int>)
    ensures PairTimes(pairs, lastByPair) && CustomerTimes(pairs, lastByCustomer)
  {
    lastByPair, lastByCustomer := map[], map[];
    assert PairTimes(pairs[..0], map[]) && CustomerTimes(pairs[..0], map[]);
    hide PairTimes, CustomerTimes;
    for i := 0 to |pairs|
      invariant PairTimes(pairs[..i], lastByPair) && CustomerTimes(pairs[..i], lastByCustomer)
    {
      var p := pairs[i];
      var key := (p.client, p.customer);
      assert pairs[..i + 1] == pairs[..i] + [p];
      PairTimesStep(pairs[..i], p, lastByPair);
      CustomerTimesStep(pairs[..i], p, lastByCustomer);
      if key !in lastByPair || p.eventTime > lastByPair[key] {
        lastByPair := lastByPair[key := p.eventTime];
      }
      assert PairTimes(pairs[..i + 1], lastByPair);
      if p.customer !in lastByCustomer || p.eventTime > lastByCustomer[p.customer] {
        lastByCustomer := lastByCustomer[p.customer := p.eventTime];
      }
    }
    assert pairs[..|pairs|] == pairs;
  }

  lemma PairTimesStep(pairs: seq<Pair>, p: Pair, last: map<(string, string), int>)
    requires PairTimes(pairs, last)
    ensures var key := (p.client, p.customer);
            PairTimes(pairs + [p], if key !in last || p.eventTime > last[key] then last[key := p.eventTime] else last)
  {
    var key := (p.client, p.customer);
    var last' := if key !in last || p.eventTime > last[key] then last[key := p.eventTime] else last;
    forall k | k in last' ensures LatestPair(pairs + [p], Pair(k.0, k.1, last'[k])) {
      if k in last { assert LatestPair(pairs, Pair(k.0, k.1, last[k])); }
    }
  }

  lemma CustomerTimesStep(pairs: seq<Pair>, p: Pair, last: map<string, int>)
    requires CustomerTimes(pairs, last)
    ensures CustomerTimes(pairs + [p], if p.customer !in last || p.eventTime > last[p.customer]
                                       then last[p.customer := p.eventTime] else last)
  {
    var last' := if p.customer !in last || p.eventTime > last[p.customer] then last[p.customer := p.eventTime] else last;
    forall k | k in last' ensures exists c :: LatestOfCustomer(pairs + [p], Pair(c, k, last'[k])) {
      if k in last && last'[k] == last[k] {
        var c :| LatestOfCustomer(pairs, Pair(c, k, last[k]));
        assert LatestOfCustomer(pairs + [p], Pair(c, k, last'[k]));
      } else {
        LatestIsNew(pairs, p, last);
      }
    }
  }

  lemma LatestIsNew(pairs: seq<Pair>, p: Pair, last: map<string, int>)
    requires CustomerTimes(pairs, last) && (p.customer !in last || p.eventTime > last[p.customer])
    ensures LatestOfCustomer(pairs + [p], Pair(p.client, p.customer, p.eventTime))
  {
    if p.customer in last {
      var c :| LatestOfCustomer(pairs, Pair(c, p.customer, last[p.customer]));
    }
  }
}
