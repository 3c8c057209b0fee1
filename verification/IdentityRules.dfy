/** Node naming, representative priority and the verdict tables of identity resolution. */
module IdentityRules {
  import opened Basics
  import opened StringOrder

  datatype IdType = LoyaltyId | CustomerId | ClientId

  const PREFIX_LOYALTY := "loyalty:"
  const PREFIX_CUSTOMER := "customer:"
  const PREFIX_CLIENT := "client:"
  const CUSTOMER_KEY_MODULUS: nat := 100_000_000

  datatype Method =
    | ComponentAnchor | LoyaltyMember | LoyaltyMatch | CustomerStandalone
    | SessionLinked | DeviceOnly | PublicDeviceExcluded

  datatype EdgeType = SessionLink | LoyaltyValueMatch

  datatype Edge = Edge(src: string, dst: string, edgeType: EdgeType, lastObservedAt: int)

  datatype ResolutionRow = ResolutionRow(
    identifierType: IdType, identifierValue: string, customerKey: nat, confidence: real,
    resolutionMethod: Method, isPublicDevice: bool, repNode: string, repType: IdType)

  function PrefixOf(t: IdType): string {
    match t
    case LoyaltyId => PREFIX_LOYALTY
    case CustomerId => PREFIX_CUSTOMER
    case ClientId => PREFIX_CLIENT
  }

  function NodeOf(t: IdType, value: string): string {
    PrefixOf(t) + value
  }

  /** `digest` stands for the first eight hex digits of the MD5 of the node, read as a number. */
  function CustomerKey(digest: string -> nat, node: string): (key: nat)
    ensures 1 <= key <= 100_000_000 && (key - 1 - digest(node)) % 100_000_000 == 0
  {
    digest(node) % CUSTOMER_KEY_MODULUS + 1
  }

  // ---------------------------------------------------------------- normalize_identifier

  /** The characters Python's `str.strip()` removes. */
  predicate IsSpace(c: char) {
    || '\t' <= c <= '\r' || '\U{1c}' <= c <= ' ' || c == '\U{85}' || c == '\U{a0}' || c == '\U{1680}'
    || '\U{2000}' <= c <= '\U{200a}' || c == '\U{2028}' || c == '\U{2029}' || c == '\U{202f}'
    || c == '\U{205f}' || c == '\U{3000}'
  }

  /** By code point: every character `str.isspace()` accepts, and no other. */
  lemma SpacesAre(c: char)
    ensures IsSpace(c) <==> c as int in {
              0x9, 0xa, 0xb, 0xc, 0xd, 0x1c, 0x1d, 0x1e, 0x1f, 0x20, 0x85, 0xa0, 0x1680,
              0x2000, 0x2001, 0x2002, 0x2003, 0x2004, 0x2005, 0x2006, 0x2007, 0x2008, 0x2009, 0x200a,
              0x2028, 0x2029, 0x202f, 0x205f, 0x3000}
  {
  }

  function StripLeft(s: string): (r: string)
    ensures r == [] || !IsSpace(r[0])
    ensures |r| <= |s| && s[|s| - |r|..] == r
    ensures forall i :: 0 <= i < |s| - |r| ==> IsSpace(s[i])
  {
    if s != [] && IsSpace(s[0]) then StripLeft(s[1..]) else s
  }

  function StripRight(s: string): (r: string)
    ensures r == [] || !IsSpace(r[|r| - 1])
    ensures |r| <= |s| && s[..|r|] == r
    ensures forall i :: |r| <= i < |s| ==> IsSpace(s[i])
  {
    if s != [] && IsSpace(s[|s| - 1]) then StripRight(s[..|s| - 1]) else s
  }

  /** A trimmed, non-empty identifier, or nothing. */
  function NormalizeIdentifier(value: Option<string>): (r: Option<string>)
    ensures r.Some? ==> r.value != [] && !IsSpace(r.value[0]) && !IsSpace(r.value[|r.value| - 1])
    ensures r.None? <==> value.None? || forall i :: 0 <= i < |value.value| ==> IsSpace(value.value[i])
    ensures r.Some? ==> exists i, j :: 0 <= i <= j <= |value.value| && value.value[i..j] == r.value
                                       && forall k :: 0 <= k < i || j <= k < |value.value| ==> IsSpace(value.value[k])
  {
    if value.None? then None else
      var right := StripRight(value.value);
      var both := StripLeft(right);
      assert both == value.value[|right| - |both|..|right|];
      if both == [] then None else Some(both)
  }

  // ---------------------------------------------------------------- split_node

  function IndexOf(s: string, c: char): (k: nat)
    ensures k <= |s| && (k < |s| ==> s[k] == c)
    ensures forall i :: 0 <= i < k ==> s[i] != c
  {
    if s == [] || s[0] == c then 0 else 1 + IndexOf(s[1..], c)
  }

  /** `split_node`: cut at the first colon; nothing stands for the KeyError of an unknown prefix. */
  function SplitNode(node: string): Option<(IdType, string)> {
    var k := IndexOf(node, ':');
    var prefix := node[..k] + ":";
    var value := if k < |node| then node[k + 1..] else "";
    if prefix == PREFIX_LOYALTY then Some((LoyaltyId, value))
    else if prefix == PREFIX_CUSTOMER then Some((CustomerId, value))
    else if prefix == PREFIX_CLIENT then Some((ClientId, value))
    else None
  }

  ghost predicate IsNode(n: string) {
    exists t, v :: n == NodeOf(t, v)
  }

  lemma ColonEndsPrefix(t: IdType)
    ensures var p := PrefixOf(t); |p| >= 1 && p[|p| - 1] == ':' && forall i :: 0 <= i < |p| - 1 ==> p[i] != ':'
  {
    match t
    case LoyaltyId => assert PREFIX_LOYALTY == ['l', 'o', 'y', 'a', 'l', 't', 'y', ':'];
    case CustomerId => assert PREFIX_CUSTOMER == ['c', 'u', 's', 't', 'o', 'm', 'e', 'r', ':'];
    case ClientId => assert PREFIX_CLIENT == ['c', 'l', 'i', 'e', 'n', 't', ':'];
  }

  lemma PrefixesDiffer()
    ensures PREFIX_LOYALTY != PREFIX_CUSTOMER && PREFIX_CUSTOMER != PREFIX_CLIENT && PREFIX_LOYALTY != PREFIX_CLIENT
  {
    assert |PREFIX_LOYALTY| == 8 && |PREFIX_CUSTOMER| == 9 && |PREFIX_CLIENT| == 7;
  }

  /** Splitting a node gives back its type and value, also when the value holds colons. */
  lemma SplitInvertsNode(t: IdType, v: string)
    ensures SplitNode(NodeOf(t, v)) == Some((t, v))
  {
    ColonEndsPrefix(t);
    PrefixesDiffer();
    var p, n := PrefixOf(t), NodeOf(t, v);
    var k := IndexOf(n, ':');
    assert n[|p| - 1] == p[|p| - 1];
    assert forall i :: 0 <= i < |p| - 1 ==> n[i] == p[i];
    assert k == |p| - 1;
    assert n[..k] + ":" == p;
    assert n[k + 1..] == v;
  }

  /** Type and value identify a node. */
  lemma NodeIsInjective(t: IdType, v: string, t': IdType, v': string)
    requires NodeOf(t, v) == NodeOf(t', v')
    ensures t == t' && v == v'
  {
    SplitInvertsNode(t, v);
    SplitInvertsNode(t', v');
  }

  lemma SplitOfNode(n: string)
    requires IsNode(n)
    ensures SplitNode(n).Some? && NodeOf(SplitNode(n).value.0, SplitNode(n).value.1) == n
  {
    var t, v :| n == NodeOf(t, v);
    SplitInvertsNode(t, v);
  }

  function TypeOf(n: string): IdType
    requires IsNode(n)
  {
    SplitOfNode(n);
    SplitNode(n).value.0
  }

  // ---------------------------------------------------------------- node_sort_key

  function SortKey(node: string): string {
    if PREFIX_LOYALTY <= node then "1:" + node
    else if PREFIX_CUSTOMER <= node then "2:" + node
    else if PREFIX_CLIENT <= node then "3:" + node
    else "9:" + node
  }

  function Priority(t: IdType): nat {
    match t
    case LoyaltyId => 1
    case CustomerId => 2
    case ClientId => 3
  }

  /** Loyalty before customer before client; by name within a type. */
  ghost predicate Before(a: string, b: string)
    requires IsNode(a) && IsNode(b)
  {
    Priority(TypeOf(a)) < Priority(TypeOf(b)) || (TypeOf(a) == TypeOf(b) && Lt(a, b))
  }

  lemma StartsWithItsPrefix(n: string, t: IdType)
    requires IsNode(n)
    ensures PrefixOf(t) <= n <==> TypeOf(n) == t
  {
    SplitOfNode(n);
    if PrefixOf(t) <= n {
      assert n == NodeOf(t, n[|PrefixOf(t)|..]);
      SplitInvertsNode(t, n[|PrefixOf(t)|..]);
    }
  }

  lemma SortKeyShape(n: string)
    requires IsNode(n)
    ensures SortKey(n) == ['0' + Priority(TypeOf(n)) as char, ':'] + n
    ensures SortKey(n)[2..] == n
  {
    StartsWithItsPrefix(n, LoyaltyId);
    StartsWithItsPrefix(n, CustomerId);
    StartsWithItsPrefix(n, ClientId);
  }

  /** Comparing sort keys is comparing by priority, and dropping two characters recovers the node. */
  lemma SortKeyOrders(a: string, b: string)
    requires IsNode(a) && IsNode(b)
    ensures Lt(SortKey(a), SortKey(b)) <==> Before(a, b)
    ensures SortKey(a)[2..] == a
    ensures SortKey(a) == SortKey(b) ==> a == b
  {
    SortKeyShape(a);
    SortKeyShape(b);
    var ca, cb := '0' + Priority(TypeOf(a)) as char, '0' + Priority(TypeOf(b)) as char;
    if ca == cb {
      PrefixCancels([ca, ':'], a, b);
    } else {
      assert SortKey(a)[0] == ca && SortKey(b)[0] == cb;
    }
  }

  /** `r` is the member of `c` that comes before all others. */
  ghost predicate IsRep(r: string, c: set<string>) {
    r in c && forall m :: m in c ==> Le(SortKey(r), SortKey(m))
  }

  lemma RepIsUnique(r: string, r': string, c: set<string>)
    requires IsRep(r, c) && IsRep(r', c) && IsNode(r) && IsNode(r')
    ensures r == r'
  {
    hide Lt, SortKey, IsNode;
    SortKeyOrders(r, r');
    LtIrreflexive(SortKey(r));
    if Lt(SortKey(r), SortKey(r')) && Lt(SortKey(r'), SortKey(r)) { LtTransitive(SortKey(r), SortKey(r'), SortKey(r)); }
  }

  // ---------------------------------------------------------------- the verdict tables

  /** Method and confidence of an identifier, from its type, its representative and the public list. */
  function Verdict(t: IdType, isRep: bool, repType: IdType, isPublic: bool): (Method, real) {
    if isPublic then (PublicDeviceExcluded, 0.3) else
      match t
      case LoyaltyId => (if isRep then ComponentAnchor else LoyaltyMember, 1.0)
      case CustomerId => if repType == LoyaltyId then (LoyaltyMatch, 1.0) else (CustomerStandalone, 0.9)
      case ClientId => if repType != ClientId then (SessionLinked, 0.85) else (DeviceOnly, 0.5)
  }
}
