/** The three frames `canonicalize` returns, as values, and when they do not depend on the order of the input. */
module CanonicalFrames {
  import Sums
  import opened CanonicalEvents

  /** A row of the duplicate audit: the copy, its label, and where its winner is stored. */
  datatype Audit = Audit(row: Raw, kind: DuplicateKind, winner: Transport)

  /** The audit names winner `w` for copy `i`. */
  ghost predicate Audited<D>(l: Ledger<D>, i: int, w: int, kind: DuplicateKind) {
    l.Labelled(i, w, kind) || (kind == TransportReplay && (i, w) in l.JoinedTransportCopies())
  }

  // ---------------------------------------------------------------- how often each row occurs in each frame

  ghost function CanonicalCount<D>(l: Ledger<D>, r: Raw): nat {
    |set i | i in l.Canonicals() && l.raw[i] == r|
  }

  ghost function InvalidCount<D>(l: Ledger<D>, r: Raw): nat {
    |set i | i in l.Invalids() && l.raw[i] == r|
  }

  ghost function AuditRows<D>(l: Ledger<D>, a: Audit): set<(int, int)> {
    set i, w | 0 <= i < |l.raw| && w in l.Canonicals() && Audited(l, i, w, a.kind)
               && l.raw[i] == a.row && l.raw[w].transport == a.winner :: (i, w)
  }

  ghost function AuditCount<D>(l: Ledger<D>, a: Audit): nat {
    |AuditRows(l, a)|
  }

  /** The same rows, equally often, in the canonical, quarantine and duplicate frames. */
  ghost predicate SameFrames<D>(l: Ledger<D>, m: Ledger<D>) {
    && (forall r :: CanonicalCount(l, r) == CanonicalCount(m, r))
    && (forall r :: InvalidCount(l, r) == InvalidCount(m, r))
    && (forall a :: AuditCount(l, a) == AuditCount(m, a))
  }

  // ---------------------------------------------------------------- the counts, from the surviving rows alone

  ghost function At(raw: seq<Raw>, r: Raw): set<int> {
    set i | 0 <= i < |raw| && raw[i] == r
  }

  lemma {:induction false} Occurrences(raw: seq<Raw>, r: Raw)
    ensures |At(raw, r)| == multiset(raw)[r]
  {
    if raw != [] {
      var n := |raw| - 1;
      Occurrences(raw[..n], r);
      assert raw == raw[..n] + [raw[n]];
      assert At(raw, r) == At(raw[..n], r) + if raw[n] == r then {n} else {};
    }
  }

  lemma AtMostOne<T>(s: set<T>)
    requires forall i, j :: i in s && j in s ==> i == j
    ensures |s| == if s == {} then 0 else 1
  {
    if s != {} {
      var i := Sums.SomeMember(s);
      assert s == {i};
    }
  }

  lemma CanonicalCountIs<D>(l: Ledger<D>, r: Raw)
    ensures CanonicalCount(l, r) == if r in CanonicalRows(l) then 1 else 0
  {
    hide l.IsUnique, l.EventBefore;
    var s := set i | i in l.Canonicals() && l.raw[i] == r;
    forall i, j | i in s && j in s ensures i == j { CanonicalPerEventId(l, i, j); }
    AtMostOne(s);
    if r in CanonicalRows(l) {
      var i :| i in l.Canonicals() && l.raw[i] == r;
      assert i in s;
    }
  }

  lemma InvalidCountIs<D>(l: Ledger<D>, r: Raw)
    ensures InvalidCount(l, r) == if l.parse(r.payload).Invalid? then multiset(l.raw)[r] else 0
  {
    Occurrences(l.raw, r);
    assert (set i | i in l.Invalids() && l.raw[i] == r) == if l.parse(r.payload).Invalid? then At(l.raw, r) else {};
  }

  /** `c` is the canonical row of `r`'s event id. */
  ghost predicate WinsOver<D>(l: Ledger<D>, c: Raw, r: Raw) {
    && c in CanonicalRows(l) && l.parse(c.payload).Valid? && l.parse(r.payload).Valid?
    && l.parse(c.payload).fields.eventId == l.parse(r.payload).fields.eventId
  }

  ghost predicate WinnerAt<D>(l: Ledger<D>, r: Raw, t: Transport) {
    exists c :: WinsOver(l, c, r) && c.transport == t
  }

  /** What the audit holds of `a`, in terms of the rows that survive and how often `a.row` was delivered. */
  ghost function AuditOf<D>(l: Ledger<D>, a: Audit): int {
    if a.kind == TransportReplay then
      if WinnerAt(l, a.row, a.winner) then multiset(l.raw)[a.row] - (if a.row in UniqueRows(l) then 1 else 0) else 0
    else if a.row in UniqueRows(l) && a.row !in CanonicalRows(l) && LabelledAt(l, a) then 1 else 0
  }

  ghost predicate LabelledAt<D>(l: Ledger<D>, a: Audit) {
    exists c :: WinsOver(l, c, a.row) && c.transport == a.winner
                && a.kind == if l.parse(a.row.payload).fields == l.parse(c.payload).fields then BusinessDuplicate else PayloadConflict
  }

  lemma UniqueIndex<D>(l: Ledger<D>, r: Raw)
    ensures |set i | i in l.Uniques() && l.raw[i] == r| == if r in UniqueRows(l) then 1 else 0
  {
    hide l.RankedBefore;
    var s := set i | i in l.Uniques() && l.raw[i] == r;
    forall i, j | i in s && j in s ensures i == j { UniquePerTransport(l, i, j); }
    AtMostOne(s);
    if r in UniqueRows(l) {
      var i :| i in l.Uniques() && l.raw[i] == r;
      assert i in s;
    }
  }

  lemma WinnerIndexAt<D>(l: Ledger<D>, c: Raw) returns (w: int)
    requires c in CanonicalRows(l)
    ensures w in l.Canonicals() && l.raw[w] == c
    ensures forall v :: v in l.Canonicals() && l.raw[v].transport == c.transport ==> v == w
  {
    hide l.RankedBefore, l.EventBefore;
    w :| w in l.Canonicals() && l.raw[w] == c;
    forall v | v in l.Canonicals() && l.raw[v].transport == c.transport ensures v == w {
      UniquePerTransport(l, v, w);
    }
  }

  lemma ReplayCountIs<D>(l: Ledger<D>, a: Audit)
    requires a.kind == TransportReplay
    ensures AuditCount(l, a) == AuditOf(l, a)
  {
    hide l.IsUnique, l.IsCanonical, CanonicalRows, UniqueRows;
    var rows := AuditRows(l, a);
    if rows != {} {
      var p := Sums.SomeMember(rows);
      ReplayHasWinner(l, a, p);
    }
    if WinnerAt(l, a.row, a.winner) {
      var c :| WinsOver(l, c, a.row) && c.transport == a.winner;
      var w := WinnerIndexAt(l, c);
      var copies := set i | i in l.TransportCopies() && l.raw[i] == a.row;
      ReplayPairs(l, a, c, w);
      forall p | p in rows ensures p.1 == w && p.0 in copies { assert (p.0, p.1) in rows; }
      forall i | i in copies ensures exists p :: p in rows && p.0 == i { assert (i, w) in rows; }
      Sums.ImageSize(rows, copies, (p: (int, int)) => p.0);
      CopiesOfRow(l, a.row);
    }
  }

  lemma ReplayPairs<D>(l: Ledger<D>, a: Audit, c: Raw, w: int)
    requires a.kind == TransportReplay && WinsOver(l, c, a.row) && c.transport == a.winner
    requires w in l.Canonicals() && l.raw[w] == c
    requires forall v :: v in l.Canonicals() && l.raw[v].transport == c.transport ==> v == w
    ensures forall i, v :: (i, v) in AuditRows(l, a) <==> v == w && i in l.TransportCopies() && l.raw[i] == a.row
  {
    hide l.IsUnique, l.IsCanonical, CanonicalRows, UniqueRows;
  }

  lemma ReplayHasWinner<D>(l: Ledger<D>, a: Audit, p: (int, int))
    requires a.kind == TransportReplay && p in AuditRows(l, a)
    ensures WinnerAt(l, a.row, a.winner)
  {
    hide l.RankedBefore, l.EventBefore;
    assert WinsOver(l, l.raw[p.1], a.row);
  }

  lemma CopiesOfRow<D>(l: Ledger<D>, r: Raw)
    requires l.parse(r.payload).Valid?
    ensures |set i | i in l.TransportCopies() && l.raw[i] == r|
            == multiset(l.raw)[r] - if r in UniqueRows(l) then 1 else 0
  {
    hide l.IsUnique;
    Occurrences(l.raw, r);
    UniqueIndex(l, r);
    UniquesAreValid(l);
    var copies, kept := set i | i in l.TransportCopies() && l.raw[i] == r, set i | i in l.Uniques() && l.raw[i] == r;
    assert At(l.raw, r) == copies + kept;
    assert copies !! kept;
  }

  lemma BusinessCountIs<D>(l: Ledger<D>, a: Audit)
    requires a.kind != TransportReplay
    ensures AuditCount(l, a) == AuditOf(l, a)
  {
    hide l.IsUnique, l.IsCanonical, CanonicalRows, UniqueRows, LabelledAt, WinsOver;
    var rows := AuditRows(l, a);
    forall p, q | p in rows && q in rows ensures p == q { OneBusinessPair(l, a, p, q); }
    if rows != {} {
      var p := Sums.SomeMember(rows);
      BusinessPairIsLabelled(l, a, p.0, p.1);
      assert rows == {p};
    } else if a.row in UniqueRows(l) && a.row !in CanonicalRows(l) && LabelledAt(l, a) {
      var i, w := LabelledHasPair(l, a);
    }
  }

  lemma OneBusinessPair<D>(l: Ledger<D>, a: Audit, p: (int, int), q: (int, int))
    requires a.kind != TransportReplay && p in AuditRows(l, a) && q in AuditRows(l, a)
    ensures p == q
  {
    hide l.RankedBefore, l.EventBefore;
    UniquePerTransport(l, p.0, q.0);
    UniquePerTransport(l, p.1, q.1);
  }

  lemma BusinessPairIsLabelled<D>(l: Ledger<D>, a: Audit, i: int, w: int)
    requires a.kind != TransportReplay && (i, w) in AuditRows(l, a)
    ensures a.row in UniqueRows(l) && a.row !in CanonicalRows(l) && LabelledAt(l, a)
  {
    hide l.RankedBefore, l.EventBefore;
    assert i in l.Uniques();
    if a.row in CanonicalRows(l) {
      var v :| v in l.Canonicals() && l.raw[v] == a.row;
      UniquePerTransport(l, i, v);
    }
    assert WinsOver(l, l.raw[w], a.row);
  }

  lemma LabelledHasPair<D>(l: Ledger<D>, a: Audit) returns (i: int, w: int)
    requires a.kind != TransportReplay && a.row in UniqueRows(l) && a.row !in CanonicalRows(l) && LabelledAt(l, a)
    ensures (i, w) in AuditRows(l, a)
  {
    hide l.RankedBefore, l.EventBefore;
    i :| i in l.Uniques() && l.raw[i] == a.row;
    assert i !in l.Canonicals();
    var c :| WinsOver(l, c, a.row) && c.transport == a.winner
             && a.kind == if l.parse(a.row.payload).fields == l.parse(c.payload).fields then BusinessDuplicate else PayloadConflict;
    w := WinnerIndexAt(l, c);
    assert l.Labelled(i, w, a.kind);
  }

  lemma AuditCountIs<D>(l: Ledger<D>, a: Audit)
    ensures AuditCount(l, a) == AuditOf(l, a)
  {
    if a.kind == TransportReplay { ReplayCountIs(l, a); } else { BusinessCountIs(l, a); }
  }

  // ---------------------------------------------------------------- the order of the input

  /** A row survives exactly when the frames say so: it is canonical, or audited as something other than a replay. */
  lemma SurvivorsShow<D>(l: Ledger<D>, r: Raw)
    ensures r in UniqueRows(l) <==>
              CanonicalCount(l, r) > 0 || exists kind, t :: kind != TransportReplay && AuditCount(l, Audit(r, kind, t)) > 0
  {
    hide l.IsUnique, l.IsCanonical, AuditCount, CanonicalCount;
    CanonicalCountIs(l, r);
    forall kind, t ensures AuditCount(l, Audit(r, kind, t)) == AuditOf(l, Audit(r, kind, t)) { AuditCountIs(l, Audit(r, kind, t)); }
    if r in CanonicalRows(l) { CanonicalSurvives(l, r); }
    if r in UniqueRows(l) && r !in CanonicalRows(l) {
      var kind, t := LoserIsLabelled(l, r);
      assert AuditOf(l, Audit(r, kind, t)) == 1;
    }
  }

  lemma CanonicalSurvives<D>(l: Ledger<D>, r: Raw)
    requires r in CanonicalRows(l)
    ensures r in UniqueRows(l)
  {
    hide l.RankedBefore, l.EventBefore;
    var i :| i in l.Canonicals() && l.raw[i] == r;
    assert i in l.Uniques();
  }

  lemma LoserIsLabelled<D>(l: Ledger<D>, r: Raw) returns (kind: DuplicateKind, t: Transport)
    requires r in UniqueRows(l)
    ensures kind != TransportReplay && LabelledAt(l, Audit(r, kind, t))
  {
    hide l.RankedBefore, l.EventBefore;
    var i :| i in l.Uniques() && l.raw[i] == r;
    var w := Winner(l, i);
    assert w in l.Canonicals();
    var c := l.raw[w];
    assert WinsOver(l, c, r);
    kind := if l.parse(r.payload).fields == l.parse(c.payload).fields then BusinessDuplicate else PayloadConflict;
    t := c.transport;
  }

  /** The returned frames are the same for every order of the input exactly when tied copies are equal rows. */
  lemma FramesIgnoreOrderIff<D>(l: Ledger<D>)
    ensures (forall raw' :: multiset(raw') == multiset(l.raw) ==> SameFrames(l.(raw := raw'), l)) <==> TiesAreEqual(l)
  {
    hide SameFrames, TiesAreEqual, UniqueRows;
    OrderDoesNotMatterIff(l);
    if TiesAreEqual(l) {
      forall raw' | multiset(raw') == multiset(l.raw) ensures SameFrames(l.(raw := raw'), l) {
        SameSurvivorsSameFrames(l, l.(raw := raw'));
      }
    }
    if forall raw' :: multiset(raw') == multiset(l.raw) ==> SameFrames(l.(raw := raw'), l) {
      forall raw' | multiset(raw') == multiset(l.raw) ensures UniqueRows(l.(raw := raw')) == UniqueRows(l) {
        SameFramesSameSurvivors(l.(raw := raw'), l);
      }
    }
  }

  lemma SameSurvivorsSameFrames<D>(l: Ledger<D>, m: Ledger<D>)
    requires TiesAreEqual(l) && multiset(m.raw) == multiset(l.raw) && m.parse == l.parse && m.hash == l.hash
    ensures SameFrames(m, l)
  {
    hide TiesAreEqual, UniqueRows, CanonicalRows, CanonicalCount, InvalidCount, AuditCount;
    ReorderedKeepsUniqueRows(l, m);
    assert m == l.(raw := m.raw);
    CanonicalRowsIgnoreOrder(l, m.raw);
    forall r ensures CanonicalCount(m, r) == CanonicalCount(l, r) && InvalidCount(m, r) == InvalidCount(l, r) {
      CanonicalCountIs(m, r);
      CanonicalCountIs(l, r);
      InvalidCountIs(m, r);
      InvalidCountIs(l, r);
    }
    forall a ensures AuditCount(m, a) == AuditCount(l, a) {
      AuditCountIs(m, a);
      AuditCountIs(l, a);
      SameAudit(l, m, a);
    }
  }

  lemma SameAudit<D>(l: Ledger<D>, m: Ledger<D>, a: Audit)
    requires multiset(m.raw) == multiset(l.raw) && m.parse == l.parse
    requires UniqueRows(m) == UniqueRows(l) && CanonicalRows(m) == CanonicalRows(l)
    ensures AuditOf(m, a) == AuditOf(l, a)
  {
    hide UniqueRows, CanonicalRows;
    forall c ensures WinsOver(m, c, a.row) <==> WinsOver(l, c, a.row) {}
  }

  lemma SameFramesSameSurvivors<D>(l: Ledger<D>, m: Ledger<D>)
    requires SameFrames(l, m)
    ensures UniqueRows(l) == UniqueRows(m)
  {
    hide UniqueRows, CanonicalCount, AuditCount;
    forall r ensures r in UniqueRows(l) <==> r in UniqueRows(m) {
      SurvivorsShow(l, r);
      SurvivorsShow(m, r);
    }
  }
}
