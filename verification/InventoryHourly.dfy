/** The speed layer: one row per event id and tumbling window, summed per hour, product and store. It reads Kafka payloads
    itself, so what it sees of a payload need not be what Spark's parser makes of it. */
module InventoryHourly {
  import opened Sums
  import opened Basics
  import opened CanonicalEvents
  import EventTime

  datatype Movement = Movement(storeId: string, productId: string, qtyDelta: int, eventType: string,
                               scannerId: string, isLate: bool, schemaVersion: string)

  type Deliveries = Ledger<Movement>

  const MICROS: int := 1_000_000

  /** The columns of the source table that the query uses; a missing field is null, the row time never is. */
  datatype Reading = Reading(eventId: Option<string>, second: int, productId: Option<string>, storeId: Option<string>,
                             quantity: Option<int>)

  /** What the JSON format makes of a payload; a payload it cannot read at all gives no row. */
  type Reader = Bytes -> Option<Reading>

  datatype HourKey = HourKey(window: int, productId: Option<string>, storeId: Option<string>)

  /** What one row adds to a sum, by its event id and quantity; `qty_delta_hour` and `qty_received_hour` look at the quantity only. */
  type Aggregate = (Option<string>, Option<int>) -> int

  /** `SUM(qty_delta)`; nulls add nothing. */
  function QtyDelta(): Aggregate {
    (e: Option<string>, n: Option<int>) => if n.Some? then n.value else 0
  }

  /** `SUM(CASE WHEN qty_delta > 0 THEN qty_delta ELSE 0 END)`. */
  function QtyReceived(): Aggregate {
    (e: Option<string>, n: Option<int>) => if n.Some? && n.value > 0 then n.value else 0
  }

  function WindowOf(r: Reading, size: nat): int
    requires size > 0
  {
    r.second / size
  }

  function KeyOf(r: Reading, size: nat): HourKey
    requires size > 0
  {
    HourKey(WindowOf(r, size), r.productId, r.storeId)
  }

  /** The payloads in the order they arrive. */
  datatype Stream = Stream(arrivals: seq<Bytes>, read: Reader) {

    predicate Reads(i: int) {
      0 <= i < |arrivals| && read(arrivals[i]).Some?
    }

    function Row(i: int): Reading
      requires Reads(i)
    {
      read(arrivals[i]).value
    }

    /** One partition of the `ROW_NUMBER`: a window and an event id, null ids together. */
    predicate SameGroup(size: nat, i: int, j: int)
      requires size > 0 && Reads(i) && Reads(j)
    {
      Row(i).eventId == Row(j).eventId && WindowOf(Row(i), size) == WindowOf(Row(j), size)
    }

    /** Earlier row time first; equal row times in arrival order. */
    predicate RankedBefore(i: int, j: int)
      requires Reads(i) && Reads(j)
    {
      Row(i).second < Row(j).second || (Row(i).second == Row(j).second && i < j)
    }

    /** The row has number one. */
    predicate IsFirst(size: nat, i: int)
      requires size > 0
    {
      Reads(i) && forall j | 0 <= j < |arrivals| && Reads(j) && SameGroup(size, i, j) :: j == i || RankedBefore(i, j)
    }

    function HourRows(size: nat, k: HourKey): set<int>
      requires size > 0
    {
      set i | 0 <= i < |arrivals| && IsFirst(size, i) && KeyOf(Row(i), size) == k
    }

    function Term(f: Aggregate): int -> int {
      (i: int) => if Reads(i) then f(Row(i).eventId, Row(i).quantity) else 0
    }
  }

  /** What the speed layer sees of an event if it reads it as Spark does: whole seconds, nothing missing. */
  function AsRead(e: Fields<Movement>): Reading {
    Reading(Some(e.eventId), e.eventTime / MICROS, Some(e.detail.productId), Some(e.detail.storeId), Some(e.detail.qtyDelta))
  }

  function SparkRows(l: Deliveries, size: nat, k: HourKey): set<int>
    requires size > 0
  {
    set i | i in l.Canonicals() && KeyOf(AsRead(l.Event(i)), size) == k
  }

  function SparkTerm(l: Deliveries, f: Aggregate): int -> int {
    (i: int) => if l.IsValid(i) then f(Some(l.Event(i).eventId), Some(l.Event(i).detail.qtyDelta)) else 0
  }

  /** An aggregate over the deduplicated rows of one hour, product and store. */
  ghost function FlinkHour(s: Stream, size: nat, k: HourKey, f: Aggregate): int
    requires size > 0
  {
    Sum(s.HourRows(size, k), s.Term(f))
  }

  /** The same aggregate over Spark's canonical events. */
  ghost function SparkHour(l: Deliveries, size: nat, k: HourKey, f: Aggregate): int
    requires size > 0
  {
    Sum(SparkRows(l, size, k), SparkTerm(l, f))
  }

  // ---------------------------------------------------------------- in seconds, quantities and fields

  /** Second `second` lies in window `w` of `size` seconds. */
  predicate In(second: int, w: int, size: nat) {
    w * size <= second < (w + 1) * size
  }

  lemma OneWindow(second: int, w: int, size: nat)
    requires size > 0
    ensures second / size == w <==> In(second, w, size)
  {
    var q := second / size;
    assert second == size * q + second % size;
    assert In(second, q, size) by { assert q * size == size * q && (q + 1) * size == size * q + size; }
    if w < q { assert (w + 1) * size <= q * size by { Times(w + 1, q, size); } }
    if w > q { assert (q + 1) * size <= w * size by { Times(q + 1, w, size); } }
  }

  lemma Times(a: int, b: int, c: nat)
    requires a <= b
    ensures a * c <= b * c
  {
  }

  /** Row `i` lies in window `w`, and no row of its event id lies there with an earlier second, or came first with the same one. */
  ghost predicate FirstInWindow(s: Stream, size: nat, w: int, i: int) {
    && 0 <= i < |s.arrivals| && s.read(s.arrivals[i]).Some? && In(s.read(s.arrivals[i]).value.second, w, size)
    && var r := s.read(s.arrivals[i]).value;
       forall j | 0 <= j < |s.arrivals| && s.read(s.arrivals[j]).Some? :: InOrder(r, s.read(s.arrivals[j]).value, size, w, i <= j)
  }

  /** `o` does not lie in `r`'s window with `r`'s event id, or comes after it. */
  predicate InOrder(r: Reading, o: Reading, size: nat, w: int, arrived: bool) {
    o.eventId == r.eventId && In(o.second, w, size) ==> r.second < o.second || (r.second == o.second && arrived)
  }

  lemma FirstIff(s: Stream, size: nat, w: int, i: int)
    requires size > 0
    ensures s.IsFirst(size, i) && WindowOf(s.Row(i), size) == w <==> FirstInWindow(s, size, w, i)
  {
    hide In;
    forall j | s.Reads(j) ensures WindowOf(s.Row(j), size) == w <==> In(s.Row(j).second, w, size) {
      OneWindow(s.Row(j).second, w, size);
    }
    if s.IsFirst(size, i) && WindowOf(s.Row(i), size) == w {
      var r := s.read(s.arrivals[i]).value;
      forall j | 0 <= j < |s.arrivals| && s.read(s.arrivals[j]).Some? ensures InOrder(r, s.read(s.arrivals[j]).value, size, w, i <= j) {
        assert s.SameGroup(size, i, j) ==> j == i || s.RankedBefore(i, j);
      }
    }
    if FirstInWindow(s, size, w, i) {
      forall j | s.Reads(j) && s.SameGroup(size, i, j) ensures j == i || s.RankedBefore(i, j) {
        assert InOrder(s.Row(i), s.Row(j), size, w, i <= j);
      }
    }
  }

  /** A row is counted under a window, a product and a store exactly if it comes first in that window and carries both. */
  lemma CountedIff(s: Stream, size: nat, k: HourKey, i: int)
    requires size > 0
    ensures i in s.HourRows(size, k)
            <==> && FirstInWindow(s, size, k.window, i)
                 && s.read(s.arrivals[i]).value.productId == k.productId && s.read(s.arrivals[i]).value.storeId == k.storeId
  {
    hide FirstInWindow;
    FirstIff(s, size, k.window, i);
  }

  /** What an event is compared with: its UTC time cut to the second lies in the window. */
  lemma ComparedIff(l: Deliveries, size: nat, k: HourKey, i: int)
    requires size > 0
    ensures i in SparkRows(l, size, k)
            <==> && l.IsCanonical(i) && k.window * size * 1_000_000 <= l.Event(i).eventTime < (k.window + 1) * size * 1_000_000
                 && k.productId == Some(l.Event(i).detail.productId) && k.storeId == Some(l.Event(i).detail.storeId)
  {
    hide l.IsCanonical, l.IsUnique;
    if l.IsCanonical(i) {
      CanonicalIsValid(l, i);
      OneWindow(l.Event(i).eventTime / 1_000_000, k.window, size);
    }
  }

  /** The window a reading is counted in is the one its instant in UTC lies in. */
  lemma WindowOfInstant(r: Reading, size: nat, stamp: EventTime.Stamp, body: string)
    requires size > 0 && EventTime.GoodStamp(stamp) && (stamp.zone.Zulu? || EventTime.HourMinute(stamp.zone))
    requires r.second == EventTime.FlinkSeconds(stamp, body)
    ensures WindowOf(r, size) * size * 1_000_000 <= EventTime.SparkMicros(stamp) < (WindowOf(r, size) + 1) * size * 1_000_000
  {
    hide EventTime.FlinkSeconds, EventTime.SparkMicros, EventTime.ZoneMicros;
    EventTime.SameSecondIff(stamp, body);
    if stamp.zone.Zulu? { ZuluMovesNothing(stamp); }
    OneWindow(r.second, WindowOf(r, size), size);
  }

  lemma ZuluMovesNothing(stamp: EventTime.Stamp)
    requires EventTime.GoodStamp(stamp) && stamp.zone.Zulu?
    ensures 0 <= stamp.micros - EventTime.ZoneMicros(stamp.zone) < EventTime.SECOND
  {
  }

  /** The two sums of the table: all quantities, and the positive ones; a null adds nothing to either. */
  lemma WhatRowsAdd(e: Option<string>, q: int)
    ensures QtyDelta()(e, None) == 0 && QtyReceived()(e, None) == 0
    ensures QtyDelta()(e, Some(q)) == q
    ensures QtyReceived()(e, Some(q)) >= 0 && QtyReceived()(e, Some(q)) >= q && QtyReceived()(e, Some(q)) in {0, q}
  {
  }

  // ---------------------------------------------------------------- winners and what stands for them

  /** Row `i` of the stream has the event id of winner `w` and lies in its window. */
  ghost predicate StandsFor(l: Deliveries, s: Stream, size: nat, i: int, w: int)
    requires size > 0
  {
    && l.IsCanonical(w) && l.IsValid(w) && s.Reads(i)
    && s.Row(i).eventId == Some(l.Event(w).eventId) && WindowOf(s.Row(i), size) == WindowOf(AsRead(l.Event(w)), size)
  }

  /** A reading moves what an event moves: quantity, product and store. */
  predicate Moves(r: Reading, e: Fields<Movement>) {
    r.productId == Some(e.detail.productId) && r.storeId == Some(e.detail.storeId) && r.quantity == Some(e.detail.qtyDelta)
  }

  /** Rows counted in an hour that stand for no winner: its id has none, or has it in another window. */
  ghost function StrayRows(l: Deliveries, s: Stream, size: nat, k: HourKey): set<int>
    requires size > 0
  {
    set i | i in s.HourRows(size, k) && !exists w :: StandsFor(l, s, size, i, w)
  }

  /** What is counted for winner `w`: the first row that stands for it moves what it moves. */
  ghost predicate Counted(l: Deliveries, s: Stream, size: nat, w: int)
    requires size > 0 && l.IsValid(w)
  {
    exists i :: s.IsFirst(size, i) && StandsFor(l, s, size, i, w) && Moves(s.Row(i), l.Event(w))
  }

  ghost predicate CountsEveryWinner(l: Deliveries, s: Stream, size: nat)
    requires size > 0
  {
    forall w :: l.IsCanonical(w) && l.IsValid(w) ==> Counted(l, s, size, w)
  }

  /** For every hour and every aggregate, Flink is Spark plus the strays. */
  ghost predicate LayersReconcile(l: Deliveries, s: Stream, size: nat)
    requires size > 0
  {
    forall k, f :: FlinkHour(s, size, k, f) == SparkHour(l, size, k, f) + Sum(StrayRows(l, s, size, k), s.Term(f))
  }

  // ---------------------------------------------------------------- proofs

  lemma CanonicalIsValid(l: Deliveries, i: int)
    ensures l.IsCanonical(i) ==> l.IsValid(i) && 0 <= i < |l.raw|
  {
  }

  lemma OnePerGroup(s: Stream, size: nat, i: int, j: int)
    requires size > 0 && s.IsFirst(size, i) && s.IsFirst(size, j) && s.SameGroup(size, i, j)
    ensures i == j
  {
  }

  /** Every row has a first one in its group, no later than itself. */
  lemma FirstExists(s: Stream, size: nat, i: int)
    requires size > 0 && s.Reads(i)
    ensures exists f :: s.IsFirst(size, f) && s.Reads(f) && s.SameGroup(size, f, i)
  {
    hide WindowOf;
    var group := set j | 0 <= j < |s.arrivals| && s.Reads(j) && s.SameGroup(size, j, i);
    var less := (a: int, b: int) => s.Reads(a) && s.Reads(b) && s.RankedBefore(a, b);
    assert i in group;
    LeastExists(group, less);
    var f :| f in group && forall x :: x in group ==> x == f || less(f, x);
    forall j | j in group && j != f ensures s.RankedBefore(f, j) { assert less(f, j); }
    assert s.IsFirst(size, f);
  }

  ghost function WinnerFor(l: Deliveries, s: Stream, size: nat, i: int): int
    requires size > 0
  {
    if exists w :: StandsFor(l, s, size, i, w) then
      var w :| StandsFor(l, s, size, i, w); w
    else -1
  }

  lemma WinnerForIs(l: Deliveries, s: Stream, size: nat, i: int, w: int)
    requires size > 0 && StandsFor(l, s, size, i, w)
    ensures WinnerFor(l, s, size, i) == w
  {
    hide WindowOf, l.IsCanonical;
    var v := WinnerFor(l, s, size, i);
    assert StandsFor(l, s, size, i, v);
    CanonicalPerEventId(l, v, w);
  }

  /** A counted row that is no stray stands for a canonical row of the same hour and adds what that one adds. */
  lemma SettledRow(l: Deliveries, s: Stream, size: nat, k: HourKey, f: Aggregate, i: int)
    requires size > 0 && CountsEveryWinner(l, s, size) && i in s.HourRows(size, k) && exists w :: StandsFor(l, s, size, i, w)
    ensures var w := WinnerFor(l, s, size, i);
            && StandsFor(l, s, size, i, w) && w in SparkRows(l, size, k)
            && s.Term(f)(i) == SparkTerm(l, f)(w)
  {
    hide WindowOf, l.IsCanonical;
    var w := WinnerFor(l, s, size, i);
    CanonicalIsValid(l, w);
    assert Counted(l, s, size, w);
    var j :| s.IsFirst(size, j) && StandsFor(l, s, size, j, w) && Moves(s.Row(j), l.Event(w));
    OnePerGroup(s, size, i, j);
  }

  lemma CountedRow(l: Deliveries, s: Stream, size: nat, k: HourKey, w: int)
    requires size > 0 && CountsEveryWinner(l, s, size) && w in SparkRows(l, size, k)
    ensures exists i :: i in s.HourRows(size, k) && StandsFor(l, s, size, i, w) && WinnerFor(l, s, size, i) == w
  {
    hide WindowOf, l.IsCanonical;
    CanonicalIsValid(l, w);
    assert Counted(l, s, size, w);
    var i :| s.IsFirst(size, i) && StandsFor(l, s, size, i, w) && Moves(s.Row(i), l.Event(w));
    WinnerForIs(l, s, size, i, w);
    assert i in s.HourRows(size, k);
  }

  lemma SettledOnce(l: Deliveries, s: Stream, size: nat, k: HourKey, i: int, j: int)
    requires size > 0 && i in s.HourRows(size, k) && j in s.HourRows(size, k)
    requires StandsFor(l, s, size, i, WinnerFor(l, s, size, i)) && StandsFor(l, s, size, j, WinnerFor(l, s, size, j))
    requires WinnerFor(l, s, size, i) == WinnerFor(l, s, size, j)
    ensures i == j
  {
    hide WindowOf, l.IsCanonical, WinnerFor;
    OnePerGroup(s, size, i, j);
  }

  /** If every winner is counted as it is, Flink's hour is Spark's hour plus exactly the strays. */
  lemma FlinkIsSparkPlusStrays(l: Deliveries, s: Stream, size: nat, k: HourKey, f: Aggregate)
    requires size > 0 && CountsEveryWinner(l, s, size)
    ensures FlinkHour(s, size, k, f) == SparkHour(l, size, k, f) + Sum(StrayRows(l, s, size, k), s.Term(f))
  {
    hide s.HourRows, StandsFor, WinnerFor, SparkRows, CountsEveryWinner;
    var rows, strays := s.HourRows(size, k), StrayRows(l, s, size, k);
    var settled := rows - strays;
    assert rows == settled + strays;
    SumOfUnion(settled, strays, s.Term(f));
    forall i | i in settled
      ensures WinnerFor(l, s, size, i) in SparkRows(l, size, k) && StandsFor(l, s, size, i, WinnerFor(l, s, size, i))
      ensures s.Term(f)(i) == SparkTerm(l, f)(WinnerFor(l, s, size, i))
    {
      SettledRow(l, s, size, k, f, i);
    }
    forall i, j | i in settled && j in settled && WinnerFor(l, s, size, i) == WinnerFor(l, s, size, j) ensures i == j {
      SettledOnce(l, s, size, k, i, j);
    }
    forall w | w in SparkRows(l, size, k) ensures exists i :: i in settled && WinnerFor(l, s, size, i) == w {
      CountedRow(l, s, size, k, w);
    }
    SumReindexed(settled, SparkRows(l, size, k), (i: int) => WinnerFor(l, s, size, i), s.Term(f), SparkTerm(l, f));
  }

  lemma {:induction false} SumOfZeros(s: set<int>, f: int -> int)
    requires forall x :: x in s ==> f(x) == 0
    ensures Sum(s, f) == 0
  {
    if s != {} {
      var x := SomeMember(s);
      SumSplitsOff(s, f, x);
      SumOfZeros(s - {x}, f);
    }
  }

  /** Counts the rows of one event id with one quantity. */
  function Tally(id: string, q: int): Aggregate {
    (e: Option<string>, n: Option<int>) => if e == Some(id) && n == Some(q) then 1 else 0
  }

  /** Spark tallies each winner once in its hour. */
  lemma SparkTally(l: Deliveries, size: nat, w: int)
    requires size > 0 && l.IsCanonical(w) && l.IsValid(w)
    ensures SparkHour(l, size, KeyOf(AsRead(l.Event(w)), size), Tally(l.Event(w).eventId, l.Event(w).detail.qtyDelta)) == 1
  {
    hide l.IsUnique, l.EventBefore, KeyOf;
    var k, f := KeyOf(AsRead(l.Event(w)), size), Tally(l.Event(w).eventId, l.Event(w).detail.qtyDelta);
    var rows := SparkRows(l, size, k);
    CanonicalIsValid(l, w);
    assert w in rows;
    forall v | v in rows - {w} ensures SparkTerm(l, f)(v) == 0 {
      CanonicalIsValid(l, v);
      if l.IsValid(v) && l.Event(v).eventId == l.Event(w).eventId { CanonicalPerEventId(l, v, w); }
    }
    SumSplitsOff(rows, SparkTerm(l, f), w);
    SumOfZeros(rows - {w}, SparkTerm(l, f));
  }

  /** No stray of the winner's hour has the winner's id. */
  lemma StrayTally(l: Deliveries, s: Stream, size: nat, w: int)
    requires size > 0 && l.IsCanonical(w) && l.IsValid(w)
    ensures var k, f := KeyOf(AsRead(l.Event(w)), size), Tally(l.Event(w).eventId, l.Event(w).detail.qtyDelta);
            Sum(StrayRows(l, s, size, k), s.Term(f)) == 0
  {
    hide WindowOf, l.IsCanonical;
    var k, f := KeyOf(AsRead(l.Event(w)), size), Tally(l.Event(w).eventId, l.Event(w).detail.qtyDelta);
    forall i | i in StrayRows(l, s, size, k) ensures s.Term(f)(i) == 0 {
      assert !StandsFor(l, s, size, i, w);
    }
    SumOfZeros(StrayRows(l, s, size, k), s.Term(f));
  }

  /** A winner whose tally comes out right is counted as it is. */
  lemma TalliedIsCounted(l: Deliveries, s: Stream, size: nat, w: int)
    requires size > 0 && l.IsCanonical(w) && l.IsValid(w)
    requires FlinkHour(s, size, KeyOf(AsRead(l.Event(w)), size), Tally(l.Event(w).eventId, l.Event(w).detail.qtyDelta)) != 0
    ensures Counted(l, s, size, w)
  {
    hide WindowOf, l.IsCanonical, s.IsFirst;
    var k, f := KeyOf(AsRead(l.Event(w)), size), Tally(l.Event(w).eventId, l.Event(w).detail.qtyDelta);
    var rows := s.HourRows(size, k);
    if forall i :: i in rows ==> s.Term(f)(i) == 0 { SumOfZeros(rows, s.Term(f)); }
    var i :| i in rows && s.Term(f)(i) != 0;
    assert s.Reads(i) && Moves(s.Row(i), l.Event(w)) && StandsFor(l, s, size, i, w);
  }

  /** The layers reconcile on every hour and every aggregate exactly when every winner is counted as it is. */
  lemma LayersReconcileIff(l: Deliveries, s: Stream, size: nat)
    requires size > 0
    ensures LayersReconcile(l, s, size) <==> CountsEveryWinner(l, s, size)
  {
    hide FlinkHour, SparkHour, StrayRows, KeyOf, Counted, l.IsCanonical;
    if CountsEveryWinner(l, s, size) {
      forall k, f ensures FlinkHour(s, size, k, f) == SparkHour(l, size, k, f) + Sum(StrayRows(l, s, size, k), s.Term(f)) {
        FlinkIsSparkPlusStrays(l, s, size, k, f);
      }
    }
    if LayersReconcile(l, s, size) {
      forall w | l.IsCanonical(w) && l.IsValid(w) ensures Counted(l, s, size, w) {
        SparkTally(l, size, w);
        StrayTally(l, s, size, w);
        TalliedIsCounted(l, s, size, w);
      }
    }
  }

  // ---------------------------------------------------------------- when the first row does not depend on arrival

  /** Row `i` stands for `w`, and no row that does has an earlier second. */
  ghost predicate EarliestFor(l: Deliveries, s: Stream, size: nat, i: int, w: int)
    requires size > 0
  {
    StandsFor(l, s, size, i, w) && forall j :: StandsFor(l, s, size, j, w) ==> s.Row(i).second <= s.Row(j).second
  }

  /** Of the rows with the winner's event id in its window there is one, and all those in the earliest second move what the
      winner moves. */
  ghost predicate AgreesFor(l: Deliveries, s: Stream, size: nat, w: int)
    requires size > 0 && l.IsValid(w)
  {
    (exists i :: StandsFor(l, s, size, i, w)) && forall i :: EarliestFor(l, s, size, i, w) ==> Moves(s.Row(i), l.Event(w))
  }

  ghost predicate EarliestCopiesAgree(l: Deliveries, s: Stream, size: nat)
    requires size > 0
  {
    forall w :: l.IsCanonical(w) && l.IsValid(w) ==> AgreesFor(l, s, size, w)
  }

  lemma FirstIsEarliest(l: Deliveries, s: Stream, size: nat, i: int, w: int)
    requires size > 0 && s.IsFirst(size, i) && StandsFor(l, s, size, i, w)
    ensures EarliestFor(l, s, size, i, w)
  {
    hide WindowOf, l.IsCanonical;
    forall j | StandsFor(l, s, size, j, w) ensures s.Row(i).second <= s.Row(j).second {
      assert s.SameGroup(size, i, j);
    }
  }

  /** Then every winner is counted as it is, in this order of arrival. */
  lemma AgreeingCopiesCount(l: Deliveries, s: Stream, size: nat)
    requires size > 0 && EarliestCopiesAgree(l, s, size)
    ensures CountsEveryWinner(l, s, size)
  {
    hide WindowOf, l.IsCanonical, s.IsFirst;
    forall w | l.IsCanonical(w) && l.IsValid(w) ensures Counted(l, s, size, w) {
      assert AgreesFor(l, s, size, w);
      var i :| StandsFor(l, s, size, i, w);
      FirstExists(s, size, i);
      var f :| s.IsFirst(size, f) && s.Reads(f) && s.SameGroup(size, f, i);
      assert StandsFor(l, s, size, f, w);
      FirstIsEarliest(l, s, size, f, w);
    }
  }
}
