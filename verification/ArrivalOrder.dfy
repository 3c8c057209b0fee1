/** Which copy the speed layer counts may depend on the order of arrival; when it never does. */
module ArrivalOrder {
  import opened Sums
  import opened Basics
  import opened CanonicalEvents
  import opened InventoryHourly
  import EventTime

  function Payloads(raw: seq<Raw>): (ps: seq<Bytes>)
    ensures |ps| == |raw| && forall i :: 0 <= i < |raw| ==> ps[i] == raw[i].payload
  {
    seq(|raw|, i requires 0 <= i < |raw| => raw[i].payload)
  }

  /** The delivered payloads in the order of Bronze. */
  function InBronzeOrder(l: Deliveries, read: Reader): Stream {
    Stream(Payloads(l.raw), read)
  }

  // ---------------------------------------------------------------- the same payloads in another order

  /** Both streams hold the same payloads, in any order and number. */
  ghost predicate SamePayloads(s: Stream, t: Stream) {
    s.read == t.read && forall p :: p in s.arrivals <==> p in t.arrivals
  }

  /** The row of another stream with the payload of row `i`. */
  ghost function Twin(s: Stream, t: Stream, i: int): (j: int)
    requires SamePayloads(s, t) && s.Reads(i)
    ensures t.Reads(j) && t.arrivals[j] == s.arrivals[i] && t.Row(j) == s.Row(i)
  {
    assert s.arrivals[i] in t.arrivals;
    var j :| 0 <= j < |t.arrivals| && t.arrivals[j] == s.arrivals[i];
    j
  }

  lemma TwinStands(l: Deliveries, s: Stream, t: Stream, size: nat, i: int, w: int)
    requires size > 0 && SamePayloads(s, t) && StandsFor(l, s, size, i, w)
    ensures StandsFor(l, t, size, Twin(s, t, i), w)
  {
    hide WindowOf, l.IsCanonical;
  }

  lemma TwinIsEarliest(l: Deliveries, s: Stream, t: Stream, size: nat, i: int, w: int)
    requires size > 0 && SamePayloads(s, t) && EarliestFor(l, s, size, i, w)
    ensures EarliestFor(l, t, size, Twin(s, t, i), w)
  {
    hide StandsFor;
    StandsReads(l, s, size, i, w);
    TwinStands(l, s, t, size, i, w);
    var i' := Twin(s, t, i);
    forall j | StandsFor(l, t, size, j, w) ensures t.Reads(j) && t.Row(i').second <= t.Row(j).second {
      assert t.Reads(j) by { StandsReads(l, t, size, j, w); }
      TwinStands(l, t, s, size, j, w);
      StandsReads(l, s, size, Twin(t, s, j), w);
    }
  }

  lemma StandsReads(l: Deliveries, s: Stream, size: nat, i: int, w: int)
    requires size > 0 && StandsFor(l, s, size, i, w)
    ensures s.Reads(i)
  {
  }

  /** Agreement of the earliest copies is a fact about the payloads, not about their order or number. */
  lemma AgreementIgnoresOrder(l: Deliveries, s: Stream, t: Stream, size: nat)
    requires size > 0 && SamePayloads(s, t) && EarliestCopiesAgree(l, s, size)
    ensures EarliestCopiesAgree(l, t, size)
  {
    hide l.IsCanonical;
    forall w | l.IsCanonical(w) && l.IsValid(w) ensures AgreesFor(l, t, size, w) {
      assert AgreesFor(l, s, size, w);
      var i :| StandsFor(l, s, size, i, w);
      TwinStands(l, s, t, size, i, w);
      forall j | EarliestFor(l, t, size, j, w) ensures Moves(t.Row(j), l.Event(w)) {
        TwinIsEarliest(l, t, s, size, j, w);
      }
    }
  }

  // ---------------------------------------------------------------- an order that shows a disagreement

  /** The stream with row `u` arriving first. */
  function Front(s: Stream, u: int): (t: Stream)
    requires 0 <= u < |s.arrivals|
    ensures t.read == s.read && multiset(t.arrivals) == multiset(s.arrivals) && |t.arrivals| > 0 && t.arrivals[0] == s.arrivals[u]
  {
    assert s.arrivals == s.arrivals[..u] + [s.arrivals[u]] + s.arrivals[u + 1..];
    s.(arrivals := [s.arrivals[u]] + s.arrivals[..u] + s.arrivals[u + 1..])
  }

  lemma SameMultisetSamePayloads(s: Stream, t: Stream)
    requires s.read == t.read && multiset(s.arrivals) == multiset(t.arrivals)
    ensures SamePayloads(s, t)
  {
    forall p ensures p in s.arrivals <==> p in t.arrivals {
      assert p in s.arrivals <==> p in multiset(s.arrivals);
      assert p in t.arrivals <==> p in multiset(t.arrivals);
    }
  }

  /** An earliest copy that arrives first is the row that is counted. */
  lemma FrontIsFirst(l: Deliveries, s: Stream, size: nat, u: int, w: int)
    requires size > 0 && EarliestFor(l, s, size, u, w)
    ensures s.Reads(u) && Front(s, u).IsFirst(size, 0) && StandsFor(l, Front(s, u), size, 0, w)
    ensures Front(s, u).Row(0) == s.Row(u)
  {
    hide Front, WindowOf, l.IsCanonical;
    var t := Front(s, u);
    SameMultisetSamePayloads(t, s);
    assert StandsFor(l, t, size, 0, w);
    forall j | 0 <= j < |t.arrivals| && t.Reads(j) && t.SameGroup(size, 0, j) && j != 0 ensures t.RankedBefore(0, j) {
      assert StandsFor(l, t, size, j, w);
      TwinStands(l, t, s, size, j, w);
    }
  }

  /** A winner that is missed, or an earliest copy that moves something else, gives an order in which the layers do not reconcile. */
  lemma DisagreementShows(l: Deliveries, s: Stream, size: nat)
    requires size > 0 && !EarliestCopiesAgree(l, s, size)
    ensures exists arrivals :: multiset(arrivals) == multiset(s.arrivals) && !LayersReconcile(l, s.(arrivals := arrivals), size)
  {
    hide LayersReconcile, StandsFor, EarliestFor, AgreesFor, l.IsCanonical;
    var w :| l.IsCanonical(w) && l.IsValid(w) && !AgreesFor(l, s, size, w);
    if exists i :: StandsFor(l, s, size, i, w) {
      var u := WrongCopy(l, s, size, w);
      WrongCopyFirst(l, s, size, u, w);
      assert Front(s, u) == s.(arrivals := Front(s, u).arrivals);
    } else {
      MissedIsNotCounted(l, s, size, w);
      assert s == s.(arrivals := s.arrivals);
    }
  }

  lemma WrongCopy(l: Deliveries, s: Stream, size: nat, w: int) returns (u: int)
    requires size > 0 && l.IsValid(w) && !AgreesFor(l, s, size, w) && exists i :: StandsFor(l, s, size, i, w)
    ensures EarliestFor(l, s, size, u, w) && s.Reads(u) && !Moves(s.Row(u), l.Event(w))
  {
    hide l.IsCanonical;
    u :| EarliestFor(l, s, size, u, w) && s.Reads(u) && !Moves(s.Row(u), l.Event(w));
  }

  lemma MissedIsNotCounted(l: Deliveries, s: Stream, size: nat, w: int)
    requires size > 0 && l.IsCanonical(w) && l.IsValid(w) && !exists i :: StandsFor(l, s, size, i, w)
    ensures !LayersReconcile(l, s, size)
  {
    hide LayersReconcile, StandsFor, l.IsCanonical;
    LayersReconcileIff(l, s, size);
    assert !Counted(l, s, size, w);
  }

  lemma WrongCopyFirst(l: Deliveries, s: Stream, size: nat, u: int, w: int)
    requires size > 0 && l.IsCanonical(w) && l.IsValid(w) && EarliestFor(l, s, size, u, w)
    requires s.Reads(u) && !Moves(s.Row(u), l.Event(w))
    ensures !LayersReconcile(l, Front(s, u), size)
  {
    hide Front, LayersReconcile, l.IsCanonical, WindowOf, Moves, EarliestFor;
    var t := Front(s, u);
    FrontIsFirst(l, s, size, u, w);
    LayersReconcileIff(l, t, size);
    if CountsEveryWinner(l, t, size) {
      assert Counted(l, t, size, w);
      var i :| t.IsFirst(size, i) && StandsFor(l, t, size, i, w) && Moves(t.Row(i), l.Event(w));
      OnePerGroup(t, size, i, 0);
    }
  }

  /** Flink reconciles with Spark for every order of arrival, every hour and every aggregate, exactly when every winner has
      a row with its event id in its window and all such rows in the earliest second move what the winner moves. */
  lemma ReconcilesInEveryOrderIff(l: Deliveries, s: Stream, size: nat)
    requires size > 0
    ensures (forall arrivals :: multiset(arrivals) == multiset(s.arrivals) ==> LayersReconcile(l, s.(arrivals := arrivals), size))
            <==> EarliestCopiesAgree(l, s, size)
  {
    hide LayersReconcile, EarliestCopiesAgree;
    if EarliestCopiesAgree(l, s, size) {
      forall arrivals | multiset(arrivals) == multiset(s.arrivals) ensures LayersReconcile(l, s.(arrivals := arrivals), size) {
        SameMultisetSamePayloads(s, s.(arrivals := arrivals));
        SamePayloadsReconcile(l, s, s.(arrivals := arrivals), size);
      }
    } else {
      DisagreementShows(l, s, size);
    }
  }

  /** Then every stream of the same payloads reconciles, also when Flink reads a record more or less often than Bronze holds it. */
  lemma SamePayloadsReconcile(l: Deliveries, s: Stream, t: Stream, size: nat)
    requires size > 0 && EarliestCopiesAgree(l, s, size) && SamePayloads(s, t)
    ensures LayersReconcile(l, t, size)
  {
    hide LayersReconcile, EarliestCopiesAgree, CountsEveryWinner;
    AgreementIgnoresOrder(l, s, t, size);
    AgreeingCopiesCount(l, t, size);
    LayersReconcileIff(l, t, size);
  }

  /** In particular the two sums of the query. */
  lemma HourlySumsReconcile(l: Deliveries, s: Stream, size: nat, k: HourKey)
    requires size > 0 && EarliestCopiesAgree(l, s, size)
    ensures FlinkHour(s, size, k, QtyDelta())
            == SparkHour(l, size, k, QtyDelta()) + Sum(StrayRows(l, s, size, k), s.Term(QtyDelta()))
    ensures FlinkHour(s, size, k, QtyReceived())
            == SparkHour(l, size, k, QtyReceived()) + Sum(StrayRows(l, s, size, k), s.Term(QtyReceived()))
  {
    hide EarliestCopiesAgree, CountsEveryWinner, FlinkHour, SparkHour, StrayRows;
    AgreeingCopiesCount(l, s, size);
    FlinkIsSparkPlusStrays(l, s, size, k, QtyDelta());
    FlinkIsSparkPlusStrays(l, s, size, k, QtyReceived());
  }

  // ---------------------------------------------------------------- readers that agree with Spark

  /** The speed layer reads every valid payload as Spark does. */
  ghost predicate ReadsAlike(l: Deliveries, read: Reader) {
    forall i :: l.IsValid(i) ==> read(l.raw[i].payload) == Some(AsRead(l.Event(i)))
  }

  /** It reads nothing that Spark quarantines. */
  ghost predicate ReadsOnlyValid(l: Deliveries, read: Reader) {
    forall i :: 0 <= i < |l.raw| && read(l.raw[i].payload).Some? ==> l.IsValid(i)
  }

  /** Reading the time by the expression is reading it alike exactly when the zone is `±HH:MM` or its offset does not move
      the instant across a second. */
  lemma TimeIsReadAlikeIff(e: Fields<Movement>, stamp: EventTime.Stamp, body: string)
    requires EventTime.GoodStamp(stamp) && e.eventTime == EventTime.SparkMicros(stamp)
    ensures AsRead(e).(second := EventTime.FlinkSeconds(stamp, body)) == AsRead(e)
            <==> EventTime.HourMinute(stamp.zone) || 0 <= stamp.micros - EventTime.ZoneMicros(stamp.zone) < EventTime.SECOND
  {
    EventTime.SameSecondIff(stamp, body);
  }

  /** With such a reader every winner is there to be counted, so only the earliest copies matter. */
  lemma WinnersAreRead(l: Deliveries, read: Reader, size: nat, w: int)
    requires size > 0 && ReadsAlike(l, read) && l.IsCanonical(w) && l.IsValid(w)
    ensures StandsFor(l, InBronzeOrder(l, read), size, w, w)
  {
    hide l.IsUnique;
  }

  /** What a delivery moves, as Spark reads it. */
  ghost predicate SameMovement(l: Deliveries, i: int, j: int)
    requires l.IsValid(i) && l.IsValid(j)
  {
    Moves(AsRead(l.Event(i)), l.Event(j))
  }

  ghost predicate InWinnersSecond(l: Deliveries, i: int, w: int)
    requires l.IsValid(w)
  {
    l.IsValid(i) && l.Event(i).eventId == l.Event(w).eventId && AsRead(l.Event(i)).second == AsRead(l.Event(w)).second
  }

  /** Every valid copy in the winner's own second moves what the winner moves; copies in other seconds may differ. */
  ghost predicate AgreesInWinnersSecond(l: Deliveries) {
    forall w, i :: l.IsCanonical(w) && l.IsValid(w) && InWinnersSecond(l, i, w) ==> SameMovement(l, i, w)
  }

  /** The canonical row of an event id is the earliest of all its deliveries. */
  lemma WinnerIsEarliest(l: Deliveries, i: int, w: int)
    requires OnePayloadPerTransport(l) && l.IsValid(i) && l.IsCanonical(w) && l.Event(w).eventId == l.Event(i).eventId
    ensures l.Event(w).eventTime <= l.Event(i).eventTime
  {
    UniqueExists(l, i);
    var u :| l.IsUnique(u) && l.raw[u].transport == l.raw[i].transport;
    assert l.Event(u) == l.Event(i);
    assert u == w || l.EventBefore(w, u);
  }

  lemma DivisionKeepsOrder(a: int, b: int)
    requires a <= b
    ensures a / MICROS <= b / MICROS
  {
  }

  /** When Flink reads exactly the valid deliveries, and as Spark does, the condition is agreement in the winner's own second. */
  lemma ValidRowsReduce(l: Deliveries, read: Reader, size: nat)
    requires size > 0 && OnePayloadPerTransport(l) && ReadsAlike(l, read) && ReadsOnlyValid(l, read)
    ensures EarliestCopiesAgree(l, InBronzeOrder(l, read), size) <==> AgreesInWinnersSecond(l)
  {
    hide OnePayloadPerTransport, l.IsCanonical, AgreesFor, InWinnersSecond;
    var s := InBronzeOrder(l, read);
    forall w | l.IsCanonical(w) && l.IsValid(w)
      ensures AgreesFor(l, s, size, w) <==> forall i :: InWinnersSecond(l, i, w) ==> l.IsValid(i) && SameMovement(l, i, w)
    {
      ValidWinnerReduces(l, read, size, w);
    }
    forall w, i | l.IsValid(w) && InWinnersSecond(l, i, w) ensures l.IsValid(i) { InSecondIsValid(l, i, w); }
  }

  lemma InSecondIsValid(l: Deliveries, i: int, w: int)
    requires l.IsValid(w) && InWinnersSecond(l, i, w)
    ensures l.IsValid(i)
  {
  }

  lemma ValidWinnerReduces(l: Deliveries, read: Reader, size: nat, w: int)
    requires size > 0 && OnePayloadPerTransport(l) && ReadsAlike(l, read) && ReadsOnlyValid(l, read)
    requires l.IsCanonical(w) && l.IsValid(w)
    ensures AgreesFor(l, InBronzeOrder(l, read), size, w)
            <==> forall i :: InWinnersSecond(l, i, w) ==> l.IsValid(i) && SameMovement(l, i, w)
  {
    hide OnePayloadPerTransport, l.IsCanonical, EarliestFor, StandsFor, InWinnersSecond;
    var s := InBronzeOrder(l, read);
    WinnersAreRead(l, read, size, w);
    forall i ensures EarliestFor(l, s, size, i, w) <==> InWinnersSecond(l, i, w) { EarliestIsWinnersSecond(l, read, size, w, i); }
    forall i | InWinnersSecond(l, i, w) ensures l.IsValid(i) && s.Reads(i) && s.Row(i) == AsRead(l.Event(i)) {
      InSecondIsValid(l, i, w);
    }
  }

  lemma EarliestIsWinnersSecond(l: Deliveries, read: Reader, size: nat, w: int, i: int)
    requires size > 0 && OnePayloadPerTransport(l) && ReadsAlike(l, read) && ReadsOnlyValid(l, read)
    requires l.IsCanonical(w) && l.IsValid(w)
    ensures EarliestFor(l, InBronzeOrder(l, read), size, i, w) <==> InWinnersSecond(l, i, w)
  {
    hide OnePayloadPerTransport, l.IsCanonical;
    var s := InBronzeOrder(l, read);
    WinnersAreRead(l, read, size, w);
    forall j | StandsFor(l, s, size, j, w)
      ensures l.IsValid(j) && s.Row(j) == AsRead(l.Event(j)) && AsRead(l.Event(w)).second <= s.Row(j).second
    {
      WinnerIsEarliest(l, j, w);
      DivisionKeepsOrder(l.Event(w).eventTime, l.Event(j).eventTime);
    }
  }

  // ---------------------------------------------------------------- retries

  /** All valid copies of an event id are retries of the same payload. */
  ghost predicate OnlyRetries(l: Deliveries) {
    forall i, j :: l.IsValid(i) && l.IsValid(j) && l.Event(i).eventId == l.Event(j).eventId ==> l.Event(i) == l.Event(j)
  }

  lemma WinnerExists(l: Deliveries, i: int)
    requires OnePayloadPerTransport(l) && l.IsValid(i)
    ensures exists w :: l.IsCanonical(w) && l.IsValid(w) && l.Event(w).eventId == l.Event(i).eventId
  {
    UniqueExists(l, i);
    var u :| l.IsUnique(u) && l.raw[u].transport == l.raw[i].transport;
    assert l.Event(u) == l.Event(i);
    assert l.IsCanonical(Winner(l, u));
  }

  /** With only identical retries of valid events, both layers agree on every hour, in every order of arrival. */
  lemma RetriesAgree(l: Deliveries, s: Stream, size: nat, k: HourKey, f: Aggregate)
    requires size > 0 && OnePayloadPerTransport(l) && OnlyRetries(l) && ReadsAlike(l, s.read) && ReadsOnlyValid(l, s.read)
    requires SamePayloads(InBronzeOrder(l, s.read), s)
    ensures FlinkHour(s, size, k, f) == SparkHour(l, size, k, f)
  {
    hide OnePayloadPerTransport, EarliestCopiesAgree, l.IsCanonical, FlinkHour, SparkHour, WindowOf;
    assert AgreesInWinnersSecond(l) by { RetriesAgreeInASecond(l); }
    ValidRowsReduce(l, s.read, size);
    SamePayloadsReconcile(l, InBronzeOrder(l, s.read), s, size);
    forall i | i in s.HourRows(size, k) ensures exists w :: StandsFor(l, s, size, i, w) {
      RetryStandsForWinner(l, s, size, i);
    }
    assert StrayRows(l, s, size, k) == {};
    SumOfZeros({}, s.Term(f));
  }

  lemma RetriesAgreeInASecond(l: Deliveries)
    requires OnlyRetries(l)
    ensures AgreesInWinnersSecond(l)
  {
  }

  lemma RetryStandsForWinner(l: Deliveries, s: Stream, size: nat, i: int)
    requires size > 0 && OnePayloadPerTransport(l) && OnlyRetries(l) && ReadsAlike(l, s.read) && ReadsOnlyValid(l, s.read)
    requires SamePayloads(InBronzeOrder(l, s.read), s) && s.Reads(i)
    ensures exists w :: StandsFor(l, s, size, i, w)
  {
    hide OnePayloadPerTransport, l.IsCanonical;
    var j := Twin(s, InBronzeOrder(l, s.read), i);
    WinnerExists(l, j);
    var w :| l.IsCanonical(w) && l.IsValid(w) && l.Event(w).eventId == l.Event(j).eventId;
    assert l.Event(w) == l.Event(j);
    assert StandsFor(l, s, size, i, w);
  }

  // ---------------------------------------------------------------- two inputs on which the layers differ

  const RECEIPT: Movement := Movement("s", "p", 1, "receipt", "x", false, "2.0.0")

  function TwoPayloads(parse: Bytes -> Parsed<Movement>, hash: Bytes -> string): Deliveries {
    Ledger([Raw(Transport("k", "t", 0, 0), None, None, "a"), Raw(Transport("k", "t", 0, 1), None, None, "b")], parse, hash)
  }

  lemma SumOfOne(x: int, f: int -> int)
    ensures Sum({x}, f) == f(x)
  {
    SumSplitsOff({x}, f, x);
    assert {x} - {x} == {};
  }

  /** Two conflicting copies inside one second: the first to arrive counts for Flink, the earlier microsecond for Spark. */
  lemma ConflictWithinASecondBreaksIt(parse: Bytes -> Parsed<Movement>, hash: Bytes -> string, read: Reader)
    requires parse("a") == Valid(Fields("e", 900, RECEIPT.(qtyDelta := 2))) && parse("b") == Valid(Fields("e", 100, RECEIPT))
    requires ReadsAlike(TwoPayloads(parse, hash), read)
    ensures var l, k := TwoPayloads(parse, hash), HourKey(0, Some("p"), Some("s"));
            var s := InBronzeOrder(l, read);
            && OnePayloadPerTransport(l) && StrayRows(l, s, 3600, k) == {}
            && FlinkHour(s, 3600, k, QtyDelta()) == 2 && SparkHour(l, 3600, k, QtyDelta()) == 1
  {
    var l, k := TwoPayloads(parse, hash), HourKey(0, Some("p"), Some("s"));
    var s := InBronzeOrder(l, read);
    assert l.IsValid(0) && l.IsValid(1);
    assert s.Row(0) == AsRead(l.Event(0)) && s.Row(1) == AsRead(l.Event(1));
    assert l.IsUnique(0) && l.IsUnique(1) && l.EventBefore(1, 0) && !l.EventBefore(0, 1);
    assert l.IsCanonical(1) && !l.IsCanonical(0);
    assert s.IsFirst(3600, 0) && !s.IsFirst(3600, 1);
    assert s.HourRows(3600, k) == {0} && SparkRows(l, 3600, k) == {1};
    assert StandsFor(l, s, 3600, 0, 1);
    SumOfOne(0, s.Term(QtyDelta()));
    SumOfOne(1, SparkTerm(l, QtyDelta()));
  }

  lemma QuarantinedCopyLeads(parse: Bytes -> Parsed<Movement>, hash: Bytes -> string, read: Reader)
    requires parse("a") == Invalid("invalid_schema_version") && parse("b") == Valid(Fields("e", 300 * MICROS, RECEIPT))
    requires read("a") == Some(Reading(Some("e"), 0, Some("p"), Some("s"), Some(5)))
    requires ReadsAlike(TwoPayloads(parse, hash), read)
    ensures var l := TwoPayloads(parse, hash);
            var s := InBronzeOrder(l, read);
            && l.IsValid(1) && l.Canonicals() == {1} && s.Reads(0) && s.Reads(1)
            && s.IsFirst(3600, 0) && !s.IsFirst(3600, 1) && EarliestFor(l, s, 3600, 0, 1)
  {
    var l := TwoPayloads(parse, hash);
    var s := InBronzeOrder(l, read);
    assert l.IsValid(1) && !l.IsValid(0);
    assert s.Row(1) == AsRead(l.Event(1)) && s.Row(0) == Reading(Some("e"), 0, Some("p"), Some("s"), Some(5));
    assert l.IsUnique(1) && !l.IsUnique(0);
    assert l.IsCanonical(1) && !l.IsCanonical(0);
    assert StandsFor(l, s, 3600, 0, 1);
  }

  /** A copy that Spark quarantines, five minutes before the valid one in the same hour: Flink counts the quarantined one,
      although every valid copy agrees with the winner and there are no strays. */
  lemma QuarantinedCopyCounts(parse: Bytes -> Parsed<Movement>, hash: Bytes -> string, read: Reader)
    requires parse("a") == Invalid("invalid_schema_version") && parse("b") == Valid(Fields("e", 300 * MICROS, RECEIPT))
    requires read("a") == Some(Reading(Some("e"), 0, Some("p"), Some("s"), Some(5)))
    requires ReadsAlike(TwoPayloads(parse, hash), read)
    ensures var l, k := TwoPayloads(parse, hash), HourKey(0, Some("p"), Some("s"));
            var s := InBronzeOrder(l, read);
            && OnePayloadPerTransport(l) && AgreesInWinnersSecond(l) && StrayRows(l, s, 3600, k) == {}
            && !EarliestCopiesAgree(l, s, 3600)
            && FlinkHour(s, 3600, k, QtyDelta()) == 5 && SparkHour(l, 3600, k, QtyDelta()) == 1
  {
    var l, k := TwoPayloads(parse, hash), HourKey(0, Some("p"), Some("s"));
    var s := InBronzeOrder(l, read);
    QuarantinedCopyLeads(parse, hash, read);
    hide l.IsUnique, l.EventBefore;
    assert 1 in l.Canonicals();
    assert s.HourRows(3600, k) == {0} && SparkRows(l, 3600, k) == {1};
    assert !AgreesFor(l, s, 3600, 1);
    SumOfOne(0, s.Term(QtyDelta()));
    SumOfOne(1, SparkTerm(l, QtyDelta()));
  }
}
