/** Rebuilding canonical events from a Bronze snapshot: two levels of keep-first deduplication. */
module CanonicalEvents {
  import opened Basics
  import opened StringOrder
  import Sums

  type Bytes = string

  /** Where Kafka stored a record. */
  datatype Transport = Transport(source: string, topic: string, partition: int, offset: int)

  /** One delivery captured in Bronze. */
  datatype Raw = Raw(transport: Transport, kafkaTimestamp: Option<int>, ingestedAt: Option<int>, payload: Bytes)

  /** The typed fields of a valid event; times are UTC microseconds. */
  datatype Fields<+D> = Fields(eventId: string, eventTime: int, detail: D)

  datatype Parsed<+D> = Invalid(reason: string) | Valid(fields: Fields<D>)

  datatype DuplicateKind = TransportReplay | BusinessDuplicate | PayloadConflict

  // ---------------------------------------------------------------- orders

  /** Ascending, nulls last. */
  predicate NullsLast(a: Option<int>, b: Option<int>) {
    a.Some? && (b.None? || a.value < b.value)
  }

  predicate TransportLt(a: Transport, b: Transport) {
    || Lt(a.source, b.source)
    || (a.source == b.source && Lt(a.topic, b.topic))
    || (a.source == b.source && a.topic == b.topic && a.partition < b.partition)
    || (a.source == b.source && a.topic == b.topic && a.partition == b.partition && a.offset < b.offset)
  }

  /** A Bronze snapshot with the two functions Spark applies to its payloads. Row order is the
      order in which rows happen to be processed, so it stands for every way ties may be broken. */
  datatype Ledger<!D(==)> = Ledger(raw: seq<Raw>, parse: Bytes -> Parsed<D>, hash: Bytes -> string) {

    predicate IsValid(i: int) {
      0 <= i < |raw| && parse(raw[i].payload).Valid?
    }

    function Event(i: int): Fields<D>
      requires IsValid(i)
    {
      parse(raw[i].payload).fields
    }

    /** Strictly earlier in the transport order: ingestion time, then payload hash. */
    predicate IngestedBefore(a: Raw, b: Raw) {
      || NullsLast(a.ingestedAt, b.ingestedAt)
      || (a.ingestedAt == b.ingestedAt && Lt(hash(a.payload), hash(b.payload)))
    }

    /** Row `i` is ranked before row `j` among copies of one transport record. */
    predicate RankedBefore(i: int, j: int) {
      && 0 <= i < |raw| && 0 <= j < |raw|
      && (IngestedBefore(raw[i], raw[j]) || (!IngestedBefore(raw[j], raw[i]) && i < j))
    }

    /** The row that stands for its transport record. */
    predicate IsUnique(i: int) {
      IsValid(i) && forall j :: 0 <= j < |raw| && IsValid(j) && raw[j].transport == raw[i].transport ==> j == i || RankedBefore(i, j)
    }

    /** Strictly earlier in the event order: event time, Kafka timestamp, transport. */
    predicate EventBefore(i: int, j: int) {
      IsValid(i) && IsValid(j) && RowBefore(raw[i], raw[j])
    }

    predicate RowBefore(a: Raw, b: Raw)
      requires parse(a.payload).Valid? && parse(b.payload).Valid?
    {
      var t, u := parse(a.payload).fields.eventTime, parse(b.payload).fields.eventTime;
      || t < u
      || (t == u && (|| NullsLast(a.kafkaTimestamp, b.kafkaTimestamp)
                     || (a.kafkaTimestamp == b.kafkaTimestamp && TransportLt(a.transport, b.transport))))
    }

    function Invalids(): set<int> {
      set i | 0 <= i < |raw| && !IsValid(i)
    }

    function Uniques(): set<int> {
      set i | 0 <= i < |raw| && IsUnique(i)
    }

    /** The winner of its event id. */
    predicate IsCanonical(i: int) {
      IsUnique(i) && forall j :: 0 <= j < |raw| && IsUnique(j) && Event(j).eventId == Event(i).eventId ==> j == i || EventBefore(i, j)
    }

    function Canonicals(): set<int> {
      set i | 0 <= i < |raw| && IsCanonical(i)
    }

    function BusinessCopies(): set<int> {
      Uniques() - Canonicals()
    }

    function TransportCopies(): set<int> {
      set i | 0 <= i < |raw| && IsValid(i) && !IsUnique(i)
    }

    /** The inner join of the transport copies with the winners. */
    function JoinedTransportCopies(): set<(int, int)> {
      set i, w | i in TransportCopies() && w in Canonicals() && Event(w).eventId == Event(i).eventId :: (i, w)
    }

    /** The label of a business copy: a retry has the winner's fields. */
    predicate Labelled(i: int, w: int, kind: DuplicateKind) {
      && i in BusinessCopies() && w in Canonicals() && Event(w).eventId == Event(i).eventId
      && kind == if Event(i) == Event(w) then BusinessDuplicate else PayloadConflict
    }
  }

  // ---------------------------------------------------------------- the orders are total

  lemma NullsLastTotal(a: Option<int>, b: Option<int>, c: Option<int>)
    ensures !NullsLast(a, a)
    ensures a == b || NullsLast(a, b) || NullsLast(b, a)
    ensures NullsLast(a, b) && NullsLast(b, c) ==> NullsLast(a, c)
  {
  }

  lemma TransportLtTotal(a: Transport, b: Transport, c: Transport)
    ensures !TransportLt(a, a)
    ensures a == b || TransportLt(a, b) || TransportLt(b, a)
    ensures TransportLt(a, b) && TransportLt(b, c) ==> TransportLt(a, c)
  {
    hide Lt;
    LtIrreflexive(a.source);
    LtIrreflexive(a.topic);
    LtTotal(a.source, b.source);
    LtTotal(a.topic, b.topic);
    if Lt(a.source, b.source) && Lt(b.source, c.source) { LtTransitive(a.source, b.source, c.source); }
    if Lt(a.topic, b.topic) && Lt(b.topic, c.topic) { LtTransitive(a.topic, b.topic, c.topic); }
  }

  /** Rows neither of which was ingested before the other tie in both keys. */
  lemma IngestOrder<D>(l: Ledger<D>, a: Raw, b: Raw, c: Raw)
    ensures !l.IngestedBefore(a, a)
    ensures !l.IngestedBefore(a, b) && !l.IngestedBefore(b, a) ==>
              a.ingestedAt == b.ingestedAt && l.hash(a.payload) == l.hash(b.payload)
    ensures l.IngestedBefore(a, b) && l.IngestedBefore(b, c) ==> l.IngestedBefore(a, c)
    ensures l.IngestedBefore(a, b) ==> !l.IngestedBefore(b, a)
  {
    hide Lt;
    var ha, hb, hc := l.hash(a.payload), l.hash(b.payload), l.hash(c.payload);
    LtIrreflexive(ha);
    LtTotal(ha, hb);
    if Lt(ha, hb) && Lt(hb, hc) { LtTransitive(ha, hb, hc); }
    if Lt(ha, hb) && Lt(hb, ha) { LtTransitive(ha, hb, ha); }
  }

  lemma RankLaws<D>(l: Ledger<D>, i: int, j: int, k: int)
    requires 0 <= i < |l.raw| && 0 <= j < |l.raw| && 0 <= k < |l.raw|
    ensures i == j || l.RankedBefore(i, j) || l.RankedBefore(j, i)
    ensures !l.RankedBefore(i, i)
    ensures l.RankedBefore(i, j) && l.RankedBefore(j, k) ==> l.RankedBefore(i, k)
  {
    hide Lt, NullsLast;
    IngestOrder(l, l.raw[i], l.raw[j], l.raw[k]);
    IngestOrder(l, l.raw[j], l.raw[k], l.raw[i]);
    IngestOrder(l, l.raw[k], l.raw[i], l.raw[j]);
    if l.RankedBefore(i, j) && l.RankedBefore(j, k) { SameKeysSameOrder(l, i, j, k); }
  }

  lemma SameKeysSameOrder<D>(l: Ledger<D>, i: int, j: int, k: int)
    requires 0 <= i < |l.raw| && 0 <= j < |l.raw| && 0 <= k < |l.raw|
    requires l.RankedBefore(i, j) && l.RankedBefore(j, k)
    ensures l.RankedBefore(i, k)
  {
    hide Lt, NullsLast;
    var a, b, c := l.raw[i], l.raw[j], l.raw[k];
    IngestOrder(l, a, b, c);
    IngestOrder(l, b, c, a);
    IngestOrder(l, c, a, b);
  }

  lemma EventOrderLaws<D>(l: Ledger<D>, i: int, j: int, k: int)
    requires l.IsUnique(i) && l.IsUnique(j) && l.IsUnique(k)
    ensures i == j || l.EventBefore(i, j) || l.EventBefore(j, i)
    ensures !l.EventBefore(i, i)
    ensures l.EventBefore(i, j) && l.EventBefore(j, k) ==> l.EventBefore(i, k)
  {
    hide NullsLast, TransportLt;
    var (a, b, c) := (l.raw[i], l.raw[j], l.raw[k]);
    NullsLastTotal(a.kafkaTimestamp, b.kafkaTimestamp, c.kafkaTimestamp);
    TransportLtTotal(a.transport, b.transport, c.transport);
    if a.transport == b.transport { UniquePerTransport(l, i, j); }
  }

  // ---------------------------------------------------------------- one row per transport, one per event id

  lemma UniquePerTransport<D>(l: Ledger<D>, i: int, j: int)
    requires l.IsUnique(i) && l.IsUnique(j) && l.raw[i].transport == l.raw[j].transport
    ensures i == j
  {
    RankLaws(l, i, j, i);
  }

  /** Every valid delivery has one row standing for its transport record. */
  lemma UniqueExists<D>(l: Ledger<D>, i: int)
    requires l.IsValid(i)
    ensures exists u :: l.IsUnique(u) && l.raw[u].transport == l.raw[i].transport
  {
    hide l.RankedBefore;
    var s := set j | 0 <= j < |l.raw| && l.IsValid(j) && l.raw[j].transport == l.raw[i].transport;
    var less := (a: int, b: int) => l.RankedBefore(a, b);
    assert i in s;
    forall a, b, c | a in s && b in s && c in s
      ensures a == b || less(a, b) || less(b, a)
      ensures !less(a, a)
      ensures less(a, b) && less(b, c) ==> less(a, c)
    {
      RankLaws(l, a, b, c);
    }
    Sums.LeastExists(s, less);
    var u :| u in s && forall x :: x in s ==> x == u || less(u, x);
    forall j | j in s && j != u ensures l.RankedBefore(u, j) { assert less(u, j); }
    assert l.IsUnique(u);
  }

  lemma CanonicalPerEventId<D>(l: Ledger<D>, i: int, j: int)
    requires l.IsCanonical(i) && l.IsCanonical(j) && l.Event(i).eventId == l.Event(j).eventId
    ensures i == j
  {
    EventOrderLaws(l, i, j, i);
  }

  /** Every event id among the unique records has a winner, and it is the minimum in the event order. */
  lemma CanonicalExists<D>(l: Ledger<D>, i: int)
    requires l.IsUnique(i)
    ensures exists w :: l.IsCanonical(w) && l.Event(w).eventId == l.Event(i).eventId
  {
    hide l.EventBefore;
    var s := set j | 0 <= j < |l.raw| && l.IsUnique(j) && l.Event(j).eventId == l.Event(i).eventId;
    var less := (a: int, b: int) => l.EventBefore(a, b);
    assert i in s;
    forall a, b, c | a in s && b in s && c in s
      ensures a == b || less(a, b) || less(b, a)
      ensures !less(a, a)
      ensures less(a, b) && less(b, c) ==> less(a, c)
    {
      EventOrderLaws(l, a, b, c);
    }
    Sums.LeastExists(s, less);
    var w :| w in s && forall x :: x in s ==> x == w || less(w, x);
    forall j | j in s && j != w ensures l.EventBefore(w, j) { assert less(w, j); }
    assert l.IsCanonical(w);
  }

  ghost function Winner<D>(l: Ledger<D>, i: int): (w: int)
    requires l.IsUnique(i)
    ensures l.IsCanonical(w) && l.Event(w).eventId == l.Event(i).eventId
  {
    CanonicalExists(l, i);
    var w :| l.IsCanonical(w) && l.Event(w).eventId == l.Event(i).eventId;
    w
  }

  /** Each event id of a unique record has exactly one canonical row, no later than any of its copies. */
  lemma OneCanonicalRowPerEvent<D>(l: Ledger<D>, i: int)
    requires l.IsUnique(i)
    ensures exists w :: w in l.Canonicals() && l.Event(w).eventId == l.Event(i).eventId
                        && (forall v :: v in l.Canonicals() && l.Event(v).eventId == l.Event(i).eventId ==> v == w)
                        && l.Event(w).eventTime <= l.Event(i).eventTime
  {
    var w := Winner(l, i);
    assert w in l.Canonicals();
    forall v | v in l.Canonicals() && l.Event(v).eventId == l.Event(i).eventId ensures v == w {
      CanonicalPerEventId(l, v, w);
    }
  }

  /** Among the valid copies of a transport record the kept one was ingested first, and among those has the least hash. */
  lemma KeptCopyIsFirstIngested<D>(l: Ledger<D>, u: int, i: int)
    requires l.IsUnique(u) && l.IsValid(i) && l.raw[i].transport == l.raw[u].transport
    ensures l.raw[u].ingestedAt.None? ==> l.raw[i].ingestedAt.None?
    ensures l.raw[u].ingestedAt.Some? && l.raw[i].ingestedAt.Some? ==> l.raw[u].ingestedAt.value <= l.raw[i].ingestedAt.value
    ensures l.raw[i].ingestedAt == l.raw[u].ingestedAt ==> Le(l.hash(l.raw[u].payload), l.hash(l.raw[i].payload))
  {
    hide Lt;
    IngestOrder(l, l.raw[u], l.raw[i], l.raw[u]);
    LtTotal(l.hash(l.raw[u].payload), l.hash(l.raw[i].payload));
  }

  /** The winner of an event id has the least event time, then the least Kafka timestamp with nulls last, then the least transport. */
  lemma WinnerIsLeast<D>(l: Ledger<D>, w: int, i: int)
    requires l.IsCanonical(w) && l.IsUnique(i) && l.Event(i).eventId == l.Event(w).eventId && i != w
    ensures l.Event(w).eventTime <= l.Event(i).eventTime
    ensures l.Event(w).eventTime == l.Event(i).eventTime ==>
              var a, b := l.raw[w].kafkaTimestamp, l.raw[i].kafkaTimestamp;
              (a.None? ==> b.None?) && (a.Some? && b.Some? ==> a.value <= b.value)
    ensures l.Event(w).eventTime == l.Event(i).eventTime && l.raw[w].kafkaTimestamp == l.raw[i].kafkaTimestamp ==>
              var a, b := l.raw[w].transport, l.raw[i].transport;
              && Le(a.source, b.source)
              && (a.source == b.source ==> Le(a.topic, b.topic))
              && (a.source == b.source && a.topic == b.topic ==> a.partition <= b.partition)
              && (a.source == b.source && a.topic == b.topic && a.partition == b.partition ==> a.offset < b.offset)
  {
    hide Lt;
    LtIrreflexive(l.raw[w].transport.source);
    LtIrreflexive(l.raw[w].transport.topic);
    assert l.EventBefore(w, i);
  }

  /** A copy is a retry exactly if it repeats the winner's time and details. */
  lemma RetryIff<D>(l: Ledger<D>, i: int, w: int, kind: DuplicateKind)
    requires l.Labelled(i, w, kind)
    ensures kind == BusinessDuplicate <==> l.Event(i).eventTime == l.Event(w).eventTime && l.Event(i).detail == l.Event(w).detail
    ensures kind == PayloadConflict <==> l.Event(i).eventTime != l.Event(w).eventTime || l.Event(i).detail != l.Event(w).detail
  {
  }

  /** Every business copy gets exactly one label. */
  lemma OneLabelPerCopy<D>(l: Ledger<D>, i: int)
    requires i in l.BusinessCopies()
    ensures exists w, kind :: l.Labelled(i, w, kind)
    ensures forall w, kind, w', kind' :: l.Labelled(i, w, kind) && l.Labelled(i, w', kind') ==> w == w' && kind == kind'
  {
    var w := Winner(l, i);
    assert l.Labelled(i, w, if l.Event(i) == l.Event(w) then BusinessDuplicate else PayloadConflict);
    forall w, kind, w', kind' | l.Labelled(i, w, kind) && l.Labelled(i, w', kind') ensures w == w' && kind == kind' {
      CanonicalPerEventId(l, w, w');
    }
  }

  // ---------------------------------------------------------------- conservation of rows

  /** The check in `promote_events`: the three outputs add up to the input. */
  predicate Reconciles<D>(l: Ledger<D>) {
    |l.raw| == |l.Canonicals()| + |l.Invalids()| + (|l.BusinessCopies()| + |l.JoinedTransportCopies()|)
  }

  /** The event id of a transport copy is also carried by some unique record. */
  predicate CopySurvives<D>(l: Ledger<D>, i: int) {
    l.IsValid(i) && exists u :: u in l.Uniques() && l.Event(u).eventId == l.Event(i).eventId
  }

  function SurvivingCopies<D>(l: Ledger<D>): set<int> {
    set i | i in l.TransportCopies() && CopySurvives(l, i)
  }

  lemma JoinedCopiesCount<D>(l: Ledger<D>)
    ensures |l.JoinedTransportCopies()| == |SurvivingCopies(l)|
  {
    var joined, survivors := l.JoinedTransportCopies(), SurvivingCopies(l);
    forall p | p in joined ensures p.0 in survivors {
      assert p.1 in l.Uniques();
    }
    forall p, q | p in joined && q in joined && p.0 == q.0 ensures p == q {
      CanonicalPerEventId(l, p.1, q.1);
    }
    forall i | i in survivors ensures exists p :: p in joined && p.0 == i {
      var u :| u in l.Uniques() && l.Event(u).eventId == l.Event(i).eventId;
      assert (i, Winner(l, u)) in joined;
    }
    Sums.ImageSize(joined, survivors, (p: (int, int)) => p.0);
  }

  /** The reconciliation check passes exactly when every transport copy's event id survives among the unique records. */
  lemma ReconcilesIff<D>(l: Ledger<D>)
    ensures Reconciles(l) <==> forall i :: i in l.TransportCopies() ==> CopySurvives(l, i)
  {
    hide l.IsUnique, l.IsCanonical, CopySurvives;
    var all := Sums.Below(|l.raw|);
    CanonicalsAreUnique(l);
    assert |l.Canonicals()| + |l.BusinessCopies()| == |l.Uniques()| by {
      assert l.Uniques() == l.Canonicals() + l.BusinessCopies();
    }
    UniquesAreValid(l);
    assert |all| == |l.Invalids()| + |l.Uniques()| + |l.TransportCopies()| by {
      assert all == l.Invalids() + l.Uniques() + l.TransportCopies();
    }
    JoinedCopiesCount(l);
    var survivors := SurvivingCopies(l);
    if survivors != l.TransportCopies() {
      assert survivors < l.TransportCopies();
      Sums.SubsetSize(survivors, l.TransportCopies());
    }
    assert survivors == l.TransportCopies() <==> forall i :: i in l.TransportCopies() ==> CopySurvives(l, i);
  }

  lemma CanonicalsAreUnique<D>(l: Ledger<D>)
    ensures l.Canonicals() <= l.Uniques()
  {
  }

  lemma UniquesAreValid<D>(l: Ledger<D>)
    ensures l.Uniques() !! l.Invalids() && l.Uniques() !! l.TransportCopies() && l.Invalids() !! l.TransportCopies()
    ensures forall i :: 0 <= i < |l.raw| <==> i in l.Uniques() || i in l.Invalids() || i in l.TransportCopies()
  {
  }

  /** Kafka never stores two different payloads at one transport position. */
  ghost predicate OnePayloadPerTransport<D>(l: Ledger<D>) {
    forall i, j :: 0 <= i < |l.raw| && 0 <= j < |l.raw| && l.raw[i].transport == l.raw[j].transport ==>
      l.raw[i].payload == l.raw[j].payload
  }

  /** On such a log the check always passes. */
  lemma KafkaLogsReconcile<D>(l: Ledger<D>)
    requires OnePayloadPerTransport(l)
    ensures Reconciles(l)
  {
    forall i | i in l.TransportCopies() ensures CopySurvives(l, i) {
      UniqueExists(l, i);
      var u :| l.IsUnique(u) && l.raw[u].transport == l.raw[i].transport;
      assert u in l.Uniques();
    }
    ReconcilesIff(l);
  }

  /** A reused offset that carries another event makes the check fire. */
  lemma ReusedOffsetFails()
    ensures var t := Transport("s", "t", 0, 7);
            !Reconciles(Ledger([Raw(t, None, Some(1), "a"), Raw(t, None, Some(2), "b")],
                               (p: Bytes) => Valid(Fields(p, 0, 0)), (p: Bytes) => p))
  {
    var t := Transport("s", "t", 0, 7);
    var l := Ledger([Raw(t, None, Some(1), "a"), Raw(t, None, Some(2), "b")],
                    (p: Bytes) => Valid(Fields(p, 0, 0)), (p: Bytes) => p);
    assert l.RankedBefore(0, 1) && !l.RankedBefore(1, 0);
    assert l.IsUnique(0) && !l.IsUnique(1);
    assert 1 in l.TransportCopies();
    forall u | u in l.Uniques() ensures l.Event(u).eventId != l.Event(1).eventId {
      assert u == 0 && "a"[0] != "b"[0];
    }
    ReconcilesIff(l);
  }

  // ---------------------------------------------------------------- the order of the input

  /** The rows, as values, that stand for their transport record. */
  function UniqueRows<D>(l: Ledger<D>): set<Raw> {
    set i | i in l.Uniques() :: l.raw[i]
  }

  /** `r` is valid and no valid copy of it was ingested before it. */
  ghost predicate Earliest<D>(l: Ledger<D>, r: Raw) {
    && r in l.raw && l.parse(r.payload).Valid?
    && forall o :: o in l.raw && o.transport == r.transport && l.parse(o.payload).Valid? ==> !l.IngestedBefore(o, r)
  }

  /** The earliest copies of a transport record are equal rows. */
  ghost predicate TiesAreEqual<D>(l: Ledger<D>) {
    forall a, b :: Earliest(l, a) && Earliest(l, b) && a.transport == b.transport ==> a == b
  }

  lemma UniqueIsEarliest<D>(l: Ledger<D>, i: int)
    requires l.IsUnique(i)
    ensures Earliest(l, l.raw[i])
  {
    forall o | o in l.raw && o.transport == l.raw[i].transport && l.parse(o.payload).Valid?
      ensures !l.IngestedBefore(o, l.raw[i])
    {
      var j :| 0 <= j < |l.raw| && l.raw[j] == o;
      IngestOrder(l, l.raw[i], o, o);
      assert l.IsValid(j);
    }
  }

  /** Without differing ties, which rows win depends only on which rows there are. */
  lemma UniqueRowsAreEarliest<D>(l: Ledger<D>, r: Raw)
    requires TiesAreEqual(l)
    ensures r in UniqueRows(l) <==> Earliest(l, r)
  {
    if Earliest(l, r) {
      var j :| 0 <= j < |l.raw| && l.raw[j] == r;
      UniqueExists(l, j);
      var u :| l.IsUnique(u) && l.raw[u].transport == r.transport;
      UniqueIsEarliest(l, u);
      assert u in l.Uniques() && l.raw[u] == r;
    }
    if r in UniqueRows(l) {
      var i :| i in l.Uniques() && l.raw[i] == r;
      UniqueIsEarliest(l, i);
    }
  }

  function Swap<T>(s: seq<T>, i: nat, j: nat): (t: seq<T>)
    requires i < |s| && j < |s|
    ensures |t| == |s| && multiset(t) == multiset(s)
  {
    s[i := s[j]][j := s[i]]
  }

  lemma SwappedTieWins<D>(l: Ledger<D>, i: nat, j: nat)
    requires l.IsUnique(i) && j < |l.raw| && Earliest(l, l.raw[j]) && l.raw[i].transport == l.raw[j].transport
    ensures l.(raw := Swap(l.raw, i, j)).IsUnique(i)
  {
    var m := l.(raw := Swap(l.raw, i, j));
    var c, b := l.raw[i], l.raw[j];
    UniqueIsEarliest(l, i);
    assert m.raw[i] == b;
    forall k | m.IsValid(k) && m.raw[k].transport == b.transport && k != i ensures m.RankedBefore(i, k) {
      var o := m.raw[k];
      assert o in l.raw;
      assert !l.IngestedBefore(o, b);
      assert l.IsValid(j) && (j != i ==> l.RankedBefore(i, j));
      if k < i && k != j {
        assert o == l.raw[k] && l.IsValid(k);
        assert l.RankedBefore(i, k) && l.IngestedBefore(c, o);
        TiedBefore(l, c, b, o);
      }
    }
  }

  lemma TiedBefore<D>(l: Ledger<D>, c: Raw, b: Raw, o: Raw)
    requires l.IngestedBefore(c, o) && !l.IngestedBefore(c, b) && !l.IngestedBefore(b, c)
    ensures l.IngestedBefore(b, o)
  {
    IngestOrder(l, c, b, o);
  }

  /** The surviving rows are the same for every order of the input exactly when tied copies are equal rows. */
  lemma OrderDoesNotMatterIff<D>(l: Ledger<D>)
    ensures (forall raw' :: multiset(raw') == multiset(l.raw) ==> UniqueRows(l.(raw := raw')) == UniqueRows(l))
            <==> TiesAreEqual(l)
  {
    if TiesAreEqual(l) {
      forall raw' | multiset(raw') == multiset(l.raw) ensures UniqueRows(l.(raw := raw')) == UniqueRows(l) {
        ReorderedKeepsUniqueRows(l, l.(raw := raw'));
      }
    } else {
      var a, b :| Earliest(l, a) && Earliest(l, b) && a.transport == b.transport && a != b;
      DifferingTieShows(l, a, b);
    }
  }

  lemma ReorderedKeepsUniqueRows<D>(l: Ledger<D>, m: Ledger<D>)
    requires TiesAreEqual(l) && multiset(m.raw) == multiset(l.raw) && m.parse == l.parse && m.hash == l.hash
    ensures UniqueRows(m) == UniqueRows(l)
  {
    forall r ensures r in m.raw <==> r in l.raw {
      assert r in m.raw <==> r in multiset(m.raw);
      assert r in l.raw <==> r in multiset(l.raw);
    }
    forall r ensures Earliest(m, r) <==> Earliest(l, r) {
      SameEarliest(l, m, r);
      SameEarliest(m, l, r);
    }
    forall r ensures r in UniqueRows(m) <==> r in UniqueRows(l) {
      UniqueRowsAreEarliest(l, r);
      UniqueRowsAreEarliest(m, r);
    }
  }

  lemma SameEarliest<D>(l: Ledger<D>, m: Ledger<D>, r: Raw)
    requires (forall r :: r in m.raw <==> r in l.raw) && m.parse == l.parse && m.hash == l.hash
    ensures Earliest(l, r) ==> Earliest(m, r)
  {
    if Earliest(l, r) {
      forall o | o in m.raw && o.transport == r.transport && m.parse(o.payload).Valid? ensures !m.IngestedBefore(o, r) {
        assert !l.IngestedBefore(o, r);
      }
    }
  }

  lemma DifferingTieShows<D>(l: Ledger<D>, a: Raw, b: Raw)
    requires Earliest(l, a) && Earliest(l, b) && a.transport == b.transport && a != b
    ensures exists raw' :: multiset(raw') == multiset(l.raw) && UniqueRows(l.(raw := raw')) != UniqueRows(l)
  {
    hide l.RankedBefore, l.IngestedBefore;
    var k :| 0 <= k < |l.raw| && l.raw[k] == a;
    UniqueExists(l, k);
    var i :| l.IsUnique(i) && l.raw[i].transport == a.transport;
    var other := if l.raw[i] == a then b else a;
    var j :| 0 <= j < |l.raw| && l.raw[j] == other;
    SwappedTieWins(l, i, j);
    var m := l.(raw := Swap(l.raw, i, j));
    assert i in m.Uniques() && m.raw[i] == other;
    assert other in UniqueRows(m);
    if other in UniqueRows(l) {
      var u :| u in l.Uniques() && l.raw[u] == other;
      UniquePerTransport(l, u, i);
    }
    assert multiset(m.raw) == multiset(l.raw);
  }

  function CanonicalRows<D>(l: Ledger<D>): set<Raw> {
    set i | i in l.Canonicals() :: l.raw[i]
  }

  /** `r` comes before every other unique row of its event id. */
  ghost predicate FirstOfEvent<D>(l: Ledger<D>, rows: set<Raw>, r: Raw) {
    && r in rows && l.parse(r.payload).Valid?
    && forall o | o in rows && l.parse(o.payload).Valid?
                  && l.parse(o.payload).fields.eventId == l.parse(r.payload).fields.eventId :: o == r || l.RowBefore(r, o)
  }

  lemma CanonicalRowsAreFirst<D>(l: Ledger<D>, r: Raw)
    ensures r in CanonicalRows(l) <==> FirstOfEvent(l, UniqueRows(l), r)
  {
    if r in CanonicalRows(l) {
      var i :| i in l.Canonicals() && l.raw[i] == r;
      assert i in l.Uniques();
      forall o | o in UniqueRows(l) && l.parse(o.payload).Valid?
                 && l.parse(o.payload).fields.eventId == l.parse(r.payload).fields.eventId
        ensures o == r || l.RowBefore(r, o)
      {
        var j :| j in l.Uniques() && l.raw[j] == o;
        assert j == i || l.EventBefore(i, j);
      }
    }
    if FirstOfEvent(l, UniqueRows(l), r) {
      var i :| i in l.Uniques() && l.raw[i] == r;
      forall j | l.IsUnique(j) && l.Event(j).eventId == l.Event(i).eventId && j != i ensures l.EventBefore(i, j) {
        assert j in l.Uniques() && l.raw[j] in UniqueRows(l);
        if l.raw[j] == r { UniquePerTransport(l, i, j); }
      }
      assert i in l.Canonicals();
    }
  }

  /** On a log without differing ties, the canonical rows do not depend on the order of the input. */
  lemma CanonicalRowsIgnoreOrder<D>(l: Ledger<D>, raw': seq<Raw>)
    requires TiesAreEqual(l) && multiset(raw') == multiset(l.raw)
    ensures CanonicalRows(l.(raw := raw')) == CanonicalRows(l)
  {
    var m := l.(raw := raw');
    ReorderedKeepsUniqueRows(l, m);
    forall r ensures r in CanonicalRows(m) <==> r in CanonicalRows(l) {
      CanonicalRowsAreFirst(l, r);
      CanonicalRowsAreFirst(m, r);
      assert FirstOfEvent(l, UniqueRows(l), r) <==> FirstOfEvent(m, UniqueRows(m), r);
    }
  }
}
