/** The producer simulator as a state machine, and what canonicalization makes of its messages. */
module InventoryProducer {
  import opened Basics
  import opened CanonicalEvents
  import opened InventoryHourly
  import opened ArrivalOrder
  import opened EventContract

  type Event = Fields<Movement>

  datatype Kind = Normal | Late | Retry | Conflict

  /** The random number behind one message, and what `generate` would return for it. Which recent event a copy is
      made of, and by how much a conflicting one is later, is left open. */
  datatype Draw = Draw(r: real, onTime: Event, late: Event)

  datatype Rates = Rates(duplicate: real, conflict: real, late: real)

  datatype Message = Message(kind: Kind, event: Event)

  const MAX_RECENT: nat := 1000
  const MAX_DELAY: nat := 120

  /** Same event id, store and product; one more unit, some seconds later. */
  function ConflictingCopy(original: Event, delaySeconds: nat): Event {
    original.(eventTime := original.eventTime + delaySeconds * MICROS,
              detail := original.detail.(qtyDelta := original.detail.qtyDelta + 1))
  }

  /** A deque of bounded length: appending to a full one drops its oldest entry and no other. */
  function Appended(recent: seq<Event>, e: Event): (r: seq<Event>)
    ensures |recent| < 1000 ==> r == recent + [e]
    ensures |recent| == 1000 ==> r == recent[1..] + [e]
    ensures |r| <= 1000
  {
    var all := recent + [e];
    if |all| > MAX_RECENT then all[|all| - MAX_RECENT..] else all
  }

  /** `e` conflicts with `o`: the same id, store and product, one more unit, whole seconds later, from one to 120. */
  ghost predicate ConflictsWith(e: Event, o: Event) {
    && e.eventId == o.eventId
    && o.eventTime + 1_000_000 <= e.eventTime <= o.eventTime + 120_000_000 && (e.eventTime - o.eventTime) % 1_000_000 == 0
    && e.detail == o.detail.(qtyDelta := o.detail.qtyDelta + 1)
  }

  /** What may be sent for a draw: the number decides the kind, and copies are made of remembered events only. */
  ghost predicate MaySend(recent: seq<Event>, d: Draw, rates: Rates, m: Message) {
    match m.kind
    case Retry => d.r < rates.duplicate && m.event in recent
    case Conflict =>
      rates.duplicate <= d.r < rates.duplicate + rates.conflict && exists o :: o in recent && ConflictsWith(m.event, o)
    case Late => d.r < rates.late && NoCopyDue(recent, d, rates) && m.event == d.late
    case Normal => rates.late <= d.r && NoCopyDue(recent, d, rates) && m.event == d.onTime
  }

  /** Nothing is remembered, or the number is past both shares of copies. */
  predicate NoCopyDue(recent: seq<Event>, d: Draw, rates: Rates) {
    recent == [] || (d.r >= rates.duplicate && d.r >= rates.duplicate + rates.conflict)
  }

  /** The producer's memory of recent normal events. */
  class Producer {
    var recent: seq<Event>

    constructor ()
      ensures recent == []
    {
      recent := [];
    }

    /** Only a normal event enters the memory. */
    method NextMessage(d: Draw, rates: Rates) returns (m: Message)
      modifies this
      ensures MaySend(old(recent), d, rates, m)
      ensures recent == if m.kind == Normal then Appended(old(recent), m.event) else old(recent)
    {
      if d.r < rates.duplicate && recent != [] {
        var original := Choice(recent);
        return Message(Retry, original);
      }
      if d.r < rates.duplicate + rates.conflict && recent != [] {
        var original := Choice(recent);
        var delay: nat :| 1 <= delay <= MAX_DELAY;
        assert ConflictsWith(ConflictingCopy(original, delay), original);
        return Message(Conflict, ConflictingCopy(original, delay));
      }
      if d.r < rates.late {
        return Message(Late, d.late);
      }
      recent := Appended(recent, d.onTime);
      m := Message(Normal, d.onTime);
    }

    method Run(draws: seq<Draw>, rates: Rates) returns (sent: seq<Message>, ghost memory: seq<seq<Event>>)
      requires recent == []
      modifies this
      ensures IsRun(draws, rates, sent, memory) && recent == memory[|draws|]
    {
      sent := [];
      memory := [recent];
      for i := 0 to |draws|
        invariant IsRun(draws[..i], rates, sent, memory) && recent == memory[i]
      {
        ghost var before, known := sent, memory;
        var m := NextMessage(draws[i], rates);
        sent := sent + [m];
        memory := memory + [recent];
        RunGrows(draws[..i], rates, before, known, draws[i], m, recent);
        assert draws[..i + 1] == draws[..i] + [draws[i]];
      }
      assert draws[..|draws|] == draws;
    }
  }

  /** `random.choice`. */
  method Choice(recent: seq<Event>) returns (e: Event)
    requires recent != []
    ensures e in recent
  {
    var k: nat :| k < |recent|;
    e := recent[k];
  }

  /** The messages of a run, and the memory before each of them and at the end. */
  ghost predicate IsRun(draws: seq<Draw>, rates: Rates, ms: seq<Message>, memory: seq<seq<Event>>) {
    && |ms| == |draws| && |memory| == |draws| + 1 && memory[0] == []
    && forall i :: 0 <= i < |draws| ==>
         MaySend(memory[i], draws[i], rates, ms[i])
         && memory[i + 1] == if ms[i].kind == Normal then Appended(memory[i], ms[i].event) else memory[i]
  }

  lemma RunGrows(draws: seq<Draw>, rates: Rates, ms: seq<Message>, memory: seq<seq<Event>>, d: Draw, m: Message, after: seq<Event>)
    requires IsRun(draws, rates, ms, memory) && MaySend(memory[|draws|], d, rates, m)
    requires after == if m.kind == Normal then Appended(memory[|draws|], m.event) else memory[|draws|]
    ensures IsRun(draws + [d], rates, ms + [m], memory + [after])
  {
    hide MaySend, Appended;
  }

  // ---------------------------------------------------------------- what a run can contain

  predicate Fresh(m: Message) {
    m.kind == Normal || m.kind == Late
  }

  /** Generated events have ids no other draw had. */
  ghost predicate GoodDraws(draws: seq<Draw>) {
    && (forall i :: 0 <= i < |draws| ==> draws[i].onTime.eventId == draws[i].late.eventId)
    && (forall i, j :: 0 <= i < j < |draws| ==> draws[i].onTime.eventId != draws[j].onTime.eventId)
  }

  /** Message `i` repeats the normal message `o` before it, or conflicts with it. */
  ghost predicate Copies(ms: seq<Message>, i: int, o: int) {
    && 0 <= o < i < |ms| && ms[o].kind == Normal
    && (ms[i].kind == Retry ==> ms[i].event == ms[o].event)
    && (ms[i].kind == Conflict ==> ConflictsWith(ms[i].event, ms[o].event))
  }

  ghost predicate GoodRun(ms: seq<Message>) {
    && (forall i :: 0 <= i < |ms| && !Fresh(ms[i]) ==> exists o :: Copies(ms, i, o))
    && (forall i, j :: 0 <= i < j < |ms| && Fresh(ms[i]) && Fresh(ms[j]) ==> ms[i].event.eventId != ms[j].event.eventId)
  }

  /** What is remembered was sent as a normal message. */
  lemma {:induction false} MemoryHoldsSentEvents(draws: seq<Draw>, rates: Rates, ms: seq<Message>, memory: seq<seq<Event>>,
                                                 k: nat, e: Event)
    requires IsRun(draws, rates, ms, memory) && k < |memory| && e in memory[k]
    ensures exists o :: 0 <= o < k && ms[o] == Message(Normal, e)
  {
    hide MaySend;
    if k > 0 {
      assert memory[k - 1 + 1] == if ms[k - 1].kind == Normal then Appended(memory[k - 1], ms[k - 1].event) else memory[k - 1];
      if e in memory[k - 1] {
        MemoryHoldsSentEvents(draws, rates, ms, memory, k - 1, e);
      } else {
        assert ms[k - 1] == Message(Normal, e);
      }
    }
  }

  /** Every run sends fresh events under new ids, and otherwise only retries and later conflicting copies of normal ones. */
  lemma RunsAreGood(draws: seq<Draw>, rates: Rates, ms: seq<Message>, memory: seq<seq<Event>>)
    requires GoodDraws(draws) && IsRun(draws, rates, ms, memory)
    ensures GoodRun(ms)
  {
    forall i | 0 <= i < |ms| && !Fresh(ms[i]) ensures exists o :: Copies(ms, i, o) {
      var original := OriginalInMemory(memory[i], draws[i], rates, ms[i]);
      MemoryHoldsSentEvents(draws, rates, ms, memory, i, original);
      var o :| 0 <= o < i && ms[o] == Message(Normal, original);
      assert Copies(ms, i, o);
    }
    forall i, j | 0 <= i < j < |ms| && Fresh(ms[i]) && Fresh(ms[j]) ensures ms[i].event.eventId != ms[j].event.eventId {
      assert MaySend(memory[i], draws[i], rates, ms[i]) && MaySend(memory[j], draws[j], rates, ms[j]);
    }
  }

  lemma OriginalInMemory(recent: seq<Event>, d: Draw, rates: Rates, m: Message) returns (original: Event)
    requires MaySend(recent, d, rates, m) && !Fresh(m)
    ensures original in recent
    ensures m.kind == Retry ==> m.event == original
    ensures m.kind == Conflict ==> ConflictsWith(m.event, original)
  {
    if m.kind == Retry { original := m.event; } else { original :| original in recent && ConflictsWith(m.event, original); }
  }

  // ---------------------------------------------------------------- delivery

  /** Row `i` of Bronze is message `i`, stored at a position of its own, and its payload parses back to the event. */
  ghost predicate Delivers(l: Deliveries, ms: seq<Message>) {
    && |l.raw| == |ms|
    && (forall i :: 0 <= i < |ms| ==> l.parse(l.raw[i].payload) == Valid(ms[i].event))
    && (forall i, j :: 0 <= i < j < |ms| ==> l.raw[i].transport != l.raw[j].transport)
  }

  /** Kafka timestamp first, nulls last, then the place in the log: what decides between a retry and its original. */
  predicate StoredBefore(a: Raw, b: Raw) {
    NullsLast(a.kafkaTimestamp, b.kafkaTimestamp)
    || (a.kafkaTimestamp == b.kafkaTimestamp && TransportLt(a.transport, b.transport))
  }

  /** Every retry of message `o` is stored after it. */
  ghost predicate RetriesFollow(l: Deliveries, ms: seq<Message>, o: int)
    requires |l.raw| == |ms| && 0 <= o < |ms|
  {
    forall j :: 0 <= j < |ms| && ms[j].kind == Retry && ms[j].event.eventId == ms[o].event.eventId ==>
      StoredBefore(l.raw[o], l.raw[j])
  }

  lemma EveryRowIsUnique(l: Deliveries, ms: seq<Message>, i: int)
    requires Delivers(l, ms) && 0 <= i < |ms|
    ensures l.IsUnique(i) && l.Event(i) == ms[i].event
  {
  }

  /** No conflicting copy ever wins. */
  lemma ConflictsNeverWin(l: Deliveries, ms: seq<Message>, i: int)
    requires Delivers(l, ms) && GoodRun(ms) && 0 <= i < |ms| && ms[i].kind == Conflict
    ensures !l.IsCanonical(i)
  {
    var o :| Copies(ms, i, o);
    EveryRowIsUnique(l, ms, i);
    EveryRowIsUnique(l, ms, o);
    assert !l.EventBefore(i, o);
  }

  /** The fresh message behind any message. */
  lemma Origin(ms: seq<Message>, i: int) returns (o: int)
    requires GoodRun(ms) && 0 <= i < |ms|
    ensures 0 <= o <= i && Fresh(ms[o]) && ms[o].event.eventId == ms[i].event.eventId
    ensures o != i ==> Copies(ms, i, o)
    ensures o == i <==> Fresh(ms[i])
  {
    if Fresh(ms[i]) {
      o := i;
    } else {
      o :| Copies(ms, i, o);
    }
  }

  /** Whatever the timestamps, a canonical row carries the fresh event of its id. */
  lemma CanonicalCarriesFreshEvent(l: Deliveries, ms: seq<Message>, w: int, o: int)
    requires Delivers(l, ms) && GoodRun(ms) && l.IsCanonical(w) && 0 <= o < |ms| && Fresh(ms[o])
    requires l.Event(w).eventId == ms[o].event.eventId
    ensures l.Event(w) == ms[o].event && ms[w].kind != Conflict
  {
    EveryRowIsUnique(l, ms, w);
    var o' := Origin(ms, w);
    assert o' == o;
    if ms[w].kind == Conflict { ConflictsNeverWin(l, ms, w); }
  }

  /** The canonical events of a run are exactly its normal and late events, one row each. */
  lemma CanonicalEventsAreFreshEvents(l: Deliveries, ms: seq<Message>, e: Event)
    requires Delivers(l, ms) && GoodRun(ms)
    ensures (exists w :: w in l.Canonicals() && l.Event(w) == e) <==> (exists o :: 0 <= o < |ms| && Fresh(ms[o]) && ms[o].event == e)
    ensures forall w, v :: w in l.Canonicals() && v in l.Canonicals() && l.Event(w).eventId == l.Event(v).eventId ==> w == v
  {
    if w :| w in l.Canonicals() && l.Event(w) == e {
      EveryRowIsUnique(l, ms, w);
      var o := Origin(ms, w);
      CanonicalCarriesFreshEvent(l, ms, w, o);
    }
    if o :| 0 <= o < |ms| && Fresh(ms[o]) && ms[o].event == e {
      EveryRowIsUnique(l, ms, o);
      var w := Winner(l, o);
      CanonicalCarriesFreshEvent(l, ms, w, o);
      assert w in l.Canonicals();
    }
    forall w, v | w in l.Canonicals() && v in l.Canonicals() && l.Event(w).eventId == l.Event(v).eventId ensures w == v {
      CanonicalPerEventId(l, w, v);
    }
  }

  /** A fresh message is the row that wins exactly when all its retries are stored after it. */
  lemma FreshWinsIff(l: Deliveries, ms: seq<Message>, o: int)
    requires Delivers(l, ms) && GoodRun(ms) && 0 <= o < |ms| && Fresh(ms[o])
    ensures l.IsCanonical(o) <==> RetriesFollow(l, ms, o)
  {
    hide StoredBefore, NullsLast, TransportLt;
    EveryRowIsUnique(l, ms, o);
    forall j | 0 <= j < |ms| && j != o && ms[j].event.eventId == ms[o].event.eventId
      ensures l.EventBefore(o, j) <==> (ms[j].kind == Retry ==> StoredBefore(l.raw[o], l.raw[j]))
    {
      CopyAgainstOriginal(l, ms, o, j);
    }
    forall j | l.IsUnique(j) ensures 0 <= j < |ms| && l.Event(j) == ms[j].event { EveryRowIsUnique(l, ms, j); }
    forall j | 0 <= j < |ms| ensures l.IsUnique(j) { EveryRowIsUnique(l, ms, j); }
    assert ms[o].kind != Retry;
  }

  lemma CopyAgainstOriginal(l: Deliveries, ms: seq<Message>, o: int, j: int)
    requires Delivers(l, ms) && GoodRun(ms) && 0 <= o < |ms| && Fresh(ms[o])
    requires 0 <= j < |ms| && j != o && ms[j].event.eventId == ms[o].event.eventId
    ensures l.EventBefore(o, j) <==> (ms[j].kind == Retry ==> StoredBefore(l.raw[o], l.raw[j]))
  {
    hide NullsLast, TransportLt;
    EveryRowIsUnique(l, ms, o);
    EveryRowIsUnique(l, ms, j);
    var o' := Origin(ms, j);
    assert o' == o;
    assert Copies(ms, j, o);
  }

  /** The rows that win are exactly the normal and late messages if and only if every retry is stored after its original. */
  lemma OriginalsWinIff(l: Deliveries, ms: seq<Message>)
    requires Delivers(l, ms) && GoodRun(ms)
    ensures (forall i :: 0 <= i < |ms| ==> (l.IsCanonical(i) <==> Fresh(ms[i])))
            <==> (forall o :: 0 <= o < |ms| && Fresh(ms[o]) ==> RetriesFollow(l, ms, o))
  {
    hide RetriesFollow, l.IsCanonical;
    forall o | 0 <= o < |ms| && Fresh(ms[o]) ensures l.IsCanonical(o) <==> RetriesFollow(l, ms, o) {
      FreshWinsIff(l, ms, o);
    }
    forall i | 0 <= i < |ms| && !Fresh(ms[i]) && l.IsCanonical(i)
      ensures exists o :: 0 <= o < |ms| && Fresh(ms[o]) && !l.IsCanonical(o)
    {
      var o := Origin(ms, i);
      NotBothWin(l, ms, i, o);
    }
  }

  lemma NotBothWin(l: Deliveries, ms: seq<Message>, i: int, o: int)
    requires Delivers(l, ms) && 0 <= i < |ms| && 0 <= o < |ms| && i != o
    requires l.IsCanonical(i) && ms[i].event.eventId == ms[o].event.eventId
    ensures !l.IsCanonical(o)
  {
    EveryRowIsUnique(l, ms, i);
    EveryRowIsUnique(l, ms, o);
    if l.IsCanonical(o) { CanonicalPerEventId(l, i, o); }
  }

  /** Every conflicting copy is labelled a payload conflict. */
  lemma ConflictsAreLabelled(l: Deliveries, ms: seq<Message>, i: int)
    requires Delivers(l, ms) && GoodRun(ms) && 0 <= i < |ms| && ms[i].kind == Conflict
    ensures exists w :: l.Labelled(i, w, PayloadConflict)
  {
    EveryRowIsUnique(l, ms, i);
    var o := Origin(ms, i);
    var w := Winner(l, i);
    CanonicalCarriesFreshEvent(l, ms, w, o);
    ConflictsNeverWin(l, ms, i);
    assert l.Labelled(i, w, PayloadConflict);
  }

  /** A retry is labelled a business duplicate exactly when it does not win itself. */
  lemma RetryIsLabelledIff(l: Deliveries, ms: seq<Message>, i: int)
    requires Delivers(l, ms) && GoodRun(ms) && 0 <= i < |ms| && ms[i].kind == Retry
    ensures (exists w :: l.Labelled(i, w, BusinessDuplicate)) <==> !l.IsCanonical(i)
  {
    EveryRowIsUnique(l, ms, i);
    var o := Origin(ms, i);
    EveryRowIsUnique(l, ms, o);
    var w := Winner(l, i);
    CanonicalCarriesFreshEvent(l, ms, w, o);
    if !l.IsCanonical(i) { assert l.Labelled(i, w, BusinessDuplicate); }
  }

  /** All retries of a message are labelled business duplicates exactly when all of them are stored after it. */
  lemma RetriesAreLabelledIff(l: Deliveries, ms: seq<Message>, o: int)
    requires Delivers(l, ms) && GoodRun(ms) && 0 <= o < |ms| && Fresh(ms[o])
    ensures (forall i :: 0 <= i < |ms| && ms[i].kind == Retry && ms[i].event.eventId == ms[o].event.eventId ==>
               exists w :: l.Labelled(i, w, BusinessDuplicate))
            <==> RetriesFollow(l, ms, o)
  {
    hide RetriesFollow, l.IsCanonical, l.Labelled;
    FreshWinsIff(l, ms, o);
    EveryRowIsUnique(l, ms, o);
    var w := Winner(l, o);
    WinnerOfFresh(l, ms, w, o);
    forall i | 0 <= i < |ms| && ms[i].kind == Retry && ms[i].event.eventId == ms[o].event.eventId
      ensures (exists v :: l.Labelled(i, v, BusinessDuplicate)) <==> i != w
    {
      RetryIsLabelledIff(l, ms, i);
      if i != w { NotBothWin(l, ms, w, i); }
    }
    if w != o { NotBothWin(l, ms, w, o); }
  }

  /** What wins a fresh message's event id is that message or one of its retries. */
  lemma WinnerOfFresh(l: Deliveries, ms: seq<Message>, w: int, o: int)
    requires Delivers(l, ms) && GoodRun(ms) && 0 <= o < |ms| && Fresh(ms[o])
    requires l.IsCanonical(w) && l.Event(w).eventId == ms[o].event.eventId
    ensures 0 <= w < |ms| && ms[w].event.eventId == ms[o].event.eventId && (w == o || ms[w].kind == Retry)
  {
    EveryRowIsUnique(l, ms, w);
    CanonicalCarriesFreshEvent(l, ms, w, o);
    var o' := Origin(ms, w);
    assert o' == o;
  }

  /** A retry whose Kafka timestamp lies before its original's, on the next offset: the retry wins. */
  lemma RetryCanWin(e: Event, parse: Bytes -> Parsed<Movement>, hash: Bytes -> string)
    requires parse("a") == Valid(e)
    ensures var ms := [Message(Normal, e), Message(Retry, e)];
            var l := Ledger([Raw(Transport("k", "t", 0, 0), Some(2), None, "a"), Raw(Transport("k", "t", 0, 1), Some(1), None, "a")], parse, hash);
            Delivers(l, ms) && GoodRun(ms) && l.IsCanonical(1) && !l.IsCanonical(0)
  {
    var ms := [Message(Normal, e), Message(Retry, e)];
    var l := Ledger([Raw(Transport("k", "t", 0, 0), Some(2), None, "a"), Raw(Transport("k", "t", 0, 1), Some(1), None, "a")], parse, hash);
    assert Copies(ms, 1, 0);
    EveryRowIsUnique(l, ms, 0);
    EveryRowIsUnique(l, ms, 1);
    assert l.EventBefore(1, 0) && !l.EventBefore(0, 1);
  }

  /** A copy in the winner's own second is a retry: conflicts are at least a second later. */
  lemma RunsAgreeInASecond(l: Deliveries, ms: seq<Message>)
    requires Delivers(l, ms) && GoodRun(ms)
    ensures OnePayloadPerTransport(l) && AgreesInWinnersSecond(l)
  {
    hide l.IsUnique, l.IsCanonical;
    forall i | l.IsValid(i) ensures 0 <= i < |ms| && l.Event(i) == ms[i].event { EveryRowIsUnique(l, ms, i); }
    forall w, i | l.IsCanonical(w) && l.IsValid(w) && InWinnersSecond(l, i, w) ensures l.IsValid(i) && SameMovement(l, i, w) {
      InSecondIsValid(l, i, w);
      var o := Origin(ms, i);
      CanonicalCarriesFreshEvent(l, ms, w, o);
    }
  }

  /** Every run of the producer reconciles: in every order of arrival, Flink's hours are Spark's plus the copies outside the
      winner's window. */
  lemma RunsReconcile(l: Deliveries, ms: seq<Message>, s: Stream, size: nat)
    requires size > 0 && Delivers(l, ms) && GoodRun(ms)
    requires ReadsAlike(l, s.read) && SamePayloads(InBronzeOrder(l, s.read), s)
    ensures LayersReconcile(l, s, size)
  {
    hide LayersReconcile, EarliestCopiesAgree, GoodRun, l.IsCanonical;
    forall i | 0 <= i < |l.raw| ensures l.IsValid(i) { EveryRowIsUnique(l, ms, i); }
    RunsAgreeInASecond(l, ms);
    ValidRowsReduce(l, s.read, size);
    SamePayloadsReconcile(l, InBronzeOrder(l, s.read), s, size);
  }

  /** The document a message's bytes hold, for any way of writing times. */
  function Written(e: Event, text: Event -> string, offset: Event -> int): Decoded {
    Document(JObject(AsDict(e, text(e), offset(e))))
  }

  /** A generated event the contract admits, and whose conflicting copies it admits too. */
  ghost predicate RoomToCopy(e: Event) {
    GoodEvent(e) && e.eventTime + MAX_DELAY * MICROS <= MAX_MICROS && e.detail.qtyDelta + 1 < INT32
  }

  /** Then the contract admits every message of every run. */
  lemma MessagesAreGood(draws: seq<Draw>, rates: Rates, ms: seq<Message>, memory: seq<seq<Event>>, i: nat)
    requires IsRun(draws, rates, ms, memory) && i < |ms|
    requires forall k :: 0 <= k < |draws| ==> RoomToCopy(draws[k].onTime) && GoodEvent(draws[k].late)
    ensures GoodEvent(ms[i].event)
  {
    hide IsVersion, AllSpace;
    assert MaySend(memory[i], draws[i], rates, ms[i]);
    if !Fresh(ms[i]) {
      var original := OriginalInMemory(memory[i], draws[i], rates, ms[i]);
      MemoryHoldsSentEvents(draws, rates, ms, memory, i, original);
      var o :| 0 <= o < i && ms[o] == Message(Normal, original);
      assert MaySend(memory[o], draws[o], rates, ms[o]);
    }
  }

  /** From the draws to Silver: for every run whose payloads are read back as written, the canonical events
      are the normal and late events of the run, and the reconciliation check passes. */
  lemma EndToEnd(draws: seq<Draw>, rates: Rates, ms: seq<Message>, memory: seq<seq<Event>>, raw: seq<Raw>,
                 decode: Bytes -> Decoded, hash: Bytes -> string, text: Event -> string, offset: Event -> int, e: Event)
    requires GoodDraws(draws) && IsRun(draws, rates, ms, memory)
    requires forall k :: 0 <= k < |draws| ==> RoomToCopy(draws[k].onTime) && GoodEvent(draws[k].late)
    requires |raw| == |ms| && forall i :: 0 <= i < |ms| ==> decode(raw[i].payload) == Written(ms[i].event, text, offset)
    requires forall i, j :: 0 <= i < j < |ms| ==> raw[i].transport != raw[j].transport
    ensures var l := Ledger(raw, (b: Bytes) => ParseInventory(decode(b)), hash);
            && ((exists w :: w in l.Canonicals() && l.Event(w) == e) <==> (exists o :: 0 <= o < |ms| && Fresh(ms[o]) && ms[o].event == e))
            && Reconciles(l) && l.Invalids() == {} && l.TransportCopies() == {}
  {
    hide ParseObject, AsDict, GoodEvent, IsRun, RoomToCopy;
    var l := Ledger(raw, (b: Bytes) => ParseInventory(decode(b)), hash);
    forall i | 0 <= i < |ms| ensures l.parse(l.raw[i].payload) == Valid(ms[i].event) {
      MessagesAreGood(draws, rates, ms, memory, i);
      ParseInvertsAsDict(ms[i].event, text(ms[i].event), offset(ms[i].event));
    }
    RunsAreGood(draws, rates, ms, memory);
    CanonicalEventsAreFreshEvents(l, ms, e);
    forall i | 0 <= i < |raw| ensures l.IsUnique(i) { EveryRowIsUnique(l, ms, i); }
    ReconcilesIff(l);
  }
}
