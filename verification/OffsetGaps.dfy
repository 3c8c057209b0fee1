/** Missing Kafka offsets per partition of a Bronze snapshot. */
module OffsetGaps {
  import Sums
  import opened CanonicalEvents

  datatype Partition = Partition(source: string, topic: string, partition: int)
  datatype Gap = Gap(lastBefore: int, firstAfter: int, missing: int)

  /** The distinct offsets captured for one partition. */
  function Captured(raw: seq<Raw>, p: Partition): set<int> {
    set r | r in raw && Partition(r.transport.source, r.transport.topic, r.transport.partition) == p :: r.transport.offset
  }

  ghost predicate Increasing(xs: seq<int>) {
    forall i, j :: 0 <= i < j < |xs| ==> xs[i] < xs[j]
  }

  lemma {:induction false} LeastIntExists(s: set<int>)
    requires s != {}
    ensures exists m :: m in s && forall x :: x in s ==> m <= x
  {
    var x := Sums.SomeMember(s);
    if s != {x} {
      LeastIntExists(s - {x});
      var m :| m in s - {x} && forall y :: y in s - {x} ==> m <= y;
      var low := if x < m then x else m;
      assert forall y :: y in s ==> y == x || y in s - {x};
      assert low in s && forall y :: y in s ==> low <= y;
    }
  }

  /** The offsets in ascending order. */
  function Ordered(s: set<int>): (xs: seq<int>)
    ensures Increasing(xs)
    ensures forall x :: x in xs <==> x in s
    ensures |xs| == |s|
  {
    if s == {} then [] else
      LeastIntExists(s);
      var m :| m in s && forall x :: x in s ==> m <= x;
      LeastFirst(m, Ordered(s - {m}), s);
      [m] + Ordered(s - {m})
  }

  lemma LeastFirst(m: int, rest: seq<int>, s: set<int>)
    requires m in s && (forall x :: x in s ==> m <= x)
    requires Increasing(rest) && (forall x :: x in rest <==> x in s - {m})
    ensures Increasing([m] + rest) && (forall x :: x in [m] + rest <==> x in s)
  {
    forall j | 0 <= j < |rest| ensures m < rest[j] {
      assert rest[j] in rest;
    }
  }

  /** One gap per offset that exceeds its predecessor by more than one. */
  function GapsOf(xs: seq<int>): seq<Gap> {
    if |xs| < 2 then [] else
      var prev, next := xs[|xs| - 2], xs[|xs| - 1];
      GapsOf(xs[..|xs| - 1]) + if next - prev > 1 then [Gap(prev, next, next - prev - 1)] else []
  }

  function Gaps(raw: seq<Raw>, p: Partition): seq<Gap> {
    GapsOf(Ordered(Captured(raw, p)))
  }

  function MissingTotal(gaps: seq<Gap>): int {
    if gaps == [] then 0 else MissingTotal(gaps[..|gaps| - 1]) + gaps[|gaps| - 1].missing
  }

  ghost predicate Inside(g: Gap, o: int) {
    g.lastBefore < o < g.firstAfter
  }

  lemma {:induction false} GapsAddUp(xs: seq<int>)
    requires Increasing(xs) && xs != []
    ensures |xs| + MissingTotal(GapsOf(xs)) == xs[|xs| - 1] - xs[0] + 1
  {
    if |xs| > 1 {
      var front := xs[..|xs| - 1];
      LastAgainstFront(xs);
      GapsAddUp(front);
      GapsStep(xs);
    }
  }

  /** The last offset against the ones before it. */
  lemma LastAgainstFront(xs: seq<int>)
    requires Increasing(xs) && |xs| > 1
    ensures var front, prev, next := xs[..|xs| - 1], xs[|xs| - 2], xs[|xs| - 1];
            && prev < next && front[|front| - 1] == prev && front[0] == xs[0] && Increasing(front)
            && (forall x :: x in front ==> x <= prev)
            && (forall x :: x in xs <==> x in front || x == next)
  {
    var front := xs[..|xs| - 1];
    assert xs == front + [xs[|xs| - 1]];
  }

  /** How the last offset adds to the gaps. */
  lemma GapsStep(xs: seq<int>)
    requires |xs| > 1
    ensures var front, prev, next := xs[..|xs| - 1], xs[|xs| - 2], xs[|xs| - 1];
            if next - prev > 1 then GapsOf(xs) == GapsOf(front) + [Gap(prev, next, next - prev - 1)]
                                    && MissingTotal(GapsOf(xs)) == MissingTotal(GapsOf(front)) + next - prev - 1
            else GapsOf(xs) == GapsOf(front)
  {
    var front, prev, next := xs[..|xs| - 1], xs[|xs| - 2], xs[|xs| - 1];
    if next - prev > 1 {
      assert GapsOf(xs)[..|GapsOf(xs)| - 1] == GapsOf(front);
    } else {
      assert GapsOf(xs) == GapsOf(front) + [];
    }
  }

  /** Gaps have the right size and end by `last`. */
  ghost predicate Sized(gaps: seq<Gap>, last: int) {
    forall k :: 0 <= k < |gaps| ==>
      gaps[k].missing == gaps[k].firstAfter - gaps[k].lastBefore - 1 > 0 && gaps[k].firstAfter <= last
  }

  /** Gaps follow one another. */
  ghost predicate InOrder(gaps: seq<Gap>) {
    forall k, m :: 0 <= k < m < |gaps| ==> gaps[k].firstAfter <= gaps[m].lastBefore
  }

  /** Gaps hold no captured offset. */
  ghost predicate Hollow(xs: seq<int>, gaps: seq<Gap>) {
    forall k, o :: 0 <= k < |gaps| && Inside(gaps[k], o) ==> o !in xs
  }

  ghost predicate Clean(xs: seq<int>, gaps: seq<Gap>, last: int) {
    Sized(gaps, last) && InOrder(gaps) && Hollow(xs, gaps)
  }

  lemma {:induction false} GapsAreClean(xs: seq<int>)
    requires Increasing(xs) && xs != []
    ensures Clean(xs, GapsOf(xs), xs[|xs| - 1])
  {
    hide Clean;
    if |xs| == 1 {
      NoGapsAreClean(xs);
    } else {
      LastAgainstFront(xs);
      GapsStep(xs);
      GapsAreClean(xs[..|xs| - 1]);
      CleanGrows(xs, GapsOf(xs[..|xs| - 1]), GapsOf(xs));
    }
  }

  lemma NoGapsAreClean(xs: seq<int>)
    requires |xs| == 1
    ensures Clean(xs, [], xs[0])
  {
  }

  lemma CleanGrows(xs: seq<int>, before: seq<Gap>, gaps: seq<Gap>)
    requires |xs| > 1
    requires var front, prev, next := xs[..|xs| - 1], xs[|xs| - 2], xs[|xs| - 1];
             && prev < next && (forall x :: x in front ==> x <= prev) && (forall x :: x in xs <==> x in front || x == next)
             && Clean(front, before, prev)
             && gaps == if next - prev > 1 then before + [Gap(prev, next, next - prev - 1)] else before
    ensures Clean(xs, gaps, xs[|xs| - 1])
  {
    hide Hollow;
    HollowGrows(xs, before, gaps);
  }

  lemma HollowGrows(xs: seq<int>, before: seq<Gap>, gaps: seq<Gap>)
    requires |xs| > 1
    requires var front, prev, next := xs[..|xs| - 1], xs[|xs| - 2], xs[|xs| - 1];
             && (forall x :: x in front ==> x <= prev) && (forall x :: x in xs <==> x in front || x == next)
             && Hollow(front, before) && Sized(before, prev) && prev < next
             && gaps == if next - prev > 1 then before + [Gap(prev, next, next - prev - 1)] else before
    ensures Hollow(xs, gaps)
  {
    forall k, o | 0 <= k < |gaps| && Inside(gaps[k], o) ensures o !in xs {
      if k < |before| { assert gaps[k] == before[k]; }
    }
  }

  lemma {:induction false} GapsCover(xs: seq<int>, o: int)
    requires Increasing(xs) && xs != [] && xs[0] <= o <= xs[|xs| - 1] && o !in xs
    ensures exists k :: 0 <= k < |GapsOf(xs)| && Inside(GapsOf(xs)[k], o)
  {
    if |xs| > 1 {
      hide GapsOf;
      var front, prev := xs[..|xs| - 1], xs[|xs| - 2];
      LastAgainstFront(xs);
      GapsStep(xs);
      if o <= prev {
        GapsCover(front, o);
        var k :| 0 <= k < |GapsOf(front)| && Inside(GapsOf(front)[k], o);
        assert GapsOf(xs)[k] == GapsOf(front)[k];
      } else {
        assert Inside(GapsOf(xs)[|GapsOf(xs)| - 1], o);
      }
    }
  }

  /** Gaps are disjoint, hold no captured offset, cover every missing offset between the first and the last
      captured one in exactly one place, and add up with the captured offsets to the whole span. */
  lemma GapsAccountForEveryOffset(raw: seq<Raw>, p: Partition, first: int, last: int)
    requires first in Captured(raw, p) && last in Captured(raw, p)
    requires forall o :: o in Captured(raw, p) ==> first <= o <= last
    ensures var gaps := Gaps(raw, p);
            && |Captured(raw, p)| + MissingTotal(gaps) == last - first + 1
            && (forall k, o :: 0 <= k < |gaps| && Inside(gaps[k], o) ==> o !in Captured(raw, p))
            && (forall o :: first <= o <= last && o !in Captured(raw, p) ==> exists k :: 0 <= k < |gaps| && Inside(gaps[k], o))
            && (forall k, m, o :: 0 <= k < m < |gaps| && Inside(gaps[k], o) ==> !Inside(gaps[m], o))
            && (forall k :: 0 <= k < |gaps| ==> gaps[k].missing == gaps[k].firstAfter - gaps[k].lastBefore - 1 > 0)
  {
    var xs := Ordered(Captured(raw, p));
    assert first in xs && last in xs;
    EndsOfOrdered(xs, first, last);
    GapsAddUp(xs);
    GapsAreClean(xs);
    forall o | first <= o <= last && o !in xs ensures exists k :: 0 <= k < |GapsOf(xs)| && Inside(GapsOf(xs)[k], o) {
      GapsCover(xs, o);
    }
  }

  lemma EndsOfOrdered(xs: seq<int>, first: int, last: int)
    requires Increasing(xs) && first in xs && last in xs && forall x :: x in xs ==> first <= x <= last
    ensures xs[0] == first && xs[|xs| - 1] == last
  {
    assert xs[0] in xs && xs[|xs| - 1] in xs;
  }

  /** Some delivery carries this offset of the partition. */
  ghost predicate Delivered(raw: seq<Raw>, p: Partition, o: int) {
    exists r :: r in raw && r.transport == Transport(p.source, p.topic, p.partition, o)
  }

  lemma CapturedIff(raw: seq<Raw>, p: Partition, o: int)
    ensures o in Captured(raw, p) <==> Delivered(raw, p, o)
  {
  }

  /** Two offsets stand side by side, further than one apart, and the gap is what lies between them. */
  ghost predicate GapAt(xs: seq<int>, g: Gap, i: int) {
    0 <= i < |xs| - 1 && xs[i] == g.lastBefore && xs[i + 1] == g.firstAfter && g.missing == g.firstAfter - g.lastBefore - 1 > 0
  }

  lemma {:induction false} GapIffNeighbours(xs: seq<int>, g: Gap)
    ensures g in GapsOf(xs) <==> exists i :: GapAt(xs, g, i)
  {
    if |xs| > 1 {
      var front := xs[..|xs| - 1];
      GapIffNeighbours(front, g);
      GapsStep(xs);
      forall i | i < |xs| - 2 ensures GapAt(front, g, i) <==> GapAt(xs, g, i) {}
      if i :| GapAt(xs, g, i) && i == |xs| - 2 { assert g == Gap(xs[i], xs[i + 1], xs[i + 1] - xs[i] - 1); }
      if i :| GapAt(front, g, i) { assert GapAt(xs, g, i); }
      if i :| GapAt(xs, g, i) && i < |xs| - 2 { assert GapAt(front, g, i); }
      if xs[|xs| - 1] - xs[|xs| - 2] > 1 && g == Gap(xs[|xs| - 2], xs[|xs| - 1], xs[|xs| - 1] - xs[|xs| - 2] - 1) {
        assert GapAt(xs, g, |xs| - 2);
      }
    }
  }

  /** A gap is reported exactly between two delivered offsets with some, and only undelivered ones, between them. */
  lemma GapIff(raw: seq<Raw>, p: Partition, g: Gap)
    ensures g in Gaps(raw, p)
            <==> && Delivered(raw, p, g.lastBefore) && Delivered(raw, p, g.firstAfter)
                 && g.missing == g.firstAfter - g.lastBefore - 1 > 0
                 && forall o :: g.lastBefore < o < g.firstAfter ==> !Delivered(raw, p, o)
  {
    hide Captured, Delivered;
    var s := Captured(raw, p);
    var xs := Ordered(s);
    forall o ensures o in xs <==> Delivered(raw, p, o) { CapturedIff(raw, p, o); }
    GapIffNeighbours(xs, g);
    NeighboursIff(xs, g);
  }

  lemma NeighboursIff(xs: seq<int>, g: Gap)
    requires Increasing(xs)
    ensures (exists i :: GapAt(xs, g, i))
            <==> && g.lastBefore in xs && g.firstAfter in xs && g.missing == g.firstAfter - g.lastBefore - 1 > 0
                 && forall o :: g.lastBefore < o < g.firstAfter ==> o !in xs
  {
    if i :| GapAt(xs, g, i) {
      assert xs[i] in xs && xs[i + 1] in xs;
      forall j | 0 <= j < |xs| ensures xs[j] <= xs[i] || xs[i + 1] <= xs[j] {}
    }
    if g.lastBefore in xs && g.firstAfter in xs && g.missing == g.firstAfter - g.lastBefore - 1 > 0
       && forall o :: g.lastBefore < o < g.firstAfter ==> o !in xs {
      var i :| 0 <= i < |xs| && xs[i] == g.lastBefore;
      var j :| 0 <= j < |xs| && xs[j] == g.firstAfter;
      assert xs[i + 1] in xs;
      assert GapAt(xs, g, i);
    }
  }

  /** The gaps depend only on which deliveries there are, not on their order or repetition. */
  lemma GapsIgnoreOrderAndCopies(raw: seq<Raw>, raw': seq<Raw>, p: Partition)
    requires forall r :: r in raw <==> r in raw'
    ensures Gaps(raw, p) == Gaps(raw', p)
  {
    assert Captured(raw, p) == Captured(raw', p);
  }
}
