/** The publish gate on row counts, and how its baseline moves over runs. */
module RowCountGate {
  import opened Basics

  datatype Mart = Mart(key: string, rowCount: int)
  datatype Status = Warn | NoBaseline | Unavailable | Fine
  datatype Delta = Delta(previous: Option<int>, current: int, deltaPct: Option<real>, status: Status)
  datatype Verdict = Verdict(warned: bool, blocked: seq<string>, deltas: map<string, Delta>, candidate: Option<map<string, int>>)

  /** The sentinel of a table that could not be counted. */
  const UNREADABLE: int := -1

  const DEFAULT_THRESHOLD: real := 0.20

  /** The point of [0, 1] nearest to the configured threshold; nothing stands for text that is not a number. */
  function ResolveThreshold(raw: Option<real>): (t: real)
    ensures 0.0 <= t <= 1.0
    ensures raw.Some? ==> Abs(t - raw.value) <= Abs(0.0 - raw.value) && Abs(t - raw.value) <= Abs(1.0 - raw.value)
    ensures raw.Some? && 0.0 <= raw.value <= 1.0 ==> t == raw.value
    ensures raw.None? ==> t == 0.2
  {
    if raw.None? then DEFAULT_THRESHOLD
    else if raw.value < 0.0 then 0.0 else if raw.value > 1.0 then 1.0 else raw.value
  }

  /** Change as a fraction of the previous count, when there is a usable one. */
  function DeltaPct(prev: Option<int>, current: int): Option<real> {
    if prev.None? || prev.value <= 0 || current < 0 then None
    else Some((current - prev.value) as real / prev.value as real)
  }

  function Lookup(baseline: map<string, int>, key: string): Option<int> {
    if key in baseline then Some(baseline[key]) else None
  }

  function Abs(x: real): real {
    if x < 0.0 then -x else x
  }

  /** The table moved by more than the threshold, either way. */
  ghost predicate Moved(baseline: map<string, int>, m: Mart, t: real) {
    && m.key in baseline && baseline[m.key] > 0 && m.rowCount >= 0
    && !(baseline[m.key] as real * (1.0 - t) <= m.rowCount as real <= baseline[m.key] as real * (1.0 + t))
  }

  /** The table cannot be read, or lost more than the threshold. */
  ghost predicate Lost(baseline: map<string, int>, m: Mart, t: real) {
    m.rowCount < 0
    || (m.key in baseline && baseline[m.key] > 0 && (m.rowCount as real) < baseline[m.key] as real * (1.0 - t))
  }

  lemma PercentAgainstBounds(b: int, c: int, t: real)
    requires b > 0
    ensures var pct := (c - b) as real / b as real;
            && (pct < -t <==> (c as real) < b as real * (1.0 - t))
            && (pct > t <==> (c as real) > b as real * (1.0 + t))
  {
    var pct := (c - b) as real / b as real;
    assert pct * b as real == (c - b) as real == c as real - b as real;
    Scale(pct, -t, b as real);
    Scale(t, pct, b as real);
  }

  lemma Scale(x: real, y: real, b: real)
    requires b > 0.0
    ensures x < y <==> x * b < y * b
  {
    assert (y - x) * b == y * b - x * b;
  }

  function Counts(current: seq<Mart>): (m: map<string, int>)
    ensures forall k :: k in m <==> exists i :: 0 <= i < |current| && current[i].key == k
  {
    if current == [] then map[] else
      var last := current[|current| - 1];
      assert current == current[..|current| - 1] + [last];
      Counts(current[..|current| - 1])[last.key := last.rowCount]
  }

  /** What a gate run over `current` decides: who warns, who blocks, and the counts to save when nobody does either. */
  ghost predicate IsVerdict(current: seq<Mart>, baseline: map<string, int>, t: real, owned: set<string>, v: Verdict) {
    && (v.warned <==> exists i :: 0 <= i < |current| && Moved(baseline, current[i], t))
    && (forall k :: k in v.blocked <==>
         exists i :: 0 <= i < |current| && current[i].key == k && k in owned && Lost(baseline, current[i], t))
    && v.candidate == if !v.warned && v.blocked == [] then Some(Counts(current)) else None
  }

  /** The owned tables that are unreadable or lost too much, in the order they were counted. */
  ghost function Blocking(current: seq<Mart>, baseline: map<string, int>, t: real, owned: set<string>): seq<string> {
    if current == [] then [] else
      var last := current[|current| - 1];
      Blocking(current[..|current| - 1], baseline, t, owned) + if last.key in owned && Lost(baseline, last, t) then [last.key] else []
  }

  lemma NothingBlocks(baseline: map<string, int>, t: real, owned: set<string>)
    ensures Blocking([], baseline, t, owned) == []
  {
  }

  lemma OneMoreBlocks(current: seq<Mart>, i: nat, baseline: map<string, int>, t: real, owned: set<string>)
    requires i < |current|
    ensures Blocking(current[..i + 1], baseline, t, owned)
            == Blocking(current[..i], baseline, t, owned)
               + if current[i].key in owned && Lost(baseline, current[i], t) then [current[i].key] else []
  {
    hide Lost;
    assert current[..i + 1][..i] == current[..i];
  }

  lemma {:induction false} WhoBlocks(current: seq<Mart>, baseline: map<string, int>, t: real, owned: set<string>)
    ensures forall k :: k in Blocking(current, baseline, t, owned) <==>
              exists i :: 0 <= i < |current| && current[i].key == k && k in owned && Lost(baseline, current[i], t)
  {
    hide Lost;
    if current != [] {
      var front := current[..|current| - 1];
      WhoBlocks(front, baseline, t, owned);
      assert current == front + [current[|current| - 1]];
    }
  }

  method Reconcile(current: seq<Mart>, baseline: map<string, int>, configured: Option<real>, owned: set<string>) returns (v: Verdict)
    ensures IsVerdict(current, baseline, ResolveThreshold(configured), owned, v)
    ensures v.blocked == Blocking(current, baseline, ResolveThreshold(configured), owned)
    ensures forall i :: 0 <= i < |current| ==> current[i].key in v.deltas
    ensures forall k :: k in v.deltas ==>
              exists i :: 0 <= i < |current| && v.deltas[k] == DeltaOf(baseline, current[i], ResolveThreshold(configured)) && current[i].key == k
  {
    hide Moved, Lost, DeltaOf, Blocking;
    var threshold := ResolveThreshold(configured);
    NothingBlocks(baseline, threshold, owned);
    var deltas: map<string, Delta> := map[];
    var warned, blocked := false, [];
    for i := 0 to |current|
      invariant warned <==> exists j :: 0 <= j < i && Moved(baseline, current[j], threshold)
      invariant blocked == Blocking(current[..i], baseline, threshold, owned)
      invariant forall j :: 0 <= j < i ==> current[j].key in deltas
      invariant forall k :: k in deltas ==>
                  exists j :: 0 <= j < i && deltas[k] == DeltaOf(baseline, current[j], threshold) && current[j].key == k
    {
      var mart := current[i];
      OneMoreBlocks(current, i, baseline, threshold, owned);
      var delta, shrank := Compare(baseline, mart, threshold);
      if mart.key in owned && shrank {
        blocked := blocked + [mart.key];
      }
      if delta.status == Warn {
        warned := true;
      }
      deltas := deltas[mart.key := delta];
    }
    assert current[..|current|] == current;
    WhoBlocks(current, baseline, threshold, owned);
    var candidate := None;
    if !warned && blocked == [] {
      candidate := Some(Counts(current));
    }
    v := Verdict(warned, blocked, deltas, candidate);
  }

  /** The comparison of one table with its baseline. */
  method Compare(baseline: map<string, int>, mart: Mart, threshold: real) returns (delta: Delta, shrank: bool)
    requires 0.0 <= threshold <= 1.0
    ensures delta == DeltaOf(baseline, mart, threshold)
    ensures delta.status == Warn <==> Moved(baseline, mart, threshold)
    ensures shrank <==> Lost(baseline, mart, threshold)
  {
    var prev := Lookup(baseline, mart.key);
    var pct := DeltaPct(prev, mart.rowCount);
    if prev.Some? && prev.value > 0 { PercentAgainstBounds(prev.value, mart.rowCount, threshold); }
    if mart.key in baseline && baseline[mart.key] > 0 && mart.rowCount < 0 {
      Grow(0.0, baseline[mart.key] as real, 1.0 - threshold);
    }
    shrank := mart.rowCount < 0 || (pct.Some? && pct.value < -threshold);
    var status;
    if pct.Some? && Abs(pct.value) > threshold {
      status := Warn;
    } else if pct.None? {
      status := if prev.None? then NoBaseline else Unavailable;
    } else {
      status := Fine;
    }
    delta := Delta(prev, mart.rowCount, pct, status);
  }

  /** The reported delta of a table: its status follows the change. */
  ghost function DeltaOf(baseline: map<string, int>, m: Mart, t: real): Delta {
    var prev := Lookup(baseline, m.key);
    var pct := DeltaPct(prev, m.rowCount);
    Delta(prev, m.rowCount, pct,
          if pct.Some? then (if Abs(pct.value) > t then Warn else Fine) else if prev.None? then NoBaseline else Unavailable)
  }

  /** What a reported delta says. */
  lemma DeltaMeans(baseline: map<string, int>, m: Mart, t: real)
    requires 0.0 <= t <= 1.0
    ensures var d := DeltaOf(baseline, m, t);
            && d.current == m.rowCount && (d.previous.Some? <==> m.key in baseline) && (d.previous.Some? ==> d.previous.value == baseline[m.key])
            && (d.deltaPct.Some? <==> m.key in baseline && baseline[m.key] > 0 && m.rowCount >= 0)
            && (d.deltaPct.Some? ==> d.deltaPct.value * baseline[m.key] as real == (m.rowCount - baseline[m.key]) as real)
            && (d.status == Warn <==> Moved(baseline, m, t))
            && (d.status == NoBaseline <==> m.key !in baseline)
            && (d.status == Unavailable <==> m.key in baseline && (baseline[m.key] <= 0 || m.rowCount < 0))
  {
    if m.key in baseline && baseline[m.key] > 0 { PercentAgainstBounds(baseline[m.key], m.rowCount, t); }
  }

  // ---------------------------------------------------------------- the baseline over runs

  /** `save_baseline_candidate`: an absent or empty candidate is not saved. */
  method SaveBaselineCandidate(verdict: Option<Verdict>, baseline: map<string, int>) returns (saved: bool, after: map<string, int>)
    ensures saved <==> verdict.Some? && verdict.value.candidate.Some? && verdict.value.candidate.value != map[]
    ensures after == if verdict.Some? then After(baseline, verdict.value, true) else baseline
  {
    var candidate := if verdict.Some? then verdict.value.candidate else None;
    if candidate.None? || candidate.value == map[] {
      return false, baseline;
    }
    return true, candidate.value;
  }

  /** The baseline after a gate run, whose candidate is saved once the audited tables are live. */
  function After(baseline: map<string, int>, v: Verdict, published: bool): map<string, int> {
    if published && v.candidate.Some? && v.candidate.value != map[] then v.candidate.value else baseline
  }

  /** One gate run: what was counted, what was decided, and whether its publish followed. */
  datatype Run = Run(current: seq<Mart>, verdict: Verdict, published: bool)

  /** Gate runs one after the other, and the baseline before each of them and at the end. */
  ghost predicate IsHistory(baselines: seq<map<string, int>>, runs: seq<Run>, t: real, owned: set<string>) {
    && |baselines| == |runs| + 1
    && forall i :: 0 <= i < |runs| ==>
         && IsVerdict(runs[i].current, baselines[i], t, owned, runs[i].verdict)
         && baselines[i + 1] == After(baselines[i], runs[i].verdict, runs[i].published)
  }

  /** Every table within its band, and every owned one readable and not below it. */
  ghost predicate Clean(current: seq<Mart>, baseline: map<string, int>, t: real, owned: set<string>) {
    forall i :: 0 <= i < |current| ==>
      && !Moved(baseline, current[i], t)
      && (current[i].key in owned ==> !Lost(baseline, current[i], t))
  }

  /** There is a candidate exactly on a clean run. */
  lemma CandidateIffClean(current: seq<Mart>, baseline: map<string, int>, t: real, owned: set<string>, v: Verdict)
    requires IsVerdict(current, baseline, t, owned, v)
    ensures v.candidate.Some? <==> Clean(current, baseline, t, owned)
  {
    hide Moved, Lost;
    if v.blocked != [] { assert v.blocked[0] in v.blocked; }
    forall i | 0 <= i < |current| && current[i].key in owned && Lost(baseline, current[i], t) ensures v.blocked != [] {
      assert current[i].key in v.blocked;
    }
  }

  /** Each saved count was counted. */
  lemma {:induction false} CountIsOfAMart(current: seq<Mart>, k: string)
    requires k in Counts(current)
    ensures exists i :: 0 <= i < |current| && current[i] == Mart(k, Counts(current)[k])
  {
    var last := current[|current| - 1];
    if k != last.key {
      CountIsOfAMart(current[..|current| - 1], k);
      var i :| 0 <= i < |current| - 1 && current[..|current| - 1][i] == Mart(k, Counts(current)[k]);
      assert current[i] == Mart(k, Counts(current)[k]);
    } else {
      assert current[|current| - 1] == Mart(k, Counts(current)[k]);
    }
  }

  /** The baseline moves only on a published run in which nothing warned or blocked, and then to what was counted. */
  lemma OnlyCleanPublishedRunsMove(baselines: seq<map<string, int>>, runs: seq<Run>, t: real, owned: set<string>, i: nat)
    requires IsHistory(baselines, runs, t, owned) && i < |runs| && baselines[i + 1] != baselines[i]
    ensures runs[i].published && !runs[i].verdict.warned && runs[i].verdict.blocked == []
    ensures Clean(runs[i].current, baselines[i], t, owned) && baselines[i + 1] == Counts(runs[i].current)
  {
    hide Clean, Moved, Lost;
    assert IsVerdict(runs[i].current, baselines[i], t, owned, runs[i].verdict);
    CandidateIffClean(runs[i].current, baselines[i], t, owned, runs[i].verdict);
  }

  function Pow(x: real, n: nat): real {
    if n == 0 then 1.0 else x * Pow(x, n - 1)
  }

  /** `n` steps of at most a fraction `t` lead from `b0` to `b`. */
  ghost predicate InBand(b0: real, b: real, t: real, n: nat) {
    b0 * Pow(1.0 - t, n) <= b <= b0 * Pow(1.0 + t, n)
  }

  lemma PowOne(x: real)
    ensures Pow(x, 1) == x
  {
    PowZero(x);
  }

  /** A count saved for an owned table is a count, and no further from the old one than the threshold allows. */
  lemma SavedCountIsClose(current: seq<Mart>, baseline: map<string, int>, t: real, owned: set<string>, k: string)
    requires Clean(current, baseline, t, owned) && k in owned && k in Counts(current)
    ensures Counts(current)[k] >= 0
    ensures k in baseline && baseline[k] > 0 ==> InBand(baseline[k] as real, Counts(current)[k] as real, t, 1)
  {
    hide Moved, Lost, InBand, Counts;
    CountIsOfAMart(current, k);
    var i :| 0 <= i < |current| && current[i] == Mart(k, Counts(current)[k]);
    assert !Moved(baseline, current[i], t) && !Lost(baseline, current[i], t);
    BandOfOne(baseline, current[i], t);
  }

  lemma BandOfOne(baseline: map<string, int>, m: Mart, t: real)
    requires !Moved(baseline, m, t) && !Lost(baseline, m, t)
    ensures m.rowCount >= 0
    ensures m.key in baseline && baseline[m.key] > 0 ==> InBand(baseline[m.key] as real, m.rowCount as real, t, 1)
  {
    PowOne(1.0 - t);
    PowOne(1.0 + t);
  }

  /** Owned tables never get the sentinel as their baseline. */
  lemma {:induction false} OwnedBaselineIsACount(baselines: seq<map<string, int>>, runs: seq<Run>, t: real, owned: set<string>,
                                                 k: string, n: nat)
    requires IsHistory(baselines, runs, t, owned) && n < |baselines|
    requires k in owned && (k in baselines[0] ==> baselines[0][k] >= 0)
    ensures k in baselines[n] ==> baselines[n][k] >= 0
  {
    hide IsVerdict, Clean;
    if n > 0 {
      OwnedBaselineIsACount(baselines, runs, t, owned, k, n - 1);
      assert baselines[n - 1 + 1] == After(baselines[n - 1], runs[n - 1].verdict, runs[n - 1].published);
      if baselines[n] != baselines[n - 1] && k in baselines[n] {
        OnlyCleanPublishedRunsMove(baselines, runs, t, owned, n - 1);
        SavedCountIsClose(runs[n - 1].current, baselines[n - 1], t, owned, k);
      }
    }
  }

  /** How many of the first `n` runs moved the baseline. */
  ghost function Moves(baselines: seq<map<string, int>>, n: nat): nat
    requires n < |baselines|
  {
    if n == 0 then 0 else Moves(baselines, n - 1) + if baselines[n] != baselines[n - 1] then 1 else 0
  }

  ghost predicate CountedInEveryRun(runs: seq<Run>, k: string) {
    forall i :: 0 <= i < |runs| ==> k in Counts(runs[i].current)
  }

  /** Slow drift is bounded: after `m` moves from a positive count `b`, an owned table that is counted in every run lies
      between b(1-t)^m and b(1+t)^m. */
  lemma {:induction false} DriftIsBounded(baselines: seq<map<string, int>>, runs: seq<Run>, t: real, owned: set<string>,
                                          k: string, n: nat)
    requires 0.0 <= t < 1.0 && IsHistory(baselines, runs, t, owned) && n < |baselines| && CountedInEveryRun(runs, k)
    requires k in owned && k in baselines[0] && baselines[0][k] > 0
    ensures var b0, b, m := baselines[0][k] as real, baselines[n], Moves(baselines, n);
            k in b && b[k] > 0 && InBand(b0, b[k] as real, t, m)
  {
    hide InBand, IsVerdict, Clean;
    if n == 0 {
      NoMoves(baselines[0][k] as real, t);
    } else {
      DriftIsBounded(baselines, runs, t, owned, k, n - 1);
      if baselines[n] != baselines[n - 1] {
        OnlyCleanPublishedRunsMove(baselines, runs, t, owned, n - 1);
        assert k in Counts(runs[n - 1].current);
        SavedCountIsClose(runs[n - 1].current, baselines[n - 1], t, owned, k);
        OneMoreMove(baselines[0][k] as real, baselines[n - 1][k] as real, baselines[n][k] as real, t, Moves(baselines, n - 1));
      }
    }
  }

  lemma NoMoves(b: real, t: real)
    ensures InBand(b, b, t, 0)
  {
    PowZero(1.0 - t);
    PowZero(1.0 + t);
  }

  lemma OneMoreMove(b0: real, b: real, c: real, t: real, n: nat)
    requires 0.0 <= t < 1.0 && b0 > 0.0 && b > 0.0
    requires InBand(b0, b, t, n) && InBand(b, c, t, 1)
    ensures c > 0.0 && InBand(b0, c, t, n + 1)
  {
    hide Pow;
    var lo, hi := b0 * Pow(1.0 - t, n), b0 * Pow(1.0 + t, n);
    PowOne(1.0 - t);
    PowOne(1.0 + t);
    Grow(lo, b, 1.0 - t);
    Grow(b, hi, 1.0 + t);
    ProductPositive(b, 1.0 - t);
    PowNext(b0, 1.0 - t, n);
    PowNext(b0, 1.0 + t, n);
  }

  lemma ProductPositive(x: real, y: real)
    requires x > 0.0 && y > 0.0
    ensures x * y > 0.0
  {
  }

  lemma PowNext(b: real, x: real, n: nat)
    ensures b * Pow(x, n + 1) == (b * Pow(x, n)) * x
  {
  }

  lemma PowZero(x: real)
    ensures Pow(x, 0) == 1.0
  {
  }

  lemma Grow(x: real, y: real, f: real)
    requires x <= y && f >= 0.0
    ensures x * f <= y * f
  {
    assert (y - x) * f >= 0.0;
  }

  /** A history that starts from a positive count of an owned table, which every run counts. */
  ghost predicate StartsPositive(baselines: seq<map<string, int>>, runs: seq<Run>, t: real, owned: set<string>, k: string) {
    && IsHistory(baselines, runs, t, owned) && CountedInEveryRun(runs, k)
    && k in owned && k in baselines[0] && baselines[0][k] > 0
  }

  ghost predicate EndsPositive(baselines: seq<map<string, int>>, k: string) {
    baselines != [] && k in baselines[|baselines| - 1] && baselines[|baselines| - 1][k] > 0
  }

  /** At threshold `t`, such a history always ends with a positive baseline. */
  ghost predicate StaysPositive(t: real) {
    forall baselines, runs, owned, k :: StartsPositive(baselines, runs, t, owned, k) ==> EndsPositive(baselines, k)
  }

  /** A run at threshold one that counts nothing where there were 100 rows, and saves that. */
  function LostRun(): Run {
    Run([Mart("t", 0)], Verdict(false, [], map[], Some(map["t" := 0])), true)
  }

  lemma LossAtOne()
    ensures StartsPositive([map["t" := 100], map["t" := 0]], [LostRun()], 1.0, {"t"}, "t")
    ensures !EndsPositive([map["t" := 100], map["t" := 0]], "t")
  {
    var baseline, mart := map["t" := 100], Mart("t", 0);
    assert !Moved(baseline, mart, 1.0) && !Lost(baseline, mart, 1.0);
    assert LostRun().current == [mart] && [mart][..0] == [];
    assert Counts([mart]) == map["t" := 0];
    assert IsVerdict([mart], baseline, 1.0, {"t"}, LostRun().verdict);
  }

  /** Below a threshold of one an owned table can shrink but never vanish from the baseline; at one it can be lost in a
      single run that neither warns nor blocks. */
  lemma StaysPositiveIff(t: real)
    requires 0.0 <= t <= 1.0
    ensures StaysPositive(t) <==> t < 1.0
  {
    hide StartsPositive, EndsPositive;
    if t < 1.0 {
      forall baselines, runs, owned, k | StartsPositive(baselines, runs, t, owned, k) ensures EndsPositive(baselines, k) {
        PositiveThroughout(baselines, runs, t, owned, k);
      }
    } else {
      LossAtOne();
    }
  }

  lemma PositiveThroughout(baselines: seq<map<string, int>>, runs: seq<Run>, t: real, owned: set<string>, k: string)
    requires 0.0 <= t < 1.0 && StartsPositive(baselines, runs, t, owned, k)
    ensures EndsPositive(baselines, k)
  {
    hide IsVerdict, CountedInEveryRun, InBand;
    DriftIsBounded(baselines, runs, t, owned, k, |runs|);
  }

  /** A table with a baseline of zero is never compared again. */
  lemma ZeroIsNeverCompared(baseline: map<string, int>, m: Mart, t: real)
    requires m.key in baseline && baseline[m.key] == 0 && m.rowCount >= 0
    ensures DeltaPct(Lookup(baseline, m.key), m.rowCount).None? && !Moved(baseline, m, t) && !Lost(baseline, m, t)
  {
  }

  /** For a table other DAGs own, an unreadable count becomes the baseline exactly when the run is otherwise clean. */
  lemma SentinelReachesTablesNotOwned(current: seq<Mart>, baseline: map<string, int>, t: real, owned: set<string>, v: Verdict, k: string)
    requires IsVerdict(current, baseline, t, owned, v)
    requires k !in owned && k in Counts(current) && Counts(current)[k] == UNREADABLE
    requires k in baseline ==> baseline[k] != UNREADABLE
    ensures (k in After(baseline, v, true) && After(baseline, v, true)[k] == UNREADABLE) <==> Clean(current, baseline, t, owned)
  {
    hide Clean, Moved, Lost;
    CandidateIffClean(current, baseline, t, owned, v);
  }
}
