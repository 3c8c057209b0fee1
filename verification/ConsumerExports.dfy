/** Snapshot-safe exports: write a run directory, swap the manifest, prune old runs; a crash may come anywhere. */
module ConsumerExports {
  import opened Basics
  import opened StringOrder
  import Sums

  const KEEP_RUNS := 2

  /** A file named by a manifest: its run directory and its name. */
  datatype Entry = Entry(dir: string, file: string)

  type Runs = map<string, seq<string>>

  function RunDir(runId: string): string {
    "run=" + runId
  }

  predicate IsParquet(file: string) {
    |file| >= 8 && file[|file| - 8..] == ".parquet"
  }

  /** The parquet files of a directory, in listing order. */
  function EntriesOf(dir: string, files: seq<string>): (es: seq<Entry>)
    ensures forall e :: e in es <==> e.dir == dir && e.file in files && IsParquet(e.file)
  {
    if files == [] then [] else
      var last := files[|files| - 1];
      assert files == files[..|files| - 1] + [last];
      EntriesOf(dir, files[..|files| - 1]) + if IsParquet(last) then [Entry(dir, last)] else []
  }

  /** Each parquet file is listed as often as it occurs, in listing order. */
  lemma {:induction false} EntriesComeInOrder(dir: string, a: seq<string>, b: seq<string>)
    ensures EntriesOf(dir, a + b) == EntriesOf(dir, a) + EntriesOf(dir, b)
  {
    hide IsParquet;
    if b == [] {
      assert a + b == a;
    } else {
      EntriesComeInOrder(dir, a, b[..|b| - 1]);
      assert (a + b)[..|a + b| - 1] == a + b[..|b| - 1];
    }
  }

  lemma EntryOfFile(dir: string, file: string)
    ensures EntriesOf(dir, [file]) == if exists stem: string :: file == stem + ".parquet" then [Entry(dir, file)] else []
  {
    if IsParquet(file) { assert file == file[..|file| - 8] + ".parquet"; }
    if stem: string :| file == stem + ".parquet" { assert |".parquet"| == 8 && IsParquet(file); }
    assert EntriesOf(dir, [file][..0]) == [];
  }

  /** The directories newer than `d`. */
  function Newer(dirs: set<string>, d: string): set<string> {
    set e | e in dirs && Lt(d, e)
  }

  /** What pruning spares: the directories with fewer than two newer ones. */
  function Kept(dirs: set<string>): set<string> {
    set d | d in dirs && |Newer(dirs, d)| < KEEP_RUNS
  }

  lemma {:induction false} NewerThanSortedIndex(dirs: set<string>, i: nat)
    requires i < |Sorted(dirs)|
    ensures |Newer(dirs, Sorted(dirs)[i])| == |Sorted(dirs)| - 1 - i
    decreases |Sorted(dirs)| - i
  {
    hide Lt, Sorted;
    var xs := Sorted(dirs);
    assert xs[i] in xs;
    if i == |xs| - 1 {
      forall e | e in dirs ensures !Lt(xs[i], e) {
        NewerIsLater(dirs, i, e);
      }
      assert Newer(dirs, xs[i]) == {};
    } else {
      NewerThanSortedIndex(dirs, i + 1);
      assert xs[i + 1] in xs;
      forall e | e in dirs ensures Lt(xs[i], e) <==> e == xs[i + 1] || Lt(xs[i + 1], e) {
        NewerIsLater(dirs, i, e);
        NewerIsLater(dirs, i + 1, e);
      }
      LtIrreflexive(xs[i + 1]);
      assert Newer(dirs, xs[i]) == Newer(dirs, xs[i + 1]) + {xs[i + 1]};
    }
  }

  /** What is newer than the entry at `i` stands behind it in the listing. */
  lemma NewerIsLater(dirs: set<string>, i: nat, e: string)
    requires i < |Sorted(dirs)| && e in dirs
    ensures var xs := Sorted(dirs);
            && (Lt(xs[i], e) <==> exists j :: i < j < |xs| && xs[j] == e)
            && (exists j :: i < j < |xs| && xs[j] == e) == (i + 1 < |xs| && (e == xs[i + 1] || exists j :: i + 1 < j < |xs| && xs[j] == e))
  {
    hide Lt, Sorted;
    var xs := Sorted(dirs);
    var j :| 0 <= j < |xs| && xs[j] == e;
    if j <= i { NotBefore(xs, j, i); } else { assert Lt(xs[i], xs[j]); }
    if k :| i < k < |xs| && xs[k] == e { assert Lt(xs[i], xs[k]); }
  }

  lemma NotBefore(xs: seq<string>, j: nat, i: nat)
    requires StrictlySorted(xs) && j <= i < |xs|
    ensures !Lt(xs[i], xs[j])
  {
    LtIrreflexive(xs[i]);
    if j < i && Lt(xs[i], xs[j]) { LtTransitive(xs[j], xs[i], xs[j]); LtIrreflexive(xs[j]); }
  }

  /** The listing without its last two entries is exactly what pruning does not spare. */
  lemma PrunedIsSortedPrefix(dirs: set<string>, i: nat)
    requires i < |Sorted(dirs)|
    ensures Sorted(dirs)[i] in Kept(dirs) <==> i + KEEP_RUNS >= |Sorted(dirs)|
  {
    NewerThanSortedIndex(dirs, i);
    assert Sorted(dirs)[i] in Sorted(dirs);
  }

  /** No existing run has a name at or above `dir`. */
  ghost predicate Newest(dirs: set<string>, dir: string) {
    forall d :: d in dirs ==> Lt(d, dir)
  }

  /** With a new name above all others, the new run is kept, and of the older ones exactly the newest. */
  lemma KeptAfterNewest(dirs: set<string>, dir: string)
    requires Newest(dirs, dir)
    ensures dir in Kept(dirs + {dir})
    ensures forall d :: d in dirs ==> (d in Kept(dirs + {dir}) <==> forall e :: e in dirs ==> !Lt(d, e))
  {
    hide Lt;
    LtIrreflexive(dir);
    var all := dirs + {dir};
    forall e | e in dirs ensures !Lt(dir, e) {
      if Lt(dir, e) { LtTransitive(dir, e, dir); }
    }
    assert Newer(all, dir) == {};
    forall d | d in dirs ensures d in Kept(all) <==> forall e :: e in dirs ==> !Lt(d, e) {
      assert Newer(all, d) == Newer(dirs, d) + {dir};
      if Newer(dirs, d) == {} {
        assert forall e :: e in dirs && Lt(d, e) ==> e in Newer(dirs, d);
      } else {
        var e :| e in Newer(dirs, d);
        assert {e} <= Newer(dirs, d);
        Sums.SubsetSize({e}, Newer(dirs, d));
      }
    }
  }

  /** The manifest is absent or lists exactly the parquet files of one run whose write finished. */
  ghost predicate ManifestOk(runs: Runs, finished: Runs, manifest: Option<seq<Entry>>) {
    manifest.Some? ==> exists dir :: dir in runs && dir in finished && runs[dir] == finished[dir]
                                     && manifest.value == EntriesOf(dir, finished[dir])
  }

  datatype Outcome = Done | Raised

  /** One export as a value: its run directories, those of them whose write finished, and its manifest. */
  datatype Disk = Disk(runs: Runs, finished: Runs, manifest: Option<seq<Entry>>)

  ghost predicate Readable(s: Disk) {
    ManifestOk(s.runs, s.finished, s.manifest)
  }

  /** What every publish into `dir` guarantees, wherever it breaks off. */
  ghost predicate CrashSafe(s: Disk, dir: string, files: seq<string>, s': Disk) {
    // readers see a complete run, as long as names only grow
    && (Readable(s) && Newest(s.runs.Keys, dir) ==> Readable(s'))
    // the manifest is untouched, and then so is every older run, or it names the new run
    && (s'.manifest == s.manifest || s'.manifest == Some(EntriesOf(dir, files)))
    && (s'.manifest != Some(EntriesOf(dir, files)) ==>
         forall d :: d in s.runs && d != dir ==> d in s'.runs && s'.runs[d] == s.runs[d])
    // only the new directory appears, and pruning never touches a run it should spare
    && s'.runs.Keys <= s.runs.Keys + {dir}
    && (forall d :: d in s.runs && d in Kept(s.runs.Keys + {dir}) ==> d in s'.runs && s'.runs[d] == s.runs[d])
  }

  /** Writing a new directory, whole or torn, leaves what the manifest names alone. */
  lemma WriteIsSafe(s: Disk, dir: string, files: seq<string>, torn: seq<string>)
    requires dir !in s.runs
    ensures CrashSafe(s, dir, files, Disk(s.runs[dir := torn], s.finished - {dir}, s.manifest))
    ensures CrashSafe(s, dir, files, Disk(s.runs[dir := files], s.finished[dir := files], s.manifest))
  {
    hide EntriesOf, Kept, Newest;
    if s.manifest.Some? && Readable(s) {
      var d :| d in s.runs && d in s.finished && s.runs[d] == s.finished[d] && s.manifest.value == EntriesOf(d, s.finished[d]);
      assert d in s.runs[dir := torn] && d in s.finished - {dir};
      assert d in s.runs[dir := files] && d in s.finished[dir := files];
    }
  }

  /** So is swapping the manifest, and pruning after it. */
  lemma SwapAndPruneAreSafe(s: Disk, dir: string, files: seq<string>, s': Disk)
    requires dir !in s.runs && s'.manifest == Some(EntriesOf(dir, files))
    requires dir in Kept(s.runs.Keys + {dir}) ==> Readable(s')
    requires s'.runs.Keys <= s.runs.Keys + {dir}
    requires forall d :: d in s.runs.Keys + {dir} && d in Kept(s.runs.Keys + {dir}) ==>
               d in s'.runs && s'.runs[d] == s.runs[dir := files][d]
    ensures CrashSafe(s, dir, files, s')
  {
    hide EntriesOf, Kept, Readable;
    if Newest(s.runs.Keys, dir) { KeptAfterNewest(s.runs.Keys, dir); }
  }

  lemma SafeUnchanged(s: Disk, dir: string, files: seq<string>)
    ensures CrashSafe(s, dir, files, s)
  {
  }

  lemma SwappedIsReadable(s: Disk, dir: string, files: seq<string>)
    requires dir in s.runs && dir in s.finished && s.runs[dir] == s.finished[dir] == files && s.manifest == Some(EntriesOf(dir, files))
    ensures Readable(s)
  {
  }

  /** One export. `fails` decides at which point a call breaks off. */
  class ExportStore {
    var runs: Runs
    var manifest: Option<seq<Entry>>
    /** The runs whose write finished, with all their files. */
    ghost var finished: Runs

    ghost function Now(): Disk
      reads this
    {
      Disk(runs, finished, manifest)
    }

    constructor ()
      ensures runs == map[] && manifest == None && Readable(Now())
    {
      runs, manifest, finished := map[], None, map[];
    }

    /** `torn` is what a broken write or deletion leaves in its directory. */
    method Publish(runId: string, files: seq<string>, fails: nat -> bool, torn: seq<string>) returns (r: Outcome)
      modifies this
      ensures CrashSafe(old(Now()), RunDir(runId), files, Now())
      ensures r == Raised && RunDir(runId) in old(runs) ==> runs == old(runs) && manifest == old(manifest)
      ensures r == Done ==> RunDir(runId) !in old(runs) && manifest == Some(EntriesOf(RunDir(runId), files))
      ensures r == Done ==> runs.Keys == Kept(old(runs).Keys + {RunDir(runId)})
      ensures r == Done ==> forall d :: d in runs ==> runs[d] == if d == RunDir(runId) then files else old(runs)[d]
      // it finishes exactly if the directory is new and none of its calls breaks, and swaps exactly if none up to the swap does
      ensures r == Done <==> RunDir(runId) !in old(runs) && forall n :: 0 <= n < 5 + Excess(|old(runs)| + 1) ==> !fails(n)
      ensures manifest == if RunDir(runId) !in old(runs) && !fails(0) && !fails(1) && !fails(2) && !fails(3)
                          then Some(EntriesOf(RunDir(runId), files)) else old(manifest)
    {
      hide Kept, EntriesOf, CrashSafe, Readable, Excess, RunDir, Newest, Newer;
      ghost var before := Now();
      var dir := RunDir(runId);
      SafeUnchanged(before, dir, files);
      if dir in runs { return Raised; }
      r := WriteAndSwap(dir, files, fails, torn);
      if r == Raised { return; }
      r := PruneAfterSwap(before, dir, files, fails, torn);
    }

    /** The publish up to the moment the manifest names the new run. */
    method WriteAndSwap(dir: string, files: seq<string>, fails: nat -> bool, torn: seq<string>) returns (r: Outcome)
      requires dir !in runs
      modifies this
      ensures r == Done <==> !fails(0) && !fails(1) && !fails(2) && !fails(3)
      ensures r == Raised ==> manifest == old(manifest) && CrashSafe(old(Now()), dir, files, Now())
      ensures r == Done ==> runs == old(runs)[dir := files] && runs.Keys == old(runs).Keys + {dir} && |runs| == |old(runs)| + 1
      ensures r == Done ==> dir in finished && finished[dir] == files && manifest == Some(EntriesOf(dir, files))
    {
      hide Kept, EntriesOf, CrashSafe, Readable;
      r := WriteRun(dir, files, fails, torn);
      if r == Raised || fails(2) { return Raised; }
      var entries := EntriesOf(dir, runs[dir]);
      if fails(3) { return Raised; }
      manifest := Some(entries);
    }

    /** The end of a publish, once the manifest names the new run. */
    method PruneAfterSwap(ghost before: Disk, dir: string, ghost files: seq<string>, fails: nat -> bool, torn: seq<string>)
      returns (r: Outcome)
      requires dir !in before.runs && runs == before.runs[dir := files] && runs.Keys == before.runs.Keys + {dir}
      requires dir in finished && finished[dir] == files && manifest == Some(EntriesOf(dir, files))
      modifies this
      ensures CrashSafe(before, dir, files, Now()) && manifest == old(manifest)
      ensures r == Done <==> forall n :: 4 <= n < 5 + Excess(|old(runs)|) ==> !fails(n)
      ensures r == Done ==> runs.Keys == Kept(old(runs).Keys) && forall d :: d in runs ==> runs[d] == old(runs)[d]
    {
      hide Kept, EntriesOf, CrashSafe, Readable, Excess;
      SwappedIsReadable(Now(), dir, files);
      SwapAndPruneAreSafe(before, dir, files, Now());
      if fails(4) { return Raised; }
      r := Prune(dir, fails, 5, torn);
      SwapAndPruneAreSafe(before, dir, files, Now());
    }

    /** Writes a new directory, which may break off before or amid it. */
    method WriteRun(dir: string, files: seq<string>, fails: nat -> bool, torn: seq<string>) returns (r: Outcome)
      requires dir !in runs
      modifies this
      ensures CrashSafe(old(Now()), dir, files, Now()) && manifest == old(manifest)
      ensures r == Done <==> !fails(0) && !fails(1)
      ensures r == Raised ==> runs == if fails(0) then old(runs) else old(runs)[dir := torn]
      ensures r == Done ==> runs == old(runs)[dir := files] && finished == old(finished)[dir := files]
      ensures r == Done ==> runs.Keys == old(runs).Keys + {dir} && |runs| == |old(runs)| + 1
    {
      hide Kept, EntriesOf, CrashSafe, Readable;
      SafeUnchanged(Now(), dir, files);
      WriteIsSafe(Now(), dir, files, torn);
      if fails(0) { return Raised; }
      if fails(1) {
        runs, finished := runs[dir := torn], finished - {dir};
        return Raised;
      }
      assert runs[dir := files].Keys == runs.Keys + {dir};
      runs, finished := runs[dir := files], finished[dir := files];
      r := Done;
    }

    /** Deletes all but the last two run directories, oldest first. */
    method Prune(ghost current: string, fails: nat -> bool, from: nat, torn: seq<string>) returns (r: Outcome)
      requires current in runs && current in finished && runs[current] == finished[current]
      requires manifest == Some(EntriesOf(current, runs[current]))
      modifies this
      ensures manifest == old(manifest)
      ensures current in Kept(old(runs).Keys) ==> Readable(Now())
      ensures runs.Keys <= old(runs).Keys
      ensures r == Done ==> runs.Keys == Kept(old(runs).Keys) && forall d :: d in runs ==> runs[d] == old(runs)[d]
      ensures forall d :: d in old(runs) && d in Kept(old(runs).Keys) ==> d in runs && runs[d] == old(runs)[d]
      // the oldest go first, and it breaks off exactly if a deletion does
      ensures forall d, e :: d in runs && e in old(runs) && e !in runs ==> Lt(e, d)
      ensures r == Done <==> forall n :: from <= n < from + Excess(|old(runs)|) ==> !fails(n)
    {
      hide Kept, Sorted, Readable, EntriesOf, Excess, Without;
      ghost var before := runs;
      var dirs := Sorted(runs.Keys);
      SortedSize(runs.Keys);
      NothingRemoved(runs);
      var i := 0;
      while i + KEEP_RUNS < |dirs|
        invariant 0 <= i <= |dirs| && manifest == old(manifest) && finished == old(finished)
        invariant runs == Without(before, dirs[..i])
        invariant i == 0 || i + KEEP_RUNS <= |dirs|
        invariant forall n :: from <= n < from + i ==> !fails(n)
      {
        RemovedOldest(before, i);
        if fails(from + i) {
          runs := runs[dirs[i] := torn];
          if current in Kept(before.Keys) { SwappedIsReadable(Now(), current, before[current]); }
          ExcessIs(before, i);
          return Raised;
        }
        RemoveNext(before, dirs, i);
        runs := runs - {dirs[i]};
        i := i + 1;
      }
      RemovedOldest(before, i);
      ExcessIs(before, i);
      if current in Kept(before.Keys) { SwappedIsReadable(Now(), current, before[current]); }
      r := Done;
    }
  }

  function Without(runs: Runs, gone: seq<string>): Runs {
    map d | d in runs && d !in gone :: runs[d]
  }

  lemma NothingRemoved(runs: Runs)
    ensures Without(runs, Sorted(runs.Keys)[..0]) == runs
  {
  }

  lemma RemoveNext(runs: Runs, dirs: seq<string>, i: nat)
    requires i < |dirs|
    ensures Without(runs, dirs[..i + 1]) == Without(runs, dirs[..i]) - {dirs[i]}
  {
    assert dirs[..i + 1] == dirs[..i] + [dirs[i]];
  }

  lemma ExcessIs(runs: Runs, i: nat)
    ensures i + KEEP_RUNS < |Sorted(runs.Keys)| ==> i < Excess(|runs|)
    ensures i + KEEP_RUNS >= |Sorted(runs.Keys)| && (i == 0 || i + KEEP_RUNS <= |Sorted(runs.Keys)|) ==> i == Excess(|runs|)
  {
    hide Sorted;
    SortedSize(runs.Keys);
    assert |runs| == |runs.Keys|;
  }

  /** The first `i` directories of the listing are gone. */
  lemma RemovedOldest(runs: Runs, i: nat)
    requires i <= |Sorted(runs.Keys)| && (i == 0 || i + KEEP_RUNS <= |Sorted(runs.Keys)|)
    ensures var left := Without(runs, Sorted(runs.Keys)[..i]);
            && left.Keys <= runs.Keys && (forall d :: d in left ==> left[d] == runs[d])
            && (forall d :: d in runs && d in Kept(runs.Keys) ==> d in left)
            && (forall d, e :: d in left && e in runs && e !in left ==> Lt(e, d))
            && (i + KEEP_RUNS >= |Sorted(runs.Keys)| ==> left.Keys == Kept(runs.Keys))
            && (i + KEEP_RUNS < |Sorted(runs.Keys)| ==>
                 var next := Sorted(runs.Keys)[i];
                 next in left && next !in Kept(runs.Keys) && forall e :: e in runs && e !in left ==> Lt(e, next))
  {
    hide Sorted, Kept, Lt;
    var dirs := Sorted(runs.Keys);
    OldestFirst(runs.Keys, i);
    SparedRemain(runs.Keys, i);
    if i + KEEP_RUNS < |dirs| {
      PrunedIsSortedPrefix(runs.Keys, i);
      assert dirs[i] in dirs;
      assert dirs[i] !in dirs[..i] by { LtIrreflexive(dirs[i]); }
    } else {
      PrunedAre(runs.Keys, i);
    }
  }

  lemma SparedRemain(dirs: set<string>, i: nat)
    requires i <= |Sorted(dirs)| && (i == 0 || i + KEEP_RUNS <= |Sorted(dirs)|)
    ensures forall d :: d in dirs && d in Kept(dirs) ==> d !in Sorted(dirs)[..i]
  {
    hide Sorted, Kept;
    forall j | 0 <= j < i ensures Sorted(dirs)[j] !in Kept(dirs) { PrunedIsSortedPrefix(dirs, j); }
  }

  /** How many directories there are too many of. */
  function Excess(n: nat): nat {
    if n > KEEP_RUNS then n - KEEP_RUNS else 0
  }

  lemma {:induction false} SortedSize(dirs: set<string>)
    ensures |Sorted(dirs)| == |dirs|
    decreases |dirs|
  {
    if dirs != {} { SortedSize(dirs - {Least(dirs)}); }
  }

  /** What stands before the entry at `i` in the listing is older than what does not. */
  lemma OldestFirst(dirs: set<string>, i: nat)
    requires i <= |Sorted(dirs)|
    ensures forall d, e :: d in dirs && d !in Sorted(dirs)[..i] && e in Sorted(dirs)[..i] ==> Lt(e, d)
  {
    hide Sorted, Lt;
    var xs := Sorted(dirs);
    forall k | 0 <= k < i ensures xs[k] in xs[..i] { assert xs[..i][k] == xs[k]; }
    forall d, e | d in dirs && d !in xs[..i] && e in xs[..i] ensures Lt(e, d) {
      var j :| 0 <= j < |xs| && xs[j] == d;
    }
  }

  lemma PrunedAre(dirs: set<string>, i: nat)
    requires i <= |Sorted(dirs)| && i + KEEP_RUNS >= |Sorted(dirs)| && (i == 0 || i + KEEP_RUNS <= |Sorted(dirs)|)
    ensures forall d :: d in Kept(dirs) <==> d in dirs && d !in Sorted(dirs)[..i]
  {
    hide Sorted, Newer;
    var xs := Sorted(dirs);
    forall d | d in dirs ensures d in Kept(dirs) <==> d !in xs[..i] {
      var j :| 0 <= j < |xs| && xs[j] == d;
      PrunedIsSortedPrefix(dirs, j);
      LtIrreflexive(d);
      if j < i {
        assert xs[..i][j] == d;
      } else {
        assert forall k :: 0 <= k < i ==> Lt(xs[k], xs[j]);
      }
    }
  }

  /** With no broken publish in between, the run published before survives the next publish; one left in between pushes it out. */
  lemma PreviousRunSurvivesIff(dirs: set<string>, previous: string, dir: string)
    requires Newest(dirs, dir) && previous in dirs
    ensures previous in Kept(dirs + {dir}) <==> !(exists d :: d in dirs && Lt(previous, d))
  {
    KeptAfterNewest(dirs, dir);
  }

  /** A name that does not grow can lose the run just published: it is pruned exactly when two others are newer. */
  lemma PublishedRunIsPrunedIff(dirs: set<string>, dir: string)
    ensures dir !in Kept(dirs + {dir}) <==> |Newer(dirs, dir)| >= KEEP_RUNS
  {
    LtIrreflexive(dir);
    assert Newer(dirs + {dir}, dir) == Newer(dirs, dir);
  }

  // ---------------------------------------------------------------- run ids

  /** A UTC instant by its calendar fields. */
  datatype Instant = Instant(year: nat, month: nat, day: nat, hour: nat, minute: nat, second: nat, micro: nat)

  function Pow10(k: nat): nat {
    if k == 0 then 1 else 10 * Pow10(k - 1)
  }

  /** `n` in exactly `k` decimal digits. */
  function Pad(n: nat, k: nat): (s: string)
    requires n < Pow10(k)
    ensures |s| == k
  {
    if k == 0 then "" else Pad(n / 10, k - 1) + ['0' + (n % 10) as char]
  }

  ghost predicate GoodInstant(t: Instant) {
    t.year < 10_000 && t.month < 100 && t.day < 100 && t.hour < 100 && t.minute < 100 && t.second < 100 && t.micro < 1_000_000
  }

  /** `strftime("%Y%m%dT%H%M%S%fZ")`. */
  function NewRunId(t: Instant): string
    requires GoodInstant(t)
  {
    PowersOfTen();
    Pad(t.year, 4) + (Pad(t.month, 2) + (Pad(t.day, 2) + ("T" + (Pad(t.hour, 2) + (Pad(t.minute, 2)
      + (Pad(t.second, 2) + (Pad(t.micro, 6) + "Z")))))))
  }

  lemma PowersOfTen()
    ensures Pow10(2) == 100 && Pow10(4) == 10_000 && Pow10(6) == 1_000_000
  {
    assert Pow10(1) == 10;
    assert Pow10(3) == 1000;
    assert Pow10(5) == 100_000;
  }

  ghost predicate Earlier(a: Instant, b: Instant) {
    || a.year < b.year
    || (a.year == b.year && (a.month < b.month
    || (a.month == b.month && (a.day < b.day
    || (a.day == b.day && (a.hour < b.hour
    || (a.hour == b.hour && (a.minute < b.minute
    || (a.minute == b.minute && (a.second < b.second
    || (a.second == b.second && a.micro < b.micro)))))))))))
  }

  /** Comparing fixed-width fields is comparing numbers. */
  lemma {:induction false} PadOrders(n: nat, m: nat, k: nat, x: string, y: string)
    requires n < Pow10(k) && m < Pow10(k)
    ensures Lt(Pad(n, k) + x, Pad(m, k) + y) <==> n < m || (n == m && Lt(x, y))
  {
    if k == 0 {
      assert Pad(n, k) + x == x && Pad(m, k) + y == y;
    } else {
      var dn, dm := '0' + (n % 10) as char, '0' + (m % 10) as char;
      PadOrders(n / 10, m / 10, k - 1, [dn] + x, [dm] + y);
      assert Pad(n, k) + x == Pad(n / 10, k - 1) + ([dn] + x);
      assert Pad(m, k) + y == Pad(m / 10, k - 1) + ([dm] + y);
      assert ([dn] + x)[1..] == x && ([dm] + y)[1..] == y;
    }
  }

  predicate IsDigit(c: char) {
    '0' <= c <= '9'
  }

  /** The number a run of digits stands for. */
  function Number(s: string): int {
    if s == "" then 0 else 10 * Number(s[..|s| - 1]) + (s[|s| - 1] as int - '0' as int)
  }

  lemma {:induction false} PadReads(n: nat, k: nat)
    requires n < Pow10(k)
    ensures Number(Pad(n, k)) == n && forall i :: 0 <= i < k ==> IsDigit(Pad(n, k)[i])
  {
    if k > 0 {
      PadReads(n / 10, k - 1);
      assert Pad(n, k)[..k - 1] == Pad(n / 10, k - 1);
    }
  }

  /** A run id is `YYYYMMDDTHHMMSSffffffZ`, and every field reads back. */
  lemma RunIdReads(t: Instant)
    requires GoodInstant(t)
    ensures var id := NewRunId(t);
            && |id| == 22 && id[8] == 'T' && id[21] == 'Z' && (forall i :: 0 <= i < 21 && i != 8 ==> IsDigit(id[i]))
            && Number(id[..4]) == t.year && Number(id[4..6]) == t.month && Number(id[6..8]) == t.day
            && Number(id[9..11]) == t.hour && Number(id[11..13]) == t.minute && Number(id[13..15]) == t.second
            && Number(id[15..21]) == t.micro
  {
    hide Pad, Number;
    PowersOfTen();
    PadReads(t.year, 4);
    PadReads(t.month, 2);
    PadReads(t.day, 2);
    PadReads(t.hour, 2);
    PadReads(t.minute, 2);
    PadReads(t.second, 2);
    PadReads(t.micro, 6);
    var id := NewRunId(t);
    assert id[..4] == Pad(t.year, 4) && id[4..6] == Pad(t.month, 2) && id[6..8] == Pad(t.day, 2);
    assert id[9..11] == Pad(t.hour, 2) && id[11..13] == Pad(t.minute, 2) && id[13..15] == Pad(t.second, 2);
    assert id[15..21] == Pad(t.micro, 6);
    forall i | 0 <= i < 21 && i != 8 ensures IsDigit(id[i]) {
      if i < 4 { assert id[i] == id[..4][i]; }
      else if i < 6 { assert id[i] == id[4..6][i - 4]; }
      else if i < 8 { assert id[i] == id[6..8][i - 6]; }
      else if i < 11 { assert id[i] == id[9..11][i - 9]; }
      else if i < 13 { assert id[i] == id[11..13][i - 11]; }
      else if i < 15 { assert id[i] == id[13..15][i - 13]; }
      else { assert id[i] == id[15..21][i - 15]; }
    }
  }

  /** Run ids sort as the instants they name. */
  lemma RunIdsSortByTime(a: Instant, b: Instant)
    requires GoodInstant(a) && GoodInstant(b)
    ensures Lt(RunDir(NewRunId(a)), RunDir(NewRunId(b))) <==> Earlier(a, b)
  {
    hide Lt, Pad;
    PowersOfTen();
    var a7, b7 := Pad(a.micro, 6) + "Z", Pad(b.micro, 6) + "Z";
    var a6, b6 := Pad(a.second, 2) + a7, Pad(b.second, 2) + b7;
    var a5, b5 := Pad(a.minute, 2) + a6, Pad(b.minute, 2) + b6;
    var a4, b4 := Pad(a.hour, 2) + a5, Pad(b.hour, 2) + b5;
    var a3, b3 := Pad(a.day, 2) + ("T" + a4), Pad(b.day, 2) + ("T" + b4);
    var a2, b2 := Pad(a.month, 2) + a3, Pad(b.month, 2) + b3;
    LtIrreflexive("Z");
    PadOrders(a.micro, b.micro, 6, "Z", "Z");
    PadOrders(a.second, b.second, 2, a7, b7);
    PadOrders(a.minute, b.minute, 2, a6, b6);
    PadOrders(a.hour, b.hour, 2, a5, b5);
    PrefixCancels("T", a4, b4);
    PadOrders(a.day, b.day, 2, "T" + a4, "T" + b4);
    PadOrders(a.month, b.month, 2, a3, b3);
    PadOrders(a.year, b.year, 4, a2, b2);
    PrefixCancels("run=", NewRunId(a), NewRunId(b));
  }

  // ---------------------------------------------------------------- every run of the exporter

  /** Publishes one after the other at later and later instants, each breaking off anywhere or not at all. */
  ghost predicate History(states: seq<Disk>, at: seq<Instant>, files: seq<seq<string>>) {
    && |states| == |at| + 1 && |files| == |at|
    && (forall i :: 0 <= i < |at| ==> GoodInstant(at[i]))
    && (forall i, j :: 0 <= i < j < |at| ==> Earlier(at[i], at[j]))
    && states[0].runs == map[] && states[0].manifest == None
    && (forall i :: 0 <= i < |at| ==> CrashSafe(states[i], RunDir(NewRunId(at[i])), files[i], states[i + 1]))
  }

  /** The directories on disk were named by the publishes so far. */
  lemma {:induction false} RunsWereNamed(states: seq<Disk>, at: seq<Instant>, files: seq<seq<string>>, k: nat, d: string)
    requires History(states, at, files) && k < |states| && d in states[k].runs
    ensures exists i :: 0 <= i < k && d == RunDir(NewRunId(at[i]))
  {
    hide Earlier, Readable, Newest, Kept, EntriesOf, NewRunId;
    if k > 0 {
      assert CrashSafe(states[k - 1], RunDir(NewRunId(at[k - 1])), files[k - 1], states[k - 1 + 1]);
      if d in states[k - 1].runs { RunsWereNamed(states, at, files, k - 1, d); }
    }
  }

  lemma NextIsNewest(states: seq<Disk>, at: seq<Instant>, files: seq<seq<string>>, k: nat)
    requires History(states, at, files) && k < |at|
    ensures Newest(states[k].runs.Keys, RunDir(NewRunId(at[k])))
  {
    hide Earlier, CrashSafe, NewRunId, Lt;
    forall d | d in states[k].runs ensures Lt(d, RunDir(NewRunId(at[k]))) {
      RunsWereNamed(states, at, files, k, d);
      var i :| 0 <= i < k && d == RunDir(NewRunId(at[i]));
      RunIdsSortByTime(at[i], at[k]);
    }
  }

  /** At every moment, the manifest is absent or names exactly the files of one complete run that is still there. */
  lemma {:induction false} AlwaysReadable(states: seq<Disk>, at: seq<Instant>, files: seq<seq<string>>, k: nat)
    requires History(states, at, files) && k < |states|
    ensures Readable(states[k])
  {
    hide Earlier, NewRunId, Newest, Kept;
    if k > 0 {
      AlwaysReadable(states, at, files, k - 1);
      NextIsNewest(states, at, files, k - 1);
      assert CrashSafe(states[k - 1], RunDir(NewRunId(at[k - 1])), files[k - 1], states[k - 1 + 1]);
    }
  }

  /** A run that is on disk when its publish ends stays, file for file, through the whole next publish:
      a reader that opened the manifest just before the swap can finish. */
  lemma ReadersCanFinish(states: seq<Disk>, at: seq<Instant>, files: seq<seq<string>>, k: nat)
    requires History(states, at, files) && k + 1 < |at|
    requires var d := RunDir(NewRunId(at[k])); d in states[k + 1].runs && states[k + 1].runs[d] == files[k]
    ensures var d := RunDir(NewRunId(at[k])); d in states[k + 2].runs && states[k + 2].runs[d] == files[k]
  {
    hide Earlier, NewRunId, Kept, EntriesOf, Readable;
    var d := RunDir(NewRunId(at[k]));
    NextIsNewest(states, at, files, k);
    NextIsNewest(states, at, files, k + 1);
    assert CrashSafe(states[k], d, files[k], states[k + 1]);
    assert CrashSafe(states[k + 1], RunDir(NewRunId(at[k + 1])), files[k + 1], states[k + 1 + 1]);
    LastNamedIsKept(states[k].runs.Keys, states[k + 1].runs.Keys, d, RunDir(NewRunId(at[k + 1])));
  }

  lemma LastNamedIsKept(before: set<string>, dirs: set<string>, d: string, next: string)
    requires Newest(before, d) && dirs <= before + {d} && d in dirs && Newest(dirs, next)
    ensures d in Kept(dirs + {next})
  {
    hide Kept;
    KeptAfterNewest(dirs, next);
    forall e | e in dirs ensures !Lt(d, e) {
      LtIrreflexive(d);
      if Lt(d, e) { LtTransitive(e, d, e); LtIrreflexive(e); }
    }
  }
}
