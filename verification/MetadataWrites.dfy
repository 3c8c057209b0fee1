/** Autocommitted delete-then-insert writes that are retried whole after a failure. */
module MetadataWrites {
  import opened CallLog

  /** The primary key columns of a row, and its other columns. */
  type Key = seq<string>
  type Body = map<string, string>

  datatype Row = Row(key: Key, body: Body)

  datatype Stmt =
    | DeleteKey(key: Key)
    | Insert(row: Row)
    | DeleteAbsent(keep: seq<Key>)

  function Without(table: seq<Row>, k: Key): seq<Row> {
    if table == [] then [] else
      Without(table[..|table| - 1], k) + if table[|table| - 1].key == k then [] else [table[|table| - 1]]
  }

  /** The rows whose key is (or, if not wanted, is not) one of `keys`. */
  function Among(table: seq<Row>, keys: seq<Key>, wanted: bool): seq<Row> {
    if table == [] then [] else
      Among(table[..|table| - 1], keys, wanted)
      + if (table[|table| - 1].key in keys) == wanted then [table[|table| - 1]] else []
  }

  function Exec(table: seq<Row>, s: Stmt): seq<Row> {
    match s
    case DeleteKey(k) => Without(table, k)
    case Insert(row) => table + [row]
    case DeleteAbsent(keep) => Among(table, keep, true)
  }

  function ExecAll(table: seq<Row>, stmts: seq<Stmt>): seq<Row> {
    if stmts == [] then table else Exec(ExecAll(table, stmts[..|stmts| - 1]), stmts[|stmts| - 1])
  }

  function Upserts(items: seq<Row>): seq<Stmt> {
    if items == [] then [] else
      var last := items[|items| - 1];
      Upserts(items[..|items| - 1]) + [DeleteKey(last.key), Insert(last)]
  }

  function Keys(items: seq<Row>): seq<Key> {
    seq(|items|, i requires 0 <= i < |items| => items[i].key)
  }

  /** Every statement of one call. A catalog call (`purge`) also removes keys it no longer defines,
      unless it defines none; results of checks are only replaced. */
  function Script(items: seq<Row>, purge: bool): seq<Stmt> {
    Upserts(items) + if purge && items != [] then [DeleteAbsent(Keys(items))] else []
  }

  /** Per key the last row given for it. */
  function LastWins(items: seq<Row>): seq<Row> {
    if items == [] then [] else
      var last := items[|items| - 1];
      Without(LastWins(items[..|items| - 1]), last.key) + [last]
  }

  /** The table after one undisturbed call. */
  function Final(table: seq<Row>, items: seq<Row>, purge: bool): seq<Row> {
    (if purge && items != [] then [] else Among(table, Keys(items), false)) + LastWins(items)
  }

  // ---------------------------------------------------------------- what the statements do

  lemma {:induction false} WithoutMembers(table: seq<Row>, k: Key, x: Row)
    ensures x in Without(table, k) <==> x in table && x.key != k
  {
    if table != [] {
      WithoutMembers(table[..|table| - 1], k, x);
      assert table == table[..|table| - 1] + [table[|table| - 1]];
    }
  }

  lemma {:induction false} AmongMembers(table: seq<Row>, keys: seq<Key>, wanted: bool, x: Row)
    ensures x in Among(table, keys, wanted) <==> x in table && (x.key in keys <==> wanted)
  {
    if table != [] {
      AmongMembers(table[..|table| - 1], keys, wanted, x);
      assert table == table[..|table| - 1] + [table[|table| - 1]];
    }
  }

  lemma {:induction false} WithoutConcat(a: seq<Row>, b: seq<Row>, k: Key)
    ensures Without(a + b, k) == Without(a, k) + Without(b, k)
  {
    if b == [] {
      assert a + b == a;
    } else {
      assert (a + b)[..|a + b| - 1] == a + b[..|b| - 1];
      WithoutConcat(a, b[..|b| - 1], k);
    }
  }

  lemma {:induction false} AmongConcat(a: seq<Row>, b: seq<Row>, keys: seq<Key>, wanted: bool)
    ensures Among(a + b, keys, wanted) == Among(a, keys, wanted) + Among(b, keys, wanted)
  {
    if b == [] {
      assert a + b == a;
    } else {
      assert (a + b)[..|a + b| - 1] == a + b[..|b| - 1];
      AmongConcat(a, b[..|b| - 1], keys, wanted);
    }
  }

  lemma {:induction false} WithoutKeepsOthers(table: seq<Row>, k: Key, keys: seq<Key>)
    requires k in keys
    ensures Among(Without(table, k), keys, false) == Among(table, keys, false)
  {
    if table != [] {
      var front, last := table[..|table| - 1], table[|table| - 1];
      WithoutKeepsOthers(front, k, keys);
      AmongConcat(Without(front, k), if last.key == k then [] else [last], keys, false);
      assert Among([last], keys, false) == Among([], keys, false) + if last.key !in keys then [last] else [];
    }
  }

  /** Dropping one more key from the rows outside `keys`. */
  lemma {:induction false} OneKeyLess(table: seq<Row>, keys: seq<Key>, k: Key)
    ensures Without(Among(table, keys, false), k) == Among(table, keys + [k], false)
  {
    if table != [] {
      var front, last := table[..|table| - 1], table[|table| - 1];
      OneKeyLess(front, keys, k);
      WithoutConcat(Among(front, keys, false), if last.key !in keys then [last] else [], k);
      assert Without([last], k) == Without([], k) + if last.key == k then [] else [last];
    }
  }

  lemma {:induction false} AllKept(rows: seq<Row>, keys: seq<Key>)
    requires forall r :: r in rows ==> r.key in keys
    ensures Among(rows, keys, true) == rows
  {
    if rows != [] {
      var front, last := rows[..|rows| - 1], rows[|rows| - 1];
      assert rows == front + [last];
      AllKept(front, keys);
      assert last in rows;
    }
  }

  lemma {:induction false} NoneKept(rows: seq<Row>, keys: seq<Key>)
    requires forall r :: r in rows ==> r.key !in keys
    ensures Among(rows, keys, true) == []
  {
    if rows != [] {
      var front, last := rows[..|rows| - 1], rows[|rows| - 1];
      assert rows == front + [last];
      NoneKept(front, keys);
      assert last in rows;
    }
  }

  lemma ExecAllSnoc(table: seq<Row>, stmts: seq<Stmt>, s: Stmt)
    ensures ExecAll(table, stmts + [s]) == Exec(ExecAll(table, stmts), s)
  {
    assert (stmts + [s])[..|stmts|] == stmts;
  }

  lemma KeysSnoc(items: seq<Row>)
    requires items != []
    ensures Keys(items) == Keys(items[..|items| - 1]) + [items[|items| - 1].key]
  {
  }

  lemma KeyOfItem(items: seq<Row>, r: Row)
    requires r in items
    ensures r.key in Keys(items)
  {
    var i :| 0 <= i < |items| && items[i] == r;
    assert Keys(items)[i] == r.key;
  }

  /** The upserts leave other keys alone and, per key, the last row given. */
  lemma {:induction false} UpsertsMean(table: seq<Row>, items: seq<Row>)
    ensures ExecAll(table, Upserts(items)) == Among(table, Keys(items), false) + LastWins(items)
  {
    if items == [] {
      NoKeysKeepAll(table);
    } else {
      var front, last := items[..|items| - 1], items[|items| - 1];
      var k := last.key;
      UpsertsMean(table, front);
      var done := Upserts(front);
      assert Upserts(items) == done + [DeleteKey(k)] + [Insert(last)];
      ExecAllSnoc(table, done, DeleteKey(k));
      ExecAllSnoc(table, done + [DeleteKey(k)], Insert(last));
      WithoutConcat(Among(table, Keys(front), false), LastWins(front), k);
      OneKeyLess(table, Keys(front), k);
      KeysSnoc(items);
    }
  }

  lemma {:induction false} NoKeysKeepAll(table: seq<Row>)
    ensures Among(table, [], false) == table
  {
    if table != [] { NoKeysKeepAll(table[..|table| - 1]); }
  }

  /** One undisturbed call gives the final table. */
  lemma ScriptMeans(table: seq<Row>, items: seq<Row>, purge: bool)
    ensures ExecAll(table, Script(items, purge)) == Final(table, items, purge)
  {
    UpsertsMean(table, items);
    if purge && items != [] {
      var others, kept := Among(table, Keys(items), false), LastWins(items);
      ExecAllSnoc(table, Upserts(items), DeleteAbsent(Keys(items)));
      AmongConcat(others, kept, Keys(items), true);
      forall r | r in kept ensures r.key in Keys(items) { LastWinsKey(items, r); }
      AllKept(kept, Keys(items));
      forall r | r in others ensures r.key !in Keys(items) { AmongMembers(table, Keys(items), false, r); }
      NoneKept(others, Keys(items));
    } else {
      assert Script(items, purge) == Upserts(items) + [] == Upserts(items);
    }
  }

  lemma LastWinsKey(items: seq<Row>, r: Row)
    requires r in LastWins(items)
    ensures r.key in Keys(items)
  {
    LastWinsRows(items, r);
    KeyOfItem(items, r);
  }

  /** A statement that touches only rows under `keys`. */
  predicate Within(s: Stmt, keys: seq<Key>) {
    match s
    case DeleteKey(k) => k in keys
    case Insert(row) => row.key in keys
    case DeleteAbsent(_) => false
  }

  lemma {:induction false} UpsertsAreWithin(items: seq<Row>, keys: seq<Key>)
    requires forall r :: r in items ==> r.key in keys
    ensures forall s :: s in Upserts(items) ==> Within(s, keys)
  {
    if items != [] {
      assert items[|items| - 1] in items;
      UpsertsAreWithin(items[..|items| - 1], keys);
    }
  }

  lemma {:induction false} WithinKeepsOthers(table: seq<Row>, stmts: seq<Stmt>, keys: seq<Key>)
    requires forall s :: s in stmts ==> Within(s, keys)
    ensures Among(ExecAll(table, stmts), keys, false) == Among(table, keys, false)
  {
    if stmts != [] {
      var front, last := stmts[..|stmts| - 1], stmts[|stmts| - 1];
      WithinKeepsOthers(table, front, keys);
      assert last in stmts;
      var t := ExecAll(table, front);
      match last
      case DeleteKey(k) => WithoutKeepsOthers(t, k, keys);
      case Insert(row) => assert (t + [row])[..|t|] == t;
    }
  }

  /** A call cut short after `n` statements has not touched a key it does not write. */
  lemma CutCallKeepsOthers(table: seq<Row>, items: seq<Row>, purge: bool, n: nat)
    requires n < |Script(items, purge)|
    ensures Among(ExecAll(table, Script(items, purge)[..n]), Keys(items), false) == Among(table, Keys(items), false)
  {
    forall r | r in items ensures r.key in Keys(items) { KeyOfItem(items, r); }
    UpsertsAreWithin(items, Keys(items));
    assert Script(items, purge)[..n] == Upserts(items)[..n];
    forall s | s in Upserts(items)[..n] ensures Within(s, Keys(items)) { assert s in Upserts(items); }
    WithinKeepsOthers(table, Upserts(items)[..n], Keys(items));
  }

  /** Any prefix of one call followed by a whole call under the same keys gives the same table as the whole call alone. */
  lemma CutThenWholeIsWhole(table: seq<Row>, first: seq<Row>, items: seq<Row>, purge: bool, n: nat)
    requires n <= |Script(first, purge)| && Keys(first) == Keys(items)
    ensures ExecAll(ExecAll(table, Script(first, purge)[..n]), Script(items, purge)) == ExecAll(table, Script(items, purge))
  {
    hide Among, LastWins, Upserts, Script, ExecAll;
    var cut := ExecAll(table, Script(first, purge)[..n]);
    ScriptMeans(cut, items, purge);
    ScriptMeans(table, items, purge);
    assert |Keys(first)| == |first| && |Keys(items)| == |items|;
    if n < |Script(first, purge)| {
      CutCallKeepsOthers(table, first, purge, n);
    } else if !(purge && items != []) {
      assert Script(first, purge)[..n] == Script(first, purge);
      ScriptMeans(table, first, purge);
      FinalKeepsOthers(table, first, purge);
    }
  }

  lemma FinalKeepsOthers(table: seq<Row>, items: seq<Row>, purge: bool)
    requires !(purge && items != [])
    ensures Among(Final(table, items, purge), Keys(items), false) == Among(table, Keys(items), false)
  {
    forall r | r in items ensures r.key in Keys(items) { KeyOfItem(items, r); }
    UpsertsMean(table, items);
    UpsertsAreWithin(items, Keys(items));
    WithinKeepsOthers(table, Upserts(items), Keys(items));
  }

  /** After a catalog call the keys are exactly the defined ones; per key there is one row, the last one given. */
  lemma FinalRows(table: seq<Row>, items: seq<Row>, purge: bool, r: Row)
    ensures r in Final(table, items, purge) <==>
              LastGiven(items, r) || (r.key !in Keys(items) && r in table && !(purge && items != []))
    ensures DistinctKeys(LastWins(items))
    ensures purge && items != [] ==> forall k :: k in Keys(items) <==> exists x :: x in Final(table, items, purge) && x.key == k
  {
    hide Among, LastWins, LastGiven;
    LastWinsRows(items, r);
    LastWinsKeysDistinct(items);
    AmongMembers(table, Keys(items), false, r);
    if purge && items != [] {
      assert Final(table, items, purge) == LastWins(items);
      forall k ensures k in Keys(items) <==> exists x :: x in LastWins(items) && x.key == k {
        LastWinsKeys(items, k);
      }
    }
  }

  ghost predicate DistinctKeys(rows: seq<Row>) {
    forall i, j :: 0 <= i < j < |rows| ==> rows[i].key != rows[j].key
  }

  /** `r` is given, and no later row of `items` has its key. */
  ghost predicate LastGiven(items: seq<Row>, r: Row) {
    exists i :: GivenLastAt(items, r, i)
  }

  ghost predicate GivenLastAt(items: seq<Row>, r: Row, i: int) {
    0 <= i < |items| && items[i] == r && forall j :: i < j < |items| ==> items[j].key != r.key
  }

  lemma {:induction false} LastWinsRows(items: seq<Row>, r: Row)
    ensures r in LastWins(items) <==> LastGiven(items, r)
    ensures r in LastWins(items) ==> r in items
  {
    if items != [] {
      var front, last := items[..|items| - 1], items[|items| - 1];
      LastWinsRows(front, r);
      WithoutMembers(LastWins(front), last.key, r);
      hide LastWins, Without;
      LastGivenSnoc(items, r);
    }
  }

  lemma LastGivenSnoc(items: seq<Row>, r: Row)
    requires items != []
    ensures var front, last := items[..|items| - 1], items[|items| - 1];
            LastGiven(items, r) <==> r == last || (LastGiven(front, r) && r.key != last.key)
  {
    var front, last := items[..|items| - 1], items[|items| - 1];
    if LastGiven(items, r) && r != last {
      var i :| GivenLastAt(items, r, i);
      assert GivenLastAt(front, r, i);
    }
    if LastGiven(front, r) && r.key != last.key {
      var i :| GivenLastAt(front, r, i);
      assert GivenLastAt(items, r, i);
    }
    if r == last { assert GivenLastAt(items, r, |items| - 1); }
  }

  lemma {:induction false} LastWinsKeysDistinct(items: seq<Row>)
    ensures DistinctKeys(LastWins(items))
  {
    if items != [] {
      var front, last := items[..|items| - 1], items[|items| - 1];
      LastWinsKeysDistinct(front);
      WithoutKeepsDistinct(LastWins(front), last.key);
      var rest := Without(LastWins(front), last.key);
      forall i | 0 <= i < |rest| ensures rest[i].key != last.key {
        WithoutMembers(LastWins(front), last.key, rest[i]);
      }
    }
  }

  lemma {:induction false} WithoutKeepsDistinct(rows: seq<Row>, k: Key)
    requires DistinctKeys(rows)
    ensures DistinctKeys(Without(rows, k))
  {
    if rows != [] {
      var front, last := rows[..|rows| - 1], rows[|rows| - 1];
      WithoutKeepsDistinct(front, k);
      var r := Without(front, k);
      forall i | 0 <= i < |r| ensures r[i].key != last.key {
        WithoutMembers(front, k, r[i]);
        assert r[i] in front;
      }
    }
  }

  lemma {:induction false} LastWinsKeys(items: seq<Row>, k: Key)
    ensures k in Keys(items) <==> exists x :: x in LastWins(items) && x.key == k
  {
    if items != [] {
      var front, last := items[..|items| - 1], items[|items| - 1];
      LastWinsKeys(front, k);
      KeysSnoc(items);
      forall x: Row | x.key == k ensures x in LastWins(items) <==> x == last || (x in LastWins(front) && k != last.key) {
        WithoutMembers(LastWins(front), last.key, x);
      }
      assert k == last.key ==> last in LastWins(items);
    }
  }

  // ---------------------------------------------------------------- several tables in one call

  datatype TableId = LayerCatalog | MetricCatalog | DqCheckResult | PipelineRun

  datatype Meta = Meta(layer: seq<Row>, metric: seq<Row>, dq: seq<Row>, runs: seq<Row>) {

    function Get(t: TableId): seq<Row> {
      match t
      case LayerCatalog => layer
      case MetricCatalog => metric
      case DqCheckResult => dq
      case PipelineRun => runs
    }

    function Set(t: TableId, rows: seq<Row>): Meta {
      match t
      case LayerCatalog => this.(layer := rows)
      case MetricCatalog => this.(metric := rows)
      case DqCheckResult => this.(dq := rows)
      case PipelineRun => this.(runs := rows)
    }
  }

  lemma SameTablesSameMeta(m: Meta, m': Meta)
    requires forall t: TableId :: m.Get(t) == m'.Get(t)
    ensures m == m'
  {
    assert m.Get(LayerCatalog) == m'.Get(LayerCatalog) && m.Get(MetricCatalog) == m'.Get(MetricCatalog);
    assert m.Get(DqCheckResult) == m'.Get(DqCheckResult) && m.Get(PipelineRun) == m'.Get(PipelineRun);
  }

  /** A statement against one of the tables. */
  datatype Write = Write(table: TableId, stmt: Stmt)

  function Apply(m: Meta, w: Write): Meta {
    m.Set(w.table, Exec(m.Get(w.table), w.stmt))
  }

  function ApplyAll(m: Meta, ws: seq<Write>): Meta {
    if ws == [] then m else Apply(ApplyAll(m, ws[..|ws| - 1]), ws[|ws| - 1])
  }

  /** The statements against one table. */
  function Only(ws: seq<Write>, t: TableId): seq<Stmt> {
    if ws == [] then [] else
      Only(ws[..|ws| - 1], t) + if ws[|ws| - 1].table == t then [ws[|ws| - 1].stmt] else []
  }

  /** What a call does to one table, and in which way. */
  datatype Part = Part(table: TableId, items: seq<Row>, purge: bool)

  function Tagged(t: TableId, stmts: seq<Stmt>): seq<Write> {
    seq(|stmts|, i requires 0 <= i < |stmts| => Write(t, stmts[i]))
  }

  function PartScript(p: Part): seq<Write> {
    Tagged(p.table, Script(p.items, p.purge))
  }

  /** Every statement of a call, part by part. */
  function CallScript(call: seq<Part>): seq<Write> {
    if call == [] then [] else CallScript(call[..|call| - 1]) + PartScript(call[|call| - 1])
  }

  /** `seed_catalogs`: the layer catalog, then the metric catalog. */
  function SeedCall(layers: seq<Row>, metrics: seq<Row>): seq<Part> {
    [Part(LayerCatalog, layers, true), Part(MetricCatalog, metrics, true)]
  }

  /** `record_dq_results`. */
  function DqCall(results: seq<Row>): seq<Part> {
    [Part(DqCheckResult, results, false)]
  }

  /** `start_pipeline_run`. */
  function StartRunCall(run: Row): seq<Part> {
    [Part(PipelineRun, [run], false)]
  }

  ghost predicate DistinctTables(call: seq<Part>) {
    forall i, j :: 0 <= i < j < |call| ==> call[i].table != call[j].table
  }

  /** The same tables and keys, in the same way; the other columns, such as timestamps, may differ. */
  ghost predicate SameKeys(a: seq<Part>, b: seq<Part>) {
    && |a| == |b|
    && forall i :: 0 <= i < |a| ==> a[i].table == b[i].table && a[i].purge == b[i].purge && Keys(a[i].items) == Keys(b[i].items)
  }

  lemma {:induction false} OnlyConcat(a: seq<Write>, b: seq<Write>, t: TableId)
    ensures Only(a + b, t) == Only(a, t) + Only(b, t)
  {
    if b == [] {
      assert a + b == a;
    } else {
      assert (a + b)[..|a + b| - 1] == a + b[..|b| - 1];
      OnlyConcat(a, b[..|b| - 1], t);
    }
  }

  lemma OnlySnoc(ws: seq<Write>, w: Write, t: TableId)
    ensures Only(ws + [w], t) == Only(ws, t) + if w.table == t then [w.stmt] else []
  {
    assert (ws + [w])[..|ws|] == ws;
  }

  lemma TaggedSnoc(t: TableId, stmts: seq<Stmt>, s: Stmt)
    ensures Tagged(t, stmts + [s]) == Tagged(t, stmts) + [Write(t, s)]
  {
  }

  lemma {:induction false} OnlyTagged(u: TableId, stmts: seq<Stmt>, t: TableId)
    ensures Only(Tagged(u, stmts), t) == if u == t then stmts else []
  {
    if stmts != [] {
      hide Only, Tagged;
      var front, last := stmts[..|stmts| - 1], stmts[|stmts| - 1];
      assert stmts == front + [last];
      OnlyTagged(u, front, t);
      TaggedSnoc(u, front, last);
      OnlySnoc(Tagged(u, front), Write(u, last), t);
    }
  }

  /** Each table sees its own statements, in order. */
  lemma {:induction false} ApplyAllTable(m: Meta, ws: seq<Write>, t: TableId)
    ensures ApplyAll(m, ws).Get(t) == ExecAll(m.Get(t), Only(ws, t))
  {
    hide Exec, Apply, m.Get;
    if ws == [] {
      assert ExecAll(m.Get(t), []) == m.Get(t);
    } else {
      var front, last := ws[..|ws| - 1], ws[|ws| - 1];
      ApplyAllTable(m, front, t);
      SetThenGet(ApplyAll(m, front), last, t);
      if last.table == t {
        ExecAllSnoc(m.Get(t), Only(front, t), last.stmt);
      } else {
        assert Only(ws, t) == Only(front, t) + [] == Only(front, t);
      }
    }
  }

  lemma SetThenGet(m: Meta, w: Write, t: TableId)
    ensures Apply(m, w).Get(t) == if w.table == t then Exec(m.Get(t), w.stmt) else m.Get(t)
  {
    hide Exec;
  }

  lemma OnlyNothing(t: TableId)
    ensures Only([], t) == []
  {
  }

  lemma {:induction false} OnlyOfCall(call: seq<Part>, t: TableId)
    requires DistinctTables(call)
    ensures forall i :: 0 <= i < |call| && call[i].table == t ==> Only(CallScript(call), t) == Script(call[i].items, call[i].purge)
    ensures (forall i :: 0 <= i < |call| ==> call[i].table != t) ==> Only(CallScript(call), t) == []
  {
    hide Script, Tagged, Only;
    if call == [] {
      OnlyNothing(t);
    } else {
      var front, last := call[..|call| - 1], call[|call| - 1];
      OnlyOfCall(front, t);
      OnlyConcat(CallScript(front), PartScript(last), t);
      OnlyTagged(last.table, Script(last.items, last.purge), t);
      if last.table == t { assert forall i :: 0 <= i < |front| ==> front[i].table != t; }
    }
  }

  lemma {:induction false} OnlyPrefix(ws: seq<Write>, n: nat, t: TableId)
    requires n <= |ws|
    ensures |Only(ws[..n], t)| <= |Only(ws, t)| && Only(ws[..n], t) == Only(ws, t)[..|Only(ws[..n], t)|]
  {
    OnlyConcat(ws[..n], ws[n..], t);
    assert ws == ws[..n] + ws[n..];
  }

  /** One table through a cut call and then a whole one. */
  lemma CutThenWholeInTable(m: Meta, first: seq<Part>, call: seq<Part>, n: nat, t: TableId)
    requires DistinctTables(first) && SameKeys(first, call) && n <= |CallScript(first)|
    ensures ApplyAll(ApplyAll(m, CallScript(first)[..n]), CallScript(call)).Get(t) == ApplyAll(m, CallScript(call)).Get(t)
  {
    hide Script, ExecAll, CallScript, Keys;
    var cut := CallScript(first)[..n];
    ApplyAllTable(m, cut, t);
    ApplyAllTable(ApplyAll(m, cut), CallScript(call), t);
    ApplyAllTable(m, CallScript(call), t);
    OnlyPrefix(CallScript(first), n, t);
    OnlyOfCall(first, t);
    assert DistinctTables(call);
    OnlyOfCall(call, t);
    if i :| 0 <= i < |first| && first[i].table == t {
      CutThenWholeIsWhole(m.Get(t), first[i].items, call[i].items, first[i].purge, |Only(cut, t)|);
    } else {
      NothingToExec(m.Get(t));
    }
  }

  lemma NothingToExec(table: seq<Row>)
    ensures ExecAll(table, []) == table
  {
  }

  /** Any prefix of one call, over all the tables it writes, followed by a whole call under the same keys gives the same
      tables as the whole call alone. */
  lemma CutCallThenWholeIsWhole(m: Meta, first: seq<Part>, call: seq<Part>, n: nat)
    requires DistinctTables(first) && SameKeys(first, call) && n <= |CallScript(first)|
    ensures ApplyAll(ApplyAll(m, CallScript(first)[..n]), CallScript(call)) == ApplyAll(m, CallScript(call))
  {
    hide CallScript, ApplyAll;
    forall t: TableId
      ensures ApplyAll(ApplyAll(m, CallScript(first)[..n]), CallScript(call)).Get(t) == ApplyAll(m, CallScript(call)).Get(t)
    {
      CutThenWholeInTable(m, first, call, n, t);
    }
    SameTablesSameMeta(ApplyAll(ApplyAll(m, CallScript(first)[..n]), CallScript(call)), ApplyAll(m, CallScript(call)));
  }

  /** After a whole call, each table it names is final and the others are as before. */
  lemma CallMeans(m: Meta, call: seq<Part>, t: TableId)
    requires DistinctTables(call)
    ensures var after := ApplyAll(m, CallScript(call)).Get(t);
            && (forall i :: 0 <= i < |call| && call[i].table == t ==> after == Final(m.Get(t), call[i].items, call[i].purge))
            && ((forall i :: 0 <= i < |call| ==> call[i].table != t) ==> after == m.Get(t))
  {
    hide Script, CallScript, Final;
    ApplyAllTable(m, CallScript(call), t);
    OnlyOfCall(call, t);
    forall i | 0 <= i < |call| && call[i].table == t ensures ApplyAll(m, CallScript(call)).Get(t) == Final(m.Get(t), call[i].items, call[i].purge) {
      ScriptMeans(m.Get(t), call[i].items, call[i].purge);
    }
  }

  lemma SeedTablesDiffer(layers: seq<Row>, metrics: seq<Row>)
    ensures var call := SeedCall(layers, metrics);
            DistinctTables(call) && call[0] == Part(LayerCatalog, layers, true) && call[1] == Part(MetricCatalog, metrics, true)
  {
  }

  /** What `seed_catalogs` leaves: in each catalog exactly the defined keys, unless none is defined, with one row each, the
      last one given; the other tables as they were. */
  lemma SeedMeans(m: Meta, layers: seq<Row>, metrics: seq<Row>)
    ensures var after := ApplyAll(m, CallScript(SeedCall(layers, metrics)));
            && (layers != [] ==> DistinctKeys(after.layer) && forall r :: r in after.layer <==> LastGiven(layers, r))
            && (metrics != [] ==> DistinctKeys(after.metric) && forall r :: r in after.metric <==> LastGiven(metrics, r))
            && (layers == [] ==> forall r :: r in after.layer <==> r in m.layer)
            && (metrics == [] ==> forall r :: r in after.metric <==> r in m.metric)
            && after.dq == m.dq && after.runs == m.runs
  {
    hide CallScript, ApplyAll, Final, LastWins, LastGiven, SeedCall;
    var call := SeedCall(layers, metrics);
    var after := ApplyAll(m, CallScript(call));
    SeedTablesDiffer(layers, metrics);
    SeedHasTwoParts(layers, metrics);
    forall t: TableId ensures after.Get(t) == match t
                                              case LayerCatalog => Final(m.layer, layers, true)
                                              case MetricCatalog => Final(m.metric, metrics, true)
                                              case _ => m.Get(t)
    {
      CallMeans(m, call, t);
    }
    assert after.layer == after.Get(LayerCatalog) && after.metric == after.Get(MetricCatalog);
    assert after.dq == after.Get(DqCheckResult) && after.runs == after.Get(PipelineRun);
    PurgedCatalog(m.layer, layers);
    PurgedCatalog(m.metric, metrics);
  }

  lemma SeedHasTwoParts(layers: seq<Row>, metrics: seq<Row>)
    ensures |SeedCall(layers, metrics)| == 2
  {
  }

  lemma PurgedCatalog(table: seq<Row>, items: seq<Row>)
    ensures items != [] ==> DistinctKeys(Final(table, items, true)) && forall r :: r in Final(table, items, true) <==> LastGiven(items, r)
    ensures items == [] ==> forall r :: r in Final(table, items, true) <==> r in table
  {
    hide LastWins, LastGiven, Among;
    forall r ensures items != [] ==> (r in Final(table, items, true) <==> LastGiven(items, r)) { FinalRows(table, items, true, r); }
    if items == [] {
      NoKeysKeepAll(table);
      NothingGiven();
    } else {
      FinalRows(table, items, true, items[0]);
    }
  }

  lemma NothingGiven()
    ensures LastWins([]) == [] && Keys([]) == []
  {
  }

  /** `seed_catalogs` cut off anywhere, in either catalog, and then run whole is `seed_catalogs` run whole. */
  lemma SeedConverges(m: Meta, layers': seq<Row>, metrics': seq<Row>, layers: seq<Row>, metrics: seq<Row>, n: nat)
    requires Keys(layers') == Keys(layers) && Keys(metrics') == Keys(metrics)
    requires n <= |CallScript(SeedCall(layers', metrics'))|
    ensures ApplyAll(ApplyAll(m, CallScript(SeedCall(layers', metrics'))[..n]), CallScript(SeedCall(layers, metrics)))
            == ApplyAll(m, CallScript(SeedCall(layers, metrics)))
  {
    hide CallScript, ApplyAll, Keys;
    CutCallThenWholeIsWhole(m, SeedCall(layers', metrics'), SeedCall(layers, metrics), n);
  }

  /** What `record_dq_results` leaves: per clipped check the last result given, other results and the other tables as they were. */
  lemma DqMeans(m: Meta, results: seq<Row>, r: Row)
    ensures var after := ApplyAll(m, CallScript(DqCall(results)));
            && (r in after.dq <==> LastGiven(results, r) || (r.key !in Keys(results) && r in m.dq))
            && after.layer == m.layer && after.metric == m.metric && after.runs == m.runs
  {
    hide CallScript, ApplyAll, Final, LastGiven, Keys;
    OnePart(m, Part(DqCheckResult, results, false));
    FinalRows(m.dq, results, false, r);
  }

  /** What `start_pipeline_run` leaves: the new row, and the rows of other executions. */
  lemma StartRunMeans(m: Meta, run: Row, r: Row)
    ensures var after := ApplyAll(m, CallScript(StartRunCall(run)));
            && (r in after.runs <==> r == run || (r.key != run.key && r in m.runs))
            && after.layer == m.layer && after.metric == m.metric && after.dq == m.dq
  {
    hide CallScript, ApplyAll, Final, LastGiven;
    OnePart(m, Part(PipelineRun, [run], false));
    FinalRows(m.runs, [run], false, r);
    OnlyOneGiven(run, r);
    assert Keys([run]) == [run.key];
  }

  lemma OnlyOneGiven(run: Row, r: Row)
    ensures LastGiven([run], r) <==> r == run
  {
    if r == run { assert GivenLastAt([run], run, 0); }
    if LastGiven([run], r) {
      var i :| GivenLastAt([run], r, i);
      assert [run][i] == run;
    }
  }

  /** A call that writes one table. */
  lemma OnePart(m: Meta, p: Part)
    ensures var after := ApplyAll(m, CallScript([p]));
            && after.Get(p.table) == Final(m.Get(p.table), p.items, p.purge)
            && forall t: TableId :: t != p.table ==> after.Get(t) == m.Get(t)
    ensures var after := ApplyAll(m, CallScript([p]));
            && (p.table != LayerCatalog ==> after.layer == m.layer) && (p.table != MetricCatalog ==> after.metric == m.metric)
            && (p.table != DqCheckResult ==> after.dq == m.dq) && (p.table != PipelineRun ==> after.runs == m.runs)
  {
    hide CallScript, ApplyAll, Final;
    var after := ApplyAll(m, CallScript([p]));
    assert [p][0] == p;
    forall t: TableId ensures if t == p.table then after.Get(t) == Final(m.Get(t), p.items, p.purge) else after.Get(t) == m.Get(t) {
      CallMeans(m, [p], t);
    }
    assert after.layer == after.Get(LayerCatalog) && after.metric == after.Get(MetricCatalog);
    assert after.dq == after.Get(DqCheckResult) && after.runs == after.Get(PipelineRun);
  }

  // ---------------------------------------------------------------- a writer that may fail

  /** Tables behind an autocommit connection. `fails` decides which executions raise, and `lands` which of those took
      effect all the same. */
  class MetadataWriter {
    var meta: Meta
    /** For each statement so far whether it raised; its length is the time. */
    var log: seq<bool>
    const fails: nat -> bool
    const lands: nat -> bool

    constructor (meta: Meta, fails: nat -> bool, lands: nat -> bool)
      ensures this.meta == meta && this.fails == fails && this.lands == lands && log == []
    {
      this.meta, this.fails, this.lands, log := meta, fails, lands, [];
    }

    method Execute(w: Write) returns (ok: bool)
      modifies this
      ensures ok <==> !fails(|old(log)|)
      ensures meta == if ok || lands(|old(log)|) then Apply(old(meta), w) else old(meta)
      ensures log == old(log) + [!ok] && Raises(log) == Raises(old(log)) + if ok then 0 else 1
    {
      ok := !fails(|log|);
      if ok || lands(|log|) { meta := Apply(meta, w); }
      assert (log + [!ok])[..|log|] == log;
      log := log + [!ok];
    }

    /** The loop over one table: it stops at the first statement that raises. */
    method WritePart(p: Part) returns (ok: bool)
      modifies this
      ensures WentSoFar(old(meta), meta, PartScript(p), ok)
      // it fails only because one statement raised, its last
      ensures old(log) <= log && Raises(log) == Raises(old(log)) + if ok then 0 else 1
      ensures !ok ==> |log| > |old(log)| && log[|log| - 1]
      ensures (forall n :: !fails(n)) ==> ok
    {
      hide Script, Upserts, Apply, ApplyAll, Keys, Tagged, WentSoFar, Raises;
      ghost var script := PartScript(p);
      var i := 0;
      ok := true;
      NothingWritten(p, old(meta));
      while i < |p.items|
        invariant 0 <= i <= |p.items| && ok && old(log) <= log && Raises(log) == Raises(old(log))
        invariant Wrote(old(meta), meta, script, Tagged(p.table, Upserts(p.items[..i])))
      {
        UpsertsPrefix(p.items, i);
        UpsertsStartScript(p.items, i + 1, p.purge);
        ghost var done := Upserts(p.items[..i]);
        var first, second := Write(p.table, DeleteKey(p.items[i].key)), Write(p.table, Insert(p.items[i]));
        PairIsNext(p, i, done);
        ghost var was := meta;
        ok := Execute(first);
        WroteOneMore(old(meta), was, meta, script, Tagged(p.table, done), first, ok);
        if !ok { return; }
        was := meta;
        ok := Execute(second);
        WroteOneMore(old(meta), was, meta, script, Tagged(p.table, done) + [first], second, ok);
        if !ok { return; }
        i := i + 1;
      }
      assert p.items[..|p.items|] == p.items;
      PartEnds(p);
      if p.purge && p.items != [] {
        ghost var was := meta;
        var last := Write(p.table, DeleteAbsent(Keys(p.items)));
        ok := Execute(last);
        WroteOneMore(old(meta), was, meta, script, Tagged(p.table, Upserts(p.items)), last, ok);
        if !ok { return; }
      }
      WroteAll(old(meta), meta, script);
    }

    /** One call of `seed_catalogs`, `record_dq_results` or `start_pipeline_run`. */
    method RunCall(call: seq<Part>) returns (ok: bool)
      modifies this
      ensures WentSoFar(old(meta), meta, CallScript(call), ok)
      // it fails only because one statement raised, its last
      ensures old(log) <= log && Raises(log) == Raises(old(log)) + if ok then 0 else 1
      ensures !ok ==> |log| > |old(log)| && log[|log| - 1]
      ensures (forall n :: !fails(n)) ==> ok
    {
      hide ApplyAll, CallScript, WentSoFar, PartScript, Raises;
      ok := true;
      NoCallWritten(old(meta));
      for i := 0 to |call|
        invariant ok && WentSoFar(old(meta), meta, CallScript(call[..i]), true)
        invariant old(log) <= log && Raises(log) == Raises(old(log))
      {
        ghost var was := meta;
        ok := WritePart(call[i]);
        PartAfterParts(old(meta), was, meta, call, i, ok);
        if !ok { return; }
      }
      assert call[..|call|] == call;
    }

    /** Whole calls, one per entry of `attempts`, until one succeeds. */
    method WithRetries(attempts: seq<seq<Part>>) returns (ok: bool)
      requires attempts != [] && DistinctTables(attempts[0])
      requires forall i :: 0 <= i < |attempts| ==> SameKeys(attempts[0], attempts[i])
      modifies this
      // success leaves what one undisturbed call leaves, and comes with the first attempt in which nothing raises
      ensures ok ==> exists i :: 0 <= i < |attempts| && meta == ApplyAll(old(meta), CallScript(attempts[i]))
                                 && Raises(log) == Raises(old(log)) + i
      // it gives up only after a raise in every attempt, one each
      ensures !ok ==> Raises(log) == Raises(old(log)) + |attempts|
      // and after a failure, so will any later successful call
      ensures Interchangeable(old(meta), meta, attempts[0])
      ensures (forall n :: !fails(n)) ==> ok
    {
      hide ApplyAll, CallScript, WentSoFar, Interchangeable, SameKeys, DistinctTables, Raises;
      var i := 0;
      ok := false;
      SameIsInterchangeable(meta, attempts[0]);
      while i < |attempts| && !ok
        invariant 0 <= i <= |attempts|
        invariant Interchangeable(old(meta), meta, attempts[0])
        invariant Raises(log) == Raises(old(log)) + if ok then i - 1 else i
        invariant ok ==> i > 0 && meta == ApplyAll(old(meta), CallScript(attempts[i - 1]))
        invariant (forall n :: !fails(n)) && i > 0 ==> ok
        decreases |attempts| - i
      {
        ghost var was := meta;
        ok := RunCall(attempts[i]);
        AttemptKeeps(old(meta), was, meta, attempts[0], attempts[i], ok);
        i := i + 1;
      }
    }
  }

  /** Some prefix of the script took effect; all of it did if the call returned. */
  ghost predicate WentSoFar(before: Meta, after: Meta, script: seq<Write>, ok: bool) {
    exists n :: 0 <= n <= |script| && after == ApplyAll(before, script[..n]) && (ok ==> n == |script|)
  }

  /** `done` is the part of the script that took effect. */
  ghost predicate Wrote(before: Meta, after: Meta, script: seq<Write>, done: seq<Write>) {
    done <= script && after == ApplyAll(before, done)
  }

  /** Every whole call under these keys ends alike from both. */
  ghost predicate Interchangeable(a: Meta, b: Meta, call: seq<Part>) {
    forall c :: SameKeys(call, c) ==> ApplyAll(a, CallScript(c)) == ApplyAll(b, CallScript(c))
  }

  lemma ApplyAllSnoc(m: Meta, ws: seq<Write>, w: Write)
    ensures ApplyAll(m, ws + [w]) == Apply(ApplyAll(m, ws), w)
  {
    assert (ws + [w])[..|ws|] == ws;
  }

  lemma {:induction false} ApplyAllConcat(m: Meta, a: seq<Write>, b: seq<Write>)
    ensures ApplyAll(m, a + b) == ApplyAll(ApplyAll(m, a), b)
  {
    if b == [] {
      assert a + b == a;
    } else {
      assert (a + b)[..|a + b| - 1] == a + b[..|b| - 1];
      ApplyAllConcat(m, a, b[..|b| - 1]);
    }
  }

  /** The next statement, whether it took effect or not. */
  lemma WroteOneMore(before: Meta, was: Meta, after: Meta, script: seq<Write>, done: seq<Write>, w: Write, ok: bool)
    requires Wrote(before, was, script, done) && done + [w] <= script
    requires after == was || after == Apply(was, w)
    requires ok ==> after == Apply(was, w)
    ensures ok ==> Wrote(before, after, script, done + [w])
    ensures !ok ==> WentSoFar(before, after, script, false)
  {
    ApplyAllSnoc(before, done, w);
    assert script[..|done|] == done && script[..|done| + 1] == done + [w];
  }

  lemma WroteAll(before: Meta, after: Meta, script: seq<Write>)
    requires Wrote(before, after, script, script)
    ensures WentSoFar(before, after, script, true)
  {
    assert script[..|script|] == script;
  }

  lemma NothingWritten(p: Part, m: Meta)
    ensures Wrote(m, m, PartScript(p), Tagged(p.table, Upserts(p.items[..0])))
  {
  }

  lemma TaggedPrefix(t: TableId, a: seq<Stmt>, b: seq<Stmt>)
    requires a <= b
    ensures Tagged(t, a) <= Tagged(t, b)
  {
  }

  /** The pair for item `i` comes next in the script. */
  lemma PairIsNext(p: Part, i: nat, done: seq<Stmt>)
    requires i < |p.items| && done == Upserts(p.items[..i])
    requires Upserts(p.items[..i + 1]) == done + [DeleteKey(p.items[i].key), Insert(p.items[i])]
    requires Upserts(p.items[..i + 1]) <= Script(p.items, p.purge)
    ensures var first, second := Write(p.table, DeleteKey(p.items[i].key)), Write(p.table, Insert(p.items[i]));
            && Tagged(p.table, done) + [first] + [second] == Tagged(p.table, Upserts(p.items[..i + 1]))
            && Tagged(p.table, done) + [first] + [second] <= PartScript(p)
            && Tagged(p.table, done) + [first] <= PartScript(p)
  {
    hide Upserts, Script, Tagged;
    var delete, insert := DeleteKey(p.items[i].key), Insert(p.items[i]);
    TaggedSnoc(p.table, done, delete);
    TaggedSnoc(p.table, done + [delete], insert);
    assert done + [delete] + [insert] == done + [delete, insert];
    TaggedPrefix(p.table, Upserts(p.items[..i + 1]), Script(p.items, p.purge));
  }

  lemma PartEnds(p: Part)
    ensures var upserts := Tagged(p.table, Upserts(p.items));
            PartScript(p) == if p.purge && p.items != [] then upserts + [Write(p.table, DeleteAbsent(Keys(p.items)))] else upserts
  {
    hide Upserts, Keys, Tagged;
    if p.purge && p.items != [] {
      TaggedSnoc(p.table, Upserts(p.items), DeleteAbsent(Keys(p.items)));
    } else {
      assert Script(p.items, p.purge) == Upserts(p.items);
    }
  }

  lemma NoCallWritten(m: Meta)
    ensures WentSoFar(m, m, CallScript([][..0]), true)
  {
    assert m == ApplyAll(m, []);
  }

  lemma PartAfterParts(before: Meta, was: Meta, after: Meta, call: seq<Part>, i: nat, ok: bool)
    requires i < |call| && WentSoFar(before, was, CallScript(call[..i]), true) && WentSoFar(was, after, PartScript(call[i]), ok)
    ensures ok ==> WentSoFar(before, after, CallScript(call[..i + 1]), true)
    ensures !ok ==> WentSoFar(before, after, CallScript(call), false)
  {
    hide PartScript, CallScript, WentSoFar;
    PartIsNext(call, i);
    WentFurther(before, was, after, CallScript(call[..i]), PartScript(call[i]), ok);
    if !ok { WentSoFarInLonger(before, after, CallScript(call[..i + 1]), CallScript(call)); }
  }

  lemma PartIsNext(call: seq<Part>, i: nat)
    requires i < |call|
    ensures CallScript(call[..i + 1]) == CallScript(call[..i]) + PartScript(call[i]) && CallScript(call[..i + 1]) <= CallScript(call)
  {
    hide PartScript;
    assert call[..i + 1][..i] == call[..i];
    ScriptStartsCall(call, i + 1);
  }

  lemma WentFurther(before: Meta, was: Meta, after: Meta, done: seq<Write>, script: seq<Write>, ok: bool)
    requires WentSoFar(before, was, done, true) && WentSoFar(was, after, script, ok)
    ensures WentSoFar(before, after, done + script, ok)
  {
    hide ApplyAll;
    var n :| 0 <= n <= |script| && after == ApplyAll(was, script[..n]) && (ok ==> n == |script|);
    assert done[..|done|] == done;
    ApplyAllConcat(before, done, script[..n]);
    assert (done + script)[..|done| + n] == done + script[..n];
  }

  lemma WentSoFarInLonger(before: Meta, after: Meta, script: seq<Write>, longer: seq<Write>)
    requires WentSoFar(before, after, script, false) && script <= longer
    ensures WentSoFar(before, after, longer, false)
  {
    hide ApplyAll;
    var n :| 0 <= n <= |script| && after == ApplyAll(before, script[..n]);
    assert longer[..n] == script[..n];
  }

  lemma {:induction false} ScriptStartsCall(call: seq<Part>, i: nat)
    requires i <= |call|
    ensures CallScript(call[..i]) <= CallScript(call)
    decreases |call| - i
  {
    if i < |call| {
      ScriptStartsCall(call, i + 1);
      assert call[..i + 1][..i] == call[..i];
    } else {
      assert call[..i] == call;
    }
  }

  lemma SameIsInterchangeable(m: Meta, call: seq<Part>)
    ensures Interchangeable(m, m, call)
  {
  }

  lemma AttemptKeeps(before: Meta, was: Meta, after: Meta, first: seq<Part>, attempt: seq<Part>, ok: bool)
    requires DistinctTables(first) && SameKeys(first, attempt) && Interchangeable(before, was, first)
    requires WentSoFar(was, after, CallScript(attempt), ok)
    ensures Interchangeable(before, after, first)
    ensures ok ==> after == ApplyAll(before, CallScript(attempt))
  {
    hide ApplyAll, CallScript;
    var script := CallScript(attempt);
    var n :| 0 <= n <= |script| && after == ApplyAll(was, script[..n]) && (ok ==> n == |script|);
    forall c | SameKeys(first, c) ensures ApplyAll(before, CallScript(c)) == ApplyAll(after, CallScript(c)) {
      CutCallThenWholeIsWhole(was, attempt, c, n);
    }
    assert script[..|script|] == script;
  }

  lemma UpsertsStartScript(items: seq<Row>, i: nat, purge: bool)
    requires 0 < i <= |items|
    ensures Upserts(items[..i]) <= Script(items, purge)
  {
    UpsertsPrefix(items, i - 1);
  }

  lemma {:induction false} UpsertsPrefix(items: seq<Row>, i: nat)
    requires i < |items|
    ensures Upserts(items[..i + 1]) == Upserts(items[..i]) + [DeleteKey(items[i].key), Insert(items[i])]
    ensures Upserts(items[..i + 1]) <= Upserts(items)
    decreases |items| - i
  {
    assert items[..i + 1][..i] == items[..i];
    if i + 1 < |items| {
      UpsertsPrefix(items, i + 1);
    } else {
      assert items[..i + 1] == items;
    }
  }

  // ---------------------------------------------------------------- clipped names

  /** `_clip`: at most `limit` characters, the last three of a shortened text being dots. */
  function Clip(text: string, limit: nat): (r: string)
    ensures |text| <= limit ==> r == text
    ensures |text| > limit >= 3 ==> |r| == limit && r[..limit - 3] == text[..limit - 3]
    ensures |text| > limit && limit < 3 ==> r == "..."
  {
    if |text| <= limit then text
    else text[..if limit >= 3 then limit - 3 else 0] + "..."
  }

  /** Two check names share a row exactly when they are equal, are both long with one beginning, or one is the clipped other. */
  lemma ClippedNamesCollideIff(a: string, b: string, limit: nat)
    requires limit >= 3
    ensures Clip(a, limit) == Clip(b, limit) <==>
              || a == b
              || (|a| > limit && |b| > limit && a[..limit - 3] == b[..limit - 3])
              || (|a| <= limit < |b| && a == b[..limit - 3] + "...")
              || (|b| <= limit < |a| && b == a[..limit - 3] + "...")
  {
    if |a| > limit && |b| > limit {
      assert Clip(a, limit)[..limit - 3] == a[..limit - 3];
      assert Clip(b, limit)[..limit - 3] == b[..limit - 3];
    }
  }

  /** One check to record: `other` stands for the columns outside the key. */
  datatype Check = Check(system: string, name: string, other: Body)

  function CheckRow(execution: string, c: Check): Row {
    Row([execution, c.system, Clip(c.name, 512)], c.other)
  }

  function CheckRows(execution: string, checks: seq<Check>): (rows: seq<Row>)
    ensures |rows| == |checks| && forall i :: 0 <= i < |rows| ==> rows[i] == CheckRow(execution, checks[i])
  {
    seq(|checks|, i requires 0 <= i < |checks| => CheckRow(execution, checks[i]))
  }

  /** Two checks of one execution are kept in one row. */
  predicate ShareRow(a: Check, b: Check) {
    a.system == b.system
    && (|| a.name == b.name
        || (|a.name| > 512 && |b.name| > 512 && a.name[..509] == b.name[..509])
        || (|a.name| <= 512 < |b.name| && a.name == b.name[..509] + "...")
        || (|b.name| <= 512 < |a.name| && b.name == a.name[..509] + "..."))
  }

  lemma ShareRowIff(execution: string, a: Check, b: Check)
    ensures CheckRow(execution, a).key == CheckRow(execution, b).key <==> ShareRow(a, b)
  {
    hide Clip;
    ClippedNamesCollideIff(a.name, b.name, 512);
    var ka, kb := CheckRow(execution, a).key, CheckRow(execution, b).key;
    if ka == kb { assert ka[1] == kb[1] && ka[2] == kb[2]; }
  }

  /** No check after `i` is kept in the row of check `i`. */
  ghost predicate Survives(checks: seq<Check>, i: int) {
    0 <= i < |checks| && forall j :: i < j < |checks| ==> !ShareRow(checks[i], checks[j])
  }

  lemma GivenIffSurvives(execution: string, checks: seq<Check>, r: Row, i: int)
    ensures GivenLastAt(CheckRows(execution, checks), r, i) <==> 0 <= i < |checks| && Survives(checks, i) && r == CheckRow(execution, checks[i])
  {
    hide ShareRow, CheckRow, CheckRows;
    if 0 <= i < |checks| {
      var rows := CheckRows(execution, checks);
      forall j | 0 <= j < |checks|
        ensures rows[j].key == CheckRow(execution, checks[i]).key <==> ShareRow(checks[i], checks[j])
      {
        ShareRowIff(execution, checks[i], checks[j]);
      }
    }
  }

  lemma KeyIffNamed(execution: string, checks: seq<Check>, k: Key)
    ensures k in Keys(CheckRows(execution, checks)) <==> exists i :: 0 <= i < |checks| && k == CheckRow(execution, checks[i]).key
  {
    hide CheckRow;
    var rows := CheckRows(execution, checks);
    forall i | 0 <= i < |checks| ensures Keys(rows)[i] == CheckRow(execution, checks[i]).key {}
  }

  /** What `record_dq_results` leaves of an execution's checks: the rows of those that survive, under the execution, the
      system and the clipped name; of the rows before it, those of other executions and of other names. */
  lemma ChecksMean(m: Meta, execution: string, checks: seq<Check>, r: Row)
    ensures r in ApplyAll(m, CallScript(DqCall(CheckRows(execution, checks)))).dq
            <==> || (exists i :: Survives(checks, i) && r == Row([execution, checks[i].system, Clip(checks[i].name, 512)], checks[i].other))
                 || (r in m.dq && forall i :: 0 <= i < |checks| ==> r.key != [execution, checks[i].system, Clip(checks[i].name, 512)])
  {
    hide ApplyAll, CallScript, DqCall, Clip, ShareRow, GivenLastAt, Keys, CheckRows;
    DqMeans(m, CheckRows(execution, checks), r);
    forall i ensures GivenLastAt(CheckRows(execution, checks), r, i) <==> 0 <= i < |checks| && Survives(checks, i) && r == CheckRow(execution, checks[i]) {
      GivenIffSurvives(execution, checks, r, i);
    }
    KeyIffNamed(execution, checks, r.key);
  }
}
