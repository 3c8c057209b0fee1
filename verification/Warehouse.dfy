/** Tables, SQL statements and a connection whose calls may fail at any point. */
module Warehouse {
  import opened Basics
  import opened CallLog

  datatype Cell = Null | Text(value: string)
  type Row = seq<Cell>
  /** Rows are positional; their order carries no meaning, see `Contents`. */
  datatype Table = Table(cols: seq<string>, rows: seq<Row>)
  datatype TableName = TableName(schema: string, table: string)
  /** A live table or its twin in the `<schema>_pending` schema. */
  datatype Rel = Live(name: TableName) | Pending(name: TableName)
  type Db = map<Rel, Table>

  datatype Dialect = Redshift | DuckDb

  datatype Stmt =
    | CreateSchema(schema: string)
    | DropIfExists(rel: Rel)
    | CreateLike(rel: Rel, from: Rel)
    | CreateAs(rel: Rel, from: Rel)
    | CreateEmptyAs(rel: Rel, from: Rel)
    | InsertAll(rel: Rel, from: Rel)
    | DeleteAll(rel: Rel)
    | InsertColumns(rel: Rel, cols: seq<string>, from: Rel)

  datatype Result<+T> = Ok(value: T) | Error

  predicate GoodTable(t: Table) {
    Distinct(t.cols) && forall i :: 0 <= i < |t.rows| ==> |t.rows[i]| == |t.cols|
  }

  ghost predicate GoodDb(db: Db) {
    forall r :: r in db ==> GoodTable(db[r])
  }

  function Index(cols: seq<string>, c: string): (i: nat)
    requires c in cols
    ensures i < |cols| && cols[i] == c && c !in cols[..i]
  {
    if cols[0] == c then 0 else
      assert c in cols[1..];
      var k := Index(cols[1..], c);
      assert cols[..k + 1] == [cols[0]] + cols[1..][..k];
      1 + k
  }

  /** A row as named columns. */
  function Record(cols: seq<string>, row: Row): map<string, Cell>
    requires |row| == |cols|
  {
    map c | c in cols :: row[Index(cols, c)]
  }

  function Records(t: Table): (rs: seq<map<string, Cell>>)
    requires GoodTable(t)
    ensures |rs| == |t.rows|
  {
    seq(|t.rows|, i requires 0 <= i < |t.rows| => Record(t.cols, t.rows[i]))
  }

  /** What a reader can tell about a table: how often each named record occurs. */
  function Contents(t: Table): multiset<map<string, Cell>>
    requires GoodTable(t)
  {
    multiset(Records(t))
  }

  /** Each cell is found under its column. */
  lemma RecordMeans(t: Table, i: nat, k: nat)
    requires GoodTable(t) && i < |t.rows| && k < |t.cols|
    ensures t.cols[k] in Records(t)[i] && Records(t)[i][t.cols[k]] == t.rows[i][k]
    ensures forall c :: c in Records(t)[i] <==> c in t.cols
  {
    var found := Index(t.cols, t.cols[k]);
    assert found == k;
  }

  /** One row of `INSERT INTO target (cols) SELECT cols FROM source`; columns not listed become NULL. */
  function Reordered(target: seq<string>, cols: seq<string>, source: seq<string>, row: Row): (r: Row)
    requires |row| == |source| && forall c :: c in cols ==> c in source
    ensures |r| == |target|
  {
    seq(|target|, i requires 0 <= i < |target| => if target[i] in cols then row[Index(source, target[i])] else Null)
  }

  function InsertedRows(target: Table, cols: seq<string>, source: Table): (rows: seq<Row>)
    requires GoodTable(source) && forall c :: c in cols ==> c in source.cols
    ensures |rows| == |source.rows|
  {
    seq(|source.rows|, i requires 0 <= i < |source.rows| => Reordered(target.cols, cols, source.cols, source.rows[i]))
  }

  /** The effect of one statement, or an SQL error. */
  function Exec(db: Db, s: Stmt): Result<Db> {
    match s
    case CreateSchema(_) => Ok(db)
    case DropIfExists(rel) => Ok(db - {rel})
    case CreateLike(rel, from) =>
      if rel in db || from !in db then Error else Ok(db[rel := Table(db[from].cols, [])])
    case CreateAs(rel, from) =>
      if rel in db || from !in db then Error else Ok(db[rel := db[from]])
    case CreateEmptyAs(rel, from) =>
      if rel in db || from !in db then Error else Ok(db[rel := Table(db[from].cols, [])])
    case InsertAll(rel, from) =>
      if rel !in db || from !in db || |db[rel].cols| != |db[from].cols| then Error else
        Ok(db[rel := Table(db[rel].cols, db[rel].rows + db[from].rows)])
    case DeleteAll(rel) =>
      if rel !in db then Error else Ok(db[rel := Table(db[rel].cols, [])])
    case InsertColumns(rel, cols, from) =>
      if rel !in db || from !in db || !GoodTable(db[from])
         || (exists c :: c in cols && (c !in db[rel].cols || c !in db[from].cols)) then Error else
        Ok(db[rel := Table(db[rel].cols, db[rel].rows + InsertedRows(db[rel], cols, db[from]))])
  }

  function ExecAll(db: Db, stmts: seq<Stmt>): Result<Db>
    decreases |stmts|
  {
    if stmts == [] then Ok(db) else
      match Exec(db, stmts[0])
      case Error => Error
      case Ok(next) => ExecAll(next, stmts[1..])
  }

  lemma {:induction false} ExecAllSplits(db: Db, done: seq<Stmt>, s: Stmt)
    ensures ExecAll(db, done + [s]) ==
            match ExecAll(db, done) { case Error => Error case Ok(mid) => Exec(mid, s) }
    decreases |done|
  {
    if done == [] {
      assert done + [s] == [s];
      assert ExecAll(db, [s]) == match Exec(db, s) { case Error => Error case Ok(next) => ExecAll(next, []) };
    } else {
      assert (done + [s])[1..] == done[1..] + [s];
      match Exec(db, done[0])
      case Error =>
      case Ok(next) => ExecAllSplits(next, done[1..], s);
    }
  }

  lemma ExecAllTwo(db: Db, a: Stmt, b: Stmt)
    ensures ExecAll(db, [a, b]) == match Exec(db, a) { case Error => Error case Ok(mid) => Exec(mid, b) }
  {
    ExecAllSplits(db, [], a);
    ExecAllSplits(db, [a], b);
    assert [] + [a] == [a] && [a] + [b] == [a, b];
  }

  lemma ExecAllThree(db: Db, a: Stmt, b: Stmt, c: Stmt)
    ensures ExecAll(db, [a, b, c]) == match ExecAll(db, [a, b]) { case Error => Error case Ok(mid) => Exec(mid, c) }
  {
    ExecAllSplits(db, [a, b], c);
    assert [a, b] + [c] == [a, b, c];
  }

  /** The tables a statement may write. */
  function Written(s: Stmt): set<Rel> {
    if s.CreateSchema? then {} else {s.rel}
  }

  /** Two databases agree outside `rels`. */
  ghost predicate SameOutside(a: Db, b: Db, rels: set<Rel>) {
    forall r :: r !in rels ==> (r in a <==> r in b) && (r in a ==> a[r] == b[r])
  }

  lemma ExecFrame(db: Db, s: Stmt)
    requires Exec(db, s).Ok?
    ensures SameOutside(db, Exec(db, s).value, Written(s))
  {
  }

  function WrittenBy(stmts: seq<Stmt>): set<Rel> {
    set s, r | s in stmts && r in Written(s) :: r
  }

  lemma {:induction false} ExecAllFrame(db: Db, stmts: seq<Stmt>)
    requires ExecAll(db, stmts).Ok?
    ensures SameOutside(db, ExecAll(db, stmts).value, WrittenBy(stmts))
    decreases |stmts|
  {
    if stmts != [] {
      var next := Exec(db, stmts[0]).value;
      ExecFrame(db, stmts[0]);
      ExecAllFrame(next, stmts[1..]);
      assert WrittenBy(stmts[1..]) <= WrittenBy(stmts) && Written(stmts[0]) <= WrittenBy(stmts);
    }
  }

  lemma {:induction false} ExecAllConcat(db: Db, a: seq<Stmt>, b: seq<Stmt>)
    ensures ExecAll(db, a + b) == match ExecAll(db, a) { case Error => Error case Ok(mid) => ExecAll(mid, b) }
    decreases |a|
  {
    if a == [] {
      assert a + b == b;
    } else {
      assert (a + b)[1..] == a[1..] + b;
      match Exec(db, a[0])
      case Error =>
      case Ok(next) => ExecAllConcat(next, a[1..], b);
    }
  }

  /** A database session: committed state, the state seen inside the open transaction, and an arbitrary schedule that
      decides which calls fail and which failing commits took effect all the same. Redshift's driver always has a
      transaction open; in DuckDB a statement outside `BEGIN` commits by itself. */
  class Connection {
    const dialect: Dialect
    var committed: Db
    var working: Db
    /** A `BEGIN` of DuckDB's that is neither committed nor rolled back. */
    var begun: bool
    /** The schemas some statement has made sure of. */
    var schemas: set<string>
    /** For each call so far whether it raised; its length is the time. */
    var log: seq<bool>
    const fails: nat -> bool
    const lands: nat -> bool

    /** Nothing is left uncommitted. */
    ghost predicate Idle()
      reads this
    {
      working == committed && !begun
    }

    /** Statements wait for a commit. */
    predicate InTxn()
      reads this
    {
      dialect.Redshift? || begun
    }

    /** The last call raised. */
    ghost predicate LastRaised()
      reads this
    {
      log != [] && log[|log| - 1]
    }

    constructor (dialect: Dialect, db: Db, fails: nat -> bool, lands: nat -> bool)
      ensures committed == db && Idle() && this.dialect == dialect && this.fails == fails && this.lands == lands
      ensures log == [] && schemas == {}
    {
      this.dialect, committed, working, begun := dialect, db, db, false;
      this.fails, this.lands := fails, lands;
      log, schemas := [], {};
    }

    /** A statement of its own in DuckDB; in Redshift the driver has already begun. */
    method Begin() returns (ok: bool)
      modifies this`begun, this`log
      ensures ok <==> dialect.Redshift? || (!fails(|old(log)|) && !old(begun))
      ensures begun == (old(begun) || (ok && dialect.DuckDb?))
      ensures log == old(log) + (if dialect.DuckDb? then [!ok] else []) && Logged(old(log), log, !ok)
    {
      if dialect.Redshift? { return true; }
      ok := !fails(|log|) && !begun;
      if ok { begun := true; }
      LoggedOne(log, !ok);
      log := log + [!ok];
    }

    method Execute(s: Stmt) returns (ok: bool)
      modifies this`working, this`committed, this`schemas, this`log
      ensures ok <==> !fails(|old(log)|) && Exec(old(working), s).Ok?
      ensures working == if ok then Exec(old(working), s).value else old(working)
      ensures committed == if ok && !InTxn() then working else old(committed)
      ensures schemas == if ok && s.CreateSchema? then old(schemas) + {s.schema} else old(schemas)
      ensures log == old(log) + [!ok] && Logged(old(log), log, !ok)
    {
      var result := Exec(working, s);
      ok := !fails(|log|) && result.Ok?;
      if ok {
        working := result.value;
        if !InTxn() { committed := working; }
        if s.CreateSchema? { schemas := schemas + {s.schema}; }
      }
      LoggedOne(log, !ok);
      log := log + [!ok];
    }

    /** A commit that raises may have taken effect; outside a transaction there is nothing to commit. */
    method Commit() returns (ok: bool)
      modifies this`committed, this`begun, this`log
      ensures ok <==> !fails(|old(log)|) && old(InTxn())
      ensures var done := ok || (lands(|old(log)|) && old(InTxn()));
              committed == (if done then working else old(committed)) && begun == (old(begun) && !done)
      ensures log == old(log) + [!ok] && Logged(old(log), log, !ok)
    {
      ok := !fails(|log|) && InTxn();
      if ok || (lands(|log|) && InTxn()) { committed, begun := working, false; }
      LoggedOne(log, !ok);
      log := log + [!ok];
    }

    /** A rollback that raises leaves things as they are; outside a transaction it does raise. */
    method Rollback() returns (ok: bool)
      modifies this`working, this`begun, this`log
      ensures ok <==> !fails(|old(log)|) && old(InTxn())
      ensures working == (if ok then committed else old(working)) && begun == (old(begun) && !ok)
      ensures log == old(log) + [!ok] && Logged(old(log), log, !ok)
    {
      ok := !fails(|log|) && InTxn();
      if ok { working, begun := committed, false; }
      LoggedOne(log, !ok);
      log := log + [!ok];
    }

    method TableExists(rel: Rel) returns (ok: bool, found: bool)
      modifies this`log
      ensures ok <==> !fails(|old(log)|)
      ensures found <==> rel in working
      ensures log == old(log) + [!ok] && Logged(old(log), log, !ok)
    {
      ok, found := !fails(|log|), rel in working;
      LoggedOne(log, !ok);
      log := log + [!ok];
    }

    method Columns(rel: Rel) returns (ok: bool, cols: seq<string>)
      modifies this`log
      ensures ok <==> !fails(|old(log)|)
      ensures cols == if rel in working then working[rel].cols else []
      ensures log == old(log) + [!ok] && Logged(old(log), log, !ok)
    {
      ok, cols := !fails(|log|), if rel in working then working[rel].cols else [];
      LoggedOne(log, !ok);
      log := log + [!ok];
    }

    /** Runs statements in order inside the transaction until one raises. */
    method ExecuteAll(stmts: seq<Stmt>) returns (ok: bool)
      requires InTxn()
      modifies this`working, this`committed, this`schemas, this`log
      ensures ok ==> ExecAll(old(working), stmts) == Ok(working)
      ensures committed == old(committed) && old(schemas) <= schemas && Logged(old(log), log, !ok)
      ensures (forall n :: !fails(n)) && ExecAll(old(working), stmts).Ok? ==> ok
      ensures !ok ==> LastRaised()
    {
      ok := true;
      var i := 0;
      while i < |stmts| && ok
        invariant 0 <= i <= |stmts| && Logged(old(log), log, !ok)
        invariant committed == old(committed) && old(schemas) <= schemas
        invariant ok ==> ExecAll(old(working), stmts[..i]) == Ok(working)
        invariant !ok ==> LastRaised()
        invariant (forall n :: !fails(n)) && ExecAll(old(working), stmts).Ok? ==> ok
      {
        assert stmts[..i + 1] == stmts[..i] + [stmts[i]];
        ExecAllSplits(old(working), stmts[..i], stmts[i]);
        if ExecAll(old(working), stmts).Ok? { PrefixRuns(old(working), stmts, i + 1); }
        ok := Execute(stmts[i]);
        i := i + 1;
      }
      assert i == |stmts| ==> stmts[..i] == stmts;
    }
  }

  lemma {:induction false} PrefixRuns(db: Db, stmts: seq<Stmt>, k: nat)
    requires k <= |stmts| && ExecAll(db, stmts).Ok?
    ensures ExecAll(db, stmts[..k]).Ok?
    decreases k
  {
    if k > 0 {
      PrefixRuns(Exec(db, stmts[0]).value, stmts[1..], k - 1);
      assert stmts[..k][1..] == stmts[1..][..k - 1];
    }
  }
}
