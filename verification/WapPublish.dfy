/** The clone and publish phases of Write-Audit-Publish over one session. */
module WapPublish {
  import opened Basics
  import opened CallLog
  import opened Warehouse

  /** `open` tells that the rollback itself raised and left the transaction open. */
  datatype Outcome<+T> = Done(value: T) | Raised(open: bool)
  datatype CloneResult = CloneResult(cloned: seq<TableName>, skipped: seq<TableName>)
  datatype PlanEntry = PlanEntry(name: TableName, liveExists: bool, cols: seq<string>)

  // ---------------------------------------------------------------- ownership

  const WAP_TABLES: seq<TableName> := [
    TableName("finance", "fact_sales"),
    TableName("finance", "fact_inventory_snapshot"),
    TableName("marketing", "dim_customer"),
    TableName("marketing", "dim_product"),
    TableName("marketing", "fact_customer_session"),
    TableName("marketing", "identity_graph"),
    TableName("summary", "sales_daily_store"),
    TableName("summary", "inventory_daily_product_store"),
    TableName("summary", "inventory_position_daily"),
    TableName("summary", "sessions_daily_platform")]

  const FINANCE_SUMMARY_TABLES: seq<TableName> := [
    TableName("finance", "fact_sales"),
    TableName("finance", "fact_inventory_snapshot"),
    TableName("summary", "sales_daily_store"),
    TableName("summary", "inventory_daily_product_store"),
    TableName("summary", "inventory_position_daily")]

  const MARKETING_TABLES: seq<TableName> := [
    TableName("marketing", "dim_customer"),
    TableName("marketing", "fact_customer_session"),
    TableName("marketing", "identity_graph"),
    TableName("summary", "sessions_daily_platform")]

  const DIM_PRODUCT_TABLES: seq<TableName> := [TableName("marketing", "dim_product")]

  datatype Dag = Finance | Marketing | Catalog

  function Owned(d: Dag): seq<TableName> {
    match d
    case Finance => FINANCE_SUMMARY_TABLES
    case Marketing => MARKETING_TABLES
    case Catalog => DIM_PRODUCT_TABLES
  }

  /** Each Gold table has one owner, and no owner lists a table twice. */
  lemma OwnershipIsDisjoint(d: Dag, e: Dag, t: TableName)
    requires t in Owned(d) && t in Owned(e)
    ensures d == e
  {
    DistinctTables();
    assert Owned(Finance) == FINANCE_SUMMARY_TABLES && Owned(Marketing) == MARKETING_TABLES && Owned(Catalog) == DIM_PRODUCT_TABLES;
  }

  /** The owners' lists cover the published tables, and nothing else. */
  lemma OwnersCoverAllTables(t: TableName)
    ensures t in WAP_TABLES <==> exists d: Dag :: t in Owned(d)
  {
    var f, m, c := Owned(Finance), Owned(Marketing), Owned(Catalog);
    assert t in WAP_TABLES <==> t in f || t in m || t in c;
  }

  lemma DistinctTables()
    ensures forall t :: t in FINANCE_SUMMARY_TABLES ==> t !in MARKETING_TABLES && t !in DIM_PRODUCT_TABLES
    ensures forall t :: t in MARKETING_TABLES ==> t !in DIM_PRODUCT_TABLES
  {
    var sales, inventory := "fact_sales", "fact_inventory_snapshot";
    assert |"dim_customer"| == 12 && |"fact_customer_session"| == 21 && |"identity_graph"| == 14 && |"dim_product"| == 11;
    assert |"sessions_daily_platform"| == 23 && |"sales_daily_store"| == 17 && |"inventory_daily_product_store"| == 29;
    assert |"inventory_position_daily"| == 24;
    assert |"finance"| == 7 && |"marketing"| == 9;
  }

  lemma OwnedListsAreDistinct(d: Dag)
    ensures Distinct(Owned(d))
  {
    assert |"fact_sales"| == 10 && |"fact_inventory_snapshot"| == 23;
    assert |"dim_customer"| == 12 && |"fact_customer_session"| == 21 && |"identity_graph"| == 14;
    assert |"sessions_daily_platform"| == 23 && |"sales_daily_store"| == 17 && |"inventory_daily_product_store"| == 29;
    assert |"inventory_position_daily"| == 24;
    assert |"finance"| == 7 && |"marketing"| == 9 && |"summary"| == 7;
    assert "finance"[0] == 'f' && "summary"[0] == 's';
  }

  function RelsOf(tables: seq<TableName>): set<Rel> {
    (set t | t in tables :: Live(t)) + (set t | t in tables :: Pending(t))
  }

  // ---------------------------------------------------------------- statements

  function CloneStatements(t: TableName, liveExists: bool, dialect: Dialect): seq<Stmt> {
    [DropIfExists(Pending(t))] +
    if !liveExists then []
    else if dialect.DuckDb? then [CreateAs(Pending(t), Live(t))]
    else [CreateLike(Pending(t), Live(t)), InsertAll(Pending(t), Live(t))]
  }

  function PublishStatements(t: TableName, cols: seq<string>, liveExists: bool, dialect: Dialect): seq<Stmt> {
    [if liveExists then DeleteAll(Live(t))
     else if dialect.DuckDb? then CreateEmptyAs(Live(t), Pending(t))
     else CreateLike(Live(t), Pending(t)),
     InsertColumns(Live(t), cols, Pending(t))]
  }

  // ---------------------------------------------------------------- clone

  /** Pending becomes a copy of live, or disappears with it; whatever pending held before is gone. */
  function CloneTable(db: Db, t: TableName): Db {
    if Live(t) in db then db[Pending(t) := db[Live(t)]] else db - {Pending(t)}
  }

  function CloneTables(db: Db, tables: seq<TableName>): Db {
    if tables == [] then db else CloneTable(CloneTables(db, tables[..|tables| - 1]), tables[|tables| - 1])
  }

  lemma CloneStatementsClone(db: Db, t: TableName, dialect: Dialect)
    ensures ExecAll(db, CloneStatements(t, Live(t) in db, dialect)) == Ok(CloneTable(db, t))
  {
    var drop, dropped := DropIfExists(Pending(t)), db - {Pending(t)};
    var stmts := CloneStatements(t, Live(t) in db, dialect);
    if Live(t) !in db {
      assert stmts == [] + [drop];
      ExecAllSplits(db, [], drop);
    } else if dialect.DuckDb? {
      assert stmts == [drop, CreateAs(Pending(t), Live(t))];
      ExecAllTwo(db, drop, CreateAs(Pending(t), Live(t)));
      assert dropped[Pending(t) := db[Live(t)]] == CloneTable(db, t);
    } else {
      var create, insert := CreateLike(Pending(t), Live(t)), InsertAll(Pending(t), Live(t));
      assert stmts == [drop, create, insert];
      ExecAllTwo(db, drop, create);
      ExecAllThree(db, drop, create, insert);
      var created := dropped[Pending(t) := Table(db[Live(t)].cols, [])];
      assert [] + db[Live(t)].rows == db[Live(t)].rows;
      assert created[Pending(t) := db[Live(t)]] == CloneTable(db, t);
      assert Exec(created, insert) == Ok(CloneTable(db, t));
    }
  }

  /** After a clone, pending equals live on the cloned tables and nothing else moved. */
  lemma {:induction false} CloneMeans(db: Db, tables: seq<TableName>)
    ensures var after := CloneTables(db, tables);
            && SameOutside(db, after, set t | t in tables :: Pending(t))
            && forall t :: t in tables ==>
                 (Pending(t) in after <==> Live(t) in db) && (Live(t) in db ==> after[Pending(t)] == db[Live(t)])
  {
    if tables != [] {
      var last := tables[|tables| - 1];
      CloneMeans(db, tables[..|tables| - 1]);
      assert tables == tables[..|tables| - 1] + [last];
    }
  }

  /** The tables of the list that exist live, or those that do not, in order. */
  function Where(tables: seq<TableName>, db: Db, live: bool): seq<TableName> {
    if tables == [] then [] else
      var last := tables[|tables| - 1];
      Where(tables[..|tables| - 1], db, live) + if (Live(last) in db) == live then [last] else []
  }

  /** One table: a raise leaves it as it was, unless its commit took effect all the same. The value tells whether live existed. */
  method CloneOne(conn: Connection, t: TableName, dialect: Dialect) returns (r: Outcome<bool>)
    requires conn.Idle() && conn.dialect == dialect
    modifies conn
    ensures conn.Idle() || (r.Raised? && r.open)
    ensures Logged(old(conn.log), conn.log, r.Raised?) && (r.Raised? && r.open ==> conn.LastRaised())
    ensures old(conn.schemas) <= conn.schemas && (r.Done? ==> t.schema + "_pending" in conn.schemas)
    ensures r.Done? ==> conn.committed == CloneTable(old(conn.committed), t) && (r.value <==> Live(t) in old(conn.committed))
    ensures r.Raised? ==> conn.committed == old(conn.committed) || conn.committed == CloneTable(old(conn.committed), t)
    ensures (forall n :: !conn.fails(n)) ==> r.Done?
  {
    hide CloneStatements, ExecAll, CloneTable, Raises;
    var ok := conn.Execute(CreateSchema(t.schema + "_pending"));
    if !ok { return Raised(false); }
    var queried, liveExists := conn.TableExists(Live(t));
    if !queried { return Raised(false); }
    CloneStatementsClone(conn.working, t, dialect);
    r := InTransaction(conn, CloneStatements(t, liveExists, dialect), liveExists);
  }

  /** Statements in a transaction of their own; the value is handed through. */
  method InTransaction<T>(conn: Connection, stmts: seq<Stmt>, value: T) returns (r: Outcome<T>)
    requires conn.Idle() && ExecAll(conn.committed, stmts).Ok?
    modifies conn
    ensures conn.Idle() || (r.Raised? && r.open)
    ensures Logged(old(conn.log), conn.log, r.Raised?) && (r.Raised? && r.open ==> conn.LastRaised())
    ensures old(conn.schemas) <= conn.schemas && (r.Done? ==> r.value == value)
    ensures r.Done? ==> Ok(conn.committed) == ExecAll(old(conn.committed), stmts)
    ensures r.Raised? ==> conn.committed == old(conn.committed) || Ok(conn.committed) == ExecAll(old(conn.committed), stmts)
    ensures (forall n :: !conn.fails(n)) ==> r.Done?
  {
    hide ExecAll, Raises;
    var ok := conn.Begin();
    if !ok { return Raised(false); }
    ok := conn.ExecuteAll(stmts);
    if ok { ok := conn.Commit(); }
    if !ok {
      var closed := conn.Rollback();
      return Raised(!closed);
    }
    r := Done(value);
  }

  method CloneLiveToPending(conn: Connection, tables: seq<TableName>, dialect: Dialect) returns (r: Outcome<CloneResult>)
    requires conn.Idle() && conn.dialect == dialect
    modifies conn
    ensures conn.Idle() || (r.Raised? && r.open)
    // it raises exactly if some call did, and reports an open transaction only if its last one, the rollback, did
    ensures Logged(old(conn.log), conn.log, r.Raised?) && (r.Raised? && r.open ==> conn.LastRaised())
    ensures r.Done? ==> forall t :: t in tables ==> t.schema + "_pending" in conn.schemas
    ensures r.Done? ==> conn.committed == CloneTables(old(conn.committed), tables)
    ensures r.Raised? ==> exists k :: 0 <= k <= |tables| && conn.committed == CloneTables(old(conn.committed), tables[..k])
    ensures r.Done? ==> r.value == CloneResult(Where(tables, old(conn.committed), true), Where(tables, old(conn.committed), false))
    ensures (forall n :: !conn.fails(n)) ==> r.Done?
  {
    hide CloneTable, CloneTables, SameOutside, Raises;
    ghost var before := conn.committed;
    var cloned: seq<TableName>, skipped: seq<TableName> := [], [];
    NothingCloned(before);
    for i := 0 to |tables|
      invariant conn.Idle() && conn.committed == CloneTables(before, tables[..i]) && Logged(old(conn.log), conn.log, false)
      invariant forall j :: 0 <= j < i ==> tables[j].schema + "_pending" in conn.schemas
      invariant cloned == Where(tables[..i], before, true) && skipped == Where(tables[..i], before, false)
    {
      var t := tables[i];
      CloneNext(before, tables, i);
      var one := CloneOne(conn, t, dialect);
      if one.Raised? { return Raised(one.open); }
      if one.value { cloned := cloned + [t]; } else { skipped := skipped + [t]; }
      assert tables[..i + 1][..i] == tables[..i];
    }
    assert tables[..|tables|] == tables;
    r := Done(CloneResult(cloned, skipped));
  }

  lemma NothingCloned(db: Db)
    ensures CloneTables(db, []) == db
  {
  }

  lemma CloneNext(db: Db, tables: seq<TableName>, i: nat)
    requires i < |tables|
    ensures CloneTables(db, tables[..i + 1]) == CloneTable(CloneTables(db, tables[..i]), tables[i])
    ensures Live(tables[i]) in CloneTables(db, tables[..i]) <==> Live(tables[i]) in db
  {
    assert tables[..i + 1][..i] == tables[..i];
    CloneMeans(db, tables[..i]);
  }

  // ---------------------------------------------------------------- publish

  /** Every pending table exists and has, in some order, the columns of its live twin. */
  ghost predicate Preflight(db: Db, tables: seq<TableName>) {
    forall t :: t in tables ==> TableReady(db, t)
  }

  ghost predicate TableReady(db: Db, t: TableName) {
    Pending(t) in db && (Live(t) in db ==> multiset(db[Live(t)].cols) == multiset(db[Pending(t)].cols))
  }

  /** Live with pending's rows, read by column name; live keeps its column order. */
  function Republished(db: Db, t: TableName): Table
    requires Pending(t) in db && GoodTable(db[Pending(t)])
    requires Live(t) in db ==> multiset(db[Live(t)].cols) == multiset(db[Pending(t)].cols)
  {
    var cols := if Live(t) in db then db[Live(t)].cols else db[Pending(t)].cols;
    ColumnsMatch(cols, db[Pending(t)].cols);
    Table(cols, InsertedRows(Table(cols, []), cols, db[Pending(t)]))
  }

  lemma ColumnsMatch(a: seq<string>, b: seq<string>)
    requires multiset(a) == multiset(b)
    ensures forall c :: c in a <==> c in b
  {
    forall c ensures c in a <==> c in b {
      assert c in a <==> multiset(a)[c] > 0;
      assert c in b <==> multiset(b)[c] > 0;
    }
  }

  /** Reordering columns keeps every named record. */
  lemma RepublishedKeepsRecords(db: Db, t: TableName)
    requires GoodDb(db) && TableReady(db, t)
    ensures GoodTable(Republished(db, t))
    ensures Records(Republished(db, t)) == Records(db[Pending(t)])
    ensures Contents(Republished(db, t)) == Contents(db[Pending(t)])
    ensures Republished(db, t).cols == if Live(t) in db then db[Live(t)].cols else db[Pending(t)].cols
  {
    var source, target := db[Pending(t)], Republished(db, t);
    var cols := target.cols;
    ColumnsMatch(cols, source.cols);
    forall i | 0 <= i < |source.rows| ensures Record(cols, target.rows[i]) == Record(source.cols, source.rows[i]) {
      ReorderedRecord(cols, source.cols, source.rows[i]);
      assert target.rows[i] == Reordered(cols, cols, source.cols, source.rows[i]);
    }
  }

  lemma ReorderedRecord(cols: seq<string>, source: seq<string>, row: Row)
    requires |row| == |source| && forall c :: c in cols <==> c in source
    ensures Record(cols, Reordered(cols, cols, source, row)) == Record(source, row)
  {
  }

  function PublishTable(db: Db, t: TableName): Db
    requires Pending(t) in db && GoodTable(db[Pending(t)])
    requires Live(t) in db ==> multiset(db[Live(t)].cols) == multiset(db[Pending(t)].cols)
  {
    db[Live(t) := Republished(db, t)]
  }

  /** The two publish statements of one table replace its live rows; on a stale plan they raise. */
  lemma PublishStatementsPublish(db: Db, t: TableName, cols: seq<string>, liveExists: bool, dialect: Dialect)
    requires GoodDb(db) && TableReady(db, t)
    requires cols == if liveExists && Live(t) in db then db[Live(t)].cols else db[Pending(t)].cols
    ensures ExecAll(db, PublishStatements(t, cols, liveExists, dialect))
            == if liveExists == (Live(t) in db) then Ok(PublishTable(db, t)) else Error
  {
    var stmts := PublishStatements(t, cols, liveExists, dialect);
    assert stmts == [stmts[0], stmts[1]];
    ExecAllTwo(db, stmts[0], stmts[1]);
    if liveExists == (Live(t) in db) {
      ColumnsMatch(cols, db[Pending(t)].cols);
      var emptied := db[Live(t) := Table(cols, [])];
      assert Exec(db, stmts[0]) == Ok(emptied);
      var rows := InsertedRows(Table(cols, []), cols, db[Pending(t)]);
      assert [] + rows == rows;
      assert emptied[Live(t) := Table(cols, rows)] == PublishTable(db, t);
    }
  }

  lemma PublishTableKeeps(db: Db, t: TableName)
    requires GoodDb(db) && TableReady(db, t)
    ensures GoodDb(PublishTable(db, t))
    ensures forall u :: TableReady(db, u) ==> TableReady(PublishTable(db, t), u)
    ensures SameOutside(db, PublishTable(db, t), {Live(t)})
  {
    hide Republished, Records;
    RepublishedKeepsRecords(db, t);
    forall u | TableReady(db, u) ensures TableReady(PublishTable(db, t), u) {
    }
  }

  /** Publishing the tables one after the other inside the transaction. */
  function PublishTables(db: Db, tables: seq<TableName>): (after: Db)
    requires GoodDb(db) && Preflight(db, tables)
    ensures GoodDb(after)
    ensures forall t :: TableReady(db, t) ==> TableReady(after, t)
    ensures SameOutside(db, after, set t | t in tables :: Live(t))
  {
    if tables == [] then db else
      var last := tables[|tables| - 1];
      PreflightSplits(db, tables);
      var mid := PublishTables(db, tables[..|tables| - 1]);
      PublishTablesStep(db, mid, tables[..|tables| - 1], last);
      PublishTable(mid, last)
  }

  lemma PreflightSplits(db: Db, tables: seq<TableName>)
    requires Preflight(db, tables) && tables != []
    ensures Preflight(db, tables[..|tables| - 1]) && TableReady(db, tables[|tables| - 1])
    ensures tables == tables[..|tables| - 1] + [tables[|tables| - 1]]
  {
  }

  lemma PublishTablesStep(db: Db, mid: Db, front: seq<TableName>, last: TableName)
    requires GoodDb(mid) && TableReady(db, last)
    requires forall t :: TableReady(db, t) ==> TableReady(mid, t)
    requires SameOutside(db, mid, set t | t in front :: Live(t))
    ensures TableReady(mid, last) && GoodDb(PublishTable(mid, last))
    ensures forall t :: TableReady(db, t) ==> TableReady(PublishTable(mid, last), t)
    ensures SameOutside(db, PublishTable(mid, last), set t | t in front + [last] :: Live(t))
  {
    hide GoodDb, Republished, GoodTable, TableReady;
    PublishTableKeeps(mid, last);
    var wide := set t | t in front + [last] :: Live(t);
    assert forall t :: t in front ==> t in front + [last];
    assert last in front + [last];
  }

  /** Every published table holds pending's named records under live's column order. */
  lemma {:induction false} PublishMeans(db: Db, tables: seq<TableName>, t: TableName)
    requires GoodDb(db) && Preflight(db, tables) && t in tables
    ensures var after := PublishTables(db, tables);
            && Live(t) in after && GoodTable(after[Live(t)])
            && after[Live(t)].cols == (if Live(t) in db then db[Live(t)].cols else db[Pending(t)].cols)
            && Contents(after[Live(t)]) == Contents(db[Pending(t)])
  {
    hide Republished, Records, GoodTable;
    var last := tables[|tables| - 1];
    var front := tables[..|tables| - 1];
    assert tables == front + [last];
    var mid := PublishTables(db, front);
    assert TableReady(db, last) && TableReady(db, t);
    RepublishedKeepsRecords(mid, last);
    if t in front { PublishMeans(db, front, t); }
    assert mid[Pending(last)] == db[Pending(last)];
  }

  /** Live holds pending's named records, under live's own column order if it existed. */
  ghost predicate PublishedTable(before: Db, after: Db, t: TableName)
    requires GoodDb(before) && GoodDb(after)
  {
    && Live(t) in after && Pending(t) in before
    && after[Live(t)].cols == (if Live(t) in before then before[Live(t)].cols else before[Pending(t)].cols)
    && Contents(after[Live(t)]) == Contents(before[Pending(t)])
  }

  /** The database after a publish commit, with the pending copies or without them. */
  ghost predicate PublishedExactly(before: Db, after: Db, tables: seq<TableName>)
    requires GoodDb(before)
  {
    && Preflight(before, tables)
    && var live := PublishTables(before, tables);
       after == live || after == live - set t | t in tables :: Pending(t)
  }

  /** What a finished publish leaves behind, in terms of the database before it. */
  ghost predicate Published(before: Db, after: Db, tables: seq<TableName>)
    requires GoodDb(before) && GoodDb(after)
  {
    && Preflight(before, tables)
    && SameOutside(before, after, RelsOf(tables))
    && (forall t :: t in tables ==> PublishedTable(before, after, t))
    && ((forall t :: t in tables ==> Pending(t) !in after)
        || (forall t :: t in tables ==> Pending(t) in after && after[Pending(t)] == before[Pending(t)]))
  }

  /** The first check: every pending table exists. */
  method CheckPending(conn: Connection, tables: seq<TableName>) returns (ok: bool)
    requires conn.Idle()
    modifies conn`log
    ensures old(conn.log) <= conn.log
    ensures ok <==> Logged(old(conn.log), conn.log, false) && forall t :: t in tables ==> Pending(t) in conn.committed
    ensures (forall n :: !conn.fails(n)) ==> Logged(old(conn.log), conn.log, false)
  {
    hide Raises;
    var missing: seq<TableName> := [];
    for i := 0 to |tables|
      invariant Logged(old(conn.log), conn.log, false)
      invariant forall t :: t in missing <==> t in tables[..i] && Pending(t) !in conn.committed
    {
      assert tables[..i + 1] == tables[..i] + [tables[i]];
      var queried, found := conn.TableExists(Pending(tables[i]));
      if !queried { return false; }
      if !found { missing := missing + [tables[i]]; }
    }
    assert tables[..|tables|] == tables;
    if missing != [] { assert missing[0] in missing; }
    ok := missing == [];
  }

  /** The second check reads one table's columns and compares them; nothing when a query raises. */
  method PlanTable(conn: Connection, t: TableName) returns (entry: Option<PlanEntry>, drifted: bool)
    requires conn.Idle() && Pending(t) in conn.committed
    modifies conn`log
    ensures Logged(old(conn.log), conn.log, entry.None?)
    ensures entry.Some? ==> EntryFits(conn.committed, t, entry.value) && (drifted <==> !TableReady(conn.committed, t))
    ensures (forall n :: !conn.fails(n)) ==> entry.Some?
  {
    hide Raises;
    var ok, pendingCols := conn.Columns(Pending(t));
    if !ok { return None, false; }
    var liveExists;
    ok, liveExists := conn.TableExists(Live(t));
    if !ok { return None, false; }
    if !liveExists { return Some(PlanEntry(t, false, pendingCols)), false; }
    var liveCols;
    ok, liveCols := conn.Columns(Live(t));
    if !ok { return None, false; }
    entry, drifted := Some(PlanEntry(t, true, liveCols)), multiset(liveCols) != multiset(pendingCols);
  }

  /** It raises exactly if a query does or a check fails. */
  method MakePlan(conn: Connection, tables: seq<TableName>) returns (r: Outcome<seq<PlanEntry>>)
    requires conn.Idle()
    modifies conn`log
    ensures old(conn.log) <= conn.log && (r.Raised? ==> !r.open)
    ensures r.Done? <==> Logged(old(conn.log), conn.log, false) && Preflight(conn.committed, tables)
    ensures r.Done? ==> PlanFits(conn.committed, tables, r.value)
    ensures (forall n :: !conn.fails(n)) ==> Logged(old(conn.log), conn.log, false)
  {
    hide PlanFits, EntryFits, Raises;
    ghost var db := conn.committed;
    var present := CheckPending(conn, tables);
    if !present {
      MissingPending(db, tables);
      return Raised(false);
    }
    var plan: seq<PlanEntry> := [];
    var drift: seq<TableName> := [];
    NothingPlanned(db);
    for i := 0 to |tables|
      invariant PlanFits(db, tables[..i], plan) && Logged(old(conn.log), conn.log, false)
      invariant forall t :: t in drift <==> t in tables[..i] && !TableReady(db, t)
    {
      assert tables[..i + 1] == tables[..i] + [tables[i]];
      var entry, drifted := PlanTable(conn, tables[i]);
      if entry.None? { return Raised(false); }
      if drifted { drift := drift + [tables[i]]; }
      PlanGrows(db, tables[..i], plan, tables[i], entry.value);
      plan := plan + [entry.value];
    }
    assert tables[..|tables|] == tables;
    if drift != [] {
      assert drift[0] in drift;
      return Raised(false);
    }
    r := Done(plan);
  }

  lemma MissingPending(db: Db, tables: seq<TableName>)
    ensures Preflight(db, tables) ==> forall t :: t in tables ==> Pending(t) in db
  {
    if Preflight(db, tables) {
      forall t | t in tables ensures Pending(t) in db { assert TableReady(db, t); }
    }
  }

  ghost predicate EntryFits(db: Db, t: TableName, e: PlanEntry) {
    && e.name == t && Pending(t) in db
    && (e.liveExists <==> Live(t) in db)
    && e.cols == if Live(t) in db then db[Live(t)].cols else db[Pending(t)].cols
  }

  /** The plan records, per table, whether live exists and the columns to insert. */
  ghost predicate PlanFits(db: Db, tables: seq<TableName>, plan: seq<PlanEntry>) {
    |plan| == |tables| && forall i :: 0 <= i < |plan| ==> EntryFits(db, tables[i], plan[i])
  }

  lemma NothingPlanned(db: Db)
    ensures PlanFits(db, [], [])
  {
  }

  lemma PlanGrows(db: Db, tables: seq<TableName>, plan: seq<PlanEntry>, t: TableName, e: PlanEntry)
    requires PlanFits(db, tables, plan) && EntryFits(db, t, e)
    ensures PlanFits(db, tables + [t], plan + [e])
  {
    hide EntryFits;
  }

  function AllPublishStatements(plan: seq<PlanEntry>, dialect: Dialect): seq<Stmt> {
    if plan == [] then [] else
      var last := plan[|plan| - 1];
      AllPublishStatements(plan[..|plan| - 1], dialect) + PublishStatements(last.name, last.cols, last.liveExists, dialect)
  }

  /** `published` tells whether the publish commit took effect, and `at` when that commit was called. */
  method PublishGold(conn: Connection, tables: seq<TableName>, dialect: Dialect)
    returns (r: Outcome<seq<TableName>>, ghost published: bool, ghost at: nat)
    requires conn.Idle() && conn.dialect == dialect && GoodDb(conn.committed)
    modifies conn
    ensures GoodDb(conn.committed) && (conn.Idle() || (r.Raised? && r.open)) && old(conn.log) <= conn.log
    // all or nothing over the whole list, whatever raises where
    ensures !published ==> conn.committed == old(conn.committed)
    ensures published ==> Published(old(conn.committed), conn.committed, tables)
                          && PublishedExactly(old(conn.committed), conn.committed, tables)
    ensures r.Done? ==> published && r.value == tables
    // a publish that took no effect raises because a check fails or a call raised
    ensures !published && Preflight(old(conn.committed), tables) ==> !Logged(old(conn.log), conn.log, false)
    // a publish whose commit returned is done unless the very last call, the rollback after a failed drop, raised
    ensures published ==> |old(conn.log)| <= at < |conn.log| && if conn.log[at] then r.Raised? && conn.lands(at) else r.Done? <==> !conn.LastRaised()
    ensures r.Raised? && r.open ==> conn.LastRaised()
    // when nothing raises, the pending copies are gone
    ensures Logged(old(conn.log), conn.log, false) ==> (r.Done? <==> Preflight(old(conn.committed), tables))
    ensures Logged(old(conn.log), conn.log, false) && r.Done? ==> forall t :: t in tables ==> Pending(t) !in conn.committed
    ensures (forall n :: !conn.fails(n)) && Distinct(tables) ==> Logged(old(conn.log), conn.log, false)
  {
    hide GoodDb, Republished, PublishTables, Published, PlanFits, Preflight, Raises;
    ghost var before := conn.committed;
    published, at := false, 0;
    var planned := MakePlan(conn, tables);
    if planned.Raised? { return Raised(false), published, at; }
    r, published, at := CommitPublish(conn, tables, planned.value, dialect);
    if r.Raised? { return; }
    ghost var live := conn.committed;
    PlanNames(before, tables, planned.value);
    var quiet := DropPending(conn, planned.value, tables);
    PublishedAfterDrop(before, live, conn.committed, tables);
    if !quiet { r := Raised(true); }
  }

  /** The publish transaction: nothing or everything of it takes effect. */
  method CommitPublish(conn: Connection, tables: seq<TableName>, plan: seq<PlanEntry>, dialect: Dialect)
    returns (r: Outcome<seq<TableName>>, ghost published: bool, ghost at: nat)
    requires conn.Idle() && conn.dialect == dialect && GoodDb(conn.committed)
    requires Preflight(conn.committed, tables) && PlanFits(conn.committed, tables, plan)
    modifies conn
    ensures GoodDb(conn.committed) && (conn.Idle() || (r.Raised? && r.open))
    ensures Logged(old(conn.log), conn.log, r.Raised?) && (r.Raised? && r.open ==> conn.LastRaised())
    ensures conn.committed == if published then PublishTables(old(conn.committed), tables) else old(conn.committed)
    ensures r.Done? ==> published && r.value == tables
    ensures published ==> |old(conn.log)| <= at < |conn.log| && Published(old(conn.committed), conn.committed, tables)
                          && (conn.log[at] <==> r.Raised?) && (r.Raised? ==> conn.lands(at))
    ensures (forall n :: !conn.fails(n)) && Distinct(tables) ==> r.Done?
  {
    hide GoodDb, Republished, PublishTables, Published, PlanFits, Preflight, Raises;
    ghost var before := conn.committed;
    published, at := false, 0;
    var ok := conn.Begin();
    if !ok { return Raised(false), published, at; }
    var done;
    ok, done := PublishInTxn(conn, tables, plan, dialect);
    if ok {
      at := |conn.log|;
      ok := conn.Commit();
      published := ok || conn.lands(at);
    }
    PublishedOrNot(before, conn.committed, tables);
    if !ok {
      var closed := conn.Rollback();
      return Raised(!closed), published, at;
    }
    r := Done(done);
  }

  /** The statements of the plan inside the open transaction. */
  method PublishInTxn(conn: Connection, tables: seq<TableName>, plan: seq<PlanEntry>, dialect: Dialect)
    returns (ok: bool, published: seq<TableName>)
    requires conn.working == conn.committed && conn.InTxn()
    requires GoodDb(conn.committed) && Preflight(conn.committed, tables) && PlanFits(conn.committed, tables, plan)
    modifies conn`working, conn`committed, conn`schemas, conn`log
    ensures conn.committed == old(conn.committed) && Logged(old(conn.log), conn.log, !ok)
    ensures ok ==> conn.working == PublishTables(conn.committed, tables) && published == tables
    ensures (forall n :: !conn.fails(n)) && Distinct(tables) ==> ok
  {
    hide GoodDb, Republished, PublishTables, PlanFits, ExecAll, PublishStatements, Preflight, Raises;
    ghost var before := conn.committed;
    PlanNames(before, tables, plan);
    NothingPublished(before);
    published, ok := [], true;
    var i := 0;
    while i < |plan| && ok
      invariant 0 <= i <= |plan| && conn.committed == before && conn.InTxn() && Logged(old(conn.log), conn.log, !ok)
      invariant published == tables[..i] || !ok
      invariant ok ==> Preflight(before, tables[..i]) && conn.working == PublishTables(before, tables[..i])
      invariant (forall n :: !conn.fails(n)) && Distinct(tables) ==> ok
    {
      PublishNext(before, tables, plan, i, dialect);
      ok := conn.ExecuteAll(PublishStatements(plan[i].name, plan[i].cols, plan[i].liveExists, dialect));
      published := published + [plan[i].name];
      i := i + 1;
    }
    assert ok ==> tables[..i] == tables;
  }

  /** A commit that raised left the database as it was or installed the whole publish. */
  lemma PublishedOrNot(before: Db, after: Db, tables: seq<TableName>)
    requires GoodDb(before) && Preflight(before, tables) && (after == before || after == PublishTables(before, tables))
    ensures GoodDb(after) && (after == PublishTables(before, tables) ==> Published(before, after, tables))
  {
    hide GoodDb, PublishTables, Published, Preflight;
    if after == PublishTables(before, tables) { PublishedAfterDrop(before, after, after, tables); }
  }

  lemma PlanNames(db: Db, tables: seq<TableName>, plan: seq<PlanEntry>)
    requires PlanFits(db, tables, plan)
    ensures |plan| == |tables| && forall i :: 0 <= i < |plan| ==> plan[i].name == tables[i]
  {
  }

  lemma NothingPublished(db: Db)
    requires GoodDb(db)
    ensures Preflight(db, []) && PublishTables(db, []) == db
  {
  }

  /** The next table of the plan, executed on top of the ones before it. */
  lemma PublishNext(db: Db, tables: seq<TableName>, plan: seq<PlanEntry>, i: nat, dialect: Dialect)
    requires GoodDb(db) && Preflight(db, tables) && PlanFits(db, tables, plan) && i < |plan|
    ensures Preflight(db, tables[..i]) && Preflight(db, tables[..i + 1])
    ensures var mid := PublishTables(db, tables[..i]);
            var result := ExecAll(mid, PublishStatements(plan[i].name, plan[i].cols, plan[i].liveExists, dialect));
            && (result.Ok? ==> result.value == PublishTables(db, tables[..i + 1]))
            && (Distinct(tables) ==> result.Ok?)
  {
    hide Republished, GoodTable, GoodDb, ExecAll, PublishStatements, PublishTable, PublishTables, EntryFits;
    var t, mid := tables[i], PublishTables(db, tables[..i]);
    assert TableReady(db, t) && EntryFits(db, t, plan[i]);
    PlanNames(db, tables, plan);
    assert Distinct(tables) ==> t !in tables[..i];
    PublishTablesNext(db, tables, i);
    PlanStillFits(db, tables, i, plan[i]);
    PublishStatementsPublish(mid, t, plan[i].cols, plan[i].liveExists, dialect);
  }

  lemma PublishTablesNext(db: Db, tables: seq<TableName>, i: nat)
    requires GoodDb(db) && i < |tables| && Preflight(db, tables[..i]) && Preflight(db, tables[..i + 1])
    ensures var t, mid := tables[i], PublishTables(db, tables[..i]);
            && GoodDb(mid) && TableReady(mid, t)
            && PublishTables(db, tables[..i + 1]) == PublishTable(mid, t)
  {
    hide Republished, GoodTable, PublishTable;
    assert tables[..i + 1][..i] == tables[..i];
    assert TableReady(db, tables[..i + 1][i]);
  }

  /** The plan's entry still describes the table when its turn comes, unless the table came before. */
  lemma PlanStillFits(db: Db, tables: seq<TableName>, i: nat, e: PlanEntry)
    requires i < |tables| && GoodDb(db) && Preflight(db, tables[..i]) && TableReady(db, tables[i]) && EntryFits(db, tables[i], e)
    ensures var t, mid := tables[i], PublishTables(db, tables[..i]);
            && Pending(t) in mid && mid[Pending(t)] == db[Pending(t)]
            && e.cols == (if e.liveExists && Live(t) in mid then mid[Live(t)].cols else mid[Pending(t)].cols)
            && (t !in tables[..i] ==> (e.liveExists <==> Live(t) in mid))
  {
    hide Republished, GoodTable, PublishTables, Contents;
    var t, mid := tables[i], PublishTables(db, tables[..i]);
    assert SameOutside(db, mid, set u | u in tables[..i] :: Live(u));
    if t in tables[..i] { PublishMeans(db, tables[..i], t); }
  }

  /** Drops the pending copies in a transaction of its own, all or none of them. A failure is swallowed unless the
      rollback after it, the last call, raises as well. */
  method DropPending(conn: Connection, plan: seq<PlanEntry>, ghost tables: seq<TableName>) returns (quiet: bool)
    requires conn.Idle() && |plan| == |tables| && forall i :: 0 <= i < |plan| ==> plan[i].name == tables[i]
    modifies conn
    ensures quiet ==> conn.Idle()
    ensures old(conn.log) < conn.log && (quiet <==> !conn.LastRaised())
    ensures conn.committed == old(conn.committed) || conn.committed == old(conn.committed) - set t | t in tables :: Pending(t)
    ensures Logged(old(conn.log), conn.log, false) ==> conn.committed == old(conn.committed) - set t | t in tables :: Pending(t)
    ensures Logged(old(conn.log), conn.log, Raises(old(conn.log)) < Raises(conn.log)) && (!quiet ==> Logged(old(conn.log), conn.log, true))
    ensures (forall n :: !conn.fails(n)) ==> Logged(old(conn.log), conn.log, false)
  {
    hide Raises;
    var ok := conn.Begin();
    var i := 0;
    while i < |plan| && ok
      invariant 0 <= i <= |plan| && conn.committed == old(conn.committed) && Logged(old(conn.log), conn.log, !ok)
      invariant ok ==> conn.InTxn() && conn.working == conn.committed - set t | t in tables[..i] :: Pending(t)
      invariant (forall n :: !conn.fails(n)) ==> ok
    {
      assert tables[..i + 1] == tables[..i] + [tables[i]];
      ok := conn.Execute(DropIfExists(Pending(plan[i].name)));
      i := i + 1;
    }
    assert i == |tables| ==> tables[..i] == tables;
    if ok { ok := conn.Commit(); }
    quiet := true;
    if !ok { quiet := conn.Rollback(); }
  }

  lemma PublishedAfterDrop(before: Db, live: Db, after: Db, tables: seq<TableName>)
    requires GoodDb(before) && Preflight(before, tables) && live == PublishTables(before, tables)
    requires after == live || after == live - set t | t in tables :: Pending(t)
    ensures GoodDb(after) && Published(before, after, tables)
  {
    hide Contents, GoodTable, GoodDb, TableReady, SameOutside, PublishTables;
    GoodAfterDrop(live, after, tables);
    forall t | t in tables ensures PublishedTable(before, after, t) {
      LiveAfterDrop(before, live, after, tables, t);
    }
    PendingsSurvive(before, live, tables);
    OutsideAfterDrop(before, live, after, tables);
  }

  lemma GoodAfterDrop(live: Db, after: Db, tables: seq<TableName>)
    requires GoodDb(live) && (after == live || after == live - set t | t in tables :: Pending(t))
    ensures GoodDb(after)
  {
    hide GoodTable;
  }

  lemma LiveAfterDrop(before: Db, live: Db, after: Db, tables: seq<TableName>, t: TableName)
    requires GoodDb(before) && GoodDb(after) && Preflight(before, tables) && live == PublishTables(before, tables) && t in tables
    requires after == live || after == live - set t | t in tables :: Pending(t)
    ensures PublishedTable(before, after, t)
  {
    hide Contents, GoodTable;
    PublishMeans(before, tables, t);
    assert TableReady(before, t);
  }

  lemma PendingsSurvive(before: Db, live: Db, tables: seq<TableName>)
    requires Preflight(before, tables) && SameOutside(before, live, set t | t in tables :: Live(t))
    ensures forall t :: t in tables ==> Pending(t) in live && live[Pending(t)] == before[Pending(t)]
  {
    forall t | t in tables ensures Pending(t) in live && live[Pending(t)] == before[Pending(t)] {
      assert TableReady(before, t);
    }
  }

  lemma OutsideAfterDrop(before: Db, live: Db, after: Db, tables: seq<TableName>)
    requires SameOutside(before, live, set t | t in tables :: Live(t))
    requires after == live || after == live - set t | t in tables :: Pending(t)
    ensures SameOutside(before, after, RelsOf(tables))
  {
  }

  /** Publishing again after a publish never changes what live shows. */
  lemma PublishingAgainChangesNothing(before: Db, mid: Db, after: Db, tables: seq<TableName>, t: TableName)
    requires GoodDb(before) && GoodDb(mid) && GoodDb(after) && t in tables
    requires Published(before, mid, tables) && Published(mid, after, tables)
    ensures after[Live(t)].cols == mid[Live(t)].cols && Contents(after[Live(t)]) == Contents(mid[Live(t)])
  {
    assert PublishedTable(before, mid, t) && PublishedTable(mid, after, t);
  }
}
