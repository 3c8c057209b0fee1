/**
 * The three owning DAGs interleaved statement by statement over one database.
 * Every open transaction works on its own view; a commit installs what it wrote.
 * Any step may fail instead, which drops the view and ends the run; a publish that failed may also be tried again.
 */
module WapMachine {
  import opened Basics
  import opened Warehouse
  import opened WapPublish

  /** What readers see of a set of tables. */
  type Snapshot = map<TableName, multiset<map<string, Cell>>>

  /** The content check a run makes before it may publish. */
  type Audit = (Dag, Snapshot) -> bool

  /** An open transaction: the state it began from, what it sees now, statements run and still to run. */
  datatype Txn = Txn(start: Db, work: Db, done: seq<Stmt>, todo: seq<Stmt>)

  /** What a publish may publish: live when the build began, and pending when the audit passed. `again` tells a second
      attempt after a commit that took effect. */
  datatype Approval = Approval(base: Snapshot, approved: Snapshot, again: bool)

  datatype Phase =
    | Idle
    | Cloning(next: nat)
    | CloningTable(next: nat, txn: Txn)
    | Building(base: Snapshot)
    | Audited(pass: Approval)
    | Planned(pass: Approval, plan: seq<PlanEntry>)
    | Publishing(pass: Approval, plan: seq<PlanEntry>, txn: Txn)
    | Dropping(txn: Txn)

  /** A committed publish: what its build started from and what its audit passed. */
  datatype Commit = Commit(base: Snapshot, approved: Snapshot)

  datatype State = State(db: Db, phase: map<Dag, Phase>, history: map<Dag, seq<Commit>>)

  ghost predicate GoodState(s: State) {
    GoodDb(s.db) && (forall d: Dag :: d in s.phase && d in s.history)
  }

  function Lives(d: Dag): set<Rel> {
    set t | t in Owned(d) :: Live(t)
  }

  function Pendings(d: Dag): set<Rel> {
    set t | t in Owned(d) :: Pending(t)
  }

  ghost function OwnedLive(db: Db, d: Dag): Snapshot
    requires GoodDb(db)
  {
    map t | t in Owned(d) && Live(t) in db :: Contents(db[Live(t)])
  }

  ghost function OwnedPending(db: Db, d: Dag): Snapshot
    requires GoodDb(db)
  {
    map t | t in Owned(d) && Pending(t) in db :: Contents(db[Pending(t)])
  }

  ghost predicate AgreeOn(a: Db, b: Db, rels: set<Rel>) {
    forall r :: r in rels ==> (r in a <==> r in b) && (r in a ==> a[r] == b[r])
  }

  /** The database after a transaction that wrote `rels` commits. */
  function Install(db: Db, work: Db, rels: set<Rel>): Db {
    map r | r in db.Keys + work.Keys && (if r in rels then r in work else r in db) :: if r in rels then work[r] else db[r]
  }

  function BeginTxn(db: Db, stmts: seq<Stmt>): Txn {
    Txn(db, db, [], stmts)
  }

  /** The transaction after its next statement. */
  ghost predicate Ran(t: Txn, t': Txn) {
    && t.todo != [] && Exec(t.work, t.todo[0]).Ok?
    && t' == Txn(t.start, Exec(t.work, t.todo[0]).value, t.done + [t.todo[0]], t.todo[1..])
  }

  function Committed(db: Db, t: Txn): Db {
    Install(db, t.work, WrittenBy(t.done))
  }

  function DropStatements(tables: seq<TableName>): seq<Stmt> {
    seq(|tables|, i requires 0 <= i < |tables| => DropIfExists(Pending(tables[i])))
  }

  /** One step of `d`'s run that leaves the database and the history alone. */
  ghost predicate Internal(audit: Audit, dialect: Dialect, d: Dag, db: Db, p: Phase, p': Phase)
    requires GoodDb(db)
  {
    || p' == Idle                                                          // any failure, or the end of a run
    || (p == Idle && p' == Cloning(0))
    || (p.Cloning? && p.next < |Owned(d)|
        && p' == CloningTable(p.next, BeginTxn(db, CloneStatements(Owned(d)[p.next], Live(Owned(d)[p.next]) in db, dialect))))
    || (p.CloningTable? && p'.CloningTable? && p'.next == p.next && Ran(p.txn, p'.txn))
    || (p.Cloning? && p.next == |Owned(d)| && p' == Building(OwnedPending(db, d)))
    || (p.Building? && audit(d, OwnedPending(db, d)) && p' == Audited(Approval(p.base, OwnedPending(db, d), false)))
    || (p.Audited? && Preflight(db, Owned(d)) && p'.Planned? && p'.pass == p.pass && PlanFits(db, Owned(d), p'.plan))
    || (p.Planned? && p' == Publishing(p.pass, p.plan, BeginTxn(db, AllPublishStatements(p.plan, dialect))))
    || (p.Publishing? && p'.Publishing? && p' == p.(txn := p'.txn) && Ran(p.txn, p'.txn))
    || (p.Dropping? && p'.Dropping? && Ran(p.txn, p'.txn))
    // a publish task that raised is tried again, before its commit or after it
    || ((p.Planned? || p.Publishing?) && p' == Audited(p.pass))
    || (p.Dropping? && p' == Audited(Approval(OwnedLive(db, d), OwnedPending(db, d), true)))
  }

  ghost predicate InternalStep(audit: Audit, dialect: Dialect, d: Dag, s: State, s': State)
    requires GoodState(s)
  {
    && Internal(audit, dialect, d, s.db, s.phase[d], if d in s'.phase then s'.phase[d] else Idle)
    && d in s'.phase && s' == s.(phase := s.phase[d := s'.phase[d]])
  }

  ghost predicate CloneCommit(d: Dag, s: State, s': State)
    requires GoodState(s)
  {
    var p := s.phase[d];
    && p.CloningTable? && p.txn.todo == []
    && s' == s.(db := Committed(s.db, p.txn), phase := s.phase[d := Cloning(p.next + 1)])
  }

  /** Any statement of the build: it may do anything to the run's own pending tables. */
  ghost predicate BuildStep(d: Dag, s: State, s': State)
    requires GoodState(s)
  {
    && s.phase[d].Building? && GoodDb(s'.db) && SameOutside(s.db, s'.db, Pendings(d))
    && s' == s.(db := s'.db)
  }

  ghost predicate PublishCommit(d: Dag, s: State, s': State)
    requires GoodState(s)
  {
    var p := s.phase[d];
    && p.Publishing? && p.txn.todo == []
    && var db' := Committed(s.db, p.txn);
       s' == State(db', s.phase[d := Dropping(BeginTxn(db', DropStatements(Owned(d))))],
                   if p.pass.again then s.history else s.history[d := s.history[d] + [Commit(p.pass.base, p.pass.approved)]])
  }

  /** A publish commit that is not a second attempt. */
  ghost predicate FirstPublish(d: Dag, s: State, s': State)
    requires GoodState(s)
  {
    PublishCommit(d, s, s') && !s.phase[d].pass.again
  }

  ghost predicate DropCommit(d: Dag, s: State, s': State)
    requires GoodState(s)
  {
    var p := s.phase[d];
    && p.Dropping? && p.txn.todo == []
    && s' == s.(db := Committed(s.db, p.txn), phase := s.phase[d := Idle])
  }

  ghost predicate Step(audit: Audit, dialect: Dialect, d: Dag, s: State, s': State)
    requires GoodState(s)
  {
    || InternalStep(audit, dialect, d, s, s')
    || CloneCommit(d, s, s')
    || BuildStep(d, s, s')
    || PublishCommit(d, s, s')
    || DropCommit(d, s, s')
  }

  ghost predicate Initial(s: State) {
    && GoodState(s)
    && forall d: Dag :: s.phase[d] == Idle && s.history[d] == []
  }

  // ---------------------------------------------------------------- the invariant

  ghost predicate TxnFits(db: Db, d: Dag, t: Txn, stmts: seq<Stmt>) {
    && GoodDb(t.start) && AgreeOn(t.start, db, RelsOf(Owned(d)))
    && t.done + t.todo == stmts && ExecAll(t.start, t.done) == Ok(t.work)
  }

  ghost predicate Cloned(db: Db, tables: seq<TableName>) {
    forall t :: t in tables ==> (Pending(t) in db <==> Live(t) in db) && (Live(t) in db ==> db[Pending(t)] == db[Live(t)])
  }

  /** The approval is still about what live and pending show; a second attempt finds both alike. */
  ghost predicate ApprovalFits(audit: Audit, d: Dag, db: Db, a: Approval)
    requires GoodDb(db)
  {
    && a.base == OwnedLive(db, d) && a.approved == OwnedPending(db, d)
    && if a.again then a.approved == a.base else audit(d, a.approved)
  }

  ghost predicate PhaseFits(audit: Audit, dialect: Dialect, d: Dag, db: Db, p: Phase)
    requires GoodDb(db)
  {
    match p
    case Idle => true
    case Cloning(k) => k <= |Owned(d)| && Cloned(db, Owned(d)[..k])
    case CloningTable(k, txn) =>
      && k < |Owned(d)| && Cloned(db, Owned(d)[..k])
      && TxnFits(db, d, txn, CloneStatements(Owned(d)[k], Live(Owned(d)[k]) in db, dialect))
    case Building(base) => base == OwnedLive(db, d)
    case Audited(a) => ApprovalFits(audit, d, db, a)
    case Planned(a, plan) => ApprovalFits(audit, d, db, a) && Preflight(db, Owned(d)) && PlanFits(db, Owned(d), plan)
    case Publishing(a, plan, txn) =>
      && ApprovalFits(audit, d, db, a) && Preflight(db, Owned(d)) && PlanFits(db, Owned(d), plan)
      && TxnFits(db, d, txn, AllPublishStatements(plan, dialect))
    case Dropping(txn) => TxnFits(db, d, txn, DropStatements(Owned(d))) && OwnedPending(db, d) == OwnedLive(db, d)
  }

  /** What live must show after the runs committed so far. */
  ghost function Expected(init: Snapshot, h: seq<Commit>): Snapshot {
    if h == [] then init else h[|h| - 1].approved
  }

  /** Each committed run started from what live showed then, and its result passed the audit. */
  ghost predicate HistoryFits(audit: Audit, d: Dag, init: Snapshot, h: seq<Commit>) {
    forall i :: 0 <= i < |h| ==> h[i].base == Expected(init, h[..i]) && audit(d, h[i].approved)
  }

  ghost predicate DagFits(audit: Audit, dialect: Dialect, d: Dag, init: Snapshot, db: Db, p: Phase, h: seq<Commit>)
    requires GoodDb(db)
  {
    && PhaseFits(audit, dialect, d, db, p)
    && OwnedLive(db, d) == Expected(init, h)
    && HistoryFits(audit, d, init, h)
  }

  ghost predicate Inv(audit: Audit, dialect: Dialect, init: Db, s: State)
    requires GoodDb(init)
  {
    GoodState(s) && forall d: Dag :: DagFits(audit, dialect, d, OwnedLive(init, d), s.db, s.phase[d], s.history[d])
  }

  // ---------------------------------------------------------------- ownership keeps runs apart

  lemma OwnersDoNotOverlap(d: Dag, e: Dag)
    requires d != e
    ensures RelsOf(Owned(d)) !! RelsOf(Owned(e))
  {
    hide Owned;
    forall r | r in RelsOf(Owned(d)) && r in RelsOf(Owned(e)) ensures false {
      OwnershipIsDisjoint(d, e, r.name);
    }
  }

  lemma LiveFrame(d: Dag, db: Db, db': Db)
    requires GoodDb(db) && GoodDb(db') && AgreeOn(db, db', Lives(d))
    ensures OwnedLive(db, d) == OwnedLive(db', d)
  {
    hide Owned, Contents, GoodTable;
    forall t | t in Owned(d) ensures Live(t) in Lives(d) {}
  }

  lemma PendingFrame(d: Dag, db: Db, db': Db)
    requires GoodDb(db) && GoodDb(db') && AgreeOn(db, db', Pendings(d))
    ensures OwnedPending(db, d) == OwnedPending(db', d)
  {
    hide Owned, Contents, GoodTable;
    forall t | t in Owned(d) ensures Pending(t) in Pendings(d) {}
  }

  lemma RelsAreLiveOrPending(d: Dag)
    ensures RelsOf(Owned(d)) == Lives(d) + Pendings(d)
  {
  }

  lemma TxnFrame(d: Dag, db: Db, db': Db, t: Txn, stmts: seq<Stmt>)
    requires TxnFits(db, d, t, stmts) && AgreeOn(db, db', RelsOf(Owned(d)))
    ensures TxnFits(db', d, t, stmts)
  {
    hide GoodDb, ExecAll;
  }

  lemma TablesFrame(d: Dag, db: Db, db': Db, plan: seq<PlanEntry>)
    requires AgreeOn(db, db', RelsOf(Owned(d)))
    ensures Preflight(db, Owned(d)) ==> Preflight(db', Owned(d))
    ensures PlanFits(db, Owned(d), plan) ==> PlanFits(db', Owned(d), plan)
  {
    hide Owned;
    forall t | t in Owned(d) ensures Live(t) in RelsOf(Owned(d)) && Pending(t) in RelsOf(Owned(d)) {}
  }

  lemma AgreeOnParts(d: Dag, db: Db, db': Db)
    requires AgreeOn(db, db', RelsOf(Owned(d)))
    ensures AgreeOn(db, db', Lives(d)) && AgreeOn(db, db', Pendings(d))
  {
    hide Owned;
  }

  lemma ClonedFrame(d: Dag, db: Db, db': Db, k: nat)
    requires AgreeOn(db, db', RelsOf(Owned(d))) && k <= |Owned(d)| && Cloned(db, Owned(d)[..k])
    ensures Cloned(db', Owned(d)[..k])
    ensures k < |Owned(d)| ==> (Live(Owned(d)[k]) in db <==> Live(Owned(d)[k]) in db')
  {
    hide Owned;
    forall t | t in Owned(d) ensures Live(t) in RelsOf(Owned(d)) && Pending(t) in RelsOf(Owned(d)) {}
  }

  /** A run is unaffected by what happens outside its own tables. */
  lemma PhaseFrame(audit: Audit, dialect: Dialect, d: Dag, db: Db, db': Db, p: Phase)
    requires GoodDb(db) && GoodDb(db') && AgreeOn(db, db', RelsOf(Owned(d))) && PhaseFits(audit, dialect, d, db, p)
    ensures PhaseFits(audit, dialect, d, db', p)
    ensures OwnedLive(db, d) == OwnedLive(db', d)
  {
    hide Owned, OwnedLive, OwnedPending, TxnFits, Preflight, PlanFits, GoodDb, RelsOf, AgreeOn, Cloned, CloneStatements,
         AllPublishStatements, DropStatements;
    AgreeOnParts(d, db, db');
    LiveFrame(d, db, db');
    PendingFrame(d, db, db');
    match p
    case Idle =>
    case Cloning(k) => ClonedFrame(d, db, db', k);
    case CloningTable(k, txn) =>
      ClonedFrame(d, db, db', k);
      TxnFrame(d, db, db', txn, CloneStatements(Owned(d)[k], Live(Owned(d)[k]) in db, dialect));
    case Building(base) =>
    case Audited(a) =>
    case Planned(a, plan) => TablesFrame(d, db, db', plan);
    case Publishing(a, plan, txn) =>
      TablesFrame(d, db, db', plan);
      TxnFrame(d, db, db', txn, AllPublishStatements(plan, dialect));
    case Dropping(txn) => TxnFrame(d, db, db', txn, DropStatements(Owned(d)));
  }

  // ---------------------------------------------------------------- each kind of step keeps the invariant

  lemma RanFits(db: Db, d: Dag, t: Txn, t': Txn, stmts: seq<Stmt>)
    requires TxnFits(db, d, t, stmts) && Ran(t, t')
    ensures TxnFits(db, d, t', stmts)
  {
    hide GoodDb, AgreeOn, RelsOf;
    ExecAllSplits(t.start, t.done, t.todo[0]);
    assert t.todo == [t.todo[0]] + t.todo[1..];
  }

  lemma BeginFits(db: Db, d: Dag, stmts: seq<Stmt>)
    requires GoodDb(db)
    ensures TxnFits(db, d, BeginTxn(db, stmts), stmts)
  {
  }

  lemma InternalFits(audit: Audit, dialect: Dialect, d: Dag, db: Db, p: Phase, p': Phase)
    requires GoodDb(db) && PhaseFits(audit, dialect, d, db, p) && Internal(audit, dialect, d, db, p, p')
    ensures PhaseFits(audit, dialect, d, db, p')
  {
    hide Owned, OwnedLive, OwnedPending, TxnFits, Preflight, PlanFits, GoodDb, Ran, BeginTxn, CloneStatements, AllPublishStatements;
    if p'.CloningTable? {
      if p.Cloning? {
        BeginFits(db, d, CloneStatements(Owned(d)[p.next], Live(Owned(d)[p.next]) in db, dialect));
      } else {
        RanFits(db, d, p.txn, p'.txn, CloneStatements(Owned(d)[p.next], Live(Owned(d)[p.next]) in db, dialect));
      }
    } else if p'.Building? {
      assert Owned(d)[..|Owned(d)|] == Owned(d);
      ClonedSnapshots(db, d);
    } else if p'.Publishing? {
      if p.Planned? {
        BeginFits(db, d, AllPublishStatements(p.plan, dialect));
      } else {
        RanFits(db, d, p.txn, p'.txn, AllPublishStatements(p.plan, dialect));
      }
    } else if p'.Dropping? {
      assert p.Dropping?;
      RanFits(db, d, p.txn, p'.txn, DropStatements(Owned(d)));
    }
  }

  /** Once every table is cloned, pending shows exactly what live shows: nothing stale is left. */
  lemma ClonedSnapshots(db: Db, d: Dag)
    requires GoodDb(db) && Cloned(db, Owned(d))
    ensures OwnedPending(db, d) == OwnedLive(db, d)
  {
    hide Owned, Contents, GoodTable;
  }

  /** Committing a transaction changes only what it wrote, and installs the result there. */
  lemma CommitMeans(db: Db, d: Dag, t: Txn, stmts: seq<Stmt>)
    requires GoodDb(db) && TxnFits(db, d, t, stmts) && t.todo == [] && WrittenBy(stmts) <= RelsOf(Owned(d))
    ensures ExecAll(t.start, stmts) == Ok(t.work)
    ensures SameOutside(db, Committed(db, t), WrittenBy(stmts))
    ensures AgreeOn(t.work, Committed(db, t), RelsOf(Owned(d)))
  {
    hide GoodDb, RelsOf, Owned, WrittenBy;
    assert t.done == stmts;
    ExecAllFrame(t.start, stmts);
  }

  lemma CommitIsGood(db: Db, d: Dag, t: Txn, stmts: seq<Stmt>)
    requires GoodDb(db) && GoodDb(t.work) && TxnFits(db, d, t, stmts) && t.todo == [] && WrittenBy(stmts) <= RelsOf(Owned(d))
    ensures GoodDb(Committed(db, t))
  {
    hide GoodTable, RelsOf, Owned, WrittenBy, TxnFits;
    CommitMeans(db, d, t, stmts);
  }

  lemma CloneWrites(t: TableName, liveExists: bool, dialect: Dialect)
    ensures WrittenBy(CloneStatements(t, liveExists, dialect)) <= {Pending(t)}
  {
  }

  lemma DropWrites(tables: seq<TableName>)
    ensures WrittenBy(DropStatements(tables)) <= set t | t in tables :: Pending(t)
  {
  }

  lemma {:induction false} PublishWrites(plan: seq<PlanEntry>, dialect: Dialect)
    ensures WrittenBy(AllPublishStatements(plan, dialect)) <= set e | e in plan :: Live(e.name)
    decreases |plan|
  {
    if plan != [] {
      var last := plan[|plan| - 1];
      PublishWrites(plan[..|plan| - 1], dialect);
      var front := AllPublishStatements(plan[..|plan| - 1], dialect);
      var ours := PublishStatements(last.name, last.cols, last.liveExists, dialect);
      assert WrittenBy(front + ours) == WrittenBy(front) + WrittenBy(ours);
      assert WrittenBy(ours) <= {Live(last.name)};
      assert plan == plan[..|plan| - 1] + [last];
    }
  }

  lemma {:induction false} DropsKeepGood(db: Db, stmts: seq<Stmt>)
    requires GoodDb(db) && ExecAll(db, stmts).Ok? && forall s :: s in stmts ==> s.DropIfExists?
    ensures GoodDb(ExecAll(db, stmts).value)
    decreases |stmts|
  {
    hide GoodTable;
    if stmts != [] {
      var next := Exec(db, stmts[0]).value;
      assert stmts[0].DropIfExists?;
      assert GoodDb(next);
      DropsKeepGood(next, stmts[1..]);
    }
  }

  /** Running the whole publish script inside one transaction is `PublishTables`. */
  lemma {:induction false} PublishScript(db: Db, tables: seq<TableName>, plan: seq<PlanEntry>, k: nat, dialect: Dialect)
    requires GoodDb(db) && Preflight(db, tables) && PlanFits(db, tables, plan) && Distinct(tables) && k <= |plan|
    ensures Preflight(db, tables[..k])
    ensures ExecAll(db, AllPublishStatements(plan[..k], dialect)) == Ok(PublishTables(db, tables[..k]))
  {
    hide GoodDb, Republished, PublishStatements;
    if k > 0 {
      var last := plan[k - 1];
      PublishScript(db, tables, plan, k - 1, dialect);
      PublishNext(db, tables, plan, k - 1, dialect);
      assert plan[..k][..k - 1] == plan[..k - 1];
      ExecAllConcat(db, AllPublishStatements(plan[..k - 1], dialect),
                    PublishStatements(last.name, last.cols, last.liveExists, dialect));
    }
  }

  lemma CloneCommitFits(audit: Audit, dialect: Dialect, d: Dag, s: State, s': State)
    requires GoodState(s) && PhaseFits(audit, dialect, d, s.db, s.phase[d]) && CloneCommit(d, s, s')
    ensures GoodState(s') && PhaseFits(audit, dialect, d, s'.db, s'.phase[d])
    ensures SameOutside(s.db, s'.db, Pendings(d))
  {
    hide Owned, CloneStatements, GoodTable;
    var k, txn := s.phase[d].next, s.phase[d].txn;
    var t := Owned(d)[k];
    var stmts := CloneStatements(t, Live(t) in s.db, dialect);
    CloneWrites(t, Live(t) in s.db, dialect);
    RelsAreLiveOrPending(d);
    assert t in Owned(d) && Pending(t) in Pendings(d) && Live(t) in Lives(d);
    CommitMeans(s.db, d, txn, stmts);
    CloneStatementsClone(txn.start, t, dialect);
    CommitIsGood(s.db, d, txn, stmts);
    ClonedMore(s.db, s'.db, d, k);
  }

  lemma ClonedMore(db: Db, db': Db, d: Dag, k: nat)
    requires k < |Owned(d)| && Cloned(db, Owned(d)[..k]) && SameOutside(db, db', {Pending(Owned(d)[k])})
    requires var t := Owned(d)[k]; (Pending(t) in db' <==> Live(t) in db) && (Live(t) in db ==> db'[Pending(t)] == db[Live(t)])
    ensures Cloned(db', Owned(d)[..k + 1])
  {
    hide Owned;
    assert Owned(d)[..k + 1] == Owned(d)[..k] + [Owned(d)[k]];
  }

  lemma BuildFits(audit: Audit, dialect: Dialect, d: Dag, s: State, s': State)
    requires GoodState(s) && PhaseFits(audit, dialect, d, s.db, s.phase[d]) && BuildStep(d, s, s')
    ensures GoodState(s') && PhaseFits(audit, dialect, d, s'.db, s'.phase[d])
    ensures SameOutside(s.db, s'.db, Pendings(d)) && OwnedLive(s.db, d) == OwnedLive(s'.db, d)
  {
    hide GoodDb, OwnedLive, Owned;
    LivesUntouched(d, s.db, s'.db);
  }

  lemma LivesUntouched(d: Dag, db: Db, db': Db)
    requires GoodDb(db) && GoodDb(db') && SameOutside(db, db', Pendings(d))
    ensures OwnedLive(db, d) == OwnedLive(db', d)
  {
    hide GoodDb, OwnedLive, Owned;
    LiveFrame(d, db, db');
  }

  lemma DropCommitFits(audit: Audit, dialect: Dialect, d: Dag, s: State, s': State)
    requires GoodState(s) && PhaseFits(audit, dialect, d, s.db, s.phase[d]) && DropCommit(d, s, s')
    ensures GoodState(s') && PhaseFits(audit, dialect, d, s'.db, s'.phase[d])
    ensures SameOutside(s.db, s'.db, Pendings(d))
  {
    hide Owned, GoodTable, OwnedLive, OwnedPending;
    var txn, stmts := s.phase[d].txn, DropStatements(Owned(d));
    DropWrites(Owned(d));
    RelsAreLiveOrPending(d);
    CommitMeans(s.db, d, txn, stmts);
    DropsKeepGood(txn.start, stmts);
    CommitIsGood(s.db, d, txn, stmts);
  }

  /** The commit of a publish makes live show what the audit passed, and touches no other run's tables. */
  lemma PublishCommitFits(audit: Audit, dialect: Dialect, d: Dag, s: State, s': State)
    requires GoodState(s) && PhaseFits(audit, dialect, d, s.db, s.phase[d]) && PublishCommit(d, s, s')
    ensures GoodState(s') && PhaseFits(audit, dialect, d, s'.db, s'.phase[d])
    ensures SameOutside(s.db, s'.db, Lives(d))
    ensures OwnedLive(s'.db, d) == s.phase[d].pass.approved && s.phase[d].pass.base == OwnedLive(s.db, d)
    ensures if s.phase[d].pass.again then s.phase[d].pass.approved == s.phase[d].pass.base else audit(d, s.phase[d].pass.approved)
  {
    hide Owned, GoodDb, OwnedLive, OwnedPending, TxnFits, Preflight, PlanFits, Lives, SameOutside, Committed,
         AllPublishStatements, DropStatements, BeginTxn, Cloned, CloneStatements;
    var p := s.phase[d];
    PublishCommitDb(d, s.db, p.pass.approved, p.plan, p.txn, dialect);
    PendingsUntouched(d, s.db, s'.db);
    BeginFits(s'.db, d, DropStatements(Owned(d)));
  }

  lemma PendingsUntouched(d: Dag, db: Db, db': Db)
    requires GoodDb(db) && GoodDb(db') && SameOutside(db, db', Lives(d))
    ensures OwnedPending(db, d) == OwnedPending(db', d)
  {
    hide GoodDb, OwnedPending, Owned;
    PendingFrame(d, db, db');
  }

  lemma PublishCommitDb(d: Dag, db: Db, approved: Snapshot, plan: seq<PlanEntry>, txn: Txn, dialect: Dialect)
    requires GoodDb(db) && Preflight(db, Owned(d)) && PlanFits(db, Owned(d), plan) && approved == OwnedPending(db, d)
    requires TxnFits(db, d, txn, AllPublishStatements(plan, dialect)) && txn.todo == []
    ensures GoodDb(Committed(db, txn)) && SameOutside(db, Committed(db, txn), Lives(d))
    ensures OwnedLive(Committed(db, txn), d) == approved
  {
    hide Owned, GoodDb, OwnedLive, OwnedPending, PublishTables, AllPublishStatements, WrittenBy, TxnFits, Preflight, PlanFits,
         RelsOf, Lives, Pendings, AgreeOn, Committed;
    var stmts := AllPublishStatements(plan, dialect);
    PublishWritesLives(d, db, plan, dialect);
    RelsAreLiveOrPending(d);
    PublishWork(d, db, plan, txn, dialect);
    CommitMeans(db, d, txn, stmts);
    CommitIsGood(db, d, txn, stmts);
    PublishedShowsApproved(d, txn.start, txn.work, Committed(db, txn));
  }

  /** The view a publishing transaction has built when it has run all its statements. */
  lemma PublishWork(d: Dag, db: Db, plan: seq<PlanEntry>, txn: Txn, dialect: Dialect)
    requires GoodDb(db) && Preflight(db, Owned(d)) && PlanFits(db, Owned(d), plan)
    requires TxnFits(db, d, txn, AllPublishStatements(plan, dialect)) && txn.todo == []
    ensures GoodDb(txn.start) && Preflight(txn.start, Owned(d)) && txn.work == PublishTables(txn.start, Owned(d)) && GoodDb(txn.work)
    ensures OwnedPending(txn.start, d) == OwnedPending(db, d)
  {
    hide Owned, GoodTable, OwnedPending, PublishTables, AllPublishStatements, Preflight, PlanFits;
    assert txn.done == AllPublishStatements(plan, dialect);
    TablesFrameBack(d, db, txn.start, plan);
    OwnedListsAreDistinct(d);
    PlanLength(txn.start, Owned(d), plan);
    PublishScript(txn.start, Owned(d), plan, |plan|, dialect);
    assert plan[..|plan|] == plan && Owned(d)[..|plan|] == Owned(d);
    AgreeOnParts(d, txn.start, db);
    PendingFrame(d, txn.start, db);
  }

  lemma PlanLength(db: Db, tables: seq<TableName>, plan: seq<PlanEntry>)
    requires PlanFits(db, tables, plan)
    ensures |plan| == |tables|
  {
  }

  lemma TablesFrameBack(d: Dag, db: Db, start: Db, plan: seq<PlanEntry>)
    requires AgreeOn(start, db, RelsOf(Owned(d))) && Preflight(db, Owned(d)) && PlanFits(db, Owned(d), plan)
    ensures Preflight(start, Owned(d)) && PlanFits(start, Owned(d), plan)
  {
    hide Owned, RelsOf, Preflight, PlanFits;
    TablesFrame(d, db, start, plan);
  }

  lemma PublishWritesLives(d: Dag, db: Db, plan: seq<PlanEntry>, dialect: Dialect)
    requires PlanFits(db, Owned(d), plan)
    ensures WrittenBy(AllPublishStatements(plan, dialect)) <= Lives(d)
  {
    hide Owned, WrittenBy;
    PublishWrites(plan, dialect);
    forall e | e in plan ensures e.name in Owned(d) {
      var i :| 0 <= i < |plan| && plan[i] == e;
      assert plan[i].name == Owned(d)[i];
    }
  }

  lemma PublishedShowsApproved(d: Dag, start: Db, work: Db, db': Db)
    requires GoodDb(start) && Preflight(start, Owned(d)) && work == PublishTables(start, Owned(d))
    requires GoodDb(db') && AgreeOn(work, db', RelsOf(Owned(d)))
    ensures OwnedLive(db', d) == OwnedPending(start, d)
  {
    hide Owned, Contents, GoodTable, PublishTables;
    forall t | t in Owned(d)
      ensures Live(t) in db' && Pending(t) in start && Contents(db'[Live(t)]) == Contents(start[Pending(t)])
    {
      PublishMeans(start, Owned(d), t);
      assert TableReady(start, t);
      assert Live(t) in RelsOf(Owned(d));
    }
  }

  // ---------------------------------------------------------------- the invariant holds on every run

  /** Steps keep the other runs' part of the invariant, the history, and what their live tables show. */
  lemma OthersFit(audit: Audit, dialect: Dialect, init: Db, d: Dag, e: Dag, s: State, s': State)
    requires GoodDb(init) && Inv(audit, dialect, init, s) && e != d && GoodState(s')
    requires SameOutside(s.db, s'.db, RelsOf(Owned(d))) && s'.phase[e] == s.phase[e] && s'.history[e] == s.history[e]
    ensures DagFits(audit, dialect, e, OwnedLive(init, e), s'.db, s'.phase[e], s'.history[e])
    ensures OwnedLive(s'.db, e) == OwnedLive(s.db, e)
  {
    hide Owned, OwnedLive, PhaseFits, RelsOf, GoodDb, HistoryFits, Expected;
    assert DagFits(audit, dialect, e, OwnedLive(init, e), s.db, s.phase[e], s.history[e]);
    OwnersDoNotOverlap(d, e);
    PhaseFrame(audit, dialect, e, s.db, s'.db, s.phase[e]);
  }

  /** What one step does to the run that takes it. */
  ghost predicate OwnStepOk(audit: Audit, dialect: Dialect, init: Db, d: Dag, s: State, s': State)
    requires GoodDb(init) && GoodState(s)
  {
    && GoodState(s') && SameOutside(s.db, s'.db, RelsOf(Owned(d)))
    && (!FirstPublish(d, s, s') ==> OwnedLive(s'.db, d) == OwnedLive(s.db, d) && s'.history == s.history)
    && DagFits(audit, dialect, d, OwnedLive(init, d), s'.db, s'.phase[d], s'.history[d])
  }

  /** A step that touches pending tables only leaves live and the history alone. */
  lemma PendingStepFits(audit: Audit, dialect: Dialect, init: Db, d: Dag, s: State, s': State)
    requires GoodDb(init) && GoodState(s) && DagFits(audit, dialect, d, OwnedLive(init, d), s.db, s.phase[d], s.history[d])
    requires GoodState(s') && PhaseFits(audit, dialect, d, s'.db, s'.phase[d]) && SameOutside(s.db, s'.db, Pendings(d))
    requires s'.history == s.history
    ensures OwnStepOk(audit, dialect, init, d, s, s')
  {
    hide Owned, OwnedLive, PhaseFits, RelsOf, GoodDb, Lives, Pendings, HistoryFits, Expected, PublishCommit;
    RelsAreLiveOrPending(d);
    LivesUntouched(d, s.db, s'.db);
  }

  lemma QuietStepFits(audit: Audit, dialect: Dialect, init: Db, d: Dag, s: State, s': State)
    requires GoodDb(init) && GoodState(s) && DagFits(audit, dialect, d, OwnedLive(init, d), s.db, s.phase[d], s.history[d])
    requires InternalStep(audit, dialect, d, s, s') || CloneCommit(d, s, s') || BuildStep(d, s, s') || DropCommit(d, s, s')
    ensures OwnStepOk(audit, dialect, init, d, s, s')
  {
    hide Owned, OwnedLive, OwnedPending, PhaseFits, RelsOf, GoodDb, Internal, Pendings, HistoryFits, Expected, Committed, OwnStepOk;
    if InternalStep(audit, dialect, d, s, s') {
      InternalFits(audit, dialect, d, s.db, s.phase[d], s'.phase[d]);
    } else if CloneCommit(d, s, s') {
      CloneCommitFits(audit, dialect, d, s, s');
    } else if BuildStep(d, s, s') {
      BuildFits(audit, dialect, d, s, s');
    } else {
      DropCommitFits(audit, dialect, d, s, s');
    }
    PendingStepFits(audit, dialect, init, d, s, s');
  }

  lemma PublishStepFits(audit: Audit, dialect: Dialect, init: Db, d: Dag, s: State, s': State)
    requires GoodDb(init) && GoodState(s) && DagFits(audit, dialect, d, OwnedLive(init, d), s.db, s.phase[d], s.history[d])
    requires PublishCommit(d, s, s')
    ensures OwnStepOk(audit, dialect, init, d, s, s')
  {
    hide Owned, OwnedLive, PhaseFits, RelsOf, GoodDb, Lives, Pendings, HistoryFits, Expected, Committed;
    RelsAreLiveOrPending(d);
    PublishCommitFits(audit, dialect, d, s, s');
    var a := s.phase[d].pass;
    if !a.again { HistoryGrows(audit, d, OwnedLive(init, d), s.history[d], Commit(a.base, a.approved)); }
  }

  lemma OwnStepFits(audit: Audit, dialect: Dialect, init: Db, d: Dag, s: State, s': State)
    requires GoodDb(init) && Inv(audit, dialect, init, s) && Step(audit, dialect, d, s, s')
    ensures OwnStepOk(audit, dialect, init, d, s, s')
  {
    hide DagFits, OwnStepOk, PublishCommit, InternalStep, CloneCommit, BuildStep, DropCommit, GoodDb;
    assert DagFits(audit, dialect, d, OwnedLive(init, d), s.db, s.phase[d], s.history[d]);
    if PublishCommit(d, s, s') { PublishStepFits(audit, dialect, init, d, s, s'); } else { QuietStepFits(audit, dialect, init, d, s, s'); }
  }

  lemma HistoryGrows(audit: Audit, d: Dag, init: Snapshot, h: seq<Commit>, c: Commit)
    requires HistoryFits(audit, d, init, h) && c.base == Expected(init, h) && audit(d, c.approved)
    ensures HistoryFits(audit, d, init, h + [c]) && Expected(init, h + [c]) == c.approved
  {
    forall i | 0 <= i < |h + [c]|
      ensures (h + [c])[i].base == Expected(init, (h + [c])[..i]) && audit(d, (h + [c])[i].approved)
    {
      assert (h + [c])[..i] == h[..i];
      if i == |h| { assert h[..i] == h; }
    }
  }

  lemma StepKeepsInv(audit: Audit, dialect: Dialect, init: Db, d: Dag, s: State, s': State)
    requires GoodDb(init) && Inv(audit, dialect, init, s) && Step(audit, dialect, d, s, s')
    ensures Inv(audit, dialect, init, s')
    ensures forall e: Dag :: e != d || !FirstPublish(d, s, s') ==>
              GoodState(s') && OwnedLive(s'.db, e) == OwnedLive(s.db, e) && s'.history[e] == s.history[e]
  {
    hide Owned, OwnedLive, PhaseFits, RelsOf, GoodDb, Internal, DagFits, SameOutside;
    OwnStepFits(audit, dialect, init, d, s, s');
    forall e: Dag | e != d
      ensures DagFits(audit, dialect, e, OwnedLive(init, e), s'.db, s'.phase[e], s'.history[e])
      ensures OwnedLive(s'.db, e) == OwnedLive(s.db, e) && s'.history[e] == s.history[e]
    {
      OthersFit(audit, dialect, init, d, e, s, s');
    }
  }

  ghost predicate Moves(audit: Audit, dialect: Dialect, s: State, s': State)
    requires GoodState(s)
  {
    exists d: Dag :: Step(audit, dialect, d, s, s')
  }

  /** A run of the whole system: any owner may move at any time. */
  ghost predicate Behavior(audit: Audit, dialect: Dialect, trace: seq<State>) {
    && trace != [] && Initial(trace[0])
    && forall i :: 0 <= i < |trace| - 1 ==>
         GoodState(trace[i]) && Moves(audit, dialect, trace[i], trace[i + 1])
  }

  lemma MoveKeepsInv(audit: Audit, dialect: Dialect, init: Db, s: State, s': State)
    requires GoodDb(init) && Inv(audit, dialect, init, s) && GoodState(s) && Moves(audit, dialect, s, s')
    ensures Inv(audit, dialect, init, s')
  {
    hide Inv, Step;
    var d: Dag :| Step(audit, dialect, d, s, s');
    StepKeepsInv(audit, dialect, init, d, s, s');
  }

  lemma {:induction false} BehaviorKeepsInv(audit: Audit, dialect: Dialect, trace: seq<State>, i: nat)
    requires Behavior(audit, dialect, trace) && i < |trace|
    ensures Inv(audit, dialect, trace[0].db, trace[i])
  {
    hide Inv, Step, GoodDb, Moves;
    if i == 0 {
      InitialFits(audit, dialect, trace[0]);
    } else {
      BehaviorKeepsInv(audit, dialect, trace, i - 1);
      assert Moves(audit, dialect, trace[i - 1], trace[i - 1 + 1]);
      MoveKeepsInv(audit, dialect, trace[0].db, trace[i - 1], trace[i]);
    }
  }

  lemma InitialFits(audit: Audit, dialect: Dialect, s: State)
    requires Initial(s)
    ensures Inv(audit, dialect, s.db, s)
  {
  }

  // ---------------------------------------------------------------- what readers may rely on

  /** At every moment of every interleaving, an owner's live tables show either their starting rows or
      the rows of that owner's last committed run, and those passed the audit. */
  lemma LiveIsAlwaysAudited(audit: Audit, dialect: Dialect, trace: seq<State>, i: nat, d: Dag)
    requires Behavior(audit, dialect, trace) && i < |trace|
    ensures GoodState(trace[i])
    ensures var h := trace[i].history[d];
            if h == [] then OwnedLive(trace[i].db, d) == OwnedLive(trace[0].db, d)
            else OwnedLive(trace[i].db, d) == h[|h| - 1].approved && audit(d, h[|h| - 1].approved)
  {
    hide Owned, OwnedLive, PhaseFits, GoodDb;
    BehaviorKeepsInv(audit, dialect, trace, i);
    assert DagFits(audit, dialect, d, OwnedLive(trace[0].db, d), trace[i].db, trace[i].phase[d], trace[i].history[d]);
  }

  /** Only the owner's own publish commit changes what its live tables show, and a second attempt does not. */
  lemma OnlyOwnPublishChangesLive(audit: Audit, dialect: Dialect, trace: seq<State>, i: nat, d: Dag)
    requires Behavior(audit, dialect, trace) && i + 1 < |trace|
    ensures GoodState(trace[i]) && GoodState(trace[i + 1])
    ensures OwnedLive(trace[i + 1].db, d) != OwnedLive(trace[i].db, d) ==> FirstPublish(d, trace[i], trace[i + 1])
  {
    hide Owned, OwnedLive, PhaseFits, GoodDb, DagFits, Step, FirstPublish;
    BehaviorKeepsInv(audit, dialect, trace, i);
    BehaviorKeepsInv(audit, dialect, trace, i + 1);
    assert Moves(audit, dialect, trace[i], trace[i + 1]);
    var e: Dag :| Step(audit, dialect, e, trace[i], trace[i + 1]);
    StepKeepsInv(audit, dialect, trace[0].db, e, trace[i], trace[i + 1]);
  }

  /** Applying builds one after the other. */
  ghost function Fold(builds: seq<Snapshot -> Snapshot>, init: Snapshot): Snapshot {
    if builds == [] then init else builds[|builds| - 1](Fold(builds[..|builds| - 1], init))
  }

  lemma {:induction false} HistoryIsFold(audit: Audit, d: Dag, init: Snapshot, h: seq<Commit>, builds: seq<Snapshot -> Snapshot>)
    requires HistoryFits(audit, d, init, h) && |builds| == |h|
    requires forall i :: 0 <= i < |h| ==> h[i].approved == builds[i](h[i].base)
    ensures Expected(init, h) == Fold(builds, init)
  {
    if h != [] {
      var front := h[..|h| - 1];
      assert forall i :: 0 <= i < |front| ==> front[..i] == h[..i];
      HistoryIsFold(audit, d, init, front, builds[..|h| - 1]);
    }
  }

  /** Live is the fold of the builds of just the runs whose publish committed: a failed run leaves no
      trace, and no committed one is lost. */
  lemma LiveIsFoldOfCommittedBuilds(audit: Audit, dialect: Dialect, trace: seq<State>, i: nat, d: Dag,
                                    builds: seq<Snapshot -> Snapshot>)
    requires Behavior(audit, dialect, trace) && i < |trace| && GoodState(trace[i])
    requires |builds| == |trace[i].history[d]|
    requires forall k :: 0 <= k < |builds| ==> trace[i].history[d][k].approved == builds[k](trace[i].history[d][k].base)
    ensures OwnedLive(trace[i].db, d) == Fold(builds, OwnedLive(trace[0].db, d))
  {
    hide Owned, OwnedLive, PhaseFits, GoodDb, HistoryFits, Fold;
    BehaviorKeepsInv(audit, dialect, trace, i);
    assert DagFits(audit, dialect, d, OwnedLive(trace[0].db, d), trace[i].db, trace[i].phase[d], trace[i].history[d]);
    HistoryIsFold(audit, d, OwnedLive(trace[0].db, d), trace[i].history[d], builds);
  }
}
