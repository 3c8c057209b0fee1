/** The clone and publish methods are runs of the interleaving machine: whatever they leave committed, the machine
    reaches by steps of the same owner. */
module WapRefinement {
  import opened Basics
  import opened Warehouse
  import opened WapPublish
  import opened WapMachine

  /** `d` alone leads from the first state of the trace to its last. */
  ghost predicate Run(audit: Audit, dialect: Dialect, d: Dag, trace: seq<State>) {
    trace != [] && forall i :: 0 <= i < |trace| - 1 ==> GoodState(trace[i]) && Step(audit, dialect, d, trace[i], trace[i + 1])
  }

  ghost predicate Reaches(audit: Audit, dialect: Dialect, d: Dag, s: State, s': State) {
    exists trace :: Run(audit, dialect, d, trace) && trace[0] == s && trace[|trace| - 1] == s'
  }

  lemma NoSteps(audit: Audit, dialect: Dialect, d: Dag, s: State)
    ensures Reaches(audit, dialect, d, s, s)
  {
    assert Run(audit, dialect, d, [s]);
  }

  lemma ThenStep(audit: Audit, dialect: Dialect, d: Dag, s: State, mid: State, s': State)
    requires Reaches(audit, dialect, d, s, mid) && GoodState(mid) && Step(audit, dialect, d, mid, s')
    ensures Reaches(audit, dialect, d, s, s')
  {
    hide Step, GoodState;
    var trace :| Run(audit, dialect, d, trace) && trace[0] == s && trace[|trace| - 1] == mid;
    assert Run(audit, dialect, d, trace + [s']);
    assert (trace + [s'])[|trace|] == s';
  }

  /** `s` with `d` in phase `p`. */
  function At(s: State, d: Dag, p: Phase): State {
    s.(phase := s.phase[d := p])
  }

  lemma ThenInternal(audit: Audit, dialect: Dialect, d: Dag, s: State, mid: State, p: Phase)
    requires Reaches(audit, dialect, d, s, mid) && GoodState(mid) && Internal(audit, dialect, d, mid.db, mid.phase[d], p)
    ensures Reaches(audit, dialect, d, s, At(mid, d, p)) && GoodState(At(mid, d, p))
  {
    hide Internal, GoodDb, Reaches;
    assert InternalStep(audit, dialect, d, mid, At(mid, d, p));
    ThenStep(audit, dialect, d, s, mid, At(mid, d, p));
  }

  /** Any failure ends the run where it is. */
  lemma ThenFails(audit: Audit, dialect: Dialect, d: Dag, s: State, mid: State)
    requires Reaches(audit, dialect, d, s, mid) && GoodState(mid)
    ensures Reaches(audit, dialect, d, s, At(mid, d, Idle)) && GoodState(At(mid, d, Idle))
  {
    hide GoodDb, Reaches;
    ThenInternal(audit, dialect, d, s, mid, Idle);
  }

  // ---------------------------------------------------------------- one transaction

  predicate InTxn(p: Phase) {
    p.CloningTable? || p.Publishing? || p.Dropping?
  }

  function WithTxn(p: Phase, t: Txn): Phase
    requires InTxn(p)
  {
    match p
    case CloningTable(k, _) => CloningTable(k, t)
    case Publishing(a, plan, _) => Publishing(a, plan, t)
    case Dropping(_) => Dropping(t)
  }

  lemma RanIsInternal(audit: Audit, dialect: Dialect, d: Dag, db: Db, p: Phase, t: Txn)
    requires GoodDb(db) && InTxn(p) && Ran(p.txn, t)
    ensures Internal(audit, dialect, d, db, p, WithTxn(p, t))
  {
    hide GoodDb, Ran;
  }

  /** The phase once the rest of its transaction has run. */
  function Ended(p: Phase): Phase
    requires InTxn(p) && ExecAll(p.txn.work, p.txn.todo).Ok?
  {
    WithTxn(p, Txn(p.txn.start, ExecAll(p.txn.work, p.txn.todo).value, p.txn.done + p.txn.todo, []))
  }

  lemma EndedLater(p: Phase, t: Txn)
    requires InTxn(p) && Ran(p.txn, t) && ExecAll(p.txn.work, p.txn.todo).Ok?
    ensures ExecAll(t.work, t.todo).Ok? && Ended(WithTxn(p, t)) == Ended(p)
  {
    hide Exec;
    assert p.txn.done + [p.txn.todo[0]] + p.txn.todo[1..] == p.txn.done + p.txn.todo;
  }

  lemma EndedNow(p: Phase)
    requires InTxn(p) && p.txn.todo == []
    ensures ExecAll(p.txn.work, p.txn.todo).Ok? && Ended(p) == p
  {
    assert p.txn.done + [] == p.txn.done;
  }

  /** The statements of an open transaction run to the end. */
  lemma {:induction false} TxnRuns(audit: Audit, dialect: Dialect, d: Dag, s: State, mid: State)
    requires GoodState(mid) && InTxn(mid.phase[d]) && Reaches(audit, dialect, d, s, mid)
    requires ExecAll(mid.phase[d].txn.work, mid.phase[d].txn.todo).Ok?
    ensures Reaches(audit, dialect, d, s, At(mid, d, Ended(mid.phase[d]))) && GoodState(At(mid, d, Ended(mid.phase[d])))
    decreases |mid.phase[d].txn.todo|
  {
    hide GoodDb, Reaches, Exec, Internal, Ended;
    var p, t := mid.phase[d], mid.phase[d].txn;
    if t.todo == [] {
      EndedNow(p);
      assert At(mid, d, p) == mid;
    } else {
      var t' := Txn(t.start, Exec(t.work, t.todo[0]).value, t.done + [t.todo[0]], t.todo[1..]);
      var next := At(mid, d, WithTxn(p, t'));
      RanIsInternal(audit, dialect, d, mid.db, p, t');
      ThenInternal(audit, dialect, d, s, mid, WithTxn(p, t'));
      EndedLater(p, t');
      TxnRuns(audit, dialect, d, s, next);
      assert At(next, d, Ended(p)) == At(mid, d, Ended(p));
    }
  }

  /** Without interference, committing installs what the statements built. */
  lemma CommitInstallsWork(db: Db, stmts: seq<Stmt>)
    requires ExecAll(db, stmts).Ok?
    ensures Committed(db, Txn(db, ExecAll(db, stmts).value, stmts, [])) == ExecAll(db, stmts).value
  {
    hide Exec, ExecAll, WrittenBy;
    ExecAllFrame(db, stmts);
    var work, written := ExecAll(db, stmts).value, WrittenBy(stmts);
    InstallIsWork(db, work, written);
  }

  lemma InstallIsWork(db: Db, work: Db, written: set<Rel>)
    requires SameOutside(db, work, written)
    ensures Install(db, work, written) == work
  {
  }

  // ---------------------------------------------------------------- clone

  lemma CloneTableKeepsGood(db: Db, t: TableName)
    requires GoodDb(db)
    ensures GoodDb(CloneTable(db, t))
  {
    hide GoodTable;
  }

  lemma OneTableCloned(audit: Audit, dialect: Dialect, d: Dag, s: State, mid: State, k: nat)
    requires GoodState(mid) && Reaches(audit, dialect, d, s, mid) && k < |Owned(d)| && mid.phase[d] == Cloning(k)
    ensures var end := At(mid.(db := CloneTable(mid.db, Owned(d)[k])), d, Cloning(k + 1));
            Reaches(audit, dialect, d, s, end) && GoodState(end)
  {
    hide Owned, Reaches, GoodDb, CloneStatements, CloneTable, ExecAll, Committed, WrittenBy;
    var t := Owned(d)[k];
    var stmts := CloneStatements(t, Live(t) in mid.db, dialect);
    var p := CloningTable(k, BeginTxn(mid.db, stmts));
    ThenInternal(audit, dialect, d, s, mid, p);
    CloneStatementsClone(mid.db, t, dialect);
    TxnRuns(audit, dialect, d, s, At(mid, d, p));
    var ran := At(At(mid, d, p), d, Ended(p));
    assert [] + stmts == stmts;
    CommitInstallsWork(mid.db, stmts);
    CloneTableKeepsGood(mid.db, t);
    var end := At(mid.(db := CloneTable(mid.db, t)), d, Cloning(k + 1));
    assert CloneCommit(d, ran, end);
    ThenStep(audit, dialect, d, s, ran, end);
  }

  lemma {:induction false} TablesCloned(audit: Audit, dialect: Dialect, d: Dag, s: State, k: nat)
    requires GoodState(s) && s.phase[d] == Idle && k <= |Owned(d)|
    ensures var end := At(s.(db := CloneTables(s.db, Owned(d)[..k])), d, Cloning(k));
            Reaches(audit, dialect, d, s, end) && GoodState(end)
  {
    hide Owned, Reaches, GoodDb, CloneTable, CloneTables;
    if k == 0 {
      NothingCloned(s.db);
      NoSteps(audit, dialect, d, s);
      ThenInternal(audit, dialect, d, s, s, Cloning(0));
      assert s.(db := CloneTables(s.db, Owned(d)[..0])) == s;
    } else {
      TablesCloned(audit, dialect, d, s, k - 1);
      var mid := At(s.(db := CloneTables(s.db, Owned(d)[..k - 1])), d, Cloning(k - 1));
      OneTableCloned(audit, dialect, d, s, mid, k - 1);
      CloneNext(s.db, Owned(d), k - 1);
      assert At(mid.(db := CloneTables(s.db, Owned(d)[..k])), d, Cloning(k)) == At(s.(db := CloneTables(s.db, Owned(d)[..k])), d, Cloning(k));
    }
  }

  /** Whatever `CloneLiveToPending` leaves committed for an owner, finished or raised, is reached by steps of that owner:
      a finished clone goes on to the build, a raised one ends the run. */
  lemma CloneIsARun(audit: Audit, dialect: Dialect, d: Dag, s: State, after: Db, finished: bool)
    requires GoodState(s) && s.phase[d] == Idle
    requires finished ==> after == CloneTables(s.db, Owned(d))
    requires !finished ==> exists k :: 0 <= k <= |Owned(d)| && after == CloneTables(s.db, Owned(d)[..k])
    ensures GoodDb(after)
    ensures Reaches(audit, dialect, d, s, At(s.(db := after), d, if finished then Building(OwnedPending(after, d)) else Idle))
  {
    hide Owned, Reaches, GoodDb, CloneTables, Internal, OwnedPending;
    if finished {
      assert Owned(d)[..|Owned(d)|] == Owned(d);
      TablesCloned(audit, dialect, d, s, |Owned(d)|);
      BuildIsNext(audit, dialect, d, after);
      GoesOn(audit, dialect, d, s, after, Cloning(|Owned(d)|), Building(OwnedPending(after, d)));
    } else {
      var k :| 0 <= k <= |Owned(d)| && after == CloneTables(s.db, Owned(d)[..k]);
      TablesCloned(audit, dialect, d, s, k);
      EndsThere(audit, dialect, d, after, Cloning(k));
      GoesOn(audit, dialect, d, s, after, Cloning(k), Idle);
    }
  }

  lemma GoesOn(audit: Audit, dialect: Dialect, d: Dag, s: State, db: Db, p: Phase, p': Phase)
    requires GoodState(s) && GoodDb(db) && Reaches(audit, dialect, d, s, At(s.(db := db), d, p))
    requires Internal(audit, dialect, d, db, p, p')
    ensures Reaches(audit, dialect, d, s, At(s.(db := db), d, p'))
  {
    hide Reaches, GoodDb, Internal;
    ThenInternal(audit, dialect, d, s, At(s.(db := db), d, p), p');
    assert At(At(s.(db := db), d, p), d, p') == At(s.(db := db), d, p');
  }

  lemma EndsThere(audit: Audit, dialect: Dialect, d: Dag, db: Db, p: Phase)
    requires GoodDb(db)
    ensures Internal(audit, dialect, d, db, p, Idle)
  {
  }

  lemma BuildIsNext(audit: Audit, dialect: Dialect, d: Dag, db: Db)
    requires GoodDb(db)
    ensures Internal(audit, dialect, d, db, Cloning(|Owned(d)|), Building(OwnedPending(db, d)))
  {
    hide Owned, OwnedPending, GoodDb;
  }

  // ---------------------------------------------------------------- publish

  function PlanOf(db: Db, tables: seq<TableName>): (plan: seq<PlanEntry>)
    requires forall t :: t in tables ==> Pending(t) in db
    ensures |plan| == |tables|
  {
    seq(|tables|, i requires 0 <= i < |tables| =>
      PlanEntry(tables[i], Live(tables[i]) in db, if Live(tables[i]) in db then db[Live(tables[i])].cols else db[Pending(tables[i])].cols))
  }

  lemma PlanOfFits(db: Db, tables: seq<TableName>)
    requires Preflight(db, tables)
    ensures forall t :: t in tables ==> Pending(t) in db
    ensures PlanFits(db, tables, PlanOf(db, tables))
  {
    forall t | t in tables ensures Pending(t) in db { assert TableReady(db, t); }
  }

  /** Dropping the pending copies one after the other. */
  lemma {:induction false} DropsMean(db: Db, tables: seq<TableName>)
    ensures ExecAll(db, DropStatements(tables)) == Ok(db - set t | t in tables :: Pending(t))
  {
    if tables == [] {
      var gone := set t | t in tables :: Pending(t);
      assert gone == {} && db - gone == db;
      assert DropStatements(tables) == [];
    } else {
      var front, last := tables[..|tables| - 1], tables[|tables| - 1];
      DropsMean(db, front);
      assert DropStatements(tables) == DropStatements(front) + [DropIfExists(Pending(last))];
      ExecAllSplits(db, DropStatements(front), DropIfExists(Pending(last)));
      assert tables == front + [last];
      var gone := set t | t in front :: Pending(t);
      assert (set t | t in tables :: Pending(t)) == gone + {Pending(last)};
      assert db - gone - {Pending(last)} == db - (gone + {Pending(last)});
    }
  }

  lemma GoodAfterDrops(db: Db, rels: set<Rel>)
    requires GoodDb(db)
    ensures GoodDb(db - rels)
  {
    hide GoodTable;
  }

  /** The history after a publish commit. */
  function Recorded(s: State, d: Dag, a: Approval): map<Dag, seq<Commit>>
    requires d in s.history
  {
    if a.again then s.history else s.history[d := s.history[d] + [Commit(a.base, a.approved)]]
  }

  /** After its publish commit, before dropping. */
  function Committing(s: State, d: Dag, db: Db, a: Approval): State
    requires d in s.history
  {
    State(db, s.phase[d := Dropping(BeginTxn(db, DropStatements(Owned(d))))], Recorded(s, d, a))
  }

  lemma PlanIsNext(audit: Audit, dialect: Dialect, d: Dag, db: Db, a: Approval, plan: seq<PlanEntry>)
    requires GoodDb(db) && Preflight(db, Owned(d)) && PlanFits(db, Owned(d), plan)
    ensures Internal(audit, dialect, d, db, Audited(a), Planned(a, plan))
    ensures Internal(audit, dialect, d, db, Planned(a, plan), Publishing(a, plan, BeginTxn(db, AllPublishStatements(plan, dialect))))
  {
    hide Owned, GoodDb, Preflight, PlanFits, AllPublishStatements;
  }

  lemma WholeScript(d: Dag, db: Db, plan: seq<PlanEntry>, dialect: Dialect)
    requires GoodDb(db) && Preflight(db, Owned(d)) && PlanFits(db, Owned(d), plan)
    ensures ExecAll(db, AllPublishStatements(plan, dialect)) == Ok(PublishTables(db, Owned(d)))
  {
    hide Owned, GoodDb, Preflight, PlanFits, AllPublishStatements, ExecAll, PublishTables;
    OwnedListsAreDistinct(d);
    PlanLength(db, Owned(d), plan);
    PublishScript(db, Owned(d), plan, |plan|, dialect);
    assert plan[..|plan|] == plan && Owned(d)[..|plan|] == Owned(d);
  }

  lemma PublishCommits(audit: Audit, dialect: Dialect, d: Dag, s: State, a: Approval)
    requires GoodState(s) && s.phase[d] == Audited(a) && Preflight(s.db, Owned(d))
    ensures var end := Committing(s, d, PublishTables(s.db, Owned(d)), a);
            Reaches(audit, dialect, d, s, end) && GoodState(end)
  {
    hide Owned, Reaches, GoodDb, Preflight, PlanFits, AllPublishStatements, ExecAll, PublishTables, Committed, DropStatements, PlanOf,
         Internal, Step, PublishCommit;
    PlanOfFits(s.db, Owned(d));
    var plan := PlanOf(s.db, Owned(d));
    var stmts := AllPublishStatements(plan, dialect);
    var p := Publishing(a, plan, BeginTxn(s.db, stmts));
    NoSteps(audit, dialect, d, s);
    PlanIsNext(audit, dialect, d, s.db, a, plan);
    ThenInternal(audit, dialect, d, s, s, Planned(a, plan));
    var planned := At(s, d, Planned(a, plan));
    ThenInternal(audit, dialect, d, s, planned, p);
    WholeScript(d, s.db, plan, dialect);
    TxnRuns(audit, dialect, d, s, At(planned, d, p));
    var ran := At(At(planned, d, p), d, Ended(p));
    assert [] + stmts == stmts;
    CommitInstallsWork(s.db, stmts);
    PublishCommitsTo(audit, dialect, d, s, ran, a);
    ThenStep(audit, dialect, d, s, ran, Committing(s, d, PublishTables(s.db, Owned(d)), a));
  }

  lemma PublishCommitsTo(audit: Audit, dialect: Dialect, d: Dag, s: State, ran: State, a: Approval)
    requires GoodState(s) && GoodState(ran) && ran.history == s.history && ran.phase == s.phase[d := ran.phase[d]]
    requires ran.phase[d].Publishing? && ran.phase[d].txn.todo == [] && a == ran.phase[d].pass
    ensures Step(audit, dialect, d, ran, Committing(s, d, Committed(ran.db, ran.phase[d].txn), a))
  {
    hide Owned, GoodDb, Committed, DropStatements;
    var end := Committing(s, d, Committed(ran.db, ran.phase[d].txn), a);
    assert end == State(end.db, ran.phase[d := end.phase[d]], Recorded(ran, d, a));
    assert PublishCommit(d, ran, end);
  }

  lemma PendingsDropped(audit: Audit, dialect: Dialect, d: Dag, s: State, mid: State)
    requires GoodState(mid) && Reaches(audit, dialect, d, s, mid)
    requires mid.phase[d] == Dropping(BeginTxn(mid.db, DropStatements(Owned(d))))
    ensures var end := At(mid.(db := mid.db - set t | t in Owned(d) :: Pending(t)), d, Idle);
            Reaches(audit, dialect, d, s, end) && GoodState(end)
  {
    hide Owned, Reaches, GoodDb, DropStatements, ExecAll, Committed;
    var stmts := DropStatements(Owned(d));
    DropsMean(mid.db, Owned(d));
    TxnRuns(audit, dialect, d, s, mid);
    var ran := At(mid, d, Ended(mid.phase[d]));
    assert [] + stmts == stmts;
    CommitInstallsWork(mid.db, stmts);
    GoodAfterDrops(mid.db, set t | t in Owned(d) :: Pending(t));
    var end := At(mid.(db := mid.db - set t | t in Owned(d) :: Pending(t)), d, Idle);
    assert DropCommit(d, ran, end);
    ThenStep(audit, dialect, d, s, ran, end);
  }

  /** Whatever `PublishGold` leaves committed for an owner whose audit has passed is reached by steps of that owner: the
      run is in the history exactly when its commit took effect for the first time. */
  lemma PublishIsARun(audit: Audit, dialect: Dialect, d: Dag, s: State, a: Approval, after: Db, published: bool)
    requires GoodState(s) && s.phase[d] == Audited(a)
    requires if published then PublishedExactly(s.db, after, Owned(d)) else after == s.db
    ensures Reaches(audit, dialect, d, s, State(after, s.phase[d := Idle], if published then Recorded(s, d, a) else s.history))
  {
    hide Owned, Reaches, GoodDb, PublishTables, Preflight, DropStatements;
    if !published {
      NoSteps(audit, dialect, d, s);
      ThenFails(audit, dialect, d, s, s);
      assert At(s, d, Idle) == State(after, s.phase[d := Idle], s.history);
    } else {
      PublishCommits(audit, dialect, d, s, a);
      CommittedIsARun(audit, dialect, d, s, Committing(s, d, PublishTables(s.db, Owned(d)), a), after);
    }
  }

  /** From the commit to the end of the run, with the pending copies dropped or left. */
  lemma CommittedIsARun(audit: Audit, dialect: Dialect, d: Dag, s: State, mid: State, after: Db)
    requires GoodState(s) && GoodState(mid) && Reaches(audit, dialect, d, s, mid)
    requires mid.phase == s.phase[d := Dropping(BeginTxn(mid.db, DropStatements(Owned(d))))]
    requires after == mid.db || after == mid.db - set t | t in Owned(d) :: Pending(t)
    ensures Reaches(audit, dialect, d, s, State(after, s.phase[d := Idle], mid.history))
  {
    hide Owned, Reaches, GoodDb, DropStatements;
    if after == mid.db {
      ThenFails(audit, dialect, d, s, mid);
    } else {
      PendingsDropped(audit, dialect, d, s, mid);
    }
    assert At(mid.(db := after), d, Idle) == State(after, s.phase[d := Idle], mid.history);
  }

  /** The approval a second attempt finds after a commit that took effect. */
  ghost function Again(db: Db, d: Dag): Approval
    requires GoodDb(db)
  {
    Approval(OwnedLive(db, d), OwnedPending(db, d), true)
  }

  /** A publish that raised while the pending copies are still there is tried again by steps of the same owner: with the
      old approval if its commit took no effect, with that of a second attempt if it did. */
  lemma RetryIsARun(audit: Audit, dialect: Dialect, d: Dag, s: State, a: Approval, published: bool)
    requires GoodState(s) && s.phase[d] == Audited(a)
    requires published ==> Preflight(s.db, Owned(d))
    ensures published ==>
              var after := PublishTables(s.db, Owned(d));
              Reaches(audit, dialect, d, s, State(after, s.phase[d := Audited(Again(after, d))], Recorded(s, d, a)))
    ensures !published ==> Reaches(audit, dialect, d, s, s)
  {
    hide Owned, Reaches, GoodDb, PublishTables, Preflight, DropStatements, OwnedLive, OwnedPending, Internal;
    if !published {
      NoSteps(audit, dialect, d, s);
    } else {
      var mid := Committing(s, d, PublishTables(s.db, Owned(d)), a);
      PublishCommits(audit, dialect, d, s, a);
      AgainIsNext(audit, dialect, d, mid.db, mid.phase[d]);
      ThenInternal(audit, dialect, d, s, mid, Audited(Again(mid.db, d)));
      assert At(mid, d, Audited(Again(mid.db, d))) == State(mid.db, s.phase[d := Audited(Again(mid.db, d))], mid.history);
    }
  }

  /** A publish task that raised before its commit finds its approval as it was, whatever it had planned or executed. */
  lemma RaisedBeforeCommit(audit: Audit, dialect: Dialect, d: Dag, s: State, p: Phase)
    requires GoodState(s) && s.phase[d] == p && (p.Planned? || p.Publishing?)
    ensures Reaches(audit, dialect, d, s, At(s, d, Audited(p.pass)))
  {
    hide GoodDb, Reaches;
    NoSteps(audit, dialect, d, s);
    BackToAudited(audit, dialect, d, s.db, p);
    ThenInternal(audit, dialect, d, s, s, Audited(p.pass));
  }

  lemma BackToAudited(audit: Audit, dialect: Dialect, d: Dag, db: Db, p: Phase)
    requires GoodDb(db) && (p.Planned? || p.Publishing?)
    ensures Internal(audit, dialect, d, db, p, Audited(p.pass))
  {
    hide GoodDb, OwnedLive, OwnedPending;
  }

  lemma AgainIsNext(audit: Audit, dialect: Dialect, d: Dag, db: Db, p: Phase)
    requires GoodDb(db) && p.Dropping?
    ensures Internal(audit, dialect, d, db, p, Audited(Again(db, d)))
  {
    hide GoodDb, OwnedLive, OwnedPending;
  }

  // ---------------------------------------------------------------- nothing that passes is stuck

  lemma ThenReaches(audit: Audit, dialect: Dialect, d: Dag, s: State, mid: State, s': State)
    requires Reaches(audit, dialect, d, s, mid) && Reaches(audit, dialect, d, mid, s')
    ensures Reaches(audit, dialect, d, s, s')
  {
    hide Step, GoodState;
    var first :| Run(audit, dialect, d, first) && first[0] == s && first[|first| - 1] == mid;
    var second :| Run(audit, dialect, d, second) && second[0] == mid && second[|second| - 1] == s';
    var trace := first + second[1..];
    assert forall i :: 0 <= i < |second| ==> trace[|first| - 1 + i] == second[i];
    forall i | 0 <= i < |trace| - 1 ensures GoodState(trace[i]) && Step(audit, dialect, d, trace[i], trace[i + 1]) {
      if i >= |first| - 1 {
        var j := i - (|first| - 1);
        assert trace[i] == second[j] && trace[i + 1] == second[j + 1];
      }
    }
    assert trace[|trace| - 1] == s';
  }

  /** After the clone, whatever the build makes of its pending tables can be brought before the audit. */
  lemma BuildIsAudited(audit: Audit, dialect: Dialect, d: Dag, s: State, built: Db)
    requires GoodState(s) && s.phase[d] == Idle && GoodDb(built) && SameOutside(CloneTables(s.db, Owned(d)), built, Pendings(d))
    requires audit(d, OwnedPending(built, d))
    ensures var a := Approval(OwnedLive(s.db, d), OwnedPending(built, d), false);
            Reaches(audit, dialect, d, s, At(s.(db := built), d, Audited(a)))
  {
    hide Owned, Reaches, GoodDb, CloneTables, OwnedPending, OwnedLive, SameOutside, Pendings, Internal;
    var cloned := CloneTables(s.db, Owned(d));
    CloneIsARun(audit, dialect, d, s, cloned, true);
    CloneShowsLive(d, s.db);
    var base := OwnedPending(cloned, d);
    var mid, next := At(s.(db := cloned), d, Building(base)), At(s.(db := built), d, Building(base));
    assert BuildStep(d, mid, next);
    ThenStep(audit, dialect, d, s, mid, next);
    var a := Approval(base, OwnedPending(built, d), false);
    AuditIsNext(audit, dialect, d, built, base);
    ThenInternal(audit, dialect, d, s, next, Audited(a));
    assert At(next, d, Audited(a)) == At(s.(db := built), d, Audited(a));
  }

  lemma AuditIsNext(audit: Audit, dialect: Dialect, d: Dag, db: Db, base: Snapshot)
    requires GoodDb(db) && audit(d, OwnedPending(db, d))
    ensures Internal(audit, dialect, d, db, Building(base), Audited(Approval(base, OwnedPending(db, d), false)))
  {
    hide Owned, OwnedPending, GoodDb;
  }

  /** A fresh clone shows what live shows. */
  lemma CloneShowsLive(d: Dag, db: Db)
    requires GoodDb(db) && GoodDb(CloneTables(db, Owned(d)))
    ensures OwnedPending(CloneTables(db, Owned(d)), d) == OwnedLive(db, d)
  {
    hide Owned, CloneTables, Contents, GoodTable;
    CloneMeans(db, Owned(d));
  }

  /** Every build that the audit passes and whose columns fit can go live: there is a run that shows live exactly that
      build, records it as made from what live showed before, and touches no other owner's table. */
  lemma EveryPassingBuildCanGoLive(audit: Audit, dialect: Dialect, d: Dag, s: State, built: Db)
    requires GoodState(s) && s.phase[d] == Idle && GoodDb(built) && SameOutside(CloneTables(s.db, Owned(d)), built, Pendings(d))
    requires audit(d, OwnedPending(built, d)) && Preflight(built, Owned(d))
    ensures exists end: State ::
              && Reaches(audit, dialect, d, s, end) && GoodState(end) && OwnedLive(end.db, d) == OwnedPending(built, d)
              && SameOutside(s.db, end.db, RelsOf(Owned(d)))
              && end.phase == s.phase
              && end.history == s.history[d := s.history[d] + [Commit(OwnedLive(s.db, d), OwnedPending(built, d))]]
  {
    hide Owned, Reaches, GoodDb, CloneTables, OwnedPending, OwnedLive, SameOutside, Pendings, PublishTables, Preflight;
    BuildIsAudited(audit, dialect, d, s, built);
    var a := Approval(OwnedLive(s.db, d), OwnedPending(built, d), false);
    var mid := At(s.(db := built), d, Audited(a));
    var live := PublishTables(built, Owned(d));
    PublishIsARun(audit, dialect, d, mid, a, live, true);
    var end := State(live, mid.phase[d := Idle], Recorded(mid, d, a));
    ThenReaches(audit, dialect, d, s, mid, end);
    BuiltIsLive(d, s.db, built);
    assert end.phase == s.phase;
  }

  lemma BuiltIsLive(d: Dag, db: Db, built: Db)
    requires GoodDb(built) && SameOutside(CloneTables(db, Owned(d)), built, Pendings(d)) && Preflight(built, Owned(d))
    ensures var live := PublishTables(built, Owned(d));
            GoodDb(live) && OwnedLive(live, d) == OwnedPending(built, d) && SameOutside(db, live, RelsOf(Owned(d)))
  {
    hide Owned, CloneTables, PublishTables, Preflight, GoodDb, OwnedLive, OwnedPending;
    var live := PublishTables(built, Owned(d));
    CloneMeans(db, Owned(d));
    PublishedShowsApproved(d, built, live, live);
    assert forall t :: t in Owned(d) ==> Pending(t) in RelsOf(Owned(d)) && Live(t) in RelsOf(Owned(d));
  }
}
