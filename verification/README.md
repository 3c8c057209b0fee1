# Verification models of the retail lakehouse

A Dafny model of the parts of the platform where correctness is a matter of algorithm rather than of
plumbing, with proofs that hold for every input, every interleaving and every point of failure.
`dafny verify dfyconfig.toml` checks the whole project. The model follows the code's own shape: loops over
dictionaries and tables are methods with loops, objects that update their fields are classes, and queries and
DataFrame chains are functions and predicates. What the code is for is then stated about the specification
functions, as lemmas.

## Components

**Identity graph** (`UnionFind`, `IdentityRules`, `IdentityGraph`, `IdentityResolution`, `IdentityTheorems`,
`SparkIdentity`, over `StringOrder` and `Connectivity`). Clickstream and point-of-sale rows become links,
devices shared by too many customers are cut out, a union-find with path compression finds the components, and
each identifier gets one row. The union-find is proved against paths in the graph of united pairs; the pipeline
is proved against a description of each row by the graph alone (`RowsFor`); the theorems are about those rows;
and the DataFrame form is shown to give the same rows from any components table that equals reachability.

**Write-Audit-Publish** (`Warehouse`, `WapPublish`, `WapMachine`, `WapRefinement`). `WapPublish` is the clone and
publish code over one session in which any call may raise, a commit may take effect and raise all the same, and a
rollback may fail; a log (`CallLog`) keeps which calls raised, so that the methods say exactly when they raise. `WapMachine` interleaves the three owning DAGs statement by statement, with transactions, an
arbitrary build on a run's own pending tables, an arbitrary audit, and a failure possible instead of any step. Both use
the same statements and the same statement semantics (`Warehouse.Exec`), and `WapRefinement` shows that whatever the
methods leave committed, the machine reaches by steps of the same owner.

**Events** (`CanonicalEvents`, `CanonicalFrames`, `InventoryHourly`, `ArrivalOrder`, `EventTime`, `OffsetGaps`,
`EventContract`, `InventoryProducer`, over `Sums`). Spark rebuilds canonical events in two keep-first steps; Flink sums
per window after a per-window deduplication, over payloads it reads itself, in their order of arrival. What Flink's JSON
format makes of a payload is any function, so the exact difference between the two layers can be stated without assuming
that they read alike. The producer is a state machine, and its messages are followed through parsing and deduplication.

**Exports** (`ConsumerExports`), **metadata writes** (`MetadataWrites`), **row-count gate** (`RowCountGate`) and
**point-of-sale money** (`PosMoney`) are the smaller stateful parts: crash points of an export and whole
histories of them, retried autocommit scripts over several tables, a baseline that drifts over runs, and two levels of
rounding.

## Properties that fail, and exactly when they hold

- `canonicalize` is promised to replay deterministically. Two copies of one transport record that tie in ingestion
  time and payload hash but differ otherwise (in the Kafka timestamp, say) make the surviving row depend on row order:
  the three returned frames are the same for every order if and only if tied earliest copies are equal rows
  (`CanonicalFrames.FramesIgnoreOrderIff`).
- The reconciliation check is not an identity: a transport position reused for another event makes it fire
  (`CanonicalEvents.ReusedOffsetFails`); it passes if and only if every transport copy's event id survives
  (`CanonicalEvents.ReconcilesIff`).
- Flink and Spark differ when two conflicting copies fall in the winner's second and the wrong one arrives first
  (`ArrivalOrder.ConflictWithinASecondBreaksIt`), and when a copy that Spark quarantines, and that Flink's query does not
  filter, comes earlier in the winner's window (`ArrivalOrder.QuarantinedCopyCounts`). Flink's hour is Spark's plus the
  rows that stand for no winner, for every order of arrival, if and only if for every winner some row Flink reads has its
  event id in its window, and all such rows in the earliest second move what the winner moves
  (`ArrivalOrder.ReconcilesInEveryOrderIff`). When Flink reads exactly the valid payloads, and as Spark does, this is
  agreement of the copies in the winner's own second (`ArrivalOrder.ValidRowsReduce`), which every run of the producer
  keeps (`InventoryProducer.RunsReconcile`).
- The two layers read a timestamp alike if and only if its zone is `±HH:MM` or its offset does not move the instant
  across a second (`EventTime.SameSecondIff`). Offsets with seconds, without a colon, or with a fraction fail
  (`EventTime.SecondsInOffsetMoveTheHour`, `EventTime.OffsetWithoutColonMovesTheHour`,
  `EventTime.FractionInOffsetMovesTheSecond`).
- A retry can win over its original (`InventoryProducer.RetryCanWin`), and is then not labelled a business duplicate.
  The canonical rows still carry exactly the fresh events (`InventoryProducer.CanonicalEventsAreFreshEvents`); an
  original wins, and all its retries get the label, if and only if every retry is stored after it
  (`InventoryProducer.FreshWinsIff`, `InventoryProducer.RetriesAreLabelledIff`).
- Pruning can remove the run just published if its name does not sort last
  (`ConsumerExports.PublishedRunIsPrunedIff`), and one unfinished run in between pushes out the previously
  published one (`ConsumerExports.PreviousRunSurvivesIff`).
- An owned table can vanish from the baseline without a warning if and only if the threshold is one
  (`RowCountGate.StaysPositiveIff`); tables of other owners can get the unreadable sentinel as baseline
  (`RowCountGate.SentinelReachesTablesNotOwned`).
- Two check names share a row exactly in the cases of `MetadataWrites.ClippedNamesCollideIff`.
- Rounding can eat the margin below a price of 19 cents, and never from there on (`PosMoney.MarginIsPositiveIff`); the
  catalog starts at two dollars.

Where code and documentation disagree the model follows the code: ADR-011 lets the latest conflicting copy win,
`spark/identity_resolution/canonical_events.py:48-53` keeps the earliest; `ARCHITECTURE.md` speaks of an atomic
rename, `publish_gold` deletes and inserts in one transaction.

## Model

| member | source | states |
|---|---|---|
| UnionFinding.UnionFind.constructor | spark/identity_resolution/graph_logic.py:188-189 | every node starts alone: no pair united, and roots agree with reachability |
| UnionFinding.UnionFind.Find | spark/identity_resolution/graph_logic.py:191-197 | returns the least name joined to the node by united pairs; terminates; no root changes, and exactly the nodes on the way now point straight at the root |
| UnionFinding.UnionFind.Union | spark/identity_resolution/graph_logic.py:199-202 | afterwards roots agree with reachability over the old pairs plus the new one |
| UnionFinding.Step | spark/identity_resolution/graph_logic.py:192-193 | a parent link keeps the root and strictly lowers the rank, so the first loop ends at a root |
| UnionFinding.CompressKeepsRoots | spark/identity_resolution/graph_logic.py:194-196 | path compression changes no node's root |
| UnionFinding.LinkRepresents | spark/identity_resolution/graph_logic.py:199-202 | giving the larger root to the smaller one joins exactly what one more pair joins |
| UnionFinding.RootIsLeast | spark/identity_resolution/graph_logic.py:201-202 | the root is always the smallest member of its component |
| UnionFinding.FindDecides | spark/identity_resolution/graph_logic.py:187-202 | two nodes have equal find results exactly when a path of united pairs joins them |
| IdentityRules.NormalizeIdentifier | spark/identity_resolution/graph_logic.py:67-77 | nothing exactly for absent or all-blank text; otherwise the text without its blank ends, nothing else removed |
| IdentityRules.CustomerKey | spark/identity_resolution/graph_logic.py:80-83 | the key minus one is congruent to the digest modulo 10^8, and lies in 0..10^8-1 |
| IdentityRules.SplitInvertsNode | spark/identity_resolution/graph_logic.py:86-89 | splitting a node gives back type and value, also when the value holds colons |
| IdentityRules.NodeIsInjective | spark/identity_resolution/graph_logic.py:86-89 | type and value identify a node |
| IdentityRules.SortKeyOrders | spark/identity_resolution/graph_logic.py:92-100 | comparing sort keys is comparing by type priority, then name; the key decodes to its node |
| IdentityRules.RepIsUnique | spark/identity_resolution/graph_logic.py:220-224 | a component has one representative |
| IdentityGraph.FindPublicDevices | spark/identity_resolution/graph_logic.py:123-135 | the loop over pairs returns the devices seen with at least the threshold of distinct customers |
| IdentityGraph.LastSeen | spark/identity_resolution/graph_logic.py:152-159 | the two maps hold, for exactly the pairs and customers seen, the latest event time |
| IdentityGraph.SessionEdges | spark/identity_resolution/graph_logic.py:161-170 | one edge per pair on a device that is not public, at its last co-occurrence, and no other, in name order |
| IdentityGraph.LoyaltyEdges | spark/identity_resolution/graph_logic.py:172-182 | one edge per loyalty id that is also a clickstream customer, at that customer's last event, in name order |
| IdentityGraph.BuildEdges | spark/identity_resolution/graph_logic.py:138-184 | exactly the session edges, then exactly the loyalty edges, each strictly sorted, and the public devices |
| IdentityGraph.PairsOf | spark/identity_resolution/graph_logic.py:287-292 | exactly the pairs of the rows whose two identifiers both survive normalising |
| IdentityGraph.PairsComeInRowOrder | spark/identity_resolution/graph_logic.py:287-292 | the pairs come in row order, at most one per row |
| IdentityResolution.MembersByRoot | spark/identity_resolution/graph_logic.py:211-218 | the groups are the components, each under its least name |
| IdentityResolution.MinBySortKeyIsLeast | spark/identity_resolution/graph_logic.py:220-224 | the chosen member has the least sort key of its group |
| IdentityResolution.RepresentativeOf | spark/identity_resolution/graph_logic.py:220-224 | every member of every group is mapped to that group's choice |
| IdentityResolution.MakeRow | spark/identity_resolution/graph_logic.py:226-270 | the branches give each type, representative and public flag its key, confidence and method |
| IdentityResolution.RowsOfNodes | spark/identity_resolution/graph_logic.py:226-271 | one row per node in name order, each the row the graph calls for |
| IdentityResolution.AssignResolution | spark/identity_resolution/graph_logic.py:205-271 | the rows are determined by reachability over the given edges: representative, key, method, confidence, public flag |
| IdentityResolution.EdgesAreInputLinks | spark/identity_resolution/graph_logic.py:149-184 | the edges' ends are exactly the co-occurrences on devices that are not public and the loyalty matches |
| IdentityResolution.InputNodesAreNodes | spark/identity_resolution/graph_logic.py:302-312 | every node built from input is well formed |
| IdentityResolution.LinkEndsAreNodes | spark/identity_resolution/graph_logic.py:274-314 | both ends of every edge are known nodes, whatever the input |
| IdentityResolution.ResolveIdentityGraph | spark/identity_resolution/graph_logic.py:274-314 | edges, rows and public devices of the whole pipeline, in terms of the input rows |
| IdentityTheorems.SameRepIffChained | spark/identity_resolution/graph_logic.py:205-314 | two identifiers share a representative exactly when a chain of shared sessions on devices that are not public and of equal loyalty values joins them |
| IdentityTheorems.PublicIsIsolated | spark/identity_resolution/graph_logic.py:161-170 | no edge touches a public device |
| IdentityTheorems.KeyIsKeyOfRep | spark/identity_resolution/graph_logic.py:232-237 | every row's key is its representative's key: the special branch for public devices agrees with the general one |
| IdentityTheorems.RepIsLoyaltyIff | spark/identity_resolution/graph_logic.py:220-224 | the representative is a loyalty id exactly when the component holds one |
| IdentityTheorems.DeviceRepIff | spark/identity_resolution/graph_logic.py:250-257 | a device's representative is a device exactly when no edge touches it |
| IdentityTheorems.MethodsAreGraphFacts | spark/identity_resolution/graph_logic.py:226-257 | each resolution method is equivalent to a fact about the graph, such as `device_only` for a device with no edge that is not public, and fixes the confidence |
| IdentityTheorems.OneAnchorPerComponent | spark/identity_resolution/graph_logic.py:238-241 | a component with a loyalty id has exactly one anchor row, its representative's |
| IdentityTheorems.RowsAreUnique | spark/identity_resolution/graph_logic.py:226-271 | one row per input identifier, unique by type and value |
| IdentityTheorems.RowIffGiven | spark/identity_resolution/graph_logic.py:302-314 | an identifier of a type has a row exactly if some input row gives it in that field after normalising, whatever else that input row holds |
| IdentityTheorems.RowIsPublicIff | spark/identity_resolution/graph_logic.py:123-135 | a row is flagged public exactly if it is a device that at least the threshold of different customers clicked on |
| IdentityTheorems.RowsInOrder | spark/identity_resolution/graph_logic.py:226-271 | rows come by node name |
| IdentityTheorems.EdgesInOrder | spark/identity_resolution/graph_logic.py:161-184 | edges come by type, session links first, then by source and target name |
| IdentityTheorems.EdgeIffObserved | spark/identity_resolution/graph_logic.py:138-184 | in the fields of the input rows: which edges there are, between which named nodes, of which type, and at which last click |
| IdentityTheorems.FewerPublicDevices | spark/identity_resolution/graph_logic.py:123-135 | a higher threshold makes fewer devices public |
| IdentityTheorems.ThresholdOnlyMerges | spark/identity_resolution/graph_logic.py:123-184 | raising the threshold never separates two rows that shared a representative |
| IdentityTheorems.OrderDoesNotMatter | spark/identity_resolution/graph_logic.py:274-314 | equal sets of input rows give the same list of rows |
| IdentityTheorems.SortedEdgesAreEqual | spark/identity_resolution/graph_logic.py:161-182 | a strictly sorted edge list is determined by its members |
| IdentityTheorems.EdgesIgnoreOrder | spark/identity_resolution/graph_logic.py:138-184 | equal sets of input rows give the same list of edges |
| SparkIdentity.SparkEdgesAgree | spark/identity_resolution/identity_resolution_job.py:183-221 | the group-bys, the anti-join and the join give the edges of the Python loops |
| SparkIdentity.TablesAgree | spark/identity_resolution/identity_resolution_job.py:343-371 | the two CASE chains and the Python branches give the same method and confidence for every combination |
| SparkIdentity.DecodedKeyIsRep | spark/identity_resolution/identity_resolution_job.py:298-314 | decoding the smallest sort key of a component gives its representative and that one's type |
| SparkIdentity.NodePartsAgree | spark/identity_resolution/identity_resolution_job.py:315-322 | prefix tests and cutting at the first colon recover type and value |
| SparkIdentity.SparkAgrees | spark/identity_resolution/identity_resolution_job.py:281-384 | for any components table that is reachability, the DataFrame row of every vertex is the Python row |
| Warehouse.ExecAllFrame | orchestration/airflow/plugins/wap_publish.py:211-217 | a script changes no table it does not write |
| Warehouse.RecordMeans | orchestration/airflow/plugins/wap_publish.py:155-176 | a reader finds each cell of a row under its column |
| Warehouse.Connection.Execute | orchestration/airflow/plugins/wap_publish.py:211-217 | a statement takes effect or raises and changes nothing; outside a transaction of DuckDB it is committed at once |
| Warehouse.Connection.TableExists | orchestration/airflow/plugins/wap_publish.py:189-197 | answers for the session's view, or raises |
| Warehouse.Connection.Columns | orchestration/airflow/plugins/wap_publish.py:200-208 | the columns in table order, or raises |
| Warehouse.Connection.Begin | orchestration/airflow/plugins/wap_publish.py:220-225 | a statement that may raise in DuckDB, nothing in Redshift |
| Warehouse.Connection.Commit | orchestration/airflow/plugins/wap_publish.py:228-232 | installs the transaction's view; a raising commit installs all of it or nothing; outside a transaction it raises |
| Warehouse.Connection.Rollback | orchestration/airflow/plugins/wap_publish.py:235-239 | restores the committed state, or raises and leaves the transaction open; outside a transaction it raises |
| WapPublish.OwnershipIsDisjoint | orchestration/airflow/plugins/wap_publish.py:105-128 | no table has two owning DAGs |
| WapPublish.OwnersCoverAllTables | orchestration/airflow/plugins/wap_publish.py:90-128 | the owners' lists cover the published tables and nothing else |
| WapPublish.OwnedListsAreDistinct | orchestration/airflow/plugins/wap_publish.py:105-128 | no owner lists a table twice |
| WapPublish.CloneStatementsClone | orchestration/airflow/plugins/wap_publish.py:135-152 | in both dialects, the statements make pending a copy of live, or remove it with live, whatever pending held |
| WapPublish.CloneMeans | orchestration/airflow/plugins/wap_publish.py:258-297 | after the clone of a list, pending equals live on it and nothing else moved |
| WapPublish.CloneOne | orchestration/airflow/plugins/wap_publish.py:260-293 | one table is cloned, its pending schema made sure of, or on a raise left alone unless its commit took effect all the same; it raises exactly if some call did, and leaves something open only if the last call, the rollback, raised |
| WapPublish.CloneLiveToPending | orchestration/airflow/plugins/wap_publish.py:242-297 | on return all tables are cloned, and the cloned and skipped ones reported in order; on a raise exactly a prefix of them is cloned; it raises exactly if some call did, and leaves something open only if the last call, the rollback, raised |
| WapPublish.CheckPending | orchestration/airflow/plugins/wap_publish.py:316-326 | passes exactly when no query raises and every pending table exists |
| WapPublish.PlanTable | orchestration/airflow/plugins/wap_publish.py:330-341 | one table's plan entry, and whether its columns drifted |
| WapPublish.MakePlan | orchestration/airflow/plugins/wap_publish.py:316-346 | a plan exactly when no query raises and every pending table exists with its live twin's columns in some order; nothing is written |
| WapPublish.ReorderedRecord | orchestration/airflow/plugins/wap_publish.py:169-176 | inserting by column name keeps every named record |
| WapPublish.RepublishedKeepsRecords | orchestration/airflow/plugins/wap_publish.py:155-176 | live gets pending's records and keeps its own column order |
| WapPublish.PublishStatementsPublish | orchestration/airflow/plugins/wap_publish.py:155-176 | the two statements replace live by pending; on a plan that misjudged whether live exists they raise |
| WapPublish.PublishMeans | orchestration/airflow/plugins/wap_publish.py:348-356 | after the loop, every table of the list shows pending's records |
| WapPublish.PublishInTxn | orchestration/airflow/plugins/wap_publish.py:350-356 | the statements of the plan build, inside the transaction, every owned live table anew |
| WapPublish.CommitPublish | orchestration/airflow/plugins/wap_publish.py:348-360 | the publish transaction raises exactly if some call did, and takes effect exactly if its commit returned or landed all the same |
| WapPublish.PublishedOrNot | orchestration/airflow/plugins/wap_publish.py:357-360 | a commit that raised installed the whole publish or nothing of it |
| WapPublish.DropPending | orchestration/airflow/plugins/wap_publish.py:362-371 | all pending copies go, or none, and nothing else changes; they go if nothing raises; a failure is swallowed exactly unless the last call, the rollback, raises too |
| WapPublish.PublishGold | orchestration/airflow/plugins/wap_publish.py:300-376 | all or nothing over the list, whatever raises where: either the database is as it was, or every live table holds pending's records and the pending copies are all there or all gone; a publish whose commit returned is reported as done exactly unless the very last call, the rollback after a failed drop, raised; when nothing raises it is done exactly if the checks pass |
| WapPublish.PublishingAgainChangesNothing | orchestration/airflow/plugins/wap_publish.py:300-376 | a second publish never changes what live shows |
| WapMachine.OwnersDoNotOverlap | orchestration/airflow/plugins/wap_publish.py:105-128 | two DAGs share no live and no pending table |
| WapMachine.ClonedSnapshots | orchestration/airflow/plugins/wap_publish.py:258-297 | once all tables are cloned a build starts from exactly what live shows: stale pending rows are gone |
| WapMachine.PublishScript | orchestration/airflow/plugins/wap_publish.py:348-356 | all publish statements inside one transaction replace every owned live table, for any prefix of the plan |
| WapMachine.PublishCommitFits | orchestration/airflow/plugins/wap_publish.py:348-360 | the commit makes the owned live tables show what the audit passed and touches no other owner's table |
| WapMachine.StepKeepsInv | orchestration/airflow/plugins/wap_publish.py:242-376 | every statement, commit, failure and build step of any DAG keeps the invariant, and only a publish commit moves live or the history |
| WapMachine.BehaviorKeepsInv | orchestration/airflow/plugins/wap_publish.py:242-376 | the invariant holds at every moment of every interleaving, with publish tasks tried again after a failure before or after their commit |
| WapMachine.LiveIsAlwaysAudited | orchestration/airflow/plugins/wap_publish.py:300-376 | at every moment, an owner's live tables show their starting rows or the audited rows of that owner's last commit |
| WapMachine.OnlyOwnPublishChangesLive | orchestration/airflow/plugins/wap_publish.py:105-128 | whenever what an owner's live tables show changes, that step is the owner's own publish commit, and not that of a second attempt |
| WapMachine.HistoryIsFold | orchestration/airflow/plugins/wap_publish.py:258-376 | a history whose runs each start from the result before is the fold of its builds |
| WapMachine.LiveIsFoldOfCommittedBuilds | orchestration/airflow/plugins/wap_publish.py:258-376 | live is the fold of the builds of just the runs whose publish committed: failed runs leave no trace, none is lost |
| WapRefinement.CommitInstallsWork | orchestration/airflow/plugins/wap_publish.py:348-357 | without interference a commit installs what the statements built |
| WapRefinement.CloneIsARun | orchestration/airflow/plugins/wap_publish.py:242-297 | whatever the clone method leaves committed, finished or raised, is reached by steps of the owner in the interleaving machine |
| WapRefinement.PublishIsARun | orchestration/airflow/plugins/wap_publish.py:300-376 | so is whatever the publish method leaves committed, and the run enters the history exactly when its commit took effect for the first time |
| WapRefinement.RetryIsARun | orchestration/airflow/plugins/wap_publish.py:300-376 | and a publish that raised is tried again by steps of the same owner, before its commit or after it |
| WapRefinement.RaisedBeforeCommit | orchestration/airflow/plugins/wap_publish.py:348-360 | one that raised before its commit finds its approval as it was, whatever it had planned or executed |
| WapRefinement.EveryPassingBuildCanGoLive | orchestration/airflow/plugins/wap_publish.py:242-376 | nothing that passes is stuck: for every build the audit passes and whose columns fit there is a run that shows live exactly that build, records it, and touches no other owner's table |
| CanonicalEvents.UniqueExists | spark/identity_resolution/canonical_events.py:41-47 | every valid delivery has a row that stands for its transport record |
| CanonicalEvents.UniquePerTransport | spark/identity_resolution/canonical_events.py:41-47 | and only one |
| CanonicalEvents.KeptCopyIsFirstIngested | spark/identity_resolution/canonical_events.py:41-47 | the kept copy of a transport record has the least ingestion time, a known one before an unknown one, and among ties the least payload hash |
| CanonicalEvents.CanonicalExists | spark/identity_resolution/canonical_events.py:48-58 | every event id among the unique records has a winner |
| CanonicalEvents.CanonicalPerEventId | spark/identity_resolution/canonical_events.py:48-58 | and only one |
| CanonicalEvents.WinnerIsLeast | spark/identity_resolution/canonical_events.py:51-53 | field by field: the winner has the least event time, then the least Kafka timestamp, a known one before an unknown one, then the least source, topic and partition, and within a partition the lower offset |
| CanonicalEvents.OneCanonicalRowPerEvent | spark/identity_resolution/canonical_events.py:48-58 | exactly one canonical row per event id, no later than any of its unique copies |
| CanonicalEvents.OneLabelPerCopy | spark/identity_resolution/canonical_events.py:59-64 | every business copy joins one winner and gets one label |
| CanonicalEvents.RetryIff | spark/identity_resolution/canonical_events.py:54-64 | a copy is a business duplicate exactly if it repeats the winner's time and details, and a payload conflict otherwise |
| CanonicalEvents.JoinedCopiesCount | spark/identity_resolution/canonical_events.py:65-71 | the join neither repeats a transport copy nor keeps one whose event id has no winner |
| CanonicalEvents.ReconcilesIff | spark/identity_resolution/canonical_events.py:129-132 | the three outputs add up to the input exactly when every transport copy's event id survives among the unique records |
| CanonicalEvents.KafkaLogsReconcile | spark/identity_resolution/canonical_events.py:129-132 | on a log with one payload per transport position the check never fires |
| CanonicalEvents.ReusedOffsetFails | spark/identity_resolution/canonical_events.py:129-132 | a position reused for another event makes it fire |
| CanonicalEvents.UniqueRowsAreEarliest | spark/identity_resolution/canonical_events.py:41-47 | without differing ties, the surviving rows are those no valid copy was ingested before |
| CanonicalEvents.OrderDoesNotMatterIff | spark/identity_resolution/canonical_events.py:41-47 | the records that survive the transport step are the same for every order of the input if and only if tied earliest copies are equal rows |
| CanonicalEvents.CanonicalRowsIgnoreOrder | spark/identity_resolution/canonical_events.py:48-58 | in that case the canonical rows are the same for every order of the input, too |
| CanonicalFrames.AuditCountIs | spark/identity_resolution/canonical_events.py:59-71 | how often each audit row (copy, label, winner) occurs in the duplicates frame, from the surviving rows and the number of deliveries alone |
| CanonicalFrames.SurvivorsShow | spark/identity_resolution/canonical_events.py:59-72 | which records survived can be read off the returned frames |
| CanonicalFrames.FramesIgnoreOrderIff | spark/identity_resolution/canonical_events.py:39-72 | canonical, invalid and duplicates frames hold the same rows equally often for every order of the input if and only if tied earliest copies are equal rows |
| ArrivalOrder.WinnerIsEarliest | spark/identity_resolution/canonical_events.py:48-58 | the canonical row is no later than any valid delivery of its event id |
| InventoryHourly.FirstExists | streaming/flink_jobs/inventory_silver_job.py:216-230 | every row Flink reads, valid for Spark or not, has a first row in its event id and window |
| InventoryHourly.AgreeingCopiesCount | streaming/flink_jobs/inventory_silver_job.py:216-230 | if the earliest rows with each winner's event id in its window move what it moves, the rank-one row of every winner does, whatever arrives first |
| InventoryHourly.FlinkIsSparkPlusStrays | streaming/flink_jobs/inventory_silver_job.py:207-240 | if every winner's rank-one row moves what the winner moves, then per hour, product and store, and for every aggregate, Flink equals Spark plus exactly the rows that stand for no winner |
| InventoryHourly.LayersReconcileIff | streaming/flink_jobs/inventory_silver_job.py:207-240 | and that condition is necessary: the layers reconcile on every hour and every aggregate over event id and quantity if and only if every winner is counted as it is |
| InventoryHourly.CountedIff | streaming/flink_jobs/inventory_silver_job.py:216-240 | in seconds and fields: a row is counted under an hour, product and store exactly if it lies in that hour, carries both, and no row of its event id lies there earlier or came first in the same second |
| InventoryHourly.ComparedIff | streaming/flink_jobs/inventory_silver_job.py:207-240 | in microseconds and fields: which canonical events an hour, product and store is compared with |
| InventoryHourly.WindowOfInstant | streaming/flink_jobs/inventory_silver_job.py:180-227 | the window a reading is counted in is the one its instant in UTC lies in |
| InventoryHourly.WhatRowsAdd | streaming/flink_jobs/inventory_silver_job.py:235-236 | the received sum adds exactly the positive quantities, the delta sum all of them, and a null adds nothing |
| ArrivalOrder.RetriesAgree | streaming/flink_jobs/inventory_silver_job.py:210-213 | with only identical retries of valid events, which Flink reads as Spark does, both layers agree on every hour in every order of arrival |
| ArrivalOrder.ConflictWithinASecondBreaksIt | streaming/flink_jobs/inventory_silver_job.py:220-225 | conflicting copies inside one second are counted differently by the two layers |
| ArrivalOrder.QuarantinedCopyCounts | streaming/flink_jobs/inventory_silver_job.py:216-240 | a quarantined copy five minutes earlier in the same hour is what Flink counts, although all valid copies agree and nothing is a stray |
| ArrivalOrder.FrontIsFirst | streaming/flink_jobs/inventory_silver_job.py:220-225 | an earliest row that arrives first is the one with rank one |
| ArrivalOrder.DisagreementShows | streaming/flink_jobs/inventory_silver_job.py:207-240 | a winner without a row in its window, or an earliest row that moves something else, gives an order of arrival in which the layers do not reconcile |
| ArrivalOrder.AgreementIgnoresOrder | streaming/flink_jobs/inventory_silver_job.py:207-240 | agreement of the earliest rows is a fact about the payloads, not about their order or number |
| ArrivalOrder.SamePayloadsReconcile | streaming/flink_jobs/inventory_silver_job.py:207-240 | so the layers reconcile for every stream of the same payloads, also when a record is read more or less often than Bronze holds it |
| ArrivalOrder.HourlySumsReconcile | streaming/flink_jobs/inventory_silver_job.py:231-240 | in particular the query's two sums do |
| ArrivalOrder.ReconcilesInEveryOrderIff | streaming/flink_jobs/inventory_silver_job.py:207-240 | Flink is Spark plus the rows that stand for no winner, for every order of arrival, hour and aggregate, if and only if every winner has a row with its event id in its window and all such rows in the earliest second move what the winner moves; for any reader |
| ArrivalOrder.TimeIsReadAlikeIff | streaming/flink_jobs/inventory_silver_job.py:180-204 | the row time is read as Spark reads it exactly when the zone is `±HH:MM` or its offset does not move the instant across a second |
| ArrivalOrder.ValidRowsReduce | streaming/flink_jobs/inventory_silver_job.py:207-240 | for a reader that reads exactly the valid payloads, and as Spark does, the condition is that every copy in the winner's own second moves what the winner moves |
| EventTime.HourMinuteIsRead | streaming/flink_jobs/inventory_silver_job.py:191-199 | the expression reads `±HH:MM` |
| EventTime.OffsetIsRead | streaming/flink_jobs/inventory_silver_job.py:191-199 | and takes every other zone, with or without colons, seconds or fraction, for zero |
| EventTime.SameSecondIff | streaming/flink_jobs/inventory_silver_job.py:180-204 | Flink's row time is the parsed event time cut to the second exactly when the zone is `±HH:MM` or its offset does not move the instant across a second |
| EventTime.SixDigits | spark/identity_resolution/event_contract.py:69-79 | a fraction counts its first six digits by place and no further ones |
| EventTime.SameWindow | streaming/flink_jobs/inventory_silver_job.py:180-204 | for RFC 3339 section 5.6 timestamps, both layers choose the same window and hour |
| EventTime.SecondsInOffsetMoveTheHour | streaming/flink_jobs/inventory_silver_job.py:191-199 | an offset with seconds, which the parser accepts, lands in another hour |
| EventTime.OffsetWithoutColonMovesTheHour | streaming/flink_jobs/inventory_silver_job.py:191-199 | so does one without a colon |
| EventTime.FractionInOffsetMovesTheSecond | streaming/flink_jobs/inventory_silver_job.py:191-199 | an offset of a fraction of a second lands in another second |
| OffsetGaps.GapsAddUp | spark/identity_resolution/canonical_events.py:86-98 | captured offsets plus missing offsets fill the span from first to last |
| OffsetGaps.GapsAreClean | spark/identity_resolution/canonical_events.py:86-98 | gaps have positive size, follow one another and hold no captured offset |
| OffsetGaps.GapsCover | spark/identity_resolution/canonical_events.py:86-98 | every missing offset lies in a gap |
| OffsetGaps.GapsAccountForEveryOffset | spark/identity_resolution/canonical_events.py:78-98 | per partition, gaps are disjoint, cover each missing offset once, and add up with the captured ones |
| OffsetGaps.GapIff | spark/identity_resolution/canonical_events.py:78-98 | a gap is reported exactly between two delivered offsets of the partition with some, and only undelivered ones, between them |
| OffsetGaps.GapsIgnoreOrderAndCopies | spark/identity_resolution/canonical_events.py:83-87 | the report depends neither on row order nor on duplicates |
| EventContract.FirstMissing | spark/identity_resolution/event_contract.py:61-65 | reports the first required field that is absent, not text, or blank |
| EventContract.OnlyGoodEventsPass | spark/identity_resolution/event_contract.py:38-109 | a valid result has all fields present, an allowed type, a version, a UTC time in range and a 32-bit quantity |
| EventContract.RejectedByFirstFailure | spark/identity_resolution/event_contract.py:59-107 | a payload is rejected with the reason of the first of eleven checks that fails |
| EventContract.RejectedIff | spark/identity_resolution/event_contract.py:59-109 | and only if one of them fails |
| EventContract.AcceptedAsRead | spark/identity_resolution/event_contract.py:59-109 | one that passes all of them is valid, each field read from the member of its name, on time if `is_late` is missing |
| EventContract.VersionIff | spark/identity_resolution/event_contract.py:67-68 | a version is three non-empty runs of digits joined by dots |
| EventContract.ParseInvertsAsDict | spark/identity_resolution/event_contract.py:38-109 | reading back what the producer writes gives the event, for exactly the events the contract admits |
| InventoryProducer.Producer.constructor | ingestion/kafka/producer_sim/inventory_producer.py:132 | the memory starts empty |
| InventoryProducer.Appended | ingestion/kafka/producer_sim/inventory_producer.py:106-132 | the memory keeps every entry but, when full, its oldest |
| InventoryProducer.Producer.NextMessage | ingestion/kafka/producer_sim/inventory_producer.py:86-107 | a retry is a remembered event, a conflict has a remembered original with the same id, store and product, a later time and one more unit, other messages are newly generated; the number drawn decides which, and only a normal event is remembered |
| InventoryProducer.Producer.Run | ingestion/kafka/producer_sim/inventory_producer.py:132-152 | every message and every memory of a run follow from the ones before by that rule |
| InventoryProducer.MemoryHoldsSentEvents | ingestion/kafka/producer_sim/inventory_producer.py:95-107 | what is remembered was sent before as a normal message |
| InventoryProducer.RunsAreGood | ingestion/kafka/producer_sim/inventory_producer.py:80-107 | in every run, a message is fresh under a new id, an exact retry, or a strictly later copy with one more unit of an earlier normal one |
| InventoryProducer.ConflictsNeverWin | spark/identity_resolution/canonical_events.py:48-58 | no conflicting copy becomes canonical |
| InventoryProducer.CanonicalCarriesFreshEvent | spark/identity_resolution/canonical_events.py:48-58 | whatever the timestamps, a canonical row carries the fresh event of its id |
| InventoryProducer.CanonicalEventsAreFreshEvents | spark/identity_resolution/canonical_events.py:39-72 | the canonical events of a run are exactly its normal and late events, one row each |
| InventoryProducer.ConflictsAreLabelled | spark/identity_resolution/canonical_events.py:59-64 | every conflicting copy is labelled a payload conflict |
| InventoryProducer.RetryIsLabelledIff | spark/identity_resolution/canonical_events.py:59-64 | a retry is labelled a business duplicate exactly when it does not win itself |
| InventoryProducer.FreshWinsIff | spark/identity_resolution/canonical_events.py:48-58 | a fresh message wins exactly when every retry of it is stored after it: by Kafka timestamp, then by its place in the log |
| InventoryProducer.OriginalsWinIff | spark/identity_resolution/canonical_events.py:48-58 | the winners are exactly the normal and late messages if and only if that holds for all of them |
| InventoryProducer.RetriesAreLabelledIff | spark/identity_resolution/canonical_events.py:59-64 | all retries of a message are labelled business duplicates if and only if all are stored after it |
| InventoryProducer.RetryCanWin | spark/identity_resolution/canonical_events.py:51-53 | a retry with an earlier Kafka timestamp on the next offset wins |
| InventoryProducer.RunsAgreeInASecond | ingestion/kafka/producer_sim/inventory_producer.py:80-83 | in every run, copies in the winner's own second move what the winner moves: conflicts are at least a second later |
| InventoryProducer.RunsReconcile | ingestion/kafka/producer_sim/inventory_producer.py:86-107 | every run reconciles between the layers in every order of arrival |
| InventoryProducer.MessagesAreGood | ingestion/kafka/producer_sim/inventory_producer.py:80-107 | if the generated events leave room for one more unit and two more minutes, the contract admits every message of every run |
| InventoryProducer.EndToEnd | ingestion/kafka/producer_sim/inventory_producer.py:86-152 | from draws through serialising, parsing and deduplication, Silver holds exactly the normal and late events and the reconciliation check passes |
| ConsumerExports.EntriesOf | spark/identity_resolution/consumer_exports.py:54-62 | a manifest lists exactly the parquet files of the run directory |
| ConsumerExports.EntriesComeInOrder | spark/identity_resolution/consumer_exports.py:54-62 | every parquet file is listed as often as it occurs, in listing order |
| ConsumerExports.EntryOfFile | spark/identity_resolution/consumer_exports.py:54-62 | a file is listed exactly if its name ends in `.parquet` |
| ConsumerExports.PrunedIsSortedPrefix | spark/identity_resolution/consumer_exports.py:70-76 | what the slice spares are the directories with fewer than two newer ones |
| ConsumerExports.KeptAfterNewest | spark/identity_resolution/consumer_exports.py:70-76 | a new highest name is kept, and of the older ones exactly the newest |
| ConsumerExports.SwapAndPruneAreSafe | spark/identity_resolution/consumer_exports.py:63-76 | after the swap, wherever pruning breaks off, a reader sees a complete run |
| ConsumerExports.ExportStore.Publish | spark/identity_resolution/consumer_exports.py:39-77 | what holds after a break at any point (`CrashSafe`); it finishes exactly if the directory is new and none of its calls breaks, swaps the manifest exactly if none up to the swap does, and then leaves exactly the spared directories |
| ConsumerExports.ExportStore.Prune | spark/identity_resolution/consumer_exports.py:70-76 | removes exactly what is not spared, the oldest first, or breaks off exactly if a deletion does, without touching what is spared |
| ConsumerExports.AlwaysReadable | spark/identity_resolution/consumer_exports.py:39-84 | over every history of publishes, each breaking off anywhere, the manifest is absent or names exactly the files of one complete existing run |
| ConsumerExports.ReadersCanFinish | spark/identity_resolution/consumer_exports.py:70-76 | a run on disk after its publish stays intact through the whole next publish |
| ConsumerExports.PreviousRunSurvivesIff | spark/identity_resolution/consumer_exports.py:70-76 | an older run survives a publish exactly when no directory lies between |
| ConsumerExports.PublishedRunIsPrunedIff | spark/identity_resolution/consumer_exports.py:70-76 | the run just published is pruned exactly when two others sort after it |
| ConsumerExports.PadOrders | spark/identity_resolution/consumer_exports.py:27-28 | comparing fixed-width digit fields as text compares the numbers |
| ConsumerExports.PadReads | spark/identity_resolution/consumer_exports.py:27-28 | a padded field holds digits only and reads back as its number |
| ConsumerExports.RunIdReads | spark/identity_resolution/consumer_exports.py:27-28 | a run id has the form YYYYMMDDTHHMMSSffffffZ, and every field reads back |
| ConsumerExports.RunIdsSortByTime | spark/identity_resolution/consumer_exports.py:27-28 | run directories sort exactly as the instants they name |
| MetadataWrites.UpsertsMean | scripts/common/metadata_observer.py:498-523 | the delete and insert pairs leave other keys alone and, per key, the last row given |
| MetadataWrites.ScriptMeans | scripts/common/metadata_observer.py:468-556 | one undisturbed call gives the final table |
| MetadataWrites.FinalRows | scripts/common/metadata_observer.py:463-465 | after a catalog call the keys are exactly the defined ones, unless none is defined; per key one row, the last given |
| MetadataWrites.CutCallKeepsOthers | scripts/common/metadata_observer.py:685-726 | a call cut short anywhere has touched no key it does not write |
| MetadataWrites.CutThenWholeIsWhole | scripts/common/metadata_observer.py:498-523 | in one table, any prefix of one call followed by a whole call gives the table of the whole call alone |
| MetadataWrites.ApplyAllTable | scripts/common/metadata_observer.py:498-556 | each table sees its own statements of a call, in order |
| MetadataWrites.CallMeans | scripts/common/metadata_observer.py:468-556 | a whole call leaves each table it names final and the others as they were |
| MetadataWrites.CutCallThenWholeIsWhole | scripts/common/metadata_observer.py:468-556 | over all the tables of a call, any prefix followed by a whole call gives the tables of the whole call alone |
| MetadataWrites.SeedMeans | scripts/common/metadata_observer.py:468-556 | `seed_catalogs` leaves in each catalog exactly the defined keys, unless none is defined, with the last row given for each, and no other table changed |
| MetadataWrites.SeedConverges | scripts/common/metadata_observer.py:468-556 | cut off anywhere, in either catalog, and then run whole it leaves what it leaves when run whole at once |
| MetadataWrites.DqMeans | scripts/common/metadata_observer.py:685-726 | `record_dq_results` leaves per clipped check the last result given, other results and tables as they were |
| MetadataWrites.StartRunMeans | scripts/common/metadata_observer.py:559-593 | `start_pipeline_run` leaves the new row and the rows of other executions |
| MetadataWrites.MetadataWriter.WritePart | scripts/common/metadata_observer.py:498-523 | the statements of one table take effect up to a point, all of them if it returns; it fails exactly if one statement raises, its last, which may have taken effect |
| MetadataWrites.MetadataWriter.RunCall | scripts/common/metadata_observer.py:468-556 | so do the statements of a whole call over several tables |
| MetadataWrites.MetadataWriter.WithRetries | scripts/common/metadata_observer.py:981-991 | it gives up only after as many raises as attempts, one each, and returns with the first attempt in which nothing raises; success leaves what one undisturbed call leaves; after a final failure any later successful call still does |
| MetadataWrites.Clip | scripts/common/metadata_observer.py:159-164 | short text is unchanged, long text keeps its beginning within the limit, and is only dots if the limit leaves no room for more |
| MetadataWrites.ClippedNamesCollideIff | scripts/common/metadata_observer.py:696-704 | exactly which check names share a row |
| MetadataWrites.ChecksMean | scripts/common/metadata_observer.py:685-726 | of an execution's checks the table holds those not followed by one with the same system and a colliding name, each under its execution, system and clipped name; other executions' and other names' rows remain |
| RowCountGate.ResolveThreshold | orchestration/airflow/plugins/row_count_reconciliation.py:139-146 | the point of [0, 1] nearest to the configured value, the default for text that is no number |
| RowCountGate.PercentAgainstBounds | orchestration/airflow/plugins/row_count_reconciliation.py:149-153 | comparing the fraction with the threshold is comparing counts with b(1-t) and b(1+t) |
| RowCountGate.Compare | orchestration/airflow/plugins/row_count_reconciliation.py:184-227 | warns exactly when the count left its band, blocks exactly when it is unreadable or below it |
| RowCountGate.Reconcile | orchestration/airflow/plugins/row_count_reconciliation.py:156-249 | which tables warn, which block and in which order, the reported deltas, and a candidate exactly when nothing warns or blocks |
| RowCountGate.DeltaMeans | orchestration/airflow/plugins/row_count_reconciliation.py:149-227 | what a reported delta says: when there is a change, that it is the change as a fraction of the old count, and when each status is given |
| RowCountGate.CandidateIffClean | orchestration/airflow/plugins/row_count_reconciliation.py:229-243 | there is a candidate exactly when every table stayed in its band and every owned one is readable |
| RowCountGate.OwnedBaselineIsACount | orchestration/airflow/plugins/row_count_reconciliation.py:181-260 | over any runs, an owned table's baseline is never the sentinel |
| RowCountGate.SaveBaselineCandidate | orchestration/airflow/plugins/row_count_reconciliation.py:252-260 | saves exactly when there is a candidate that is not empty, and then the candidate |
| RowCountGate.OnlyCleanPublishedRunsMove | orchestration/airflow/plugins/row_count_reconciliation.py:229-260 | over any history the baseline moves only where nothing warned, nothing was blocked and the publish followed, and then to what was counted |
| RowCountGate.SavedCountIsClose | orchestration/airflow/plugins/row_count_reconciliation.py:181-243 | a count saved for an owned table is readable and within the threshold of the old one |
| RowCountGate.DriftIsBounded | orchestration/airflow/plugins/row_count_reconciliation.py:149-260 | after m moves an owned table lies between b(1-t)^m and b(1+t)^m and stays positive |
| RowCountGate.StaysPositiveIff | orchestration/airflow/plugins/row_count_reconciliation.py:139-260 | an owned table with a positive count keeps a positive baseline over every history if and only if the threshold is below one |
| RowCountGate.ZeroIsNeverCompared | orchestration/airflow/plugins/row_count_reconciliation.py:149-153 | a baseline of zero is never compared, warned about or blocked on again |
| RowCountGate.SentinelReachesTablesNotOwned | orchestration/airflow/plugins/row_count_reconciliation.py:193-196 | for a table not owned, an unreadable count is saved exactly when the rest of the run is clean |
| PosMoney.HalfUp | ingestion/batch/generate_pos_parquet.py:101-102 | the nearest cent, halves up |
| PosMoney.NearestIff | ingestion/batch/generate_pos_parquet.py:101-102 | exactly one number is nearest with halves up, the one the rounding gives |
| PosMoney.NetBounds | ingestion/batch/generate_pos_parquet.py:86-88 | the rounded net is more than 0.8 gross less half a cent, and at most gross |
| PosMoney.CostBelowPrice | ingestion/kafka/sim_entities.py:63-75 | rounding adds at most half a cent to three quarters of the price |
| PosMoney.MarginIsPositive | ingestion/batch/generate_pos_parquet.py:80-98 | every line of a catalog product keeps 0.79 gross <= net <= gross and earns a positive margin |
| PosMoney.MarginIsPositiveIff | ingestion/kafka/sim_entities.py:48-53 | every draw at every price from a floor on earns a positive margin if and only if the floor is at least 19 cents |
| PosMoney.GenerateRows | ingestion/batch/generate_pos_parquet.py:120-142 | the nested loops list every transaction's lines in turn |
| PosMoney.LineMeans | ingestion/batch/generate_pos_parquet.py:80-98 | where each line stands in the output, its key, and its money: gross is price times quantity, net the nearest cent to the discounted gross, margin the net less unit cost times quantity |
| PosMoney.CatalogMeans | ingestion/kafka/sim_entities.py:63-75 | a unit cost is the nearest cent to price times rate |
| PosMoney.LinesAreContiguous | ingestion/batch/generate_pos_parquet.py:132-142 | a transaction's line numbers are exactly 1 to its number of lines |
| PosMoney.LinesAreUnique | ingestion/batch/generate_pos_parquet.py:132-142 | no two lines share transaction and line number |

## Left out

- IdentityRules.CustomerKey: MD5 is a function parameter, so nothing is said about keys of different nodes colliding.
- IdentityGraph.BuildEdges: event times are integers, and the text they are written as is not modelled.
- SparkIdentity.SparkAgrees: the job's `computed_at` column and Spark's `trim`, which removes spaces only, are not modelled; the parity is for normalised identifiers and the same vertex set.
- WapMachine.BehaviorKeepsInv: a build writes only its own pending tables and the audit is any predicate on them; the dbt models behind both are not part of this model.
- Warehouse.Connection.Execute: of schemas only their creation is recorded, and statements do not need one; the order of rows in a table carries no meaning.
- CanonicalEvents.OneLabelPerCopy: the payload hash that tells a retry from a conflict is compared as equality of the typed fields, that is, SHA-256 is taken to be injective there; as an ordering key it is any function.
- CanonicalEvents.CanonicalRowsIgnoreOrder: one direction only; a differing tie whose record loses the event order changes the duplicate audit but not the canonical rows.
- InventoryHourly.FlinkIsSparkPlusStrays: no row is dropped as late; watermarks and checkpoints are not modelled. What Flink's JSON format makes of a payload, the 1970 fallback included, is any function of the payload.
- InventoryHourly.LayersReconcileIff: aggregates may look at the event id; in a sum over quantities alone two winners that are both counted wrongly can cancel.
- EventTime.SameSecondIff: the local part of the text is a full date and time in the extended form; shorter or basic forms, which Flink turns into 1970, are not modelled; nor are zones other than `Z` and a signed offset of one to three two-digit parts with an optional fraction.
- EventContract.ParseInvertsAsDict: JSON and UTF-8 decoding, duplicate keys, the clickstream branch, and digits other than ASCII in versions are not modelled.
- OffsetGaps.GapsAccountForEveryOffset: the two Kafka timestamps reported with each gap are not modelled.
- InventoryProducer.EndToEnd: the random draws are parameters, and serialisation is any encoding that is read back.
- ConsumerExports.ExportStore.Publish: the manifest write is one atomic step and files are names without contents.
- MetadataWrites.CallMeans: `finish_pipeline_run` and the freshness and volume records are not modelled, nor is reading the YAML files before the first statement.
- MetadataWrites.MetadataWriter.WithRetries: the waits between attempts are not modelled.
- RowCountGate.Reconcile: fractions are reals, so rounding at the edge of the band is not modelled; nor is a threshold configured as `nan`, which the clamp turns into one. The immediate save inside the reconciliation is taken as a publish that follows at once.
- PosMoney.LinesAreUnique: UUIDv5 is taken to give distinct transactions distinct ids.
- Airflow wiring, `require_publish_succeeded`, `_qmark_to_pyformat`, alerts and configuration are not modelled.
- The price restatement, topic creation, dbt selectors, lake names and dashboards are not modelled, and neither is the SQL of the dbt models.
