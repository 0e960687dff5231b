# Change replay, verified

A Dafny model of the replication core that moves committed source transactions to a target PostgreSQL
database: the durable segment log, the reader that follows it, the planner that spreads transactions over
parallel lanes, the claims and receipts that make replay restartable, and the encodings and statements in
between. `dafny verify dfyconfig.toml` checks everything.

## What is modelled

- **Target** (`Target.dfy`, `Catalog.dfy`, `Dependence.dfy`). A database is a map from relation OID to a map
  from primary key to row. A change on a relation whose rows may be sharded does what the statement issued for
  it does: INSERT, upsert on the primary key, column-wise UPDATE with unchanged TOAST values, UPDATE that moves
  the key, DELETE by key or by replica identity. `None` is the divergence that stops replay. What a change to
  any other relation does is a parameter, `Semantics`, so every result holds whatever triggers, constraints or
  missing keys make of it.
- **Planner** (`RowKeys`, `DisjointSets`, `Components`, `Planner`, `PlanBuilder`, `PlanShape`, `PlanTotals`,
  `PlanMeaning`). Batches are cut
  into serial barriers and epochs; transactions of an epoch that share a dependency key, directly or through
  others, form a component, and a component goes to the lane its keys hash to. The union-find arrays, the maps
  and the plan are built in place and proved equal to specification functions.
- **Execution** (`LaneRewrite`, `LaneExecution`, `Serializability`, `Execution`, `MixedKeys`, `KeyMoveDivergence`,
  `PlanChecks`, `PlanPasses`). Lanes drop superseded updates, regroup changes by relation, cut them into set
  statements and commit in any order. The result is the target of source-order replay.
- **Claims** (`Claims`, `Schedule`, `ExactlyOnce`, `Protocol`, `Fencing`, `Completion`, `Acceptance`, `LostProgress`,
  `ReplayTarget`). Every target
  transaction is one atomic step of a state machine that any number of current and stale appliers drive; a
  crash only forgets the memory of an applier.
- **Durable log** (`Frames`, `SegmentRecovery`, `SegmentWriter`, `Persister`, `Capture`, `LogCapture`, `Following`,
  `FollowedLog`, `FollowedRuns`, `SkippedSegment`, `SegmentReader`, `Pruning`). Frames are bytes; a crash may leave
  any bytes behind the last fsync. Writer, persister and reader are classes; the protocols they take part in are
  state machines, and `LogCapture` shows that the classes carry theirs out.
- **Encodings** (`Codec`, `TransactionCodec`, `PayloadFormat`, `PayloadWriter`, `PayloadReader`, `PayloadBytes`, `Spilling`,
  `TextCopy`, `ArrayLiterals`, `Decimals`, `TupleKeys`).
- **Statements** (`Upserts`, `SetDml`, `UpdateDml`, `UpdateRuns`, `SelectiveUpdates`, `SetStatements`, `LegacyUpdates`,
  `Statements`, `MovedTwice`). A run of changes to one relation becomes multi-row inserts, upserts, joined deletes,
  `UPDATE ... FROM`, and updates that first look at their rows and then set what differs; what each does to the
  table at once is compared with its changes one by one.
- **Regrouping and the rest** (`RelationBatching`, `BatchExecution`, `StatementCache`, `PreparedPipeline`, `CopyPlan`,
  `Reservoir`, `Sampler`).

## What is assumed

Each assumption is a hypothesis of the theorems that need it, by the name given here.

- Replaying the source history in order succeeds (`Run(...).Some?`). A failing change then fails in a plan only if
  it fails in order (`ParallelStepSerializable`).
- pgoutput puts values into an old tuple only for replica-identity columns (`SourceOk`).
- Changes of an epoch that meet in a row are joined by keys (`OverlapsJoined`, `BatchOverlapsJoined`,
  `UniformlyKeyed`). This is exactly what lane order needs (`ConflictsOrderedIffJoined`); that every relation is
  keyed only by row or only by table is enough (`KeyedOneWay`, `OneWayIsJoined`).
- Tables obey their primary keys and NOT NULL columns where set statements start (`StoredThroughout`, `TablesOk`,
  `StoredAlong`).
- A relation whose rows may run in different lanes may run in one (`CatalogOk`; the catalog query selects the
  first kind among the second).
- The digests of dependency keys and components come from arbitrary functions (`Hashes`): rows that collide only
  share a lane. The digests of receipts, claims and fences are represented by what they digest, that is, SHA-256
  is taken to be injective there.
- Equality of column values is an arbitrary relation for which the binary forms of the twelve key types and the text
  forms of seven of them are canonical (`Canonical`), and the key columns of a relation arrive in one form
  (`SameForms`).
- CRC-32C is an arbitrary function of the payload; a damaged frame that keeps its checksum reads as a frame.
- Source LSNs grow as the replication protocol says (`SourceOrdered`).

## Findings

Places where the code does less than one might expect, each with the exact condition under which it does meet
the property.

- **Row keys and table keys of one relation.** An update that cannot be sharded, such as one that moves a primary
  key, gets the key of its table, while other changes get keys of rows, and only equal keys join a component
  (internal/cdc/replay_plan.go:554-561, 293-305). `MixedKeysDiverge` is an epoch of two transactions, one
  rewriting row 2 and one moving it, and an order in which their lanes both commit, leaving another target than
  source order does.
  Condition: lanes keep all conflicts in source order, for every hash and lane count, if and only if changes
  that meet in a row are joined by a chain of shared keys (`ConflictsOrderedIffJoined`).
- **A refresh out of turn.** `Refresh` keeps the index when no file is open and entries are left, although pruning
  may have shortened the listing (internal/cdc/reader.go:282-329). `RefreshOutOfTurnSkips` is a run from a new
  reader in which a second refresh, without a call of `Next` after the first, makes it skip a durable
  transaction. Condition: a refresh keeps the reader's place if and only if it does not take that branch or the
  new listing still names, at the index, the segment the reader stands at (`RefreshKeepsPlaceIff`). A caller that
  calls `Next` after every refresh never meets it (`ReturnedExactly`).
- **Resuming the COPY of a table with one key.** A table split by key whose smallest and largest key are equal is
  saved as one key range and replanned as one whole-table part, so its saved progress is not recognised
  (internal/app/clone_resume.go:119-140). `SingleKeyIsNotRecovered` is such a table. Condition: the saved plan is
  recovered if and only if it is not (split, by key, with equal bounds) (`RecoveryIffKeysDiffer`).
- **A dropped sample.** Dropping a sample gives its slot back by lowering the count of filled slots, also when the
  sample had replaced the last slot of a full reservoir (internal/app/cdcsampler.go:206-218). Condition: the count
  is restored if and only if it had not (`DropRestoresCountIff`); after such a drop the next change is kept with
  certainty (`DropFavoursNext`). With nothing dropped, every set of changes is equally likely to be held.
- **A flush between choosing a slot and buffering the sample.** The stored counter describes the stored rows at
  that moment if and only if the slot replaces a row (`WriteMidObserve`).
- **Invalidating prepared statements.** After an abort the cache forgets its statements while the session keeps
  them (internal/cdc/applier.go:2815-2837): `SurvivorsOutliveInvalidation` is a run of three events that ends with a
  statement no cache entry names. Condition, for every run and every later state without failure and with nothing
  unsent: the session holds only statements of the cache if and only if it held none when the cache was last
  invalidated (`HoldsOnlyCachedIff`). What survives an invalidation stays for good (`SurvivorsStay`), and at every
  message the statements prepared since the last one are at most the capacity (`NamesNeverRefused`).
- **A row moved twice.** Consecutive updates of different rows with the same columns are sent together, told apart
  by the identity each starts from (internal/cdc/applier.go:3582-3651). If one moves a row to key 2 and a later one
  moves it on to key 3, the look at the rows that precedes selective updates finds no row with key 2, and replay
  stops where source order succeeds (`RowMovedTwice`). Condition: a statement does what its changes do in order if
  and only if none of its updates starts from the identity an earlier one arrives at; if one does and the changes
  succeed in order, the statement fails (`StatementMatchesIff`). For whole plans: executing the statements leaves
  the target of source order if and only if this holds of all of them, and otherwise the plan stops and never leaves
  another target (`StatementsSerializable`). It always holds where every identity column is in a unique index and
  rows are not looked at first, because updates that set such a column are then sent alone (`KeptQueue`).
- **A primary key outside the replica identity.** A complete update without an old tuple is sent as an upsert even if
  the replica identity is another index, under which the primary key may have changed
  (internal/cdc/applier.go:3237-3268). `RenumberedTwice` is such an update: the UPDATE would move the row, the upsert
  leaves it and adds a second one, unless another unique index refuses it. Condition: where the UPDATE succeeds, the
  upsert leaves the same table if and only if the row the UPDATE finds is the one stored under the new primary key
  (`UpsertIsUpdateIff`); it always is if the replica identity contains the primary key (`UpsertIsUpdate`).
- **A lost progress row and an applier at the start.** Deleting the progress row of a stream stops every applier that
  starts (internal/cdc/progress_identity.go:249-252), but progress is published from position 0 without asking
  whether the stream had started (progress_identity.go:44-62). Condition: after the loss no source transaction runs a
  second time and nothing is written but works of the active claim without a receipt, if the appliers still running
  know a position beyond the start (`LostProgressStops`); a batch from the very start under the effective
  generation is accepted if and only if its changes succeed on top of what is there (`RestartRepeatsIff`).
- **Two upserts of one row in one statement** fail where the same upserts in order succeed. Condition: one statement
  equals its changes in order if and only if no row comes twice or some row cannot be inserted at all
  (`UpsertsMatchIff`); the chunking only builds such statements (`UpdateStatements`).
- **A relation object that comes back.** Regrouping a batch would run a change too early if a relation went back to
  an earlier object (`ReturningInstanceReorders`); the cache never does (`CacheAdvances`).

## Model

| member | source | states |
|---|---|---|
| Execution.ReplaySerializable | README.md:748-756 | For every batch whose source-order replay succeeds, every lane count and hash function, and every order in which whole lanes of a step commit, the executed plan (rewritten lanes included) leaves exactly the target of replaying all source transactions in order; provided changes keyed by row and by table that meet in a row are in one component (`PlanOverlapsJoined`) |
| Execution.BatchSerializable | internal/cdc/replay_execute.go:66-143 | The same theorem about a batch alone: no tiling of its plan has to be given |
| LaneExecution.StatementsSerializable | internal/cdc/replay_execute.go:66-143 | The theorem for the SQL really sent: each lane coalesced, regrouped by relation and cut into multi-row inserts, upserts, deletes and updates, in every commit order of the lanes, leaves exactly the target of source-order replay if and only if no update of a statement starts from where an earlier one of it has moved its row; if one does, the plan stops |
| LaneExecution.LaneExecuted | internal/cdc/replay_execute.go:399-427 | Executing the set statements of a lane is replaying the rewritten lane change by change, failures included, if they are unchained; if not, it fails unless that replay fails too |
| LaneExecution.StatementsPreserveLane | internal/cdc/replay_execute.go:399-511 | A lane that replays in source order leaves that outcome when executed as its statements if and only if they are unchained, and otherwise fails |
| LaneExecution.WorkExecuted | internal/cdc/replay_claim.go:580-641 | The effect of a parallel work in the claim protocol is the execution of the statements of its lane, or these fail and the work does not commit |
| LaneExecution.KeptQueue | internal/cdc/applier.go:4243-4250 | Where every identity column is in a unique index and rows are not looked at first, all statements of a lane are unchained |
| LaneExecution.QueueLane | internal/cdc/replay_execute.go:399-427 | The imperative queueing cuts every lane into such statements; a lane refused beforehand has a change whose key is malformed or a relation whose changes fail one by one as well |
| LaneExecution.QueueRelation | internal/cdc/applier.go:1011-1023 | The same for one relation of a lane; if it is refused, the changes of the relation fail on every table that obeys its constraints |
| Execution.ParallelStepSerializable | internal/cdc/replay_execute.go:66-143 | One parallel step alone, failures included: any commit order of its lanes gives the outcome of source order, and some lane fails only if source-order replay of the step fails |
| Execution.StepSerializable | internal/cdc/replay_execute.go:66-143 | The same for a step as it is really sent, with superseded updates dropped and relations regrouped |
| Serializability.UnconnectedIndependent | internal/cdc/replay_plan.go:261-305 | Changes of transactions in different components neither read nor write a common row, so they commute |
| Serializability.SameKeyConnected | internal/cdc/replay_plan.go:293-305 | Changes with the same dependency key are always in one component |
| MixedKeys.ConflictsOrderedIffJoined | internal/cdc/replay_plan.go:554-561 | Exactly when lanes keep all conflicts in source order, whatever the component hash and lane count: if and only if row-keyed and table-keyed changes that meet in a row are joined by a chain of shared keys |
| MixedKeys.ShardableIsJoined | internal/cdc/replay_plan.go:612-646 | A condition checkable before planning that is enough: no update or delete of a row-sharded relation takes the table-key branch |
| MixedKeys.OneWaySerializable | internal/cdc/replay_plan.go:612-646 | If every relation of an epoch is keyed only by row or only by table, the plan is serializable: the hypothesis in the form a caller can check |
| MixedKeys.OneWayIsJoined | internal/cdc/replay_plan.go:554-561 | That condition implies the exact one |
| KeyMoveDivergence.MixedKeysDiverge | internal/cdc/replay_plan.go:554-561 | A two-transaction epoch (rewrite row 2, then move it to key 3) with a component hash and a commit order of the lanes that succeeds and leaves another target than source order: the hypothesis of the serializability theorem cannot be dropped |
| Dependence.IndependentCommute | README.md:748-756 | Changes with disjoint footprints commute on every database, and fail together or not at all |
| Dependence.FootprintConfines | internal/cdc/applier.go:3226-3263 | What a row-keyed change does to its table depends on and alters only the rows of its footprint, for inserts, upserts, column-wise updates, key moves and deletes |
| Dependence.Merge | internal/cdc/replay_execute.go:66-143 | Running one selection of a batch and then another equals source order when nothing overtaken is depended on |
| Dependence.GroupingPreservesRun | internal/cdc/replay_execute.go:66-143 | Running whole groups of independent changes in any order of the groups equals source order |
| Target.LookupIsScan | internal/cdc/applier.go:5167-5193 | On a valid table the primary-key lookup selects what scanning every row with the identity predicate would |
| Target.SqlStepKeepsTableValid | internal/cdc/applier.go:4723-4774 | Every statement leaves each row stored under its own primary key |
| Catalog.CheckKeyDatums | internal/cdc/replay_plan.go:562-587 | The loop accepts exactly the keys whose datums are present, in a form taken for keys, and can be bound; the first fault in key order decides |
| Catalog.PrimaryKeyInOrder | internal/cdc/applier.go:3274-3284 | The columns of a primary key come in the order of the key |
| RowKeys.KeyFormIffIdentifies | internal/cdc/replay_plan.go:675-702 | A captured form is taken for keys if and only if equal values of the type have one such form, whatever else equality of values may be: binary for twelve types, text for seven of them |
| RowKeys.EqualValuesEqualKeysIff | internal/cdc/replay_plan.go:562-587 | Changes with row keys of one relation whose primary keys hold equal values have the same dependency key if and only if every key column was captured in the same form |
| RowKeys.EqualValuesOneLane | internal/cdc/replay_plan.go:293-344 | So changes of an epoch to one row, captured in one form, are in one lane, for every hash and lane count |
| RowKeys.RowKeyIff | internal/cdc/replay_plan.go:495-587 | Exactly when a change gets a row key: the relation is sharded by row, its key columns are safe, and the change begins and ends in one row whose key is canonical and can be bound |
| RowKeys.TableKeyIff | internal/cdc/replay_plan.go:554-561 | Exactly when it gets the key of its table |
| RowKeys.ShardableIff | internal/cdc/replay_plan.go:612-646 | An update may be sharded exactly if its primary key is present and the same before and after |
| RowKeys.CoalesceKeyIff | internal/cdc/replay_execute.go:481-511 | Coalescing takes a change for one of a row exactly if it is confined to it |
| Planner.LaneSafeMeaning | internal/cdc/replay_plan.go:155-190 | A transaction is lane safe exactly when every change has a dependency key, and the first broken change decides between barrier and error |
| DisjointSets.Find | internal/cdc/replay_plan.go:273-279 | Path-compressing find terminates at the root of its class and changes no class |
| DisjointSets.Union | internal/cdc/replay_plan.go:280-292 | Union by rank joins exactly the two classes and keeps the forest well formed |
| DisjointSets.RankFitsByte | internal/cdc/replay_plan.go:262-292 | A byte-sized rank never overflows: a rank of e needs 2^e elements |
| Components.UnionSharedKeys | internal/cdc/replay_plan.go:293-305 | After the pass two transactions have one root if and only if a chain of shared keys connects them |
| Components.AssignLanes | internal/cdc/replay_plan.go:307-328 | Every component, visited in any order, gets the lane that its own keys determine |
| Components.Distribute | internal/cdc/replay_plan.go:329-344 | The lanes receive each transaction of the epoch once, in source order, in the lane of its component |
| Components.ComponentLanes | internal/cdc/replay_plan.go:307-344 | The lanes computed in place are `LaneOf` of every transaction, in source order, whatever the map order and the union roots |
| Components.LaneDependsOnlyOnKeys | internal/cdc/replay_plan.go:307-328 | A component with the same set of keys gets the same lane in any epoch |
| Components.ComponentPreimage | internal/cdc/replay_plan.go:307-322 | What is hashed for a component is its distinct keys in ascending order |
| PlanBuilder.BuildReplayPlan | internal/cdc/replay_plan.go:75-254 | The single pass with its in-place epoch computes `PlanOf`, a function of the batch, lane count and hashes alone, and fails exactly when `Plannable` is false |
| PlanBuilder.ScanTransaction | internal/cdc/replay_plan.go:155-179 | The per-transaction scan stops at the first unsafe or broken change with the result the whole scan has |
| PlanBuilder.FlushParallel | internal/cdc/replay_plan.go:106-134 | Closing an epoch adds one step whose lanes are the non-empty lanes of the epoch, and their receipts in lane order |
| PlanBuilder.DefinitionsChange | internal/cdc/replay_plan.go:139-153 | A transaction ends the epoch exactly when a relation it names last has another definition than the epoch holds |
| PlanBuilder.RecordDefinitions | internal/cdc/replay_plan.go:205-208 | The epoch remembers the last definition of every relation a transaction names |
| PlanBuilder.PlanTransactionAt | internal/cdc/replay_plan.go:136-209 | One turn of the pass: a barrier, a flush and a new epoch, or one more transaction of the epoch |
| PlanShape.PlanTiles | internal/cdc/replay_plan.go:92-254 | The steps of every plan tile the batch into barriers and epochs without gap or overlap |
| PlanMeaning.PlanDecides | internal/cdc/replay_plan.go:106-219 | In every plan exactly the barriers run alone (spilled transactions, those that define a relation anew, those with a change without a key), two epochs never stand side by side, and the plan is for a claim if and only if some epoch has more than one lane |
| PlanTotals.PlanCountsEverything | internal/cdc/replay_plan.go:214-231 | The receipts of every plan count each source transaction and each change exactly once, so the closing totals check never fails |
| Schedule.PlanSchedules | internal/cdc/replay_claim.go:580-641 | The works of every plan form a schedule: every change belongs to one work, and works whose changes depend on each other are ordered by step |
| LaneRewrite.CoalesceReplayLaneUpdates | internal/cdc/replay_execute.go:435-479 | The keep and latest loop keeps, in order, exactly the positions that are not dropped: a complete update is dropped if and only if a later complete update of the same row follows with nothing but changes of other rows between them; fails exactly if some key cannot be formed |
| LaneRewrite.CoalescedKeeps | internal/cdc/replay_execute.go:435-479 | The same of the specification, by positions |
| LaneRewrite.FirstSeenInOrder | internal/cdc/replay_execute.go:399-427 | Relations of a lane are sent in the order of their first change |
| LaneRewrite.QueueParallelReplayLane | internal/cdc/replay_execute.go:399-427 | The queued lane is `Rewritten`: coalesced, then grouped by first-seen relation; it is refused exactly when some key cannot be formed |
| LaneRewrite.CollectRelations | internal/cdc/replay_execute.go:411-424 | One lane per relation, in first-seen order, each with its changes in source order |
| LaneRewrite.CoalescingPreservesRun | internal/cdc/replay_execute.go:435-511 | Dropping superseded updates preserves the outcome of every lane that replays, for all mixes of inserts, deletes, partial updates and key moves |
| LaneRewrite.RewritingPreservesRun | internal/cdc/replay_execute.go:399-511 | The rewritten lane leaves the target exactly as the source order of the lane |
| PlanChecks.ValidateReplayPlanLane | internal/cdc/replay_execute.go:254-289 | Accepts a lane exactly when it lists its transactions in increasing order, none spilled, with exactly their changes |
| PlanChecks.CheckTransaction | internal/cdc/replay_execute.go:254-289 | Whether the items at a place are exactly the changes of one transaction |
| PlanChecks.ScanLanes | internal/cdc/replay_execute.go:291-343 | Accepts the lanes of a step exactly when they list different transactions, none of them bound before |
| PlanChecks.CheckParallel | internal/cdc/replay_execute.go:291-343 | The lanes of an accepted step cover an interval that begins where the steps before it end; every such step is accepted |
| PlanChecks.ValidateReplayPlanExecution | internal/cdc/replay_execute.go:291-343 | Accepts a plan exactly when its steps bind every transaction once, in source order up to order inside a step, and the receipts count the batch |
| PlanPasses.PlanPassesChecks | internal/cdc/replay_execute.go:254-343 | Every plan the planner builds passes the execution check and the check of each of its lanes |
| PlanPasses.LaneItemsAreCovered | internal/cdc/replay_plan.go:716-760 | The changes sent for a lane are exactly those its receipt binds |
| Protocol.ExactlyOnceAlways | internal/cdc/replay_claim.go:580-641 | In every state reachable by any interleaving of any number of current and stale appliers, with crashes anywhere, the store satisfies the exactly-once invariant |
| Protocol.NextKeeps | internal/cdc/replay_claim.go:324-481 | One submitted target transaction of any kind keeps the invariant and never moves the position back |
| Protocol.WorkCommits | internal/cdc/replay_claim.go:580-641 | An uncommitted work whose earlier steps are done always commits and adds exactly its changes |
| Protocol.ClaimBlocksProgress | internal/cdc/replay_claim.go:464-476 | While a claim is active no progress write of any generation is accepted |
| Acceptance.AcceptedIff | internal/cdc/progress_identity.go:24-75 | In every reachable state, whoever submits it, each of the six target transactions is accepted if and only if it carries the effective generation and the committed position or belongs to the active claim and is next |
| Acceptance.StandaloneAdvances | internal/cdc/progress_identity.go:24-75 | From every reachable state without a claim, standing at any source position, a batch of the next transactions commits: data, position and counters are those of the prefix through its end |
| Acceptance.GroupCommits | internal/cdc/replay_execute.go:166-252 | Every contiguous run of serial works that is ready commits and leaves a receipt for each |
| Acceptance.StreamOpensIff | internal/cdc/progress_identity.go:98-254 | A stream is opened if and only if base name, started flag, progress generation, claim, copied data and fresh setup fit, for every content of the rows, and then only its identity changes |
| LostProgress.LostProgressStops | internal/cdc/progress_identity.go:239-254 | After the progress row of any reachable state is lost, no applier can start and no source transaction runs a second time: without a claim nothing changes, with one only works without a receipt commit, whatever appliers beyond the start submit |
| LostProgress.RestartRepeatsIff | internal/cdc/progress_identity.go:24-75 | A batch from the very start of the source is then accepted exactly if its changes succeed on top of everything replayed before: the condition on running appliers is needed |
| Fencing.IdleTargetIsSourcePrefix | internal/cdc/progress_identity.go:25-77 | Without an active claim the data is exactly the source prefix through the progress LSN, and the transaction and row counters are the totals of that prefix |
| Fencing.ActiveTargetIsPrefixPlusReceipts | internal/cdc/replay_claim.go:769-788 | With an active claim the data is the prefix before it plus exactly the changes of the works with a receipt |
| Fencing.ProgressNeverMovesBack | internal/cdc/progress_identity.go:25-77 | The progress LSN of any run never decreases |
| Fencing.GenerationsNeverRepeat | internal/cdc/replay_claim.go:464-476 | An effective generation that has been replaced never becomes effective again |
| Fencing.OtherGenerationChangesNothing | internal/cdc/progress_identity.go:25-77 | A transaction carrying any generation but the effective one changes nothing at all |
| Fencing.SupersededCannotWrite | internal/cdc/replay_claim.go:769-788 | Whatever an applier superseded at some moment submits later changes nothing |
| Fencing.FinalizedClaimNeverReturns | internal/cdc/replay_claim.go:803-894 | A finalized claim is never active again, so none of its works can commit twice |
| Fencing.ActiveClaimExcludesOthers | internal/cdc/replay_claim.go:464-476 | While a claim is active only its own works and its finalization change data, progress, claim or receipts |
| Fencing.WrongPositionChangesNothing | internal/cdc/progress_identity.go:44-57 | A transaction built on any other position than the committed one changes nothing |
| Completion.BuiltManifestValid | internal/cdc/replay_claim.go:531-578 | Every claim built from a plan passes the manifest validation |
| Completion.IdleAcceptsClaim | internal/cdc/replay_claim.go:324-481 | An idle target accepts the claim of the next source transactions under its own generation |
| Completion.ResumeRebuildsClaim | internal/cdc/applier.go:802-843 | An applier without memory rebuilds the active claim identically from the stored start generation, lane count and positions; the target accepts it and rejects every other |
| Completion.ClaimCanAlwaysFinish | internal/cdc/replay_claim.go:803-894 | From every reachable state with an active claim further transactions exist that finish it with the target at its end |
| ReplayTarget.ValidateManifest | internal/cdc/replay_claim.go:531-578 | The single pass accepts exactly the valid manifests |
| ReplayTarget.StreamRows.constructor | internal/cdc/progress_identity.go:98-130 | A stream starts without identity, progress, claim and receipts |
| ReplayTarget.StreamRows.EnsureReplayClaim | internal/cdc/replay_claim.go:324-481 | Updates the durable rows as the claim step of the protocol says, or leaves every one unchanged |
| ReplayTarget.StreamRows.CommitWork | internal/cdc/replay_claim.go:580-641 | One work commits its data and receipt together, or nothing |
| ReplayTarget.StreamRows.CommitSerialGroup | internal/cdc/replay_claim.go:650-767 | A contiguous serial run commits all missing works and receipts together, or nothing |
| ReplayTarget.StreamRows.FinalizeReplayClaim | internal/cdc/replay_claim.go:803-894 | Progress moves to the end of the claim exactly when every work has its receipt |
| ReplayTarget.StreamRows.PublishProgress | internal/cdc/progress_identity.go:25-77 | Compare-and-set of progress under the effective generation |
| ReplayTarget.StreamRows.EnsureIdentity | internal/cdc/progress_identity.go:98-254 | Creates or validates the identity row; a lost progress row of a started stream is refused |
| ReplayTarget.StreamRows.PriorWorkDone | internal/cdc/replay_claim.go:580-641 | No work of an earlier step lacks its receipt |
| Frames.ScanFile | internal/cdc/segment.go:910-1052 | The scanning loop returns the accepted frames, the valid size and the last LSNs that the specification `Scan` gives, for arbitrary bytes |
| Frames.FrameReadBack | internal/cdc/segment.go:329-347 | A written frame is read back whatever follows it |
| Frames.TornFrameRejected | internal/cdc/segment.go:910-1052 | A frame cut anywhere before its end is never accepted |
| Frames.PlaceholderRejected | internal/cdc/segment.go:349-383 | The zero header reserved by a streamed append is never accepted |
| Frames.ScanGrowing | internal/cdc/segment.go:1000-1040 | LSNs strictly increase across everything a scan accepts |
| Frames.LogReadBack | internal/cdc/segment.go:275-327 | Scanning what was appended reads exactly what was appended |
| Frames.TornLogKeepsCompleteFrames | internal/cdc/segment.go:910-1052 | If the tail is a byte prefix of what was appended the scan keeps exactly the complete frames |
| Frames.InterruptedStreamKeepsLog | internal/cdc/segment.go:349-388 | A streamed append interrupted before its header is final leaves exactly the earlier frames |
| Frames.CleanIffLog | internal/cdc/segment.go:910-1052 | A file scans cleanly if and only if it is the log of an appendable sequence of payloads |
| SegmentRecovery.IndependentScan | internal/cdc/segment.go:611-731 | Scanning a segment alone and comparing its first frame decides what scanning it in place would |
| SegmentRecovery.StitchSegments | internal/cdc/segment.go:680-731 | Stitching independently scanned segments accepts the same directories, with the same result, as one sequential scan |
| SegmentRecovery.RecoverDirectory | internal/cdc/segment.go:611-731 | Recovery with workers finishing in any order equals the sequential recovery |
| SegmentRecovery.RecoveryIdempotent | internal/cdc/segment.go:597-731 | Recovering a recovered directory changes nothing |
| SegmentRecovery.RecoveredGrowing | internal/cdc/segment.go:611-731 | LSNs of a recovered log strictly increase and the reported LSN is the last of them |
| SegmentRecovery.DurableFramesSurvive | internal/cdc/segment.go:611-731 | Whatever bytes follow the fsynced offset, every fsynced transaction survives as a prefix |
| SegmentWriter.Writer.constructor | internal/cdc/segment.go:191-254 | A writer on an empty directory has an empty log |
| SegmentWriter.Writer.Reopen | internal/cdc/segment.go:191-254 | A writer on a recovered directory continues exactly behind what recovery kept |
| SegmentWriter.Writer.AppendFrame | internal/cdc/segment.go:275-327 | The log gains exactly the payload, or nothing; it is refused exactly when LSNs do not follow, the writer is closed or the disk fails |
| SegmentWriter.Writer.WriteFrame | internal/cdc/segment.go:329-347 | A frame is in the log, with all positions, exactly if it could be written |
| SegmentWriter.CleanDirectoryKeepsAll | internal/cdc/segment.go:611-731 | Without a partial tail recovery finds everything, and a writer reopens on it |
| SegmentWriter.Writer.SyncLocked | internal/cdc/segment.go:423-432 | After a successful sync everything appended is durable |
| SegmentWriter.Writer.Sync | internal/cdc/segment.go:411-421 | Reports the durable end, raised only by a successful fsync |
| SegmentWriter.Writer.RotateLocked | internal/cdc/segment.go:462-501 | Rotation keeps the log and its range follows the cataloged ones, so the catalog never refuses it |
| SegmentWriter.CrashKeepsDurable | internal/cdc/segment.go:611-731 | After a crash at any point with arbitrary bytes behind the durable ones, recovery finds every durable transaction in order |
| SegmentWriter.TornCrashKeepsPrefix | internal/cdc/segment.go:611-731 | If the crash only cut the tail short, recovery finds a prefix of what was appended, no shorter than what was durable, on which a writer reopens |
| LogCapture.CapturedLog | internal/cdc/persister.go:43-108 | Whatever persister, writer and crashes have done, the appended log is the source stream from where capture was asked to start, without gap or duplicate, and what is published is durable |
| LogCapture.ReceiveNext | internal/cdc/persister.go:60-100 | One transaction of the channel through the real persister and writer is a run of the protocol's events; an empty segment left by a failed write never refuses the next transaction |
| LogCapture.SyncNext | internal/cdc/persister.go:43-58 | A timed sync is the protocol's sync or nothing |
| LogCapture.CrashReached | internal/cdc/segment.go:611-731 | A crash that cuts the tail anywhere behind its durable frames, recovery and a new writer are the protocol's restart |
| LogCapture.CleanCrashReached | internal/cdc/segment.go:191-254 | A crash between two segments loses nothing |
| Capture.GaplessLog | internal/cdc/persister.go:43-108 | Over every run of sessions, failures and restarts the log is a contiguous duplicate-free piece of the source, the watermark never exceeds what is durable, and the server never confirms past the watermark |
| Capture.WatermarkMonotone | internal/cdc/receiver.go:32-42 | The watermark never moves back, not even across crashes |
| Capture.ResumeAfterEnd | internal/cdc/receiver.go:283-288 | Resuming at the end of a transaction starts with the next one, or repeats it if it ends where it commits |
| Capture.PersistKeeps | internal/cdc/persister.go:43-108 | The persister never refuses a delivered transaction, and what it appends continues the log |
| Persister.TransactionPersister.Receive | internal/cdc/persister.go:60-100 | A replayed transaction is dropped; a new one is appended and its frame counted, and once the counted bytes reach the threshold everything is synced and published; what a crash may cost never exceeds the count |
| Persister.TransactionPersister.SyncPending | internal/cdc/persister.go:43-108 | Group sync publishes exactly what became durable |
| Persister.TransactionPersister.Publish | internal/cdc/receiver.go:32-42 | A lower position is ignored |
| FollowedRuns.ReturnedExactly | internal/cdc/reader.go:75-141 | Under every interleaving of append, sync, rotate, prune, refresh and reading, the reader has returned each durable wanted transaction once, in order, never before it is durable and none missing up to where it stands |
| FollowedRuns.NeverStuck | internal/cdc/reader.go:282-329 | Whenever a durable transaction is owed, at most two rounds of refresh and `Next` return one |
| FollowedRuns.NextReturns | internal/cdc/reader.go:75-141 | Every call of `Next` returns |
| FollowedRuns.UnappliedIsRetained | internal/cdc/maintenance.go:146-227 | Pruning deletes only transactions below applied progress, so the range of an active claim is always on disk |
| FollowedRuns.RefreshKeepsPlaceIff | internal/cdc/reader.go:282-329 | The exact condition under which a refresh keeps the reader in its place, on every reachable state: it does not take the last branch (no open file, entries left), or the new listing still names at the reader's index the segment it stands at |
| SkippedSegment.RefreshOutOfTurnSkips | internal/cdc/reader.go:282-329 | A run from a new reader on a valid directory in which a second refresh without a `Next` after the first, with a pruned segment between them, makes the reader skip a durable transaction it owes |
| FollowedLog.StepKeeps | internal/cdc/reader.go:75-141 | Each step of writer, pruner or reader keeps the reader where the log says it stands |
| SegmentReader.FollowingReader.constructor | internal/cdc/reader.go:34-70 | A reader starts before the first listed segment |
| SegmentReader.FollowingReader.Next | internal/cdc/reader.go:75-141 | The loop over the fields returns the next durable transaction or the end, and never finds the log out of order |
| SegmentReader.FollowingReader.TakeTurn | internal/cdc/reader.go:143-224 | One turn: open, read, skip, hold back or move on, as the state machine says |
| SegmentReader.FollowingReader.Refresh | internal/cdc/reader.go:282-329 | Replaces the listing and keeps the place, open file included |
| Pruning.Catalog.Prune | internal/cdc/maintenance.go:146-227 | Removes the oldest eligible segments, at most the bound, and keeps the newest applied one |
| Pruning.Catalog.PruneAll | internal/cdc/maintenance.go:86-134 | Batches until nothing is left to remove: exactly the applied segments but the newest are gone |
| PayloadFormat.DecodesExactlyEncodings | internal/cdc/codec.go:401-466 | A payload decodes if and only if it is the encoding of a valid transaction, and then to that transaction |
| PayloadFormat.DecodersAgree | internal/cdc/codec_stream.go:58-107 | In-memory and streaming decoder give the same answer on every byte string |
| PayloadFormat.EncodingInjective | internal/cdc/codec.go:26-59 | Different transactions never share an encoding |
| PayloadFormat.StampOfEncoding | internal/cdc/segment.go:1081-1122 | What a segment scan reads from a payload are the LSNs of the encoded transaction |
| Codec.CountCheckRedundant | internal/cdc/codec_stream.go:261-281 | The minimum-item-size check never rejects a collection that can be decoded |
| TransactionCodec.ChangeAgrees | internal/cdc/codec.go:564-597 | An encoded change takes at least the minimum size, and all decoders agree on it |
| TransactionCodec.RelationAgrees | internal/cdc/codec.go:525-562 | The same for relations |
| PayloadWriter.PayloadSize | internal/cdc/codec.go:122-155 | The announced size is the size of the encoding, and refused exactly when there is none |
| PayloadWriter.AppendTransaction | internal/cdc/codec.go:26-59 | Appends exactly the encoding, or fails exactly when there is none |
| PayloadBytes.SampleBytes | internal/cdc/codec.go:26-81 | One payload with every kind of change and datum, written out byte for byte |
| PayloadBytes.FrameHeader | internal/cdc/segment.go:336-337 | A frame is length and checksum, low bytes first, and payload |
| PayloadWriter.AppendChange | internal/cdc/codec.go:199-227 | Appends the encoding of a change |
| PayloadWriter.AppendTuple | internal/cdc/codec.go:229-257 | Appends the encoding of a tuple |
| PayloadWriter.AppendRelation | internal/cdc/codec.go:174-197 | Appends the encoding of a relation |
| PayloadWriter.AppendPrefix | internal/cdc/codec.go:61-81 | Appends everything before the changes |
| PayloadWriter.ChangeSize | internal/cdc/codec.go:259-281 | The size of an encoded change |
| PayloadWriter.TupleSize | internal/cdc/codec.go:283-309 | The size of an encoded tuple |
| PayloadWriter.RelationSize | internal/cdc/codec.go:157-172 | The size of an encoded relation |
| PayloadWriter.ChangesSize | internal/cdc/codec.go:122-155 | The sizes of the changes, refused exactly when one cannot be encoded |
| PayloadWriter.RelationsSize | internal/cdc/codec.go:122-155 | The same for relations |
| Spilling.TransactionAssembler.constructor | internal/cdc/pgoutput.go:43-81 | No change yet, nothing in the file |
| Spilling.TransactionAssembler.AddChange | internal/cdc/pgoutput.go:243-273 | Whatever the threshold, the collected changes grow by exactly the one added; they stay in memory exactly while the payload is within the threshold |
| Spilling.TransactionAssembler.RequireRelation | internal/cdc/pgoutput.go:243-260 | The first change of a relation adds its definition to the transaction, once |
| Spilling.TransactionAssembler.SpillResident | internal/cdc/pgoutput.go:275-289 | Moving resident changes to the file keeps them and their order |
| Spilling.TransactionAssembler.AppendToFile | internal/cdc/spill.go:96-116 | The file grows by exactly the encoded change and stays within the limit |
| Spilling.TransactionAssembler.Changes | internal/cdc/spill.go:57-94 | Reading back gives the changes that were added |
| Spilling.TransactionAssembler.Payload | internal/cdc/codec.go:85-120 | The written bytes are those of the transaction with all its changes, spilled or not, as many as were counted |
| PayloadReader.UnmarshalTransaction | internal/cdc/codec.go:401-466 | The field-by-field decoder computes the decoder of the format |
| PayloadReader.PayloadDecoder.OneChange | internal/cdc/codec.go:564-597 | Takes one change off the front of the data |
| PayloadReader.PayloadDecoder.OneTuple | internal/cdc/codec.go:599-639 | Takes one tuple off the front of the data |
| PayloadReader.PayloadDecoder.OneRelation | internal/cdc/codec.go:525-562 | Takes one relation off the front of the data |
| PayloadReader.PayloadDecoder.Count | internal/cdc/codec.go:506-515 | Takes a count, refused when the items cannot fit |
| PayloadReader.RelationList | internal/cdc/codec.go:401-466 | Takes the counted relations off the front of the data |
| PayloadReader.ChangeList | internal/cdc/codec.go:401-466 | Takes the counted changes off the front of the data |
| CopyPlan.Plan | internal/copy/copy.go:239-309 | The loop computes `PartsOf`, the function the two theorems below are about |
| CopyPlan.SplitKeys | internal/copy/copy.go:239-309 | The loop over keys computes `KeyRanges`, whose ranges are disjoint and cover all keys |
| CopyPlan.SplitBlocks | internal/copy/copy.go:239-309 | The loop over heap blocks computes `BlockRanges` |
| CopyPlan.FindSaved | internal/app/clone_resume.go:73-149 | Whether a part was saved, by name and bounds |
| CopyPlan.PlanCovers | internal/copy/copy.go:239-309 | At most the allowed number of parts; every key or heap block is in exactly one of them; all bounds stay inside the bounds of the table, so nothing overflows 64 bits |
| CopyPlan.PartsFollowSize | internal/copy/copy.go:239-309 | Which tables are one part, and for all others the number n of parts asked for: the least with n parts of the desired size covering the table, at least 2, at most the cap; keys or blocks are spread evenly, every part but the last holds ceil(total / n) |
| CopyPlan.CeilThrice | internal/app/clone_resume.go:119-140 | ceil(s / ceil(s / ceil(s / c))) = ceil(s / c) |
| CopyPlan.ReplanIdentity | internal/app/clone_resume.go:119-140 | A plan of more than one part replans to itself from its number of parts alone |
| CopyPlan.RecoveryIff | internal/app/clone_resume.go:119-140 | Replanning gives the saved plan back exactly when the saved plan is not a single key range |
| CopyPlan.RecoveryIffKeysDiffer | internal/app/clone_resume.go:119-140 | The same condition on the table alone: it fails exactly for a split table whose smallest and largest key are equal |
| CopyPlan.SingleKeyIsNotRecovered | internal/app/clone_resume.go:119-140 | A table with one key: saved as one key range, replanned as one whole-table part |
| CopyPlan.RecoverTable | internal/app/clone_resume.go:73-149 | The plan is taken up only if it has the same parts, by name and bounds, as were saved |
| CopyPlan.InventoriedClearsWhatItCopies | internal/copy/copy.go:639-654 | For every table the inventory makes, whatever sizes and cap: each part of its plan clears, before it is copied again, exactly the keys it copies |
| StatementCache.PreparedStatements.constructor | internal/cdc/apply_stmtcache.go:33-41 | A negative capacity counts as none |
| StatementCache.PreparedStatements.Acquire | internal/cdc/apply_stmtcache.go:54-81 | Map, list and number after the call, and the three results, for hit, miss, eviction and a cache without capacity |
| StatementCache.PreparedStatements.Invalidate | internal/cdc/apply_stmtcache.go:87-93 | Everything is forgotten but the numbers used |
| StatementCache.AcquireKeeps | internal/cdc/apply_stmtcache.go:54-81 | Map and list hold the same statements, at most the capacity, each with a key and a name of its own; the returned one is in front |
| StatementCache.CachedIffUsedRecently | internal/cdc/apply_stmtcache.go:22-25 | Least recently used: after any calls a statement is cached exactly if fewer than `capacity` others were used since its last use |
| StatementCache.KeyIdentifiesQuery | internal/cdc/apply_stmtcache.go:43-49 | Keys are equal exactly if SQL and parameter types are |
| PreparedPipeline.NamesNeverRefused | internal/cdc/applier.go:2225-2262 | In every run with syncs failing anywhere, the server never refuses to prepare or to run a name, and never holds more live statements than the capacity, not even between two messages |
| PreparedPipeline.RanAsAsked | internal/cdc/applier.go:2286-2410 | What the server ran is always a prefix of what was asked, with that SQL and those types; after a clean sync all of it, and then the live prepared statements are exactly the cached ones |
| PreparedPipeline.NamesNeverReused | internal/cdc/apply_stmtcache.go:83-86 | The next name was never prepared or sent before, across aborts and invalidations |
| PreparedPipeline.SurvivorsOutliveInvalidation | internal/cdc/applier.go:2815-2837 | A concrete run after which the server holds a statement that no cache entry names |
| PreparedPipeline.HoldsOnlyCachedIff | internal/cdc/applier.go:2815-2837 | The exact condition, for every run and every state without failure and with nothing unsent: the session holds only statements named by cache entries if and only if it held none when the cache was last invalidated |
| PreparedPipeline.SurvivorsStay | internal/cdc/applier.go:2815-2837 | What a session holds beyond its cache at an invalidation it holds at every later moment |
| PreparedPipeline.ApplyPipeline.constructor | internal/cdc/applier.go:2183-2195 | A new connection has nothing prepared |
| PreparedPipeline.ApplyPipeline.Queue | internal/cdc/applier.go:2225-2262 | Sends close, parse and execute as needed, and syncs at the window |
| PreparedPipeline.ApplyPipeline.Enqueue | internal/cdc/applier.go:2225-2262 | One query becomes close, parse and execute messages as the cache decides |
| PreparedPipeline.ApplyPipeline.Sync | internal/cdc/applier.go:2286-2410 | The server handles what was sent up to its first failure |
| PreparedPipeline.ApplyPipeline.Abort | internal/cdc/applier.go:2815-2837 | Syncs what is left, rolls back and invalidates |
| Reservoir.EveryChangeEquallyLikely | internal/app/cdcsampler.go:135-147 | Counted over all draws, each of n changes is retained in exactly capacity/n of them |
| Reservoir.EverySetEquallyLikely | internal/app/cdcsampler.go:135-147 | Every set of `capacity` changes out of n is the one retained under the same number of draws, (n - capacity)! |
| Sampler.SampledIsReservoir | internal/app/cdcsampler.go:122-152 | With nothing dropped the counters and slots of the sampler are those of the reservoir the two counting results are about |
| Sampler.FlushesDoNotMatter | internal/app/cdcsampler.go:243-297 | Rows plus buffer are always what storing every sample at once would have left, wherever the buffer is flushed |
| Sampler.DropRestoresCountIff | internal/app/cdcsampler.go:206-218 | A drop gives the slot back correctly exactly if it was not chosen to replace the last slot of a full reservoir |
| Sampler.DropFavoursNext | internal/app/cdcsampler.go:206-218 | After that drop the next change is kept with certainty |
| Sampler.WriteMidObserve | internal/app/cdcsampler.go:148-190 | Between choosing a slot and buffering its sample, stored counters describe the stored rows exactly if the slot replaces one; once the sample is stored they do again |
| Sampler.RowsWithinCapacity | internal/state/cdcsamples.go:40-94 | A relation never has more stored rows than the capacity or, if it resumed under a lowered capacity, than it had then |
| Sampler.CdcSampler.constructor | internal/app/cdcsampler.go:89-116 | Resumes from stored counters, capped by the capacity, also from rows stored under a larger one |
| Sampler.CdcSampler.Observe | internal/app/cdcsampler.go:122-197 | Counters and buffer after a change that is kept, passed over or dropped |
| Sampler.CdcSampler.Snapshot | internal/app/cdcsampler.go:277-298 | Takes the buffer and the changed counters and clears both |
| Sampler.CdcSampler.Write | internal/app/cdcsampler.go:243-272 | A successful write stores samples and counters together; a failed one loses and counts the samples |
| SetDml.UpsertsMatchIff | internal/cdc/applier.go:3301-3326 | One upsert statement equals its changes in order exactly if no row comes twice (or some row cannot be inserted at all) |
| Upserts.UpsertIsUpdateIff | internal/cdc/applier.go:3237-3268 | Where the UPDATE of a complete update succeeds, its upsert leaves the same table if and only if the row the UPDATE finds is stored under the new primary key |
| Upserts.UpsertIsUpdate | internal/cdc/applier.go:3237-3268 | It always does if the replica identity contains the primary key |
| Upserts.RenumberedTwice | internal/cdc/applier.go:3237-3268 | A table and update where it does not: one row becomes two |
| SetDml.InsertsMatch | internal/cdc/applier.go:2843-2883 | A multi-row insert succeeds and fails exactly as inserting in order |
| SetDml.DeletesMatch | internal/cdc/applier.go:5044-5096 | A joined delete with its one-match-per-ordinal check succeeds and fails exactly as deleting in order |
| UpdateDml.SetColumnsSuffice | internal/cdc/applier.go:4217-4241 | Setting exactly the columns that change is the column-wise UPDATE of the change, failures included |
| UpdateRuns.AtOnceInOrder | internal/cdc/applier.go:4518-4605 | One UPDATE ... FROM of updates of different rows equals them in order, failures included, if none starts from where an earlier one has moved its row |
| UpdateRuns.ChainedHasNoRow | internal/cdc/applier.go:4518-4605 | If one starts there and they succeed in order, it has no row before the statement |
| SelectiveUpdates.UpdatesMatchIff | internal/cdc/applier.go:4403-4433 | Where the changes succeed in order, one UPDATE ... FROM does what they do if and only if none starts from where an earlier one has moved its row, and fails otherwise; if none does, it also fails only where they fail |
| SelectiveUpdates.SelectiveMatchesIff | internal/cdc/applier.go:3658-3716 | The same condition, exactly, for looking at all rows first and then setting only what differs, group by group |
| SelectiveUpdates.CutGroups | internal/cdc/applier.go:3658-3716 | The loop groups the updates by the columns that differ, skips those that change nothing, and computes `Groups` |
| SelectiveUpdates.GroupEnd | internal/cdc/applier.go:3687-3700 | The longest group of equal columns and different rows, one update if it sets a column of a unique index |
| SelectiveUpdates.GroupLongest | internal/cdc/applier.go:3687-3700 | No group could take in the next update |
| SetStatements.StatementMatchesIff | internal/cdc/applier.go:1053-1088 | Every statement as it is cut does what its changes do in order, failures included, if it is unchained; if not, it fails wherever they succeed |
| SetStatements.StatementsMatchIff | internal/cdc/applier.go:1011-1023 | The same for all statements of a lane of one relation |
| MovedTwice.RowMovedTwice | internal/cdc/applier.go:3582-3651 | Two updates that move one row twice: source order succeeds, they are sent together, and that statement fails |
| LegacyUpdates.UpdateKeyFor | internal/cdc/applier.go:4185-4215 | A key exactly for the updates whose identity can be looked for |
| LegacyUpdates.UpdateRunEnd | internal/cdc/applier.go:3592-3632 | The longest run of updates of the same columns and pairwise different rows within the limit; an error only at an update without a key |
| LegacyUpdates.UpdateChunkRows | internal/cdc/applier.go:4252-4268 | At least one row, at most 1000, and no more parameters than can be bound |
| LegacyUpdates.LegacyStatements | internal/cdc/applier.go:3582-3651 | Terminates; the statements concatenate to the input, are cut as required, and none could have taken in more; refused exactly when an update that would be joined has no key |
| LegacyUpdates.KeptUnchained | internal/cdc/applier.go:4243-4250 | Updates that set no column of a unique index never move a row whose identity is in one |
| TupleKeys.KeyTextIdentifies | internal/cdc/applier.go:3287-3299 | The length-prefixed key text identifies the key |
| Statements.UpsertRunEnd | internal/cdc/applier.go:3560-3573 | The longest run of upserts of pairwise different rows within the limit |
| Statements.DeleteRunEnd | internal/cdc/applier.go:4818-4866 | The longest run of joinable deletes of pairwise different rows within the limit; an error only at a delete without a key |
| Statements.RunStatements | internal/cdc/applier.go:1053-1088 | A run of one kind becomes its statements, as few as the limits allow; refused only for deletes or updates that would be joined and have no key |
| Statements.KeyOfDatums | internal/cdc/applier.go:4944-4970 | A delete has a key exactly if every column it is joined on may be bound and no primary-key column is NULL |
| Statements.UpdateStatements | internal/cdc/applier.go:3546-3580 | Terminates; the statements concatenate to the input, upserts only where allowed, keys pairwise distinct, and none could have taken in more; refused only if an update that is no upsert has no key |
| Statements.DeleteStatements | internal/cdc/applier.go:4818-4866 | Terminates; the statements concatenate to the input with pairwise distinct keys, and none could have taken in more; refused exactly when a joined delete has no key |
| Statements.DeleteKeyFor | internal/cdc/applier.go:4944-4970 | A key exactly for the deletes that can be joined |
| Statements.InsertStatements | internal/cdc/applier.go:2843-2883 | Consecutive chunks of the limit that concatenate to the input |
| Statements.LaneStatements | internal/cdc/applier.go:1011-1023 | For every lane of one relation: its statements hold its changes in order and none could have taken in more; executing them is replaying it change by change if they are unchained, and fails otherwise wherever that replay succeeds; a lane refused beforehand is one that replay refuses |
| Statements.LegacyRunEnd | internal/cdc/applier.go:3546-3556 | The longest run of updates that are no upserts |
| Statements.KeptAllUnchained | internal/cdc/applier.go:4243-4250 | Statements of a relation that keeps identities in unique indexes and does not look first are unchained |
| Statements.RefusedFails | internal/cdc/applier.go:1011-1023 | A run refused before anything of it is sent makes its lane fail change by change as well |
| RelationBatching.BatchingPreservesRun | internal/cdc/applier.go:958-1009 | Regrouping a batch by relation between barriers leaves the target as source order does, failures included, if the cache only moves relations forward |
| RelationBatching.CacheAdvances | internal/cdc/applier.go:672-692 | Whatever sequence of definitions the cache is asked for, the objects it answers with only move forward |
| RelationBatching.SameObjectIff | internal/cdc/applier.go:672-692 | Two answers for an OID are the same object if and only if no call between them was answered for another definition |
| RelationBatching.SegmentsAlternate | internal/cdc/applier.go:958-1009 | Neighbouring epochs and barriers differ in kind, so none could be longer |
| RelationBatching.RegroupedBatchPreservesRun | internal/cdc/applier.go:958-1009 | So regrouping a batch whose relations were resolved through the cache, in order, preserves its outcome, failures included |
| BatchExecution.SentBatchPreservesRun | internal/cdc/applier.go:1090-1114 | A batch in one target transaction, resolved through the cache, regrouped and sent as the set statements of its lanes, leaves the target as source order does, failures included, if they are unchained; if not, it fails unless source order does |
| BatchExecution.QueueSteps | internal/cdc/applier.go:1090-1114 | The loops queue the lanes of every step as such statements; a batch refused beforehand has a lane that fails change by change as well |
| BatchExecution.QueueLanes | internal/cdc/applier.go:1090-1114 | The same for the lanes of one step |
| RelationBatching.ResultsAdvance | internal/cdc/applier.go:672-692 | Later answers for one OID are the same object or a later one, and one object never serves two OIDs |
| RelationBatching.BatchingPermutes | internal/cdc/applier.go:958-1009 | Every change is queued exactly once |
| RelationBatching.ReturningInstanceReorders | internal/cdc/applier.go:958-1009 | A relation that came back to an earlier object would have its later change queued too early: the condition on the cache is needed |
| RelationBatching.PlanRelationBatchedChanges | internal/cdc/applier.go:958-1009 | The in-place steps and lanes are those of the alternating safe epochs and barriers and queue exactly `Batched`; no plan exactly for spilled batches; an error only for missing relation metadata |
| RelationBatching.AddTransaction | internal/cdc/applier.go:958-1009 | One transaction extends the steps by its changes in order; an error only for missing relation metadata |
| RelationBatching.AddItem | internal/cdc/applier.go:958-1009 | One change opens or joins a lane, or an ordered step |
| RelationBatching.TargetRelationCache.constructor | internal/cdc/applier.go:668-670 | An empty cache |
| RelationBatching.TargetRelationCache.Resolve | internal/cdc/applier.go:672-692 | The cached object if the definition is the same, else a new one; an OID never returns to an earlier object |
| TextCopy.RowsReadBack | internal/cdc/applier.go:2755-2813 | Staged rows parse back, by the text format of COPY, to the same ordinals and values, NULL distinct from every text |
| TextCopy.FieldReadBack | internal/cdc/applier.go:2791-2813 | A field reads back as itself whatever bytes it holds |
| TextCopy.TextCopyStageData | internal/cdc/applier.go:2755-2789 | The loops write exactly those rows; no text only for binary values |
| TextCopy.AppendRow | internal/cdc/applier.go:2755-2789 | One staged row, or the error of a value that cannot be bound, or no text for a binary value |
| ArrayLiterals.ArrayReadBack | internal/cdc/applier.go:2073-2142 | An array literal parses back to the same values, NULLs and the text NULL kept apart |
| ArrayLiterals.ArrayParam | internal/cdc/applier.go:2073-2142 | The loop writes exactly that literal |
| ArrayLiterals.AppendElement | internal/cdc/applier.go:2073-2142 | One element of the literal, quoted and escaped |

## Left out

- Plan version 2: its path for dependency keys is not modelled. Versions 3 to 5 share the modelled keys and differ in
  which relations have an ordered lane, which is an input (`relationOrderedLane`), and in their fingerprints, which
  are not modelled.
- Catalog queries and SQL text: relation capabilities, key columns and column types are inputs; an UPDATE, INSERT or
  DELETE is what it does to the table, not its text. Generated columns are not modelled.
- PostgreSQL equality: keys are compared as captured bytes. The types for which this is safe are an input
  (`replayKeySafe`).
- SHA-256 and CRC-32C themselves.
- The effect of a change on relations that are not sharded by row, and of serial transactions on anything but
  through their changes in order: both are parameters or sequences of changes, also where the code sends set
  statements for them.
- LaneExecution.ExecuteRelation: a relation not sharded by row is executed change by change, because what one of its
  statements does is a parameter.
- The shape of an `UPDATE ... FROM` (array parameters, staged COPY, value lists cut to the bind limit) and how the look
  before selective updates finds its rows; the heap statistics that lower the number of rows of a statement are an
  input (`chunkRows`). Columns with a nondeterministic collation are set even where the stored bytes agree, which
  leaves the same row.
- Ordered steps of a batch in one target transaction, and `TRUNCATE`, run their changes in order in the model, also
  where the code sends neighbouring ones as one statement.
- The choice between value lists, staged COPY and array parameters for one set statement, and binary COPY and binary
  array encodings; the text forms are `TextCopy` and `ArrayLiterals`. Array delimiters other than the comma.
- Batches of barriers only that stay on the path of one transaction at a time, batching by size in the reading loop,
  and the balancing of lanes over workers: any assignment of lanes to workers is some commit order.
- Parallel sessions inside one target transaction: a target transaction is one atomic step.
- Adoption and backfill of progress rows that have no generation yet, and other schema migrations.
- I/O failures beyond success or failure of a write, an fsync and a sync of the connection.
- SegmentWriter.Writer.AppendFrame: asks that an open empty segment was opened for a transaction that commits no
  later. `LogCapture.ReceiveNext` derives this from the protocol, so nothing is asked of the persister's callers.
- Persister.TransactionPersister.Receive: asks the same of its writer, and `LogCapture.ReceiveNext` derives it likewise.
- SegmentWriter.Writer.RotateLocked: asks that an open segment holds a frame. Appending calls it only there; calling the
  public rotation on an open segment without frames is not modelled.
- The zero header of a streamed append and its rewriting at the level of the operating system: the model knows
  that a zero header is never read as a frame.
- A partly written frame at the end of the file is read as the end of the file.
- Receiver timers, feedback deadlines, TLS, reconnection; a session ends at any time.
- 64-bit sizes and LSNs, and the wrap-around of the statement number, are unbounded; COPY bounds are shown to stay
  within 64 bits, and the byte-sized ranks of the union-find not to overflow.
- Spill file locking and the lifetime of spill files; their contents are modelled.
- Simultaneous calls of `Observe`: calls are modelled one at a time.
- Schema copy, index builds, vacuum, tuning, cutover, controller, user interface and metrics.
