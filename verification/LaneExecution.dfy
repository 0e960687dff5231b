/** Lanes as they reach the target: the set statements of every relation of a lane
    (queueParallelReplayLane and queueRelationReplayLane, internal/cdc/replay_execute.go:399-429 and
    internal/cdc/applier.go:1011-1023), and plans executed by these statements. */
module LaneExecution {
  import opened Wrappers
  import opened Model
  import opened Catalog
  import opened Target
  import opened Dependence
  import opened Components
  import opened Planner
  import opened PlanShape
  import opened LaneRewrite
  import opened Serializability
  import opened Execution
  import opened Schedule
  import opened Claims
  import opened SetDml
  import opened SetStatements
  import opened LegacyUpdates
  import opened Statements

  /** What a lane sends for one of its relations. */
  datatype Queued = Queued(relation: TargetRelation, items: seq<Item>, statements: seq<Statement>)

  function WithTable(db: Database, oid: Oid, t: Option<Table>): Option<Database> {
    match t
    case None => None
    case Some(table) => Some(db[oid := table])
  }

  /** The statements on a relation sharded by row do what statements do; what a change to any other
      relation does is a parameter of the model, so there the changes stand for themselves. */
  ghost function ExecuteRelation(sem: Semantics, db: Database, q: Queued): Option<Database> {
    var oid := q.relation.source.oid;
    if !RowLane(q.relation) then Run(sem, Some(db), q.items)
    else WithTable(db, oid, ExecuteAll(q.relation, q.statements, Some(TableOf(db, oid))))
  }

  ghost function ExecuteQueue(sem: Semantics, db: Option<Database>, queue: seq<Queued>): Option<Database>
    decreases |queue|
  {
    if db.None? || queue == [] then db
    else ExecuteQueue(sem, ExecuteRelation(sem, db.value, queue[0]), queue[1..])
  }

  function ChangesOf(items: seq<Item>): seq<Change>
    decreases |items|
  {
    if items == [] then [] else ChangesOf(items[..|items| - 1]) + [items[|items| - 1].change]
  }

  /** Every table of a relation sharded by row obeys its primary key and its NOT NULL columns. */
  ghost predicate TablesOk(db: Database, items: seq<Item>) {
    forall x :: x in items && RowLane(x.relation) ==> StoredOk(x.relation, TableOf(db, x.relation.source.oid))
  }

  /** The statements are cut as queueing cuts the changes. */
  predicate Translates(q: Queued, lane: seq<Item>) {
    && q.items == lane
    && (forall x :: x in lane ==> x.relation == q.relation)
    && AllSound(q.relation, q.statements) && Changes(q.statements) == ChangesOf(lane)
  }

  /** One entry per relation, in the order of `relations`, each with the relation's changes in order. */
  predicate Queues(queue: seq<Queued>, relations: seq<TargetRelation>, items: seq<Item>) {
    && |queue| == |relations|
    && forall p :: 0 <= p < |queue| ==> Translates(queue[p], Select(HasLabel(RelationOf, relations[p]), items))
  }

  predicate LaneQueue(queue: seq<Queued>, items: seq<Item>) {
    Queues(queue, FirstSeen(Coalesced(items)), Coalesced(items))
  }

  /** No update of one statement starts from where an earlier one of it has moved its row. */
  predicate QueuedUnchained(q: Queued) {
    RowLane(q.relation) ==> AllUnchained(q.relation, q.statements)
  }

  predicate QueueUnchained(queue: seq<Queued>) {
    forall q :: q in queue ==> QueuedUnchained(q)
  }

  // --- One relation ---

  lemma ApplyInLane(sem: Semantics, db: Database, x: Item)
    requires RelationLocal(x) && RowLane(x.relation)
    ensures
      var oid := x.relation.source.oid;
      Apply(sem, db, x) == WithTable(db, oid, SqlStep(x.relation, x.change, TableOf(db, oid)))
  {
    hide SqlStep;
  }

  lemma RunOne(sem: Semantics, db: Option<Database>, x: Item)
    ensures Run(sem, db, [x]) == match db case None => None case Some(d) => Apply(sem, d, x)
  {
    hide Apply;
    assert [x][1..] == [];
  }

  lemma WrittenTwice(db: Database, oid: Oid, t: Table, u: Option<Table>)
    ensures TableOf(db[oid := t], oid) == t && WithTable(db[oid := t], oid, u) == WithTable(db, oid, u)
  {
    if u.Some? {
      assert db[oid := t][oid := u.value] == db[oid := u.value];
    }
  }

  /** Changes to one relation sharded by row are a run on its table alone. */
  lemma {:induction false} RelationRun(sem: Semantics, db: Database, r: TargetRelation, items: seq<Item>)
    requires RowLane(r) && items != [] && forall x :: x in items ==> RelationLocal(x) && x.relation == r
    ensures Run(sem, Some(db), items)
            == WithTable(db, r.source.oid, TableRun(r, ChangesOf(items), Some(TableOf(db, r.source.oid))))
    decreases |items|
  {
    hide Apply, SqlStep, RelationLocal, RowLane, Run, TableOf, WithTable;
    var oid, init, last := r.source.oid, items[..|items| - 1], items[|items| - 1];
    assert items == init + [last];
    LastChange(r, items, Some(TableOf(db, oid)));
    RunConcat(sem, Some(db), init, [last]);
    RunOne(sem, Run(sem, Some(db), init), last);
    if init == [] {
      assert Run(sem, Some(db), []) == Some(db) by {
        RunNone(sem, db);
      }
      ApplyInLane(sem, db, last);
    } else {
      RelationRun(sem, db, r, init);
      var before := TableRun(r, ChangesOf(init), Some(TableOf(db, oid)));
      WithTableIs(db, oid, before);
      if before.Some? {
        ApplyInLane(sem, db[oid := before.value], last);
        WrittenTwice(db, oid, before.value, SqlStep(r, last.change, before.value));
      }
    }
  }

  lemma RunFailed(sem: Semantics, items: seq<Item>)
    ensures Run(sem, None, items) == None
  {
  }

  lemma RunNone(sem: Semantics, db: Database)
    ensures Run(sem, Some(db), []) == Some(db)
  {
  }

  lemma WithTableIs(db: Database, oid: Oid, t: Option<Table>)
    ensures WithTable(db, oid, t) == if t.None? then None else Some(db[oid := t.value])
  {
  }

  lemma LastChange(r: TargetRelation, items: seq<Item>, t: Option<Table>)
    requires items != []
    ensures
      var init, last := items[..|items| - 1], items[|items| - 1];
      var before := TableRun(r, ChangesOf(init), t);
      TableRun(r, ChangesOf(items), t) == if before.None? then None else SqlStep(r, last.change, before.value)
  {
    hide SqlStep;
    var init, last := items[..|items| - 1], items[|items| - 1];
    assert ChangesOf(items) == ChangesOf(init) + [last.change];
    assert ChangesOf(items)[..|ChangesOf(items)| - 1] == ChangesOf(init);
  }

  lemma LocalLane(lane: seq<Item>)
    requires LaneItems(lane)
    ensures forall x :: x in lane ==> RelationLocal(x)
  {
  }

  lemma RelationExecuted(sem: Semantics, db: Database, q: Queued, lane: seq<Item>)
    requires lane != [] && Translates(q, lane) && TablesOk(db, lane) && forall x :: x in lane ==> RelationLocal(x)
    ensures Agrees(QueuedUnchained(q), ExecuteRelation(sem, db, q), Run(sem, Some(db), lane))
  {
    hide RowLane, RelationLocal, Run, TableRun, ExecuteAll, StoredOk, ChangesOf, AllSound, AllUnchained;
    if RowLane(q.relation) {
      assert lane[0] in lane;
      RelationRun(sem, db, q.relation, lane);
      StatementsMatchIff(q.relation, q.statements, TableOf(db, q.relation.source.oid));
    }
  }

  // --- Tables stay as stored ---

  lemma ApplyKeepsTables(sem: Semantics, db: Database, x: Item, all: seq<Item>)
    requires LaneItems(all) && x in all && TablesOk(db, all) && Apply(sem, db, x).Some?
    ensures TablesOk(Apply(sem, db, x).value, all)
  {
    hide SqlStep, StoredOk, OldTupleIsIdentity;
    var oid, after := x.relation.source.oid, Apply(sem, db, x).value;
    if RowLane(x.relation) {
      hide RowLane;
      ApplyInLane(sem, db, x);
      StepKeepsStored(x.relation, x.change, TableOf(db, oid));
    }
    forall y | y in all && RowLane(y.relation)
      ensures StoredOk(y.relation, TableOf(after, y.relation.source.oid))
    {
      if y.relation.source.oid != oid {
        assert TableOf(after, y.relation.source.oid) == TableOf(db, y.relation.source.oid);
      }
    }
  }

  lemma {:induction false} RunKeepsTables(sem: Semantics, db: Database, items: seq<Item>, all: seq<Item>)
    requires LaneItems(all) && (forall x :: x in items ==> x in all) && TablesOk(db, all)
    requires Run(sem, Some(db), items).Some?
    ensures TablesOk(Run(sem, Some(db), items).value, all)
    decreases |items|
  {
    hide TablesOk, LaneItems, Apply;
    if items != [] {
      assert items[0] in items;
      assert Apply(sem, db, items[0]).Some?;
      ApplyKeepsTables(sem, db, items[0], all);
      RunKeepsTables(sem, Apply(sem, db, items[0]).value, items[1..], all);
    }
  }

  // --- One lane ---

  ghost predicate Occurs(items: seq<Item>, r: TargetRelation) {
    exists x :: x in items && x.relation == r
  }

  /** The changes of a lane to one of its relations. */
  lemma RelationLane(items: seq<Item>, r: TargetRelation)
    requires Occurs(items, r)
    ensures
      var lane := Select(HasLabel(RelationOf, r), items);
      lane != [] && (forall x :: x in lane ==> x.relation == r && x in items) && lane[0].relation == r
  {
    hide Select, HasLabel;
    var lane := Select(HasLabel(RelationOf, r), items);
    forall x ensures x in lane <==> x in items && x.relation == r {
      SelectedByRelation(items, r, x);
    }
    var x :| x in items && x.relation == r;
    assert x in lane;
    assert lane[0] in lane;
  }

  lemma {:induction false} FailedQueue(sem: Semantics, queue: seq<Queued>)
    ensures ExecuteQueue(sem, None, queue) == None
  {
  }

  lemma EmptyQueue(
    sem: Semantics, db: Database, queue: seq<Queued>, relations: seq<TargetRelation>, items: seq<Item>)
    requires queue == [] && relations == []
    ensures ExecuteQueue(sem, Some(db), queue) == Run(sem, Some(db), Grouped(relations, RelationOf, items))
  {
  }

  lemma UnchainedSplit(queue: seq<Queued>)
    requires queue != []
    ensures QueueUnchained(queue) <==> QueuedUnchained(queue[0]) && QueueUnchained(queue[1..])
  {
    hide QueuedUnchained;
    assert forall q :: q in queue <==> q == queue[0] || q in queue[1..];
  }

  lemma {:induction false} QueueMatches(
    sem: Semantics, db: Database, queue: seq<Queued>, relations: seq<TargetRelation>, items: seq<Item>)
    requires LaneItems(items) && TablesOk(db, items) && Queues(queue, relations, items)
    requires forall r :: r in relations ==> Occurs(items, r)
    ensures
      Agrees(
        QueueUnchained(queue), ExecuteQueue(sem, Some(db), queue), Run(sem, Some(db), Grouped(relations, RelationOf, items)))
    decreases |queue|
  {
    hide Translates, RelationLocal, OldTupleIsIdentity, RowLane, ExecuteRelation, StoredOk, Select, HasLabel, Run, Occurs;
    hide QueuedUnchained;
    if queue == [] {
      EmptyQueue(sem, db, queue, relations, items);
    } else {
      var lane := Select(HasLabel(RelationOf, relations[0]), items);
      var rest := Grouped(relations[1..], RelationOf, items);
      assert relations[0] in relations;
      RelationLane(items, relations[0]);
      LaneItemsOfPart(lane, items);
      hide LaneItems, TablesOk;
      LocalLane(lane);
      RelationExecuted(sem, db, queue[0], lane);
      RunConcat(sem, Some(db), lane, rest);
      UnchainedSplit(queue);
      hide QueueUnchained;
      var after := Run(sem, Some(db), lane);
      if after.Some? {
        if !QueuedUnchained(queue[0]) {
          FailedQueue(sem, queue[1..]);
        }
        RunKeepsTables(sem, db, lane, items);
        assert Queues(queue[1..], relations[1..], items);
        QueueMatches(sem, after.value, queue[1..], relations[1..], items);
      } else {
        FailedQueue(sem, queue[1..]);
        RunFailed(sem, rest);
      }
    }
  }

  /** Executing the statements of a lane is replaying the rewritten lane, failures included, if they are
      unchained; if they are not, it fails unless replaying the rewritten lane fails too. */
  lemma LaneExecuted(sem: Semantics, db: Database, queue: seq<Queued>, items: seq<Item>)
    requires LaneItems(items) && TablesOk(db, items) && LaneQueue(queue, items)
    ensures Agrees(QueueUnchained(queue), ExecuteQueue(sem, Some(db), queue), Run(sem, Some(db), Rewritten(items)))
  {
    hide Queues, QueueUnchained, Run, ExecuteQueue, RowLane, RelationLocal, OldTupleIsIdentity, StoredOk, Coalesced;
    CoalescedSubset(items);
    QueueMatches(sem, db, queue, FirstSeen(Coalesced(items)), Coalesced(items));
  }

  /** So a lane that replays in source order leaves exactly that outcome when it is executed as its
      coalesced, regrouped set statements, if they are unchained, and only then. */
  lemma StatementsPreserveLane(sem: Semantics, db: Database, queue: seq<Queued>, items: seq<Item>)
    requires LaneItems(items) && TablesOk(db, items) && LaneQueue(queue, items)
    requires Run(sem, Some(db), items).Some?
    ensures ExecuteQueue(sem, Some(db), queue) == Run(sem, Some(db), items) <==> QueueUnchained(queue)
    ensures !QueueUnchained(queue) ==> ExecuteQueue(sem, Some(db), queue) == None
  {
    hide Rewritten, LaneQueue, LaneItems, TablesOk, ExecuteQueue, Run, QueueUnchained;
    LaneExecuted(sem, db, queue, items);
    RewritingPreservesRun(sem, db, items);
  }

  /** The DML of a parallel work is the execution of its statements, or these fail and the work does not
      commit. */
  lemma WorkExecuted(sem: Semantics, c: Claim, w: Work, data: Database, queue: seq<Queued>)
    requires w.kind.ParallelLane?
    requires
      var items := Select(CoveredBy(w), ClaimItems(c));
      LaneItems(items) && TablesOk(data, items) && LaneQueue(queue, items)
    ensures Agrees(QueueUnchained(queue), ExecuteQueue(sem, Some(data), queue), WorkEffect(sem, c, w, data))
  {
    hide QueueUnchained, Rewritten, LaneQueue, LaneItems, TablesOk, ExecuteQueue, Run, Select, ClaimItems, CoveredBy;
    LaneExecuted(sem, data, queue, Select(CoveredBy(w), ClaimItems(c)));
  }

  // --- Whole plans ---

  ghost function CommitQueues(sem: Semantics, db: Option<Database>, queues: seq<seq<Queued>>): Option<Database>
    decreases |queues|
  {
    if queues == [] then db else CommitQueues(sem, ExecuteQueue(sem, db, queues[0]), queues[1..])
  }

  ghost function ExecuteStep(
    sem: Semantics, db: Option<Database>, step: Step, queues: seq<seq<Queued>>, batch: seq<Transaction>)
    : Option<Database>
  {
    if 0 <= step.serialTransaction < |batch| then
      Run(sem, db, ItemsOf(step.serialTransaction, batch[step.serialTransaction]))
    else CommitQueues(sem, db, queues)
  }

  ghost function ExecuteSteps(
    sem: Semantics, db: Option<Database>, steps: seq<Step>, queues: seq<seq<seq<Queued>>>, batch: seq<Transaction>)
    : Option<Database>
    requires |queues| == |steps|
  {
    if steps == [] then db
    else
      var last := |steps| - 1;
      ExecuteStep(sem, ExecuteSteps(sem, db, steps[..last], queues[..last], batch), steps[last], queues[last], batch)
  }

  /** The queues of a step, one for every lane, in the order the lanes commit. */
  ghost predicate StepQueues(queues: seq<seq<Queued>>, order: seq<PlanLane>) {
    && |queues| == |order|
    && forall i :: 0 <= i < |order| ==> LaneQueue(queues[i], order[i].lane.items)
  }

  predicate QueuesUnchained(queues: seq<seq<Queued>>) {
    forall queue :: queue in queues ==> QueueUnchained(queue)
  }

  lemma UnchainedQueuesSplit(queues: seq<seq<Queued>>)
    requires queues != []
    ensures QueuesUnchained(queues) <==> QueueUnchained(queues[0]) && QueuesUnchained(queues[1..])
  {
    hide QueueUnchained;
    assert forall queue :: queue in queues <==> queue == queues[0] || queue in queues[1..];
  }

  lemma {:induction false} FailedQueues(sem: Semantics, queues: seq<seq<Queued>>)
    ensures CommitQueues(sem, None, queues) == None
    decreases |queues|
  {
    if queues != [] {
      FailedQueues(sem, queues[1..]);
    }
  }

  lemma {:induction false} FailedLanes(sem: Semantics, order: seq<PlanLane>)
    ensures CommitLanes(sem, None, order) == None
    decreases |order|
  {
    hide Rewritten;
    if order != [] {
      FailedLanes(sem, order[1..]);
    }
  }

  lemma LaneItemsOfPart(part: seq<Item>, all: seq<Item>)
    requires LaneItems(all) && forall x :: x in part ==> x in all
    ensures LaneItems(part)
    ensures forall db :: TablesOk(db, all) ==> TablesOk(db, part)
  {
    hide RelationLocal, OldTupleIsIdentity, RowLane, StoredOk;
  }

  lemma RewrittenSubset(items: seq<Item>)
    ensures forall x :: x in Rewritten(items) ==> x in items
  {
    CoalescedSubset(items);
    hide Coalesced, FirstSeen;
    GroupedSubset(FirstSeen(Coalesced(items)), RelationOf, Coalesced(items));
  }

  lemma {:induction false} GroupedSubset<L>(labels: seq<L>, labelOf: Item -> L, xs: seq<Item>)
    ensures forall x :: x in Grouped(labels, labelOf, xs) ==> x in xs
    decreases |labels|
  {
    if labels != [] {
      GroupedSubset(labels[1..], labelOf, xs);
    }
  }

  lemma {:induction false} QueuesCommit(
    sem: Semantics, db: Database, order: seq<PlanLane>, queues: seq<seq<Queued>>, all: seq<Item>)
    requires LaneItems(all) && TablesOk(db, all) && StepQueues(queues, order)
    requires forall i, x :: 0 <= i < |order| && x in order[i].lane.items ==> x in all
    ensures Agrees(QueuesUnchained(queues), CommitQueues(sem, Some(db), queues), CommitLanes(sem, Some(db), order))
    decreases |order|
  {
    hide LaneItems, TablesOk, LaneQueue, Rewritten, Run, ExecuteQueue, QueueUnchained;
    if order != [] {
      var items := order[0].lane.items;
      LaneItemsOfPart(items, all);
      LaneExecuted(sem, db, queues[0], items);
      UnchainedQueuesSplit(queues);
      hide QueuesUnchained;
      var after := Run(sem, Some(db), Rewritten(items));
      if after.Some? {
        if !QueueUnchained(queues[0]) {
          FailedQueues(sem, queues[1..]);
        }
        RewrittenSubset(items);
        RunKeepsTables(sem, db, Rewritten(items), all);
        QueuesCommit(sem, after.value, order[1..], queues[1..], all);
      } else {
        FailedQueues(sem, queues[1..]);
        FailedLanes(sem, order[1..]);
      }
    }
  }

  lemma LanesInStep(
    step: Step, k: nat, order: seq<PlanLane>,
    batch: seq<Transaction>, hashes: Hashes, lo: nat, hi: nat, laneCount: nat)
    requires laneCount > 0 && StepOk(step, k, lo, hi, batch, laneCount, hashes)
    requires step.serialTransaction < 0 && CommitOrder(order, step.lanes)
    ensures forall i, x :: 0 <= i < |order| && x in order[i].lane.items ==> x in BatchItems(batch, lo, hi)
  {
    hide BatchItems, EpochOf, FlushedLanes;
    StepLanes(k, batch, hashes, lo, hi, laneCount);
    forall i, x | 0 <= i < |order| && x in order[i].lane.items ensures x in BatchItems(batch, lo, hi) {
      assert order[i] in step.lanes;
    }
  }

  predicate StepUnchained(step: Step, queues: seq<seq<Queued>>) {
    step.serialTransaction < 0 ==> QueuesUnchained(queues)
  }

  /** A step executed as its statements leaves what its transactions leave in source order. */
  lemma StepExecuted(
    sem: Semantics, db: Option<Database>, step: Step, k: nat, order: seq<PlanLane>, queues: seq<seq<Queued>>,
    batch: seq<Transaction>, hashes: Hashes, lo: nat, hi: nat, laneCount: nat)
    requires laneCount > 0 && SourceOk(batch) && StepOk(step, k, lo, hi, batch, laneCount, hashes)
    requires step.serialTransaction < 0 ==> OverlapsJoined(batch, hashes, lo, hi) && CommitOrder(order, step.lanes)
    requires step.serialTransaction < 0 ==> StepQueues(queues, order)
    requires Run(sem, db, BatchItems(batch, lo, hi)).Some?
    requires step.serialTransaction < 0 && db.Some? ==> TablesOk(db.value, BatchItems(batch, lo, hi))
    ensures
      Agrees(
        StepUnchained(step, queues), ExecuteStep(sem, db, step, queues, batch), Run(sem, db, BatchItems(batch, lo, hi)))
  {
    hide QueuesUnchained;
    assert db.Some?;
    hide OverlapsJoined, SourceOk, ItemsOf, CommitOrder, StepQueues, TablesOk, LaneItems, BatchItems, Run, EpochOk;
    StepSerializable(sem, db, step, k, order, batch, hashes, lo, hi, laneCount);
    if step.serialTransaction < 0 {
      StepIsEpoch(step, k, lo, hi, batch, laneCount, hashes);
      LanesInStep(step, k, order, batch, hashes, lo, hi, laneCount);
      hide StepOk;
      BatchLaneItems(batch, lo, hi, BatchItems(batch, lo, hi));
      QueuesCommit(sem, db.value, order, queues, BatchItems(batch, lo, hi));
    }
  }

  ghost predicate PlanQueues(queues: seq<seq<seq<Queued>>>, steps: seq<Step>, orders: seq<seq<PlanLane>>) {
    |queues| == |steps| == |orders| &&
    forall k :: 0 <= k < |steps| && steps[k].serialTransaction < 0 ==> StepQueues(queues[k], orders[k])
  }

  predicate PlanUnchained(queues: seq<seq<seq<Queued>>>, steps: seq<Step>) {
    |queues| == |steps| && forall k :: 0 <= k < |steps| ==> StepUnchained(steps[k], queues[k])
  }

  lemma UnchainedPlanSplit(queues: seq<seq<seq<Queued>>>, steps: seq<Step>)
    requires |queues| == |steps| && steps != []
    ensures
      var last := |steps| - 1;
      PlanUnchained(queues, steps) <==>
        PlanUnchained(queues[..last], steps[..last]) && StepUnchained(steps[last], queues[last])
  {
    hide StepUnchained;
  }

  lemma FailedStep(sem: Semantics, step: Step, queues: seq<seq<Queued>>, batch: seq<Transaction>)
    ensures ExecuteStep(sem, None, step, queues, batch) == None
  {
    hide ItemsOf, CommitQueues;
    FailedQueues(sem, queues);
  }

  /** Wherever an epoch of the batch may start, the tables reached in source order obey the constraints of
      its relations. */
  ghost predicate StoredThroughout(sem: Semantics, db: Database, batch: seq<Transaction>) {
    forall lo, hi {:trigger EpochOk(batch, lo, hi)} | 0 <= lo && EpochOk(batch, lo, hi) ::
      var reached := Run(sem, Some(db), BatchItems(batch, 0, lo));
      reached.Some? ==> TablesOk(reached.value, BatchItems(batch, lo, hi))
  }

  lemma PrefixQueues(steps: seq<Step>, orders: seq<seq<PlanLane>>, queues: seq<seq<seq<Queued>>>)
    requires steps != [] && PlanQueues(queues, steps, orders)
    ensures
      var last := |steps| - 1;
      && PlanQueues(queues[..last], steps[..last], orders[..last])
      && (steps[last].serialTransaction < 0 ==> StepQueues(queues[last], orders[last]))
  {
    hide StepQueues;
  }

  lemma {:induction false} StepsExecuted(
    sem: Semantics, db: Database, steps: seq<Step>, bounds: seq<nat>, orders: seq<seq<PlanLane>>,
    queues: seq<seq<seq<Queued>>>, batch: seq<Transaction>, laneCount: nat, hashes: Hashes)
    requires laneCount > 0 && SourceOk(batch) && Tiles(steps, bounds, batch, laneCount, hashes)
    requires bounds[|steps|] <= |batch|
    requires PlanOverlapsJoined(steps, bounds, batch, hashes) && OrdersOk(steps, orders)
    requires PlanQueues(queues, steps, orders) && StoredThroughout(sem, db, batch)
    requires Run(sem, Some(db), BatchItems(batch, 0, bounds[|steps|])).Some?
    ensures
      Agrees(
        PlanUnchained(queues, steps), ExecuteSteps(sem, Some(db), steps, queues, batch),
        Run(sem, Some(db), BatchItems(batch, 0, bounds[|steps|])))
    decreases |steps|
  {
    if steps != [] {
      var last := |steps| - 1;
      PrefixTiles(steps, bounds, batch, laneCount, hashes);
      LastStepOk(steps, bounds, orders, batch, laneCount, hashes);
      PrefixOk(steps, bounds, orders, batch, hashes);
      PrefixQueues(steps, orders, queues);
      UnchainedPlanSplit(queues, steps);
      FailedStep(sem, steps[last], queues[last], batch);
      hide PlanUnchained, StepUnchained;
      hide StepOk, SourceOk, OverlapsJoined, BatchItems, EpochOk, ExecuteStep, Tiles, PlanOverlapsJoined, OrdersOk;
      hide PlanQueues, CommitOrder, StepQueues, TablesOk;
      StepIsEpoch(steps[last], last, bounds[last], bounds[last + 1], batch, laneCount, hashes);
      BatchItemsConcat(batch, 0, bounds[last], bounds[last + 1]);
      RunConcat(sem, Some(db), BatchItems(batch, 0, bounds[last]), BatchItems(batch, bounds[last], bounds[last + 1]));
      StepsExecuted(sem, db, steps[..last], bounds[..last + 1], orders[..last], queues[..last], batch, laneCount, hashes);
      StepExecuted(
        sem, Run(sem, Some(db), BatchItems(batch, 0, bounds[last])), steps[last], last, orders[last], queues[last],
        batch, hashes, bounds[last], bounds[last + 1], laneCount);
    }
  }

  /** Parallel replay by statements is serializable. For every batch whose source-order replay succeeds,
      every commit order of the lanes and every way to cut them into statements that `QueueLane` can
      choose, executing the plan leaves exactly the target of source-order replay if and only if no update
      of a statement starts from where an earlier one of it has moved its row. If one does, the plan stops;
      it never leaves another target. */
  lemma StatementsSerializable(
    sem: Semantics, db: Database, orders: seq<seq<PlanLane>>, queues: seq<seq<seq<Queued>>>,
    batch: seq<Transaction>, laneCount: nat, hashes: Hashes)
    requires laneCount > 0 && SourceOk(batch) && BatchOverlapsJoined(batch, hashes) && StoredThroughout(sem, db, batch)
    requires
      var steps := PlanOf(batch, laneCount, hashes).steps;
      OrdersOk(steps, orders) && PlanQueues(queues, steps, orders)
    requires Run(sem, Some(db), BatchItems(batch, 0, |batch|)).Some?
    ensures
      var steps := PlanOf(batch, laneCount, hashes).steps;
      var executed := ExecuteSteps(sem, Some(db), steps, queues, batch);
      && (executed == Run(sem, Some(db), BatchItems(batch, 0, |batch|)) <==> PlanUnchained(queues, steps))
      && (!PlanUnchained(queues, steps) ==> executed == None)
  {
    hide PlanUnchained;
    var bounds := PlanTiles(batch, laneCount, hashes);
    hide PlanOf, SourceOk, OverlapsJoined, EpochOk, PlanQueues, OrdersOk, StoredThroughout, Run, BatchItems, StepOk;
    StepsExecuted(sem, db, PlanOf(batch, laneCount, hashes).steps, bounds, orders, queues, batch, laneCount, hashes);
  }

  // --- Where nothing can be chained ---

  predicate RelationsKept(items: seq<Item>) {
    forall x :: x in items && RowLane(x.relation) ==> IdentityKept(x.relation)
  }

  lemma KeptQueued(q: Queued, lane: seq<Item>)
    requires Translates(q, lane) && lane != [] && RelationsKept(lane)
    ensures QueuedUnchained(q)
  {
    hide IdentityKept, RowLane, AllUnchained, AllSound;
    assert lane[0] in lane;
    if RowLane(q.relation) {
      KeptAllUnchained(q.relation, q.statements);
    }
  }

  /** Lanes of relations that keep identities in unique indexes and set rows without looking first are always
      unchained. */
  lemma KeptQueue(queue: seq<Queued>, items: seq<Item>)
    requires LaneQueue(queue, items) && RelationsKept(items)
    ensures QueueUnchained(queue)
  {
    hide QueuedUnchained, Translates, Coalesced, FirstSeen, Select, HasLabel, IdentityKept, RowLane;
    CoalescedSubset(items);
    var kept := Coalesced(items);
    var relations := FirstSeen(kept);
    forall p | 0 <= p < |queue| ensures QueuedUnchained(queue[p]) {
      assert relations[p] in relations && Occurs(kept, relations[p]);
      RelationLane(kept, relations[p]);
      KeptQueued(queue[p], Select(HasLabel(RelationOf, relations[p]), kept));
    }
  }

  // --- Queueing a lane ---

  /** Every way to run the relation's changes fails on a table that obeys its constraints. */
  ghost predicate Refusable(r: TargetRelation, lane: seq<Item>) {
    forall t :: StoredOk(r, t) ==> TableRun(r, ChangesOf(lane), Some(t)) == None
  }

  lemma {:induction false} ChangesNext(items: seq<Item>, item: Item)
    ensures ChangesOf(items + [item]) == ChangesOf(items) + [item.change]
  {
    assert (items + [item])[..|items|] == items;
  }

  method CollectChanges(items: seq<Item>) returns (changes: seq<Change>)
    ensures changes == ChangesOf(items)
    ensures |changes| == |items| && forall i :: 0 <= i < |items| ==> changes[i] == items[i].change
  {
    changes := [];
    for i := 0 to |items|
      invariant changes == ChangesOf(items[..i])
      invariant |changes| == i && forall j :: 0 <= j < i ==> changes[j] == items[j].change
    {
      ChangesNext(items[..i], items[i]);
      assert items[..i + 1] == items[..i] + [items[i]];
      changes := changes + [items[i].change];
    }
    assert items[..|items|] == items;
  }

  method QueueRelation(r: TargetRelation, lane: seq<Item>, chunkRows: nat) returns (result: Result<Queued, ReplayError>)
    requires (forall x :: x in lane ==> x.relation == r && x.change.kind != Truncate) && 0 < chunkRows <= CHUNK_ROWS
    ensures result.Success? ==> result.value.relation == r && Translates(result.value, lane)
    ensures result.Success? ==> WellCut(r, result.value.statements, chunkRows)
    ensures result.Failure? ==> Refusable(r, lane)
  {
    hide WellCut, StoredOk, ExecuteAll, TableRun, AllSound;
    var changes := CollectChanges(lane);
    var statements := LaneStatements(r, changes, chunkRows);
    if statements.Failure? {
      return Failure(statements.error);
    }
    result := Success(Queued(r, lane, statements.value));
  }

  lemma SeenOccurs(items: seq<Item>, r: TargetRelation)
    requires r in FirstSeen(items)
    ensures Occurs(items, r)
  {
  }

  /** queueParallelReplayLane. A lane refused before anything is sent has a change whose key is malformed,
      or a relation whose changes fail one by one as well. */
  method QueueLane(items: seq<Item>, chunkRows: nat) returns (result: Result<seq<Queued>, ReplayError>)
    requires (forall x :: x in items ==> x.change.kind != Truncate) && 0 < chunkRows <= CHUNK_ROWS
    ensures result.Success? ==> LaneQueue(result.value, items)
    ensures result.Success? ==> forall q :: q in result.value ==> WellCut(q.relation, q.statements, chunkRows)
    ensures result.Failure? ==>
              || (exists i :: 0 <= i < |items| && CoalesceKey(items[i]).Failure?)
              || (exists r :: r in FirstSeen(Coalesced(items)) &&
                              Refusable(r, Select(HasLabel(RelationOf, r), Coalesced(items))))
  {
    hide Coalesced, FirstSeen, CoalesceKey, Translates, Refusable, WellCut, Select, HasLabel, KeptFrom, DroppedAt;
    var coalesced := CoalesceReplayLaneUpdates(items);
    if coalesced.Failure? {
      return Failure(coalesced.error);
    }
    CoalescedSubset(items);
    var kept := coalesced.value;
    var relationLanes := CollectRelations(kept);
    ghost var relations := FirstSeen(kept);
    var queue := [];
    for p := 0 to |relationLanes|
      invariant Queues(queue, relations[..p], kept)
      invariant forall q :: q in queue ==> WellCut(q.relation, q.statements, chunkRows)
    {
      assert relationLanes[p] == Select(HasLabel(RelationOf, relations[p]), kept);
      assert relations[p] in relations;
      SeenOccurs(kept, relations[p]);
      RelationLane(kept, relations[p]);
      var entry := QueueRelation(relationLanes[p][0].relation, relationLanes[p], chunkRows);
      if entry.Failure? {
        return Failure(entry.error);
      }
      queue := queue + [entry.value];
    }
    assert relations[..|relations|] == relations;
    result := Success(queue);
  }
}
