/** A batch in one target transaction, as it is sent: ordered steps, and lanes of one relation each as their
    set statements (queueRelationBatchedChanges, internal/cdc/applier.go:1090-1114). */
module BatchExecution {
  import opened Wrappers
  import opened Model
  import opened Catalog
  import opened Target
  import opened Dependence
  import opened SetDml
  import opened Serializability
  import opened LegacyUpdates
  import opened Statements
  import opened LaneExecution
  import RelationBatching

  type ReplayStep = RelationBatching.ReplayStep

  /** One entry per lane of the step; an ordered step runs its changes in order. */
  predicate LanesQueued(queue: seq<Queued>, lanes: seq<seq<Item>>) {
    && |queue| == |lanes|
    && forall p :: 0 <= p < |lanes| ==> lanes[p] != [] && Translates(queue[p], lanes[p])
  }

  predicate StepQueued(queue: seq<Queued>, step: ReplayStep) {
    !step.ordered ==> LanesQueued(queue, step.lanes)
  }

  predicate StepsQueued(queues: seq<seq<Queued>>, steps: seq<ReplayStep>) {
    |queues| == |steps| && forall i :: 0 <= i < |steps| ==> StepQueued(queues[i], steps[i])
  }

  ghost function ExecuteStep(sem: Semantics, db: Option<Database>, step: ReplayStep, queue: seq<Queued>): Option<Database> {
    if step.ordered then Run(sem, db, step.items) else ExecuteQueue(sem, db, queue)
  }

  ghost function ExecuteSteps(
    sem: Semantics, db: Option<Database>, steps: seq<ReplayStep>, queues: seq<seq<Queued>>): Option<Database>
    requires |queues| == |steps|
  {
    if steps == [] then db
    else
      var last := |steps| - 1;
      ExecuteStep(sem, ExecuteSteps(sem, db, steps[..last], queues[..last]), steps[last], queues[last])
  }

  predicate StepUnchained(step: ReplayStep, queue: seq<Queued>) {
    !step.ordered ==> QueueUnchained(queue)
  }

  predicate StepsUnchained(steps: seq<ReplayStep>, queues: seq<seq<Queued>>) {
    |queues| == |steps| && forall i :: 0 <= i < |steps| ==> StepUnchained(steps[i], queues[i])
  }

  /** Changes of lanes stay inside their relations. */
  predicate StepLocal(step: ReplayStep) {
    !step.ordered ==> forall lane, x :: lane in step.lanes && x in lane ==> RelationLocal(x)
  }

  /** Whenever a change is next, its table obeys the constraints of its relation. */
  ghost predicate StoredAlong(sem: Semantics, db: Database, items: seq<Item>) {
    forall i :: 0 <= i < |items| ==>
      var reached := Run(sem, Some(db), items[..i]);
      reached.Some? ==> TablesOk(reached.value, [items[i]])
  }

  lemma StoredBefore(sem: Semantics, db: Database, xs: seq<Item>, ys: seq<Item>)
    requires StoredAlong(sem, db, xs + ys)
    ensures StoredAlong(sem, db, xs)
  {
    hide Run, TablesOk;
    forall i | 0 <= i < |xs| ensures (xs + ys)[..i] == xs[..i] && (xs + ys)[i] == xs[i] {
    }
  }

  lemma StoredAfter(sem: Semantics, db: Database, xs: seq<Item>, ys: seq<Item>)
    requires StoredAlong(sem, db, xs + ys) && Run(sem, Some(db), xs).Some?
    ensures StoredAlong(sem, Run(sem, Some(db), xs).value, ys)
  {
    hide Run, TablesOk;
    var after := Run(sem, Some(db), xs).value;
    forall i | 0 <= i < |ys|
      ensures
        var reached := Run(sem, Some(after), ys[..i]);
        reached.Some? ==> TablesOk(reached.value, [ys[i]])
    {
      RunConcat(sem, Some(db), xs, ys[..i]);
      assert (xs + ys)[..|xs| + i] == xs + ys[..i] && (xs + ys)[|xs| + i] == ys[i];
    }
  }

  lemma LaneStored(sem: Semantics, db: Database, lane: seq<Item>, r: TargetRelation)
    requires lane != [] && StoredAlong(sem, db, lane) && forall x :: x in lane ==> x.relation == r
    ensures TablesOk(db, lane)
  {
    hide StoredOk, RowLane;
    assert lane[..0] == [] && lane[0] in lane;
    RunNone(sem, db);
    hide Run;
    assert TablesOk(db, [lane[0]]) && lane[0] in [lane[0]];
  }

  lemma {:induction false} LanesExecuted(sem: Semantics, db: Database, lanes: seq<seq<Item>>, queue: seq<Queued>)
    requires LanesQueued(queue, lanes) && StoredAlong(sem, db, RelationBatching.Flat(lanes))
    requires forall lane, x :: lane in lanes && x in lane ==> RelationLocal(x)
    ensures
      Agrees(
        QueueUnchained(queue), ExecuteQueue(sem, Some(db), queue), Run(sem, Some(db), RelationBatching.Flat(lanes)))
    decreases |lanes|
  {
    hide Translates, RelationLocal, StoredAlong, TablesOk, ExecuteRelation, QueuedUnchained, Run;
    if lanes == [] {
      RunNone(sem, db);
    } else {
      var lane, rest := lanes[0], RelationBatching.Flat(lanes[1..]);
      assert RelationBatching.Flat(lanes) == lane + rest && lane in lanes && Translates(queue[0], lane);
      StoredBefore(sem, db, lane, rest);
      OneRelation(queue[0], lane);
      LaneStored(sem, db, lane, queue[0].relation);
      RelationExecuted(sem, db, queue[0], lane);
      RunConcat(sem, Some(db), lane, rest);
      UnchainedSplit(queue);
      FailedQueue(sem, queue[1..]);
      RunFailed(sem, rest);
      hide QueueUnchained;
      var after := Run(sem, Some(db), lane);
      if after.Some? {
        StoredAfter(sem, db, lane, rest);
        LanesExecuted(sem, after.value, lanes[1..], queue[1..]);
      }
    }
  }

  lemma OneRelation(q: Queued, lane: seq<Item>)
    requires Translates(q, lane)
    ensures forall x :: x in lane ==> x.relation == q.relation
  {
  }

  lemma StepExecuted(sem: Semantics, db: Database, step: ReplayStep, queue: seq<Queued>)
    requires StepQueued(queue, step) && StepLocal(step)
    requires StoredAlong(sem, db, RelationBatching.QueuedStep(step))
    ensures
      Agrees(
        StepUnchained(step, queue), ExecuteStep(sem, Some(db), step, queue),
        Run(sem, Some(db), RelationBatching.QueuedStep(step)))
  {
    hide StoredAlong, LanesQueued, QueueUnchained, ExecuteQueue, Run, RelationLocal;
    if !step.ordered {
      LanesExecuted(sem, db, step.lanes, queue);
    }
  }

  lemma StepsSplit(steps: seq<ReplayStep>, queues: seq<seq<Queued>>)
    requires StepsQueued(queues, steps) && steps != []
    ensures
      var last := |steps| - 1;
      && StepsQueued(queues[..last], steps[..last]) && StepQueued(queues[last], steps[last])
      && (StepsUnchained(steps, queues) <==>
            StepsUnchained(steps[..last], queues[..last]) && StepUnchained(steps[last], queues[last]))
  {
    hide StepQueued, StepUnchained;
  }

  lemma FailedStep(sem: Semantics, step: ReplayStep, queue: seq<Queued>)
    ensures ExecuteStep(sem, None, step, queue) == None
  {
    FailedQueue(sem, queue);
    RunFailed(sem, step.items);
  }

  lemma {:induction false} StepsExecuted(
    sem: Semantics, db: Database, steps: seq<ReplayStep>, queues: seq<seq<Queued>>)
    requires StepsQueued(queues, steps) && (forall step :: step in steps ==> StepLocal(step))
    requires StoredAlong(sem, db, RelationBatching.QueuedSteps(steps))
    ensures
      Agrees(
        StepsUnchained(steps, queues), ExecuteSteps(sem, Some(db), steps, queues),
        Run(sem, Some(db), RelationBatching.QueuedSteps(steps)))
    decreases |steps|
  {
    hide StoredAlong, StepQueued, StepUnchained, StepLocal, ExecuteStep, Run, RelationBatching.QueuedStep;
    if steps == [] {
      RunNone(sem, db);
    } else {
      var last := |steps| - 1;
      var before, mine := RelationBatching.QueuedSteps(steps[..last]), RelationBatching.QueuedStep(steps[last]);
      assert RelationBatching.QueuedSteps(steps) == before + mine;
      StepsSplit(steps, queues);
      hide StepsQueued, StepsUnchained;
      StoredBefore(sem, db, before, mine);
      StepsExecuted(sem, db, steps[..last], queues[..last]);
      RunConcat(sem, Some(db), before, mine);
      FailedStep(sem, steps[last], queues[last]);
      RunFailed(sem, mine);
      var after := Run(sem, Some(db), before);
      if after.Some? {
        StoredAfter(sem, db, before, mine);
        StepExecuted(sem, after.value, steps[last], queues[last]);
      }
    }
  }

  // --- Whole batches ---

  lemma {:induction false} LaneListHolds(instanceOf: Item -> nat, labels: seq<nat>, items: seq<Item>)
    ensures forall lane, x :: lane in RelationBatching.LaneList(instanceOf, labels, items) && x in lane ==> x in items
    decreases |labels|
  {
    if labels != [] {
      LaneListHolds(instanceOf, labels[..|labels| - 1], items);
    }
  }

  lemma {:induction false} SegmentHolds(segments: seq<RelationBatching.Segment>, n: nat, x: Item)
    requires n < |segments| && x in segments[n].items
    ensures x in RelationBatching.AllItems(segments)
    decreases |segments|
  {
    if n < |segments| - 1 {
      SegmentHolds(segments[..|segments| - 1], n, x);
    }
  }

  lemma StepsLocal(instanceOf: Item -> nat, steps: seq<ReplayStep>, items: seq<Item>)
    requires RelationBatching.StepsFor(instanceOf, steps, RelationBatching.Segments(items))
    requires RelationBatching.CatalogOk(items)
    ensures forall step :: step in steps ==> StepLocal(step)
  {
    hide RelationBatching.Segments, RelationBatching.FirstInstances, RelationBatching.LaneList;
    var segments := RelationBatching.Segments(items);
    RelationBatching.SegmentsHoldItems(items);
    forall n, lane, x | 0 <= n < |steps| && !steps[n].ordered && lane in steps[n].lanes && x in lane
      ensures RelationLocal(x)
    {
      assert RelationBatching.StepFor(instanceOf, steps[n], segments[n]);
      LaneListHolds(instanceOf, RelationBatching.FirstInstances(instanceOf, segments[n].items), segments[n].items);
      SegmentHolds(segments, n, x);
      assert segments[n] in segments && RelationBatching.LaneSafe(x);
    }
  }

  /** A batch resolved through the cache, regrouped by relation and sent as set statements leaves the target as
      source order does, failures included, if its statements are unchained; if they are not, it fails unless
      source order does. */
  lemma SentBatchPreservesRun(
    sem: Semantics, db: Database, calls: seq<RelationBatching.Call>, instanceOf: Item -> nat, batch: seq<Transaction>,
    steps: seq<ReplayStep>, queues: seq<seq<Queued>>)
    requires
      var items := BatchItems(batch, 0, |batch|);
      && RelationBatching.CallsInOrder(calls) && RelationBatching.CatalogOk(items)
      && (forall x :: x in items ==> RelationBatching.ResolvedTo(calls, x, instanceOf(x)))
      && RelationBatching.StepsFor(instanceOf, steps, RelationBatching.Segments(items))
      && StoredAlong(sem, db, RelationBatching.Batched(instanceOf, items))
    requires StepsQueued(queues, steps)
    ensures
      Agrees(
        StepsUnchained(steps, queues), ExecuteSteps(sem, Some(db), steps, queues),
        Run(sem, Some(db), BatchItems(batch, 0, |batch|)))
  {
    var items := BatchItems(batch, 0, |batch|);
    RelationBatching.QueuedStepsAre(instanceOf, steps, RelationBatching.Segments(items));
    StepsLocal(instanceOf, steps, items);
    hide RelationBatching.StepsFor, RelationBatching.Segments, RelationBatching.AllQueued;
    hide BatchItems, RelationBatching.QueuedSteps, RelationBatching.CallsInOrder;
    hide RelationBatching.CatalogOk, RelationBatching.ResolvedTo, StoredAlong, StepsQueued, StepLocal, Run;
    hide StepsUnchained, ExecuteSteps;
    RelationBatching.RegroupedBatchPreservesRun(sem, Some(db), calls, instanceOf, batch);
    StepsExecuted(sem, db, steps, queues);
  }

  // --- Queueing a batch ---

  predicate OfOneRelation(lane: seq<Item>) {
    lane != [] && forall x :: x in lane ==> x.relation == lane[0].relation && x.change.kind != Truncate
  }

  /** Every way to run one of the lanes fails. */
  ghost predicate LaneRefusable(lanes: seq<seq<Item>>) {
    exists p :: 0 <= p < |lanes| && lanes[p] != [] && Refusable(lanes[p][0].relation, lanes[p])
  }

  method QueueLanes(lanes: seq<seq<Item>>, chunkRows: nat) returns (result: Result<seq<Queued>, ReplayError>)
    requires (forall lane :: lane in lanes ==> OfOneRelation(lane)) && 0 < chunkRows <= CHUNK_ROWS
    ensures result.Success? ==> LanesQueued(result.value, lanes)
    ensures result.Success? ==> forall q :: q in result.value ==> WellCut(q.relation, q.statements, chunkRows)
    ensures result.Failure? ==> LaneRefusable(lanes)
  {
    hide Translates, Refusable, WellCut;
    var queue := [];
    for p := 0 to |lanes|
      invariant LanesQueued(queue, lanes[..p])
      invariant forall q :: q in queue ==> WellCut(q.relation, q.statements, chunkRows)
    {
      assert lanes[p] in lanes;
      var entry := QueueRelation(lanes[p][0].relation, lanes[p], chunkRows);
      if entry.Failure? {
        return Failure(entry.error);
      }
      queue := queue + [entry.value];
    }
    assert lanes[..|lanes|] == lanes;
    result := Success(queue);
  }

  /** queueRelationBatchedChanges: the lanes of every step as statements, or a lane that fails one by one as
      well. */
  method QueueSteps(steps: seq<ReplayStep>, chunkRows: nat) returns (result: Result<seq<seq<Queued>>, ReplayError>)
    requires forall i, lane :: 0 <= i < |steps| && !steps[i].ordered && lane in steps[i].lanes ==> OfOneRelation(lane)
    requires 0 < chunkRows <= CHUNK_ROWS
    ensures result.Success? ==> StepsQueued(result.value, steps)
    ensures result.Success? ==> forall queue, q :: queue in result.value && q in queue ==>
              WellCut(q.relation, q.statements, chunkRows)
    ensures result.Failure? ==>
              exists i :: 0 <= i < |steps| && !steps[i].ordered && LaneRefusable(steps[i].lanes)
  {
    hide LanesQueued, LaneRefusable, WellCut;
    var queues := [];
    for i := 0 to |steps|
      invariant StepsQueued(queues, steps[..i])
      invariant forall queue, q :: queue in queues && q in queue ==> WellCut(q.relation, q.statements, chunkRows)
    {
      var queue := [];
      if !steps[i].ordered {
        var lanes := QueueLanes(steps[i].lanes, chunkRows);
        if lanes.Failure? {
          return Failure(lanes.error);
        }
        queue := lanes.value;
      }
      queues := queues + [queue];
    }
    assert steps[..|steps|] == steps;
    result := Success(queues);
  }
}
