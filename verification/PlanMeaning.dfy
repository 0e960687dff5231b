/** What a plan decides: which source transactions become barriers, that epochs are as long as they can be, and
    when the batch is worth a claim (buildReplayPlanForGenerationVersion, internal/cdc/replay_plan.go:106-219,
    and shouldUseConcurrentReplayPlan, internal/cdc/applier.go:929-935). */
module PlanMeaning {
  import opened Wrappers
  import opened Model
  import opened Catalog
  import opened Components
  import opened Planner

  /** What the latest of the first `n` transactions that names a relation says it is. */
  function LastDefinition(batch: seq<Transaction>, n: nat, oid: Oid): Option<TargetRelation>
    requires n <= |batch|
  {
    if n == 0 then None
    else
      match Resolve(batch[n - 1].relations, oid)
      case Some(r) => Some(r)
      case None => LastDefinition(batch, n - 1, oid)
  }

  /** A transaction names a relation that an earlier one last defined differently. */
  predicate Redefines(batch: seq<Transaction>, n: nat)
    requires n < |batch|
  {
    exists r :: r in batch[n].relations &&
      var before := LastDefinition(batch, n, r.source.oid);
      before.Some? && before != Resolve(batch[n].relations, r.source.oid)
  }

  /** Every change has a dependency key. */
  predicate AllKeyed(t: Transaction) {
    forall i :: 0 <= i < |t.changes| ==> ChangeKey(t, t.changes[i]).Success? && ChangeKey(t, t.changes[i]).value.Some?
  }

  predicate IsBarrier(batch: seq<Transaction>, n: nat)
    requires n < |batch|
  {
    batch[n].spilled || Redefines(batch, n) || !AllKeyed(batch[n])
  }

  ghost predicate KnowsDefinitions(batch: seq<Transaction>, n: nat, definitions: map<Oid, TargetRelation>)
    requires n <= |batch|
  {
    forall oid :: LastDefinition(batch, n, oid) == if oid in definitions then Some(definitions[oid]) else None
  }

  lemma DefinitionsNext(batch: seq<Transaction>, n: nat, definitions: map<Oid, TargetRelation>)
    requires n < |batch| && KnowsDefinitions(batch, n, definitions)
    ensures KnowsDefinitions(batch, n + 1, Record(definitions, batch[n].relations))
  {
    hide Record, Resolve;
    forall oid
      ensures
        var recorded := Record(definitions, batch[n].relations);
        LastDefinition(batch, n + 1, oid) == if oid in recorded then Some(recorded[oid]) else None
    {
      RecordMeaning(definitions, batch[n].relations, oid);
    }
  }

  lemma SafeIff(batch: seq<Transaction>, n: nat, definitions: map<Oid, TargetRelation>)
    requires n < |batch| && KnowsDefinitions(batch, n, definitions)
    ensures ParallelSafe(definitions, batch[n]) <==> !IsBarrier(batch, n)
  {
    hide ChangeKey, Resolve, LastDefinition;
    LaneSafeMeaning(batch[n], |batch[n].changes|);
    forall r | r in batch[n].relations
      ensures Redefined(definitions, batch[n].relations, r.source.oid) <==>
        var before := LastDefinition(batch, n, r.source.oid);
        before.Some? && before != Resolve(batch[n].relations, r.source.oid)
    {
    }
  }

  predicate IsParallel(step: Step) {
    step.serialTransaction < 0
  }

  ghost predicate RunsAlone(steps: seq<Step>, i: nat) {
    exists step :: step in steps && step.serialTransaction == i
  }

  /** Exactly the barriers among the first `n` transactions run alone. */
  ghost predicate BarriersAlone(steps: seq<Step>, batch: seq<Transaction>, n: nat)
    requires n <= |batch|
  {
    forall i: nat :: RunsAlone(steps, i) <==> i < n && IsBarrier(batch, i)
  }

  ghost predicate NoNeighbours(steps: seq<Step>) {
    forall k :: 0 < k < |steps| ==> !(IsParallel(steps[k - 1]) && IsParallel(steps[k]))
  }

  ghost predicate SomeLanes(steps: seq<Step>) {
    exists step :: step in steps && IsParallel(step) && |step.lanes| > 1
  }

  ghost predicate PlanSays(plan: Plan, batch: seq<Transaction>, n: nat)
    requires n <= |batch|
  {
    BarriersAlone(plan.steps, batch, n) && NoNeighbours(plan.steps) && (plan.hasParallel <==> SomeLanes(plan.steps))
  }

  /** Between turns the plan ends with a barrier, if it is not empty. */
  ghost predicate EndsWithBarrier(state: PlannerState) {
    state.plan.steps != [] ==> !IsParallel(state.plan.steps[|state.plan.steps| - 1])
  }

  lemma OneMoreStep(steps: seq<Step>, step: Step)
    ensures forall i: nat :: RunsAlone(steps + [step], i) <==> RunsAlone(steps, i) || step.serialTransaction == i
    ensures SomeLanes(steps + [step]) <==> SomeLanes(steps) || (IsParallel(step) && |step.lanes| > 1)
    ensures NoNeighbours(steps) && (steps != [] && IsParallel(step) ==> !IsParallel(steps[|steps| - 1])) ==>
      NoNeighbours(steps + [step])
  {
    assert forall x :: x in steps + [step] <==> x in steps || x == step;
  }

  lemma FlushSays(state: PlannerState, batch: seq<Transaction>, n: nat, laneCount: nat, hashes: Hashes)
    requires n <= |batch| && laneCount > 0 && EpochInBatch(state.epoch, batch)
    requires PlanSays(state.plan, batch, n) && EndsWithBarrier(state)
    ensures PlanSays(Flush(state.plan, state.epoch, batch, laneCount, hashes), batch, n)
  {
    hide FlushedLanes, RunsAlone, SomeLanes, NoNeighbours, IsBarrier;
    if state.epoch != [] {
      var lanes := FlushedLanes(|state.plan.steps|, state.epoch, batch, laneCount, hashes);
      OneMoreStep(state.plan.steps, Step(|state.plan.steps|, lanes, -1));
    }
  }

  lemma BarrierSays(plan: Plan, batch: seq<Transaction>, n: nat, step: Step, works: seq<Work>)
    requires n < |batch| && PlanSays(plan, batch, n) && IsBarrier(batch, n) && step.serialTransaction == n
    ensures PlanSays(Plan(plan.steps + [step], works, plan.hasParallel), batch, n + 1)
  {
    hide RunsAlone, SomeLanes, NoNeighbours, IsBarrier;
    OneMoreStep(plan.steps, step);
  }

  ghost predicate StateSays(state: PlannerState, batch: seq<Transaction>, n: nat)
    requires n <= |batch|
  {
    PlanSays(state.plan, batch, n) && KnowsDefinitions(batch, n, state.definitions)
  }

  lemma KeyedSays(plan: Plan, batch: seq<Transaction>, n: nat)
    requires n < |batch| && PlanSays(plan, batch, n) && !IsBarrier(batch, n)
    ensures PlanSays(plan, batch, n + 1)
  {
    hide RunsAlone, SomeLanes, NoNeighbours, IsBarrier;
  }

  lemma AdvanceSays(state: PlannerState, batch: seq<Transaction>, n: nat, laneCount: nat, hashes: Hashes)
    requires n < |batch| && laneCount > 0 && EpochInBatch(state.epoch, batch) && StateSays(state, batch, n)
    requires EndsWithBarrier(state)
    ensures
      var next := Advance(state, batch, n, laneCount, hashes);
      StateSays(next, batch, n + 1) && EndsWithBarrier(next)
  {
    SafeIff(batch, n, state.definitions);
    DefinitionsNext(batch, n, state.definitions);
    hide Flush, ParallelSafe, IsBarrier, KnowsDefinitions, Record, Planned, PlanSays;
    if IsBarrier(batch, n) {
      FlushSays(state, batch, n, laneCount, hashes);
      var plan := Flush(state.plan, state.epoch, batch, laneCount, hashes);
      BarrierSays(plan, batch, n, Step(|plan.steps|, [], n), plan.works + [SerialWork(|plan.steps|, n, batch[n])]);
    } else {
      KeyedSays(state.plan, batch, n);
    }
  }

  lemma {:induction false} UpToSays(batch: seq<Transaction>, n: nat, laneCount: nat, hashes: Hashes)
    requires n <= |batch| && laneCount > 0
    ensures
      var state := PlanUpTo(batch, n, laneCount, hashes);
      StateSays(state, batch, n) && EndsWithBarrier(state)
    decreases n
  {
    hide Advance, StateSays, EndsWithBarrier;
    if n == 0 {
      NothingPlanned(batch);
    } else {
      UpToSays(batch, n - 1, laneCount, hashes);
      AdvanceSays(PlanUpTo(batch, n - 1, laneCount, hashes), batch, n - 1, laneCount, hashes);
    }
  }

  lemma NothingPlanned(batch: seq<Transaction>)
    ensures
      var state := PlannerState(Plan([], [], false), [], map[]);
      StateSays(state, batch, 0) && EndsWithBarrier(state)
  {
  }

  /** In the plan of every batch exactly the barriers run alone: spilled transactions, those that define a
      relation anew and those with a change without a key. Two epochs never stand side by side, so no epoch
      could be longer; and the plan is for a claim exactly if some epoch has more than one lane. */
  lemma PlanDecides(batch: seq<Transaction>, laneCount: nat, hashes: Hashes)
    requires laneCount > 0
    ensures
      var plan := PlanOf(batch, laneCount, hashes);
      && (forall i: nat :: RunsAlone(plan.steps, i) <==> i < |batch| && IsBarrier(batch, i))
      && NoNeighbours(plan.steps)
      && (plan.hasParallel <==> SomeLanes(plan.steps))
  {
    hide Flush, IsBarrier, RunsAlone, SomeLanes, NoNeighbours;
    UpToSays(batch, |batch|, laneCount, hashes);
    FlushSays(PlanUpTo(batch, |batch|, laneCount, hashes), batch, |batch|, laneCount, hashes);
  }
}
