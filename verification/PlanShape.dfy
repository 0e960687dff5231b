/** What every plan looks like: its steps tile the batch into serial transactions and epochs, and
    each parallel step holds exactly the lanes of its epoch. */
module PlanShape {
  import opened Wrappers
  import opened Model
  import opened Catalog
  import opened Components
  import opened Planner

  /** `definitions` holds every relation the transactions `lo..hi` resolve. */
  ghost predicate DefinitionsKnown(batch: seq<Transaction>, lo: nat, hi: nat, definitions: map<Oid, TargetRelation>)
    requires hi <= |batch|
  {
    forall i, oid {:trigger Resolve(batch[i].relations, oid)} ::
      lo <= i < hi && Resolve(batch[i].relations, oid).Some? ==>
        oid in definitions && definitions[oid] == Resolve(batch[i].relations, oid).value
  }

  /** Relation metadata does not change between transactions `lo` and `hi`. */
  ghost predicate StableDefinitions(batch: seq<Transaction>, lo: nat, hi: nat)
    requires hi <= |batch|
  {
    exists definitions :: DefinitionsKnown(batch, lo, hi, definitions)
  }

  /** The transactions `lo..hi` may share an epoch. */
  ghost predicate EpochOk(batch: seq<Transaction>, lo: nat, hi: nat) {
    && lo < hi <= |batch|
    && (forall i :: lo <= i < hi ==> !batch[i].spilled && Keyed(batch[i]))
    && StableDefinitions(batch, lo, hi)
  }

  ghost function EpochOf(batch: seq<Transaction>, hashes: Hashes, lo: nat, hi: nat): (epoch: seq<PlanTransaction>)
    requires lo <= hi <= |batch|
    ensures |epoch| == hi - lo && EpochInBatch(epoch, batch)
  {
    if lo == hi then [] else EpochOf(batch, hashes, lo, hi - 1) + [Planned(hashes, hi - 1, batch[hi - 1])]
  }

  lemma {:induction false} EpochAt(batch: seq<Transaction>, hashes: Hashes, lo: nat, hi: nat, j: nat)
    requires lo <= hi <= |batch| && j < hi - lo
    ensures EpochOf(batch, hashes, lo, hi)[j] == Planned(hashes, lo + j, batch[lo + j])
    decreases hi
  {
    hide Planned;
    if j < hi - lo - 1 {
      EpochAt(batch, hashes, lo, hi - 1, j);
    }
  }

  ghost predicate StepOk(
    step: Step, index: nat, lo: nat, hi: nat, batch: seq<Transaction>, laneCount: nat, hashes: Hashes)
    requires laneCount > 0
  {
    && step.index == index
    && lo < hi <= |batch|
    && if step.serialTransaction >= 0 then
         hi == lo + 1 && step.serialTransaction == lo && step.lanes == []
       else
         step.serialTransaction == -1 && EpochOk(batch, lo, hi) &&
         step.lanes == FlushedLanes(index, EpochOf(batch, hashes, lo, hi), batch, laneCount, hashes)
  }

  /** `bounds` cuts the first `bounds[|steps|]` transactions into the steps. */
  ghost predicate Tiles(
    steps: seq<Step>, bounds: seq<nat>, batch: seq<Transaction>, laneCount: nat, hashes: Hashes)
    requires laneCount > 0
  {
    && |bounds| == |steps| + 1
    && bounds[0] == 0
    && forall k :: 0 <= k < |steps| ==> StepOk(steps[k], k, bounds[k], bounds[k + 1], batch, laneCount, hashes)
  }

  ghost function StepWorks(step: Step, batch: seq<Transaction>): seq<Work>
    requires step.serialTransaction < |batch|
  {
    if step.serialTransaction >= 0 then [SerialWork(step.index, step.serialTransaction, batch[step.serialTransaction])]
    else WorksOf(step.lanes)
  }

  /** The work manifest lists the works of the steps in order. */
  ghost predicate ManifestOf(steps: seq<Step>, works: seq<Work>, batch: seq<Transaction>)
    decreases |steps|
  {
    if steps == [] then works == []
    else
      var last := steps[|steps| - 1];
      && last.serialTransaction < |batch|
      && |StepWorks(last, batch)| <= |works|
      && works[|works| - |StepWorks(last, batch)|..] == StepWorks(last, batch)
      && ManifestOf(steps[..|steps| - 1], works[..|works| - |StepWorks(last, batch)|], batch)
  }

  lemma ExtendTiles(
    steps: seq<Step>, bounds: seq<nat>, step: Step, hi: nat, batch: seq<Transaction>, laneCount: nat, hashes: Hashes)
    requires laneCount > 0 && Tiles(steps, bounds, batch, laneCount, hashes)
    requires StepOk(step, |steps|, bounds[|steps|], hi, batch, laneCount, hashes)
    ensures Tiles(steps + [step], bounds + [hi], batch, laneCount, hashes)
  {
    forall k | 0 <= k < |steps| + 1
      ensures StepOk((steps + [step])[k], k, (bounds + [hi])[k], (bounds + [hi])[k + 1], batch, laneCount, hashes)
    {
      if k < |steps| {
        assert StepOk(steps[k], k, bounds[k], bounds[k + 1], batch, laneCount, hashes);
      }
    }
  }

  lemma PrefixTiles(steps: seq<Step>, bounds: seq<nat>, batch: seq<Transaction>, laneCount: nat, hashes: Hashes)
    requires laneCount > 0 && steps != [] && Tiles(steps, bounds, batch, laneCount, hashes)
    ensures Tiles(steps[..|steps| - 1], bounds[..|steps|], batch, laneCount, hashes)
    ensures bounds[|steps| - 1] < bounds[|steps|] <= |batch|
  {
    assert StepOk(steps[|steps| - 1], |steps| - 1, bounds[|steps| - 1], bounds[|steps|], batch, laneCount, hashes);
    forall k | 0 <= k < |steps| - 1
      ensures StepOk(steps[..|steps| - 1][k], k, bounds[..|steps|][k], bounds[..|steps|][k + 1], batch, laneCount, hashes)
    {
      assert StepOk(steps[k], k, bounds[k], bounds[k + 1], batch, laneCount, hashes);
    }
  }

  lemma ExtendManifest(steps: seq<Step>, works: seq<Work>, step: Step, batch: seq<Transaction>)
    requires ManifestOf(steps, works, batch) && step.serialTransaction < |batch|
    ensures ManifestOf(steps + [step], works + StepWorks(step, batch), batch)
  {
    var more := works + StepWorks(step, batch);
    assert (steps + [step])[..|steps + [step]| - 1] == steps;
    assert more[..|more| - |StepWorks(step, batch)|] == works;
  }

  /** Where the planner stands after `n` transactions: `bounds` tiles the flushed ones and the open
      epoch starts at `lo`. */
  ghost predicate Standing(
    state: PlannerState, bounds: seq<nat>, lo: nat, n: nat, batch: seq<Transaction>, laneCount: nat, hashes: Hashes)
    requires laneCount > 0
  {
    && lo <= n <= |batch|
    && Tiles(state.plan.steps, bounds, batch, laneCount, hashes)
    && bounds[|state.plan.steps|] == lo
    && ManifestOf(state.plan.steps, state.plan.works, batch)
    && (lo < n ==> EpochOk(batch, lo, n))
    && state.epoch == EpochOf(batch, hashes, lo, n)
    && DefinitionsKnown(batch, lo, n, state.definitions)
  }

  /** A transaction without changed definitions agrees with everything already in the epoch. */
  lemma EpochGrows(
    batch: seq<Transaction>, lo: nat, n: nat, definitions: map<Oid, TargetRelation>)
    requires lo <= n < |batch| && (lo < n ==> EpochOk(batch, lo, n))
    requires DefinitionsKnown(batch, lo, n, definitions) && ParallelSafe(definitions, batch[n])
    ensures EpochOk(batch, lo, n + 1)
    ensures DefinitionsKnown(batch, lo, n + 1, Record(definitions, batch[n].relations))
  {
    hide Resolve, Record, LaneSafeUpTo;
    var t, recorded := batch[n], Record(definitions, batch[n].relations);
    forall i, oid | lo <= i < n + 1 && Resolve(batch[i].relations, oid).Some?
      ensures oid in recorded && recorded[oid] == Resolve(batch[i].relations, oid).value
    {
      RecordMeaning(definitions, t.relations, oid);
    }
    assert DefinitionsKnown(batch, lo, n + 1, recorded);
  }

  lemma FlushStands(
    state: PlannerState, bounds: seq<nat>, lo: nat, n: nat, batch: seq<Transaction>, laneCount: nat, hashes: Hashes)
    returns (flushed: seq<nat>)
    requires laneCount > 0 && Standing(state, bounds, lo, n, batch, laneCount, hashes)
    ensures
      var plan := Flush(state.plan, state.epoch, batch, laneCount, hashes);
      Standing(state.(plan := plan, epoch := []), flushed, n, n, batch, laneCount, hashes)
  {
    var plan := Flush(state.plan, state.epoch, batch, laneCount, hashes);
    flushed := bounds;
    if state.epoch != [] {
      var step := plan.steps[|state.plan.steps|];
      ExtendTiles(state.plan.steps, bounds, step, n, batch, laneCount, hashes);
      ExtendManifest(state.plan.steps, state.plan.works, step, batch);
      flushed := bounds + [n];
    }
  }

  lemma AdvanceStandsInEpoch(
    state: PlannerState, bounds: seq<nat>, lo: nat, n: nat, batch: seq<Transaction>, laneCount: nat, hashes: Hashes)
    requires laneCount > 0 && n < |batch| && Standing(state, bounds, lo, n, batch, laneCount, hashes)
    requires ParallelSafe(state.definitions, batch[n])
    ensures Standing(Advance(state, batch, n, laneCount, hashes), bounds, lo, n + 1, batch, laneCount, hashes)
  {
    hide Record, Planned, Resolve, DefinitionsKnown, Tiles, ManifestOf, LaneSafeUpTo;
    EpochGrows(batch, lo, n, state.definitions);
  }

  lemma AdvanceStandsAtBarrier(
    state: PlannerState, bounds: seq<nat>, lo: nat, n: nat, batch: seq<Transaction>, laneCount: nat, hashes: Hashes)
    returns (extended: seq<nat>)
    requires laneCount > 0 && n < |batch| && Standing(state, bounds, lo, n, batch, laneCount, hashes)
    requires !ParallelSafe(state.definitions, batch[n])
    ensures Standing(Advance(state, batch, n, laneCount, hashes), extended, n + 1, n + 1, batch, laneCount, hashes)
  {
    hide Record, ParallelSafe, Tiles, ManifestOf, Flush, EpochOk, DefinitionsKnown;
    var flushed := FlushStands(state, bounds, lo, n, batch, laneCount, hashes);
    var plan := Flush(state.plan, state.epoch, batch, laneCount, hashes);
    BarrierExtends(plan, flushed, n, batch, laneCount, hashes);
    NothingKnown(batch, n + 1, Record(state.definitions, batch[n].relations));
    extended := flushed + [n + 1];
  }

  lemma SerialStepOk(k: nat, n: nat, batch: seq<Transaction>, laneCount: nat, hashes: Hashes)
    requires laneCount > 0 && n < |batch|
    ensures
      var step := Step(k, [], n);
      StepOk(step, k, n, n + 1, batch, laneCount, hashes) && StepWorks(step, batch) == [SerialWork(k, n, batch[n])]
  {
    hide EpochOk, EpochOf, FlushedLanes;
  }

  lemma BarrierExtends(plan: Plan, bounds: seq<nat>, n: nat, batch: seq<Transaction>, laneCount: nat, hashes: Hashes)
    requires laneCount > 0 && n < |batch| && Tiles(plan.steps, bounds, batch, laneCount, hashes)
    requires bounds[|plan.steps|] == n && ManifestOf(plan.steps, plan.works, batch)
    ensures
      var step := Step(|plan.steps|, [], n);
      && Tiles(plan.steps + [step], bounds + [n + 1], batch, laneCount, hashes)
      && ManifestOf(plan.steps + [step], plan.works + [SerialWork(|plan.steps|, n, batch[n])], batch)
      && |bounds| == |plan.steps| + 1
  {
    hide ManifestOf, StepOk, StepWorks;
    var step := Step(|plan.steps|, [], n);
    assert |bounds| == |plan.steps| + 1;
    hide Tiles;
    SerialStepOk(|plan.steps|, n, batch, laneCount, hashes);
    ExtendTiles(plan.steps, bounds, step, n + 1, batch, laneCount, hashes);
    ExtendManifest(plan.steps, plan.works, step, batch);
  }

  lemma NothingKnown(batch: seq<Transaction>, n: nat, definitions: map<Oid, TargetRelation>)
    requires n <= |batch|
    ensures DefinitionsKnown(batch, n, n, definitions)
  {
  }

  lemma InitialStands(batch: seq<Transaction>, laneCount: nat, hashes: Hashes)
    requires laneCount > 0
    ensures Standing(PlanUpTo(batch, 0, laneCount, hashes), [0], 0, 0, batch, laneCount, hashes)
  {
    hide Resolve;
    assert EpochOf(batch, hashes, 0, 0) == [];
  }

  lemma {:induction false} PlannerStands(batch: seq<Transaction>, n: nat, laneCount: nat, hashes: Hashes)
    returns (bounds: seq<nat>, lo: nat)
    requires laneCount > 0 && n <= |batch|
    ensures Standing(PlanUpTo(batch, n, laneCount, hashes), bounds, lo, n, batch, laneCount, hashes)
    decreases n
  {
    hide Standing, ParallelSafe, Advance;
    if n == 0 {
      InitialStands(batch, laneCount, hashes);
      bounds, lo := [0], 0;
    } else {
      bounds, lo := PlannerStands(batch, n - 1, laneCount, hashes);
      var state := PlanUpTo(batch, n - 1, laneCount, hashes);
      if ParallelSafe(state.definitions, batch[n - 1]) {
        AdvanceStandsInEpoch(state, bounds, lo, n - 1, batch, laneCount, hashes);
      } else {
        bounds := AdvanceStandsAtBarrier(state, bounds, lo, n - 1, batch, laneCount, hashes);
        lo := n;
      }
    }
  }

  /** Every plan tiles its whole batch. */
  lemma PlanTiles(batch: seq<Transaction>, laneCount: nat, hashes: Hashes) returns (bounds: seq<nat>)
    requires laneCount > 0
    ensures
      var plan := PlanOf(batch, laneCount, hashes);
      && Tiles(plan.steps, bounds, batch, laneCount, hashes)
      && bounds[|plan.steps|] == |batch|
      && ManifestOf(plan.steps, plan.works, batch)
  {
    var lo;
    bounds, lo := PlannerStands(batch, |batch|, laneCount, hashes);
    bounds := FlushStands(PlanUpTo(batch, |batch|, laneCount, hashes), bounds, lo, |batch|, batch, laneCount, hashes);
  }
}
