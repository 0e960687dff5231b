/** The planner as it runs: one pass over the batch that grows the current epoch and flushes it at
    every serial barrier (buildReplayPlanForGenerationVersion, internal/cdc/replay_plan.go:92-254).
    It computes `Planner.PlanOf`, so a replay claim can be rebuilt from its transactions alone. */
module PlanBuilder {
  import opened Wrappers
  import opened Model
  import opened Catalog
  import opened DisjointSets
  import opened Components
  import opened Planner
  import opened PlanShape
  import opened PlanTotals

  datatype PlanError = BadInput | BadChange(error: ReplayError) | CountMismatch

  /** The changes of one transaction, checked until the first that is unsafe or broken. */
  method ScanTransaction(hashes: Hashes, index: nat, t: Transaction) returns (result: Result<Option<PlanTransaction>, ReplayError>)
    ensures match LaneSafeUpTo(t, |t.changes|)
      case Failure(error) => result == Failure(error)
      case Success(false) => result == Success(None)
      case Success(true) => result == Success(Some(Planned(hashes, index, t)))
  {
    hide ReplayChangeKey;
    var keys, items := [], [];
    for c := 0 to |t.changes|
      invariant LaneSafeUpTo(t, c) == Success(true)
      invariant |keys| == c && forall i :: 0 <= i < c ==>
        ChangeKey(t, t.changes[i]).Success? && ChangeKey(t, t.changes[i]).value.Some? &&
        keys[i] == hashes.key(ChangeKey(t, t.changes[i]).value.value)
      invariant items == ItemsUpTo(index, t, c)
    {
      var key := ChangeKey(t, t.changes[c]);
      LaneSafeStops(t, c + 1, |t.changes|);
      if key.Failure? {
        return Failure(key.error);
      }
      if key.value.None? {
        return Success(None);
      }
      keys := keys + [hashes.key(key.value.value)];
      items := items + [ItemAt(index, t, c)];
    }
    assert keys == DigestsUpTo(hashes, t, |t.changes|);
    if |keys| == 0 {
      keys := [hashes.key(EmptyTransactionKey(t.endLsn))];
    }
    result := Success(Some(PlanTransaction(index, keys, items)));
  }

  /** Once the scan has stopped, later changes do not matter. */
  lemma {:induction false} LaneSafeStops(t: Transaction, n: nat, m: nat)
    requires n <= m <= |t.changes|
    ensures LaneSafeUpTo(t, n) != Success(true) ==> LaneSafeUpTo(t, m) == LaneSafeUpTo(t, n)
    decreases m
  {
    hide ChangeKey;
    if n < m {
      LaneSafeStops(t, n, m - 1);
    }
  }

  method FlushParallel(plan: Plan, epoch: seq<PlanTransaction>, batch: seq<Transaction>, laneCount: nat, hashes: Hashes)
    returns (flushed: Plan)
    requires EpochInBatch(epoch, batch) && laneCount > 0 && |epoch| < Pow2(63)
    requires forall i :: 0 <= i < |epoch| ==> epoch[i].keys != []
    ensures flushed == Flush(plan, epoch, batch, laneCount, hashes)
  {
    hide EpochLanes, LaneWork, Pow2;
    if |epoch| == 0 {
      return plan;
    }
    var computed := ComponentLanes(epoch, laneCount, hashes.component);
    var lanes := computed.value;
    ghost var expected := FlushedLanes(|plan.steps|, epoch, batch, laneCount, hashes);
    LanesStayInBatch(epoch, batch, laneCount, hashes);
    var used: seq<PlanLane> := [];
    for l := 0 to |lanes|
      invariant used == UsedLanes(|plan.steps|, lanes[..l], batch)
    {
      assert lanes[..l + 1][..l] == lanes[..l];
      if lanes[l].transactionIndexes != [] {
        used := used + [PlanLane(lanes[l], LaneWork(|plan.steps|, lanes[l], batch))];
      }
    }
    assert lanes[..|lanes|] == lanes;
    flushed := Plan(plan.steps + [Step(|plan.steps|, used, -1)], plan.works + WorksOf(used),
                    plan.hasParallel || |used| > 1);
  }

  lemma LanesStayInBatch(epoch: seq<PlanTransaction>, batch: seq<Transaction>, laneCount: nat, hashes: Hashes)
    requires EpochInBatch(epoch, batch) && laneCount > 0
    ensures LanesInBatch(EpochLanes(epoch, laneCount, hashes.component), batch)
  {
    forall l: nat | l < laneCount
      ensures InBatch(EpochLanes(epoch, laneCount, hashes.component)[l].transactionIndexes, batch)
    {
      LaneIndexesInBatch(epoch, batch, laneCount, hashes.component, l, |epoch|);
    }
  }

  /** Whether some relation of the transaction is not what was recorded for it last. */
  method DefinitionsChange(definitions: map<Oid, TargetRelation>, relations: seq<TargetRelation>)
    returns (changed: bool)
    ensures changed == DefinitionChanged(definitions, relations)
  {
    hide Redefined;
    changed := false;
    for r := 0 to |relations|
      invariant changed == exists k :: 0 <= k < r && Redefined(definitions, relations, relations[k].source.oid)
    {
      if Redefined(definitions, relations, relations[r].source.oid) {
        changed := true;
      }
    }
    assert forall k :: 0 <= k < |relations| ==> relations[k] in relations;
  }

  method RecordDefinitions(definitions: map<Oid, TargetRelation>, relations: seq<TargetRelation>)
    returns (recorded: map<Oid, TargetRelation>)
    ensures recorded == Record(definitions, relations)
  {
    recorded := definitions;
    for r := 0 to |relations|
      invariant recorded == Record(definitions, relations[..r])
    {
      assert relations[..r + 1][..r] == relations[..r];
      recorded := recorded[relations[r].source.oid := relations[r]];
    }
    assert relations[..|relations|] == relations;
  }

  ghost predicate EpochKeyed(epoch: seq<PlanTransaction>) {
    forall i :: 0 <= i < |epoch| ==> epoch[i].keys != []
  }

  /** One turn of the planner's loop. */
  method PlanTransactionAt(state: PlannerState, batch: seq<Transaction>, i: nat, laneCount: nat, hashes: Hashes)
    returns (result: Result<PlannerState, PlanError>)
    requires EpochInBatch(state.epoch, batch) && EpochKeyed(state.epoch) && |state.epoch| <= i < |batch| < Pow2(63)
    requires laneCount > 0
    ensures result.Failure? <==> PlannerFails(state.definitions, batch[i])
    ensures result.Success? ==>
      && result.value == Advance(state, batch, i, laneCount, hashes)
      && EpochKeyed(result.value.epoch) && |result.value.epoch| <= i + 1
  {
    hide Flush, Record, DefinitionChanged, LaneSafeUpTo, Planned, Pow2;
    var t := batch[i];
    var changed := DefinitionsChange(state.definitions, t.relations);
    var planned: Option<PlanTransaction> := None;
    if !t.spilled && !changed {
      var scanned := ScanTransaction(hashes, i, t);
      if scanned.Failure? {
        return Failure(BadChange(scanned.error));
      }
      planned := scanned.value;
    }
    var definitions := RecordDefinitions(state.definitions, t.relations);
    if planned.Some? {
      PlannedHasKey(hashes, i, t);
      return Success(state.(epoch := state.epoch + [planned.value], definitions := definitions));
    }
    var plan := FlushParallel(state.plan, state.epoch, batch, laneCount, hashes);
    var step := |plan.steps|;
    result := Success(PlannerState(
      Plan(plan.steps + [Step(step, [], i)], plan.works + [SerialWork(step, i, t)], plan.hasParallel), [], definitions));
  }

  method BuildReplayPlan(batch: seq<Transaction>, laneCount: nat, hashes: Hashes) returns (result: Result<Plan, PlanError>)
    requires |batch| < Pow2(63)  // a Go slice length
    ensures result.Success? <==> laneCount > 0 && batch != [] && Plannable(batch, laneCount, hashes)
    ensures result.Success? ==> result.value == PlanOf(batch, laneCount, hashes)
  {
    hide Flush, Advance, PlannerFails, Pow2;
    if laneCount < 1 || |batch| == 0 {
      return Failure(BadInput);
    }
    var state := PlannerState(Plan([], [], false), [], map[]);
    for i := 0 to |batch|
      invariant state == PlanUpTo(batch, i, laneCount, hashes)
      invariant EpochKeyed(state.epoch) && |state.epoch| <= i
      invariant forall n: nat :: n < i ==> !PlannerFails(PlanUpTo(batch, n, laneCount, hashes).definitions, batch[n])
    {
      var next := PlanTransactionAt(state, batch, i, laneCount, hashes);
      if next.Failure? {
        return Failure(next.error);
      }
      state := next.value;
    }
    var plan := FlushParallel(state.plan, state.epoch, batch, laneCount, hashes);
    PlanCountsEverything(batch, laneCount, hashes);
    if WorkChanges(plan.works) != BatchChanges(batch, |batch|) || WorkTransactions(plan.works) != |batch| {
      return Failure(CountMismatch);
    }
    result := Success(plan);
  }

  lemma PlannedHasKey(hashes: Hashes, index: nat, t: Transaction)
    ensures Planned(hashes, index, t).keys != []
  {
  }
}
