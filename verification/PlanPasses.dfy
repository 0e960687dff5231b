/** Every built plan passes the executor's checks, and the items a lane carries are exactly the
    changes its receipt stands for. */
module PlanPasses {
  import opened Wrappers
  import opened Model
  import opened Target
  import opened Dependence
  import opened Components
  import opened Planner
  import opened PlanShape
  import opened PlanTotals
  import opened LaneRewrite
  import opened Serializability
  import opened Execution
  import opened Schedule
  import opened PlanChecks
  import opened Completion

  // --- Lanes ---

  predicate LaneShape(lane: Lane, batch: seq<Transaction>, lo: nat, hi: nat) {
    var indexes := lane.transactionIndexes;
    && InBatch(indexes, batch)
    && (forall a :: 0 <= a < |indexes| ==> lo <= indexes[a] < hi)
    && (forall a, b :: 0 <= a < b < |indexes| ==> indexes[a] < indexes[b])
    && lane.items == ItemsOfAll(indexes, batch)
  }

  lemma {:induction false} DistributedShape(
    epoch: seq<PlanTransaction>, batch: seq<Transaction>, lo: nat, laneCount: nat, digest: seq<Digest> -> nat, l: nat, n: nat)
    requires laneCount > 0 && n <= |epoch| && lo + |epoch| <= |batch|
    requires forall j :: 0 <= j < |epoch| ==> epoch[j].index == lo + j && epoch[j].items == ItemsOf(lo + j, batch[lo + j])
    ensures LaneShape(LaneUpTo(epoch, laneCount, digest, l, n), batch, lo, lo + n)
    decreases n
  {
    hide LaneOf, LaneUpTo, ItemsOf;
    LaneStep(epoch, laneCount, digest, l, n);
    if n > 0 {
      DistributedShape(epoch, batch, lo, laneCount, digest, l, n - 1);
      var indexes := LaneUpTo(epoch, laneCount, digest, l, n - 1).transactionIndexes;
      var longer := indexes + [lo + n - 1];
      assert longer[..|longer| - 1] == indexes;
    }
  }

  /** The epoch of the transactions from `lo` on. */
  predicate EpochHolds(epoch: seq<PlanTransaction>, batch: seq<Transaction>, lo: nat) {
    lo + |epoch| <= |batch| &&
    forall j :: 0 <= j < |epoch| ==> epoch[j].index == lo + j && epoch[j].items == ItemsOf(lo + j, batch[lo + j])
  }

  lemma EpochContents(batch: seq<Transaction>, hashes: Hashes, lo: nat, hi: nat)
    requires lo <= hi <= |batch|
    ensures EpochHolds(EpochOf(batch, hashes, lo, hi), batch, lo) && |EpochOf(batch, hashes, lo, hi)| == hi - lo
  {
    hide EpochOf, ItemsOf;
    forall j | 0 <= j < hi - lo
      ensures EpochOf(batch, hashes, lo, hi)[j].index == lo + j
      ensures EpochOf(batch, hashes, lo, hi)[j].items == ItemsOf(lo + j, batch[lo + j])
    {
      EpochAt(batch, hashes, lo, hi, j);
    }
  }

  predicate Holds(lanes: seq<PlanLane>, i: nat) {
    exists x :: x in lanes && i in x.lane.transactionIndexes
  }

  /** The lanes are well shaped, carry their own receipts and keep each transaction in its own lane. */
  ghost predicate LanesShaped(
    lanes: seq<PlanLane>, k: nat, epoch: seq<PlanTransaction>, batch: seq<Transaction>, laneCount: nat, hashes: Hashes, lo: nat)
    requires laneCount > 0
  {
    && (forall x :: x in lanes ==>
          LaneShape(x.lane, batch, lo, lo + |epoch|) && x.work == LaneWork(k, x.lane, batch))
    && (forall x, i :: x in lanes && i in x.lane.transactionIndexes ==>
          lo <= i < lo + |epoch| && LaneOf(epoch, laneCount, hashes.component, i - lo) == x.lane.lane)
    && (forall i: nat :: lo <= i < lo + |epoch| ==> Holds(lanes, i))
    && (forall a, b :: 0 <= a < b < |lanes| ==> lanes[a].lane.lane != lanes[b].lane.lane)
  }

  lemma FlushedShape(k: nat, epoch: seq<PlanTransaction>, batch: seq<Transaction>, laneCount: nat, hashes: Hashes, lo: nat)
    requires EpochInBatch(epoch, batch) && laneCount > 0 && EpochHolds(epoch, batch, lo)
    ensures LanesShaped(FlushedLanes(k, epoch, batch, laneCount, hashes), k, epoch, batch, laneCount, hashes, lo)
  {
    hide LaneOf, LaneUpTo, LaneWork, FlushedLanes, ItemsOf, ItemsOfAll, EpochInBatch, Holds;
    var lanes := FlushedLanes(k, epoch, batch, laneCount, hashes);
    forall x | x in lanes ensures LaneShape(x.lane, batch, lo, lo + |epoch|) && x.work == LaneWork(k, x.lane, batch) {
      FlushedLane(k, epoch, batch, laneCount, hashes, x);
      DistributedShape(epoch, batch, lo, laneCount, hashes.component, x.lane.lane, |epoch|);
    }
    forall x, i | x in lanes && i in x.lane.transactionIndexes
      ensures lo <= i < lo + |epoch| && LaneOf(epoch, laneCount, hashes.component, i - lo) == x.lane.lane
    {
      FlushedLane(k, epoch, batch, laneCount, hashes, x);
      LaneMembers(epoch, laneCount, hashes.component, x.lane.lane, |epoch|, i);
    }
    forall i: nat | lo <= i < lo + |epoch| ensures Holds(lanes, i) {
      LaneHolds(k, epoch, batch, laneCount, hashes, lo, i);
    }
    LanesOrdered(k, epoch, batch, laneCount, hashes);
  }

  /** Every transaction of the epoch is in one of its lanes. */
  lemma LaneHolds(
    k: nat, epoch: seq<PlanTransaction>, batch: seq<Transaction>, laneCount: nat, hashes: Hashes, lo: nat, i: nat)
    requires EpochInBatch(epoch, batch) && laneCount > 0 && EpochHolds(epoch, batch, lo) && lo <= i < lo + |epoch|
    ensures Holds(FlushedLanes(k, epoch, batch, laneCount, hashes), i)
  {
    hide LaneOf, LaneUpTo, LaneWork, ItemsOf, EpochInBatch;
    var all := EpochLanes(epoch, laneCount, hashes.component);
    LaneNumbered(epoch, batch, laneCount, hashes);
    UsedLanesMeaning(k, all, batch);
    var l := LaneOf(epoch, laneCount, hashes.component, i - lo);
    LaneMembers(epoch, laneCount, hashes.component, l, |epoch|, i);
    assert epoch[i - lo].index == i;
    assert Used(k, all, batch, l, PlanLane(all[l], LaneWork(k, all[l], batch)));
  }

  lemma LaneNumbered(epoch: seq<PlanTransaction>, batch: seq<Transaction>, laneCount: nat, hashes: Hashes)
    requires EpochInBatch(epoch, batch) && laneCount > 0
    ensures
      var all := EpochLanes(epoch, laneCount, hashes.component);
      LanesInBatch(all, batch) && forall l :: 0 <= l < |all| ==> all[l].lane == l
  {
    hide LaneUpTo, EpochInBatch, InBatch;
    var all := EpochLanes(epoch, laneCount, hashes.component);
    forall l: nat | l < laneCount ensures all[l].lane == l && InBatch(all[l].transactionIndexes, batch) {
      LaneNumber(epoch, laneCount, hashes.component, l, |epoch|);
      LaneIndexesInBatch(epoch, batch, laneCount, hashes.component, l, |epoch|);
    }
  }

  lemma LanesOrdered(k: nat, epoch: seq<PlanTransaction>, batch: seq<Transaction>, laneCount: nat, hashes: Hashes)
    requires EpochInBatch(epoch, batch) && laneCount > 0
    ensures
      var lanes := FlushedLanes(k, epoch, batch, laneCount, hashes);
      forall a, b :: 0 <= a < b < |lanes| ==> lanes[a].lane.lane < lanes[b].lane.lane
  {
    hide LaneUpTo, LaneWork, EpochInBatch, EpochLanes;
    LaneNumbered(epoch, batch, laneCount, hashes);
    UsedLanesMeaning(k, EpochLanes(epoch, laneCount, hashes.component), batch);
  }

  lemma StepShape(step: Step, k: nat, lo: nat, hi: nat, batch: seq<Transaction>, laneCount: nat, hashes: Hashes)
    requires laneCount > 0 && StepOk(step, k, lo, hi, batch, laneCount, hashes) && step.serialTransaction < 0
    ensures lo < hi <= |batch| && |EpochOf(batch, hashes, lo, hi)| == hi - lo
    ensures LanesShaped(step.lanes, k, EpochOf(batch, hashes, lo, hi), batch, laneCount, hashes, lo)
    ensures forall i :: lo <= i < hi ==> !batch[i].spilled
  {
    hide EpochOf, FlushedLanes, LanesShaped, Keyed, StableDefinitions;
    EpochContents(batch, hashes, lo, hi);
    FlushedShape(k, EpochOf(batch, hashes, lo, hi), batch, laneCount, hashes, lo);
  }

  lemma ShapedLaneValid(lane: PlanLane, k: nat, batch: seq<Transaction>, lo: nat, hi: nat)
    requires hi <= |batch| && LaneShape(lane.lane, batch, lo, hi) && lane.work == LaneWork(k, lane.lane, batch)
    requires forall i :: lo <= i < hi ==> !batch[i].spilled
    ensures LaneValid(lane, batch)
  {
    hide ItemsOfAll, ChangesIn;
  }

  /** Every lane of every parallel step passes the lane check. */
  lemma PlannedLaneValid(
    step: Step, k: nat, lo: nat, hi: nat, batch: seq<Transaction>, laneCount: nat, hashes: Hashes, lane: PlanLane)
    requires laneCount > 0 && StepOk(step, k, lo, hi, batch, laneCount, hashes)
    requires step.serialTransaction < 0 && lane in step.lanes
    ensures LaneValid(lane, batch)
  {
    hide StepOk, EpochOf, LaneOf, LaneShape, LaneValid, LaneWork;
    StepShape(step, k, lo, hi, batch, laneCount, hashes);
    ShapedLaneValid(lane, k, batch, lo, hi);
  }

  /** The items the executor sends for a lane are the changes its receipt binds. */
  lemma LaneItemsAreCovered(
    step: Step, k: nat, lo: nat, hi: nat, batch: seq<Transaction>, laneCount: nat, hashes: Hashes, lane: PlanLane)
    requires laneCount > 0 && StepOk(step, k, lo, hi, batch, laneCount, hashes)
    requires step.serialTransaction < 0 && lane in step.lanes
    ensures lane.lane.items == Select(CoveredBy(lane.work), BatchItems(batch, 0, |batch|))
  {
    hide EpochOk, EpochOf, FlushedLanes, ItemsOf, BatchItems, Covers, LaneLabel;
    StepIsEpoch(step, k, lo, hi, batch, laneCount, hashes);
    var labelOf := LaneLabel(EpochOf(batch, hashes, lo, hi), laneCount, hashes.component, lo);
    StepLanes(k, batch, hashes, lo, hi, laneCount);
    EpochWithinBatch(batch, lo, hi);
    var p, q := CoveredBy(lane.work), HasLabel(labelOf, lane.lane.lane);
    forall x
      ensures p(x) ==> lo <= x.transactionIndex < hi
      ensures x in BatchItems(batch, lo, hi) ==> p(x) == q(x)
    {
      CoveredIsLabelled(step, k, lo, hi, batch, laneCount, hashes, lane, x);
    }
    hide StepOk, Select, CoveredBy, HasLabel;
    SelectSlice(batch, lo, hi, p);
    SelectAgree(p, q, BatchItems(batch, lo, hi));
  }

  lemma CoveredIsLabelled(
    step: Step, k: nat, lo: nat, hi: nat, batch: seq<Transaction>, laneCount: nat, hashes: Hashes, lane: PlanLane, x: Item)
    requires laneCount > 0 && StepOk(step, k, lo, hi, batch, laneCount, hashes)
    requires step.serialTransaction < 0 && lane in step.lanes
    ensures CoveredBy(lane.work)(x) ==> lo <= x.transactionIndex < hi
    ensures
      var labelOf := LaneLabel(EpochOf(batch, hashes, lo, hi), laneCount, hashes.component, lo);
      x in BatchItems(batch, lo, hi) ==> CoveredBy(lane.work)(x) == HasLabel(labelOf, lane.lane.lane)(x)
  {
    hide EpochOk, EpochOf, FlushedLanes, LaneOf, ItemsOf, BatchItems, Covers, StepWorks;
    StepIsEpoch(step, k, lo, hi, batch, laneCount, hashes);
    LaneWorkListed(step, batch, lane);
    WorkLane(k, batch, hashes, lo, hi, laneCount, lane);
    StepWorkCovers(step, k, lo, hi, batch, laneCount, hashes, lane.work, x.transactionIndex);
    if x in BatchItems(batch, lo, hi) {
      ItemInBatch(batch, lo, hi, x);
    }
  }

  lemma LaneWorkListed(step: Step, batch: seq<Transaction>, lane: PlanLane)
    requires step.serialTransaction < 0 && lane in step.lanes
    ensures lane.work in StepWorks(step, batch)
  {
    var i :| 0 <= i < |step.lanes| && step.lanes[i] == lane;
    assert WorksOf(step.lanes)[i] == lane.work;
  }

  /** A selection that takes only transactions `lo..hi` sees nothing else of the batch. */
  lemma SelectSlice(batch: seq<Transaction>, lo: nat, hi: nat, p: Item -> bool)
    requires lo <= hi <= |batch|
    requires forall x :: p(x) ==> lo <= x.transactionIndex < hi
    ensures Select(p, BatchItems(batch, 0, |batch|)) == Select(p, BatchItems(batch, lo, hi))
  {
    hide BatchItems, Select, ItemsOf;
    BatchItemsConcat(batch, 0, lo, |batch|);
    BatchItemsConcat(batch, lo, hi, |batch|);
    forall x | x in BatchItems(batch, 0, lo) ensures !p(x) {
      ItemInBatch(batch, 0, lo, x);
    }
    forall x | x in BatchItems(batch, hi, |batch|) ensures !p(x) {
      ItemInBatch(batch, hi, |batch|, x);
    }
    SelectNone(p, BatchItems(batch, 0, lo));
    SelectNone(p, BatchItems(batch, hi, |batch|));
    SelectConcat(p, BatchItems(batch, 0, lo), BatchItems(batch, lo, |batch|));
    SelectConcat(p, BatchItems(batch, lo, hi), BatchItems(batch, hi, |batch|));
  }

  // --- Steps ---

  lemma {:induction false} ListedMembers(lanes: seq<PlanLane>, i: nat)
    ensures i in Listed(lanes) <==> exists x :: x in lanes && i in x.lane.transactionIndexes
    decreases |lanes|
  {
    if lanes != [] {
      var init, last := lanes[..|lanes| - 1], lanes[|lanes| - 1];
      ListedMembers(init, i);
      assert forall x :: x in lanes <==> x in init || x == last;
    }
  }

  lemma DistinctConcat(s: seq<nat>, t: seq<nat>)
    requires Distinct(s) && Distinct(t) && forall i :: i in s ==> i !in t
    ensures Distinct(s + t)
  {
    forall i, j | 0 <= i < j < |s + t| ensures (s + t)[i] != (s + t)[j] {
      if i < |s| <= j {
        assert (s + t)[i] in s && (s + t)[j] in t;
      }
    }
  }

  predicate LanesApart(lanes: seq<PlanLane>) {
    forall a, b, i :: 0 <= a < b < |lanes| && i in lanes[a].lane.transactionIndexes ==>
      i !in lanes[b].lane.transactionIndexes
  }

  lemma {:induction false} ListedDistinct(lanes: seq<PlanLane>)
    requires forall a :: 0 <= a < |lanes| ==> Distinct(lanes[a].lane.transactionIndexes)
    requires LanesApart(lanes)
    ensures Distinct(Listed(lanes))
    decreases |lanes|
  {
    hide Distinct;
    if lanes == [] {
      assert Distinct(Listed(lanes)) by {
        NothingFresh(0, 0);
      }
    } else {
      var init, last := lanes[..|lanes| - 1], lanes[|lanes| - 1];
      ListedDistinct(init);
      forall i | i in Listed(init) ensures i !in last.lane.transactionIndexes {
        ListedMembers(init, i);
        var x :| x in init && i in x.lane.transactionIndexes;
        var a :| 0 <= a < |init| && init[a] == x;
        assert lanes[a] == x;
      }
      DistinctConcat(Listed(init), last.lane.transactionIndexes);
    }
  }

  lemma ParallelStepValid(
    step: Step, k: nat, lo: nat, hi: nat, works: seq<Work>, batch: seq<Transaction>, laneCount: nat, hashes: Hashes)
    requires laneCount > 0 && StepOk(step, k, lo, hi, batch, laneCount, hashes) && step.serialTransaction < 0
    ensures StepValid(step, k, lo, hi, works, batch)
  {
    hide EpochOf, FlushedLanes, LaneOf, EpochOk, LaneShape, Listed, LaneWork;
    StepShape(step, k, lo, hi, batch, laneCount, hashes);
    ShapedLanesListed(step.lanes, k, EpochOf(batch, hashes, lo, hi), batch, laneCount, hashes, lo);
  }

  lemma ShapedLanesListed(
    lanes: seq<PlanLane>, k: nat, epoch: seq<PlanTransaction>, batch: seq<Transaction>, laneCount: nat, hashes: Hashes, lo: nat)
    requires laneCount > 0 && epoch != [] && LanesShaped(lanes, k, epoch, batch, laneCount, hashes, lo)
    ensures lanes != [] && Distinct(Listed(lanes)) && Interval(Listed(lanes), lo, lo + |epoch|)
  {
    hide LaneOf, LaneWork, Listed, ItemsOfAll;
    assert forall a :: 0 <= a < |lanes| ==> lanes[a] in lanes;
    ListedDistinct(lanes);
    forall i: nat ensures i in Listed(lanes) <==> lo <= i < lo + |epoch| {
      ListedMembers(lanes, i);
      assert i in Listed(lanes) <==> Holds(lanes, i);
    }
    assert Holds(lanes, lo);
  }

  /** The receipt of a serial step is found under its step number. */
  lemma SerialReceiptFound(
    steps: seq<Step>, bounds: seq<nat>, works: seq<Work>, k: nat, batch: seq<Transaction>, laneCount: nat, hashes: Hashes)
    requires laneCount > 0 && Tiles(steps, bounds, batch, laneCount, hashes) && ManifestOf(steps, works, batch)
    requires k < |steps| && steps[k].serialTransaction >= 0
    ensures steps[k].serialTransaction < |batch|
    ensures SerialCounted(works, k, |batch[steps[k].serialTransaction].changes|)
  {
    hide EpochOk, EpochOf, FlushedLanes, ManifestOf;
    assert StepOk(steps[k], k, bounds[k], bounds[k + 1], batch, laneCount, hashes);
    var mine := SerialWork(k, bounds[k], batch[bounds[k]]);
    assert StepWorks(steps[k], batch) == [mine];
    ManifestWorks(steps, works, batch, mine);
    assert mine in works;
    var found := FindWork(works, k, 0).value;
    ManifestWorks(steps, works, batch, found);
    var j :| 0 <= j < |steps| && steps[j].serialTransaction < |batch| && found in StepWorks(steps[j], batch);
    assert StepOk(steps[j], j, bounds[j], bounds[j + 1], batch, laneCount, hashes);
    StepRows(steps[j], j, bounds[j], bounds[j + 1], batch, laneCount, hashes);
  }

  /** Every plan the planner builds passes the execution check and all of its lane checks. */
  lemma PlanPassesChecks(batch: seq<Transaction>, laneCount: nat, hashes: Hashes) returns (bounds: seq<nat>)
    requires laneCount > 0
    ensures
      var plan := PlanOf(batch, laneCount, hashes);
      && StepsValid(plan.steps, bounds, plan.works, batch)
      && WorkTransactions(plan.works) == |batch|
      && WorkChanges(plan.works) == BatchChanges(batch, |batch|)
      && forall k, x :: 0 <= k < |plan.steps| && x in plan.steps[k].lanes ==> LaneValid(x, batch)
  {
    hide PlanOf, ManifestOf, StepOk, StepValid, LaneValid, WorkTransactions, WorkChanges, BatchChanges, SerialCounted;
    bounds := PlanTiles(batch, laneCount, hashes);
    var plan := PlanOf(batch, laneCount, hashes);
    PlanCountsEverything(batch, laneCount, hashes);
    forall k | 0 <= k < |plan.steps|
      ensures StepValid(plan.steps[k], k, bounds[k], bounds[k + 1], plan.works, batch)
      ensures forall x :: x in plan.steps[k].lanes ==> LaneValid(x, batch)
    {
      var step := plan.steps[k];
      assert StepOk(step, k, bounds[k], bounds[k + 1], batch, laneCount, hashes);
      if step.serialTransaction >= 0 {
        SerialReceiptFound(plan.steps, bounds, plan.works, k, batch, laneCount, hashes);
        SerialStepValid(step, k, bounds[k], bounds[k + 1], plan.works, batch, laneCount, hashes);
      } else {
        ParallelStepValid(step, k, bounds[k], bounds[k + 1], plan.works, batch, laneCount, hashes);
        forall x | x in step.lanes ensures LaneValid(x, batch) {
          PlannedLaneValid(step, k, bounds[k], bounds[k + 1], batch, laneCount, hashes, x);
        }
      }
    }
  }

  lemma SerialStepValid(
    step: Step, k: nat, lo: nat, hi: nat, works: seq<Work>, batch: seq<Transaction>, laneCount: nat, hashes: Hashes)
    requires laneCount > 0 && StepOk(step, k, lo, hi, batch, laneCount, hashes) && 0 <= step.serialTransaction < |batch|
    requires SerialCounted(works, k, |batch[step.serialTransaction].changes|)
    ensures StepValid(step, k, lo, hi, works, batch) && step.lanes == []
  {
    hide EpochOk, SerialCounted;
  }
}
