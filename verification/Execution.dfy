/** Executing a plan: steps in order, and inside a parallel step whole lanes commit in any order
    (executeReplayPlan, internal/cdc/replay_execute.go:66-143). */
module Execution {
  import opened Wrappers
  import opened Model
  import opened Catalog
  import opened Target
  import opened Dependence
  import opened Components
  import opened Planner
  import opened PlanShape
  import opened LaneRewrite
  import opened Serializability

  /** Every lane of the step commits exactly once. */
  ghost predicate CommitOrder(order: seq<PlanLane>, lanes: seq<PlanLane>) {
    Distinct(order) && forall x :: x in order <==> x in lanes
  }

  /** Lanes commit one after another, each sending its changes in source order. */
  ghost function CommitPlain(sem: Semantics, db: Option<Database>, order: seq<PlanLane>): Option<Database>
    decreases |order|
  {
    if order == [] then db
    else CommitPlain(sem, Run(sem, db, order[0].lane.items), order[1..])
  }

  /** Lanes commit one after another, each sending what `QueueParallelReplayLane` makes of it. */
  ghost function CommitLanes(sem: Semantics, db: Option<Database>, order: seq<PlanLane>): Option<Database>
    decreases |order|
  {
    if order == [] then db
    else CommitLanes(sem, Run(sem, db, Rewritten(order[0].lane.items)), order[1..])
  }

  ghost function CommitStep(
    sem: Semantics, db: Option<Database>, step: Step, order: seq<PlanLane>, batch: seq<Transaction>): Option<Database>
  {
    if 0 <= step.serialTransaction < |batch| then
      Run(sem, db, ItemsOf(step.serialTransaction, batch[step.serialTransaction]))
    else CommitLanes(sem, db, order)
  }

  ghost function CommitSteps(
    sem: Semantics, db: Option<Database>, steps: seq<Step>, orders: seq<seq<PlanLane>>, batch: seq<Transaction>)
    : Option<Database>
    requires |orders| == |steps|
  {
    if steps == [] then db
    else
      var last := |steps| - 1;
      CommitStep(sem, CommitSteps(sem, db, steps[..last], orders[..last], batch), steps[last], orders[last], batch)
  }

  // --- The lanes of a step ---

  predicate Used(step: nat, lanes: seq<Lane>, batch: seq<Transaction>, l: nat, x: PlanLane)
    requires LanesInBatch(lanes, batch)
  {
    l < |lanes| && lanes[l].transactionIndexes != [] && x == PlanLane(lanes[l], LaneWork(step, lanes[l], batch))
  }

  lemma {:induction false} UsedLanesMeaning(step: nat, lanes: seq<Lane>, batch: seq<Transaction>)
    requires LanesInBatch(lanes, batch) && forall l :: 0 <= l < |lanes| ==> lanes[l].lane == l
    ensures
      var used := UsedLanes(step, lanes, batch);
      && (forall l: nat, x :: Used(step, lanes, batch, l, x) ==> x in used)
      && (forall x :: x in used ==> Used(step, lanes, batch, x.lane.lane, x))
      && (forall i, j :: 0 <= i < j < |used| ==> used[i].lane.lane < used[j].lane.lane)
    decreases |lanes|
  {
    hide LaneWork;
    if lanes != [] {
      var init := lanes[..|lanes| - 1];
      UsedLanesMeaning(step, init, batch);
      var used, rest := UsedLanes(step, lanes, batch), UsedLanes(step, init, batch);
      forall l: nat, x | Used(step, lanes, batch, l, x) ensures x in used {
        if l < |init| {
          assert Used(step, init, batch, l, x);
        }
      }
      forall i | 0 <= i < |rest| ensures rest[i].lane.lane < |init| {
        assert rest[i] in rest;
      }
      forall x | x in used ensures Used(step, lanes, batch, x.lane.lane, x) {
        if x in rest {
          assert Used(step, init, batch, x.lane.lane, x);
        }
      }
    }
  }

  lemma {:induction false} LaneNumber(
    epoch: seq<PlanTransaction>, laneCount: nat, digest: seq<Digest> -> nat, l: nat, n: nat)
    requires laneCount > 0 && n <= |epoch|
    ensures LaneUpTo(epoch, laneCount, digest, l, n).lane == l
    ensures LaneUpTo(epoch, laneCount, digest, l, n).transactionIndexes == [] ==>
      LaneUpTo(epoch, laneCount, digest, l, n).items == []
    decreases n
  {
    hide LaneOf, LaneUpTo;
    LaneStep(epoch, laneCount, digest, l, n);
    if n > 0 {
      LaneNumber(epoch, laneCount, digest, l, n - 1);
    }
  }

  /** A flushed lane is the lane of its number in the epoch, with its own receipt. */
  lemma FlushedLane(
    step: nat, epoch: seq<PlanTransaction>, batch: seq<Transaction>, laneCount: nat, hashes: Hashes, x: PlanLane)
    requires EpochInBatch(epoch, batch) && laneCount > 0 && x in FlushedLanes(step, epoch, batch, laneCount, hashes)
    ensures
      var l := x.lane.lane;
      && l < laneCount && x.lane == LaneUpTo(epoch, laneCount, hashes.component, l, |epoch|)
      && InBatch(x.lane.transactionIndexes, batch) && x.work == LaneWork(step, x.lane, batch)
  {
    hide LaneUpTo, LaneWork, EpochInBatch;
    var all := EpochLanes(epoch, laneCount, hashes.component);
    forall l: nat | l < laneCount ensures all[l].lane == l && InBatch(all[l].transactionIndexes, batch) {
      LaneNumber(epoch, laneCount, hashes.component, l, |epoch|);
      LaneIndexesInBatch(epoch, batch, laneCount, hashes.component, l, |epoch|);
    }
    UsedLanesMeaning(step, all, batch);
    assert Used(step, all, batch, x.lane.lane, x);
  }

  /** The flushed lanes carry the selections of their labels, and cover every label that occurs. */
  lemma StepLanes(step: nat, batch: seq<Transaction>, hashes: Hashes, lo: nat, hi: nat, laneCount: nat)
    requires EpochOk(batch, lo, hi) && laneCount > 0
    ensures
      var epoch := EpochOf(batch, hashes, lo, hi);
      var labelOf := LaneLabel(epoch, laneCount, hashes.component, lo);
      var lanes := FlushedLanes(step, epoch, batch, laneCount, hashes);
      && (forall x :: x in lanes ==> x.lane.items == Select(HasLabel(labelOf, x.lane.lane), BatchItems(batch, lo, hi)))
      && (forall x, y :: x in lanes && y in lanes && x.lane.lane == y.lane.lane ==> x == y)
      && (forall item :: item in BatchItems(batch, lo, hi) ==> exists x :: x in lanes && x.lane.lane == labelOf(item))
  {
    hide LaneOf, Keyed, ItemsOf, EpochOf, LaneUpTo, StableDefinitions, LaneWork, BatchItems;
    var epoch := EpochOf(batch, hashes, lo, hi);
    var labelOf := LaneLabel(epoch, laneCount, hashes.component, lo);
    var lanes := FlushedLanes(step, epoch, batch, laneCount, hashes);
    var all := EpochLanes(epoch, laneCount, hashes.component);
    forall l: nat | l < laneCount
      ensures all[l].lane == l && (all[l].transactionIndexes == [] ==> all[l].items == [])
      ensures all[l].items == Select(HasLabel(labelOf, l), BatchItems(batch, lo, hi))
      ensures InBatch(all[l].transactionIndexes, batch)
    {
      LaneIndexesInBatch(epoch, batch, laneCount, hashes.component, l, |epoch|);
      LaneNumber(epoch, laneCount, hashes.component, l, |epoch|);
      LaneIsSelection(batch, hashes, lo, hi, laneCount, l);
    }
    UsedLanesMeaning(step, all, batch);
    forall item | item in BatchItems(batch, lo, hi) ensures exists x :: x in lanes && x.lane.lane == labelOf(item) {
      var l := labelOf(item);
      assert HasLabel(labelOf, l)(item);
      assert item in all[l].items;
      assert Used(step, all, batch, l, PlanLane(all[l], LaneWork(step, all[l], batch)));
    }
  }

  function LaneNumbers(order: seq<PlanLane>): (labels: seq<nat>)
    ensures |labels| == |order|
  {
    if order == [] then [] else [order[0].lane.lane] + LaneNumbers(order[1..])
  }

  lemma {:induction false} LaneNumbersMeaning(order: seq<PlanLane>)
    ensures forall i :: 0 <= i < |order| ==> LaneNumbers(order)[i] == order[i].lane.lane
    decreases |order|
  {
    if order != [] {
      LaneNumbersMeaning(order[1..]);
    }
  }

  lemma {:induction false} CommitPlainIsGrouped(
    sem: Semantics, db: Option<Database>, order: seq<PlanLane>, labelOf: Item -> nat, items: seq<Item>)
    requires forall x :: x in order ==> x.lane.items == Select(HasLabel(labelOf, x.lane.lane), items)
    ensures CommitPlain(sem, db, order) == Run(sem, db, Grouped(LaneNumbers(order), labelOf, items))
    decreases |order|
  {
    if order != [] {
      var first := order[0].lane.items;
      assert order[0] in order;
      RunConcat(sem, db, first, Grouped(LaneNumbers(order[1..]), labelOf, items));
      CommitPlainIsGrouped(sem, Run(sem, db, first), order[1..], labelOf, items);
    }
  }

  /** One parallel step is serializable: any commit order gives the outcome of source order, and a
      change fails in it only if replaying the step in source order fails. */
  lemma ParallelStepSerializable(
    sem: Semantics, db: Option<Database>, step: nat, order: seq<PlanLane>,
    batch: seq<Transaction>, hashes: Hashes, lo: nat, hi: nat, laneCount: nat)
    requires EpochOk(batch, lo, hi) && SourceOk(batch) && OverlapsJoined(batch, hashes, lo, hi) && laneCount > 0
    requires CommitOrder(order, FlushedLanes(step, EpochOf(batch, hashes, lo, hi), batch, laneCount, hashes))
    ensures CommitPlain(sem, db, order) == Run(sem, db, BatchItems(batch, lo, hi))
  {
    var epoch := EpochOf(batch, hashes, lo, hi);
    hide LaneOf, EpochOf, FlushedLanes, Keyed, StableDefinitions, OverlapsJoined, SourceOk, BatchItems, Independent;
    var labelOf := LaneLabel(epoch, laneCount, hashes.component, lo);
    var items := BatchItems(batch, lo, hi);
    StepLanes(step, batch, hashes, lo, hi, laneCount);
    CommitPlainIsGrouped(sem, db, order, labelOf, items);
    var labels := LaneNumbers(order);
    LaneNumbersMeaning(order);
    forall i, j | 0 <= i < j < |labels| ensures labels[i] != labels[j] {
      assert order[i] in order && order[j] in order;
    }
    forall x | x in items ensures labelOf(x) in labels {
      var lane :| lane in order && lane.lane.lane == labelOf(x);
      var i :| 0 <= i < |order| && order[i] == lane;
      assert labels[i] == labelOf(x);
    }
    EpochLanesSeparate(batch, hashes, lo, hi, laneCount);
    GroupingPreservesRun(sem, db, labels, labelOf, items);
    SelectAll(AnyLabel(labelOf, labels), items);
  }

  // --- Rewritten lanes ---

  lemma BatchLaneItems(batch: seq<Transaction>, lo: nat, hi: nat, items: seq<Item>)
    requires EpochOk(batch, lo, hi) && SourceOk(batch)
    requires forall x :: x in items ==> x in BatchItems(batch, lo, hi)
    ensures LaneItems(items)
  {
    hide Keyed, ItemsOf, StableDefinitions, BatchItems, KeyOf, OldTupleIsIdentity, RelationLocal;
    forall x | x in items ensures RelationLocal(x) && OldTupleIsIdentity(x) {
      ItemInBatch(batch, lo, hi, x);
      ItemOfKeyed(batch, x.transactionIndex, x);
      KeyedIsLocal(x);
    }
    forall x, y | x in items && y in items && x.relation.source.oid == y.relation.source.oid
      ensures x.relation == y.relation
    {
      ItemInBatch(batch, lo, hi, x);
      ItemInBatch(batch, lo, hi, y);
      EpochDefinitions(batch, lo, hi, x.transactionIndex, x, y.transactionIndex, y);
    }
  }

  lemma {:induction false} RewrittenLanesCommit(sem: Semantics, db: Database, order: seq<PlanLane>)
    requires forall x :: x in order ==> LaneItems(x.lane.items)
    requires CommitPlain(sem, Some(db), order).Some?
    ensures CommitLanes(sem, Some(db), order) == CommitPlain(sem, Some(db), order)
    decreases |order|
  {
    hide LaneItems, Rewritten;
    if order != [] {
      assert order[0] in order;
      var items := order[0].lane.items;
      CommitFailed(sem, order[1..]);
      RewritingPreservesRun(sem, db, items);
      RewrittenLanesCommit(sem, Run(sem, Some(db), items).value, order[1..]);
    }
  }

  lemma {:induction false} CommitFailed(sem: Semantics, order: seq<PlanLane>)
    ensures CommitPlain(sem, None, order).None?
    decreases |order|
  {
    if order != [] {
      CommitFailed(sem, order[1..]);
    }
  }

  /** A step as it really executes, rewritten lanes and all. */
  lemma StepSerializable(
    sem: Semantics, db: Option<Database>, step: Step, k: nat, order: seq<PlanLane>,
    batch: seq<Transaction>, hashes: Hashes, lo: nat, hi: nat, laneCount: nat)
    requires laneCount > 0 && SourceOk(batch) && StepOk(step, k, lo, hi, batch, laneCount, hashes)
    requires step.serialTransaction < 0 ==> OverlapsJoined(batch, hashes, lo, hi) && CommitOrder(order, step.lanes)
    requires Run(sem, db, BatchItems(batch, lo, hi)).Some?
    ensures CommitStep(sem, db, step, order, batch) == Run(sem, db, BatchItems(batch, lo, hi))
  {
    hide OverlapsJoined, SourceOk, EpochOk, EpochOf, FlushedLanes, ItemsOf;
    if step.serialTransaction >= 0 {
      assert BatchItems(batch, lo, lo) == [];
      assert BatchItems(batch, lo, hi) == ItemsOf(lo, batch[lo]);
    } else {
      hide BatchItems;
      ParallelStepSerializable(sem, db, k, order, batch, hashes, lo, hi, laneCount);
      StepLanes(k, batch, hashes, lo, hi, laneCount);
      forall x | x in order ensures LaneItems(x.lane.items) {
        BatchLaneItems(batch, lo, hi, x.lane.items);
      }
      if db.None? {
        CommitFailed(sem, order);
      } else {
        RewrittenLanesCommit(sem, db.value, order);
      }
    }
  }

  // --- Whole plans ---

  /** No epoch of the plan keys one relation both per row and per table in a way that matters. */
  ghost predicate PlanOverlapsJoined(steps: seq<Step>, bounds: seq<nat>, batch: seq<Transaction>, hashes: Hashes)
    requires |bounds| == |steps| + 1
  {
    forall k :: 0 <= k < |steps| && steps[k].serialTransaction < 0 && EpochOk(batch, bounds[k], bounds[k + 1]) ==>
      OverlapsJoined(batch, hashes, bounds[k], bounds[k + 1])
  }

  lemma {:induction false} BatchItemsConcat(batch: seq<Transaction>, lo: nat, mid: nat, hi: nat)
    requires lo <= mid <= hi <= |batch|
    ensures BatchItems(batch, lo, mid) + BatchItems(batch, mid, hi) == BatchItems(batch, lo, hi)
    decreases hi
  {
    hide ItemsOf;
    if mid < hi {
      BatchItemsConcat(batch, lo, mid, hi - 1);
    }
  }

  ghost predicate OrdersOk(steps: seq<Step>, orders: seq<seq<PlanLane>>) {
    |orders| == |steps| &&
    forall k :: 0 <= k < |steps| && steps[k].serialTransaction < 0 ==> CommitOrder(orders[k], steps[k].lanes)
  }

  lemma {:induction false} StepsSerializable(
    sem: Semantics, db: Option<Database>, steps: seq<Step>, bounds: seq<nat>, orders: seq<seq<PlanLane>>,
    batch: seq<Transaction>, laneCount: nat, hashes: Hashes)
    requires laneCount > 0 && SourceOk(batch) && Tiles(steps, bounds, batch, laneCount, hashes)
    requires bounds[|steps|] <= |batch|
    requires PlanOverlapsJoined(steps, bounds, batch, hashes) && OrdersOk(steps, orders)
    requires Run(sem, db, BatchItems(batch, 0, bounds[|steps|])).Some?
    ensures CommitSteps(sem, db, steps, orders, batch) == Run(sem, db, BatchItems(batch, 0, bounds[|steps|]))
    decreases |steps|
  {
    if steps != [] {
      var last := |steps| - 1;
      PrefixTiles(steps, bounds, batch, laneCount, hashes);
      LastStepOk(steps, bounds, orders, batch, laneCount, hashes);
      PrefixOk(steps, bounds, orders, batch, hashes);
      hide StepOk, SourceOk, OverlapsJoined, BatchItems, EpochOk, CommitStep, Tiles, PlanOverlapsJoined, OrdersOk;
      BatchItemsConcat(batch, 0, bounds[last], bounds[last + 1]);
      RunConcat(sem, db, BatchItems(batch, 0, bounds[last]), BatchItems(batch, bounds[last], bounds[last + 1]));
      StepsSerializable(sem, db, steps[..last], bounds[..last + 1], orders[..last], batch, laneCount, hashes);
      StepSerializable(
        sem, Run(sem, db, BatchItems(batch, 0, bounds[last])), steps[last], last, orders[last], batch, hashes,
        bounds[last], bounds[last + 1], laneCount);
    }
  }

  /** What the theorem about one step asks of the last step of a plan. */
  lemma LastStepOk(
    steps: seq<Step>, bounds: seq<nat>, orders: seq<seq<PlanLane>>, batch: seq<Transaction>, laneCount: nat, hashes: Hashes)
    requires laneCount > 0 && steps != [] && Tiles(steps, bounds, batch, laneCount, hashes)
    requires PlanOverlapsJoined(steps, bounds, batch, hashes) && OrdersOk(steps, orders)
    ensures
      var last := |steps| - 1;
      && StepOk(steps[last], last, bounds[last], bounds[last + 1], batch, laneCount, hashes)
      && bounds[last] < bounds[last + 1] <= |batch|
      && (steps[last].serialTransaction < 0 ==>
            && OverlapsJoined(batch, hashes, bounds[last], bounds[last + 1])
            && CommitOrder(orders[last], steps[last].lanes))
  {
    hide OverlapsJoined, FlushedLanes, EpochOf;
  }

  lemma PrefixOk(
    steps: seq<Step>, bounds: seq<nat>, orders: seq<seq<PlanLane>>, batch: seq<Transaction>, hashes: Hashes)
    requires steps != [] && |bounds| == |steps| + 1
    requires PlanOverlapsJoined(steps, bounds, batch, hashes) && OrdersOk(steps, orders)
    ensures
      var last := |steps| - 1;
      && PlanOverlapsJoined(steps[..last], bounds[..last + 1], batch, hashes) && OrdersOk(steps[..last], orders[..last])
  {
    hide OverlapsJoined, EpochOk;
  }

  lemma StepIsEpoch(
    step: Step, k: nat, lo: nat, hi: nat, batch: seq<Transaction>, laneCount: nat, hashes: Hashes)
    requires laneCount > 0 && StepOk(step, k, lo, hi, batch, laneCount, hashes)
    ensures step.serialTransaction < 0 ==> EpochOk(batch, lo, hi)
  {
  }

  /** Parallel replay is serializable. For every batch whose source-order replay succeeds, every
      lane count, every hash function and every order in which the lanes of each step commit, the
      executed plan leaves exactly the target that source-order replay leaves. */
  lemma ReplaySerializable(
    sem: Semantics, db: Database, bounds: seq<nat>, orders: seq<seq<PlanLane>>,
    batch: seq<Transaction>, laneCount: nat, hashes: Hashes)
    requires laneCount > 0 && SourceOk(batch)
    requires
      var plan := PlanOf(batch, laneCount, hashes);
      && Tiles(plan.steps, bounds, batch, laneCount, hashes)
      && bounds[|plan.steps|] == |batch|
      && PlanOverlapsJoined(plan.steps, bounds, batch, hashes)
      && OrdersOk(plan.steps, orders)
    requires Run(sem, Some(db), BatchItems(batch, 0, |batch|)).Some?
    ensures CommitSteps(sem, Some(db), PlanOf(batch, laneCount, hashes).steps, orders, batch) ==
      Run(sem, Some(db), BatchItems(batch, 0, |batch|))
  {
    StepsSerializable(sem, Some(db), PlanOf(batch, laneCount, hashes).steps, bounds, orders, batch, laneCount, hashes);
  }

  /** No possible epoch of the batch separates a row-keyed from a table-keyed change of one row. */
  ghost predicate BatchOverlapsJoined(batch: seq<Transaction>, hashes: Hashes) {
    forall lo, hi {:trigger EpochOk(batch, lo, hi)} | 0 <= lo && EpochOk(batch, lo, hi) :: OverlapsJoined(batch, hashes, lo, hi)
  }

  /** The theorem about a batch alone: no tiling of its plan has to be given. */
  lemma BatchSerializable(
    sem: Semantics, db: Database, orders: seq<seq<PlanLane>>, batch: seq<Transaction>, laneCount: nat, hashes: Hashes)
    requires laneCount > 0 && SourceOk(batch) && BatchOverlapsJoined(batch, hashes)
    requires OrdersOk(PlanOf(batch, laneCount, hashes).steps, orders)
    requires Run(sem, Some(db), BatchItems(batch, 0, |batch|)).Some?
    ensures CommitSteps(sem, Some(db), PlanOf(batch, laneCount, hashes).steps, orders, batch) ==
      Run(sem, Some(db), BatchItems(batch, 0, |batch|))
  {
    var bounds := PlanTiles(batch, laneCount, hashes);
    hide PlanOf, SourceOk, OverlapsJoined, EpochOk;
    ReplaySerializable(sem, db, bounds, orders, batch, laneCount, hashes);
  }
}
