/** The work manifest of a plan as a schedule of receipts: every change belongs to exactly one
    work, and changes that depend on each other are never ordered against source order by it. */
module Schedule {
  import opened Wrappers
  import opened Model
  import opened Catalog
  import opened Target
  import opened Dependence
  import opened Components
  import opened Planner
  import opened PlanShape
  import opened LaneRewrite
  import opened Serializability
  import opened Execution

  /** The work's digest binds transaction `index` of the batch. */
  predicate Covers(w: Work, index: nat) {
    match w.digest
    case LaneDigest(_, _, content) => exists k :: 0 <= k < |content| && content[k].0 == index
    case SerialDigest(_, transactionIndex, _) => transactionIndex == index
  }

  function CoveredBy(w: Work): Item -> bool {
    (x: Item) => Covers(w, x.transactionIndex)
  }

  /** Changes of `earlier` in step order never depend on an earlier change of `later`. */
  ghost predicate InOrder(items: seq<Item>, earlier: Work, later: Work) {
    forall p, q | 0 <= p < q < |items| ::
      Covers(later, items[p].transactionIndex) && Covers(earlier, items[q].transactionIndex) ==>
        Independent(items[p], items[q])
  }

  ghost predicate ScheduleOk(items: seq<Item>, works: set<Work>) {
    && (forall x :: x in items ==> exists w :: w in works && Covers(w, x.transactionIndex))
    && (forall v, w, x | v in works && w in works && x in items ::
          Covers(v, x.transactionIndex) && Covers(w, x.transactionIndex) ==> v == w)
    && (forall v, w :: v in works && w in works && v != w && v.step <= w.step ==> InOrder(items, v, w))
    && (forall w :: w in works && w.kind.ParallelLane? ==> LaneItems(Select(CoveredBy(w), items)))
    && (forall v, w :: v in works && w in works && w.kind.SerialTransaction? && v.step == w.step ==> v == w)
  }

  // --- The schedule of a plan ---

  lemma {:induction false} ManifestWorks(steps: seq<Step>, works: seq<Work>, batch: seq<Transaction>, w: Work)
    requires ManifestOf(steps, works, batch)
    ensures w in works <==> exists k ::
      0 <= k < |steps| && steps[k].serialTransaction < |batch| && w in StepWorks(steps[k], batch)
    decreases |steps|
  {
    hide StepWorks;
    if steps != [] {
      var last := |steps| - 1;
      var mine := StepWorks(steps[last], batch);
      var rest := works[..|works| - |mine|];
      ManifestWorks(steps[..last], rest, batch, w);
      assert works == rest + mine;
      if k :| 0 <= k < last && steps[..last][k].serialTransaction < |batch| && w in StepWorks(steps[..last][k], batch) {
        assert steps[..last][k] == steps[k];
      }
      if k :| 0 <= k < |steps| && steps[k].serialTransaction < |batch| && w in StepWorks(steps[k], batch) {
        if k < last {
          assert steps[..last][k] == steps[k];
        }
      }
    }
  }

  lemma {:induction false} LaneMembers(
    epoch: seq<PlanTransaction>, laneCount: nat, digest: seq<Digest> -> nat, l: nat, n: nat, index: nat)
    requires laneCount > 0 && n <= |epoch|
    ensures index in LaneUpTo(epoch, laneCount, digest, l, n).transactionIndexes <==>
      exists j: nat :: j < n && epoch[j].index == index && LaneOf(epoch, laneCount, digest, j) == l
    decreases n
  {
    hide LaneOf, LaneUpTo;
    LaneStep(epoch, laneCount, digest, l, n);
    if n > 0 {
      LaneMembers(epoch, laneCount, digest, l, n - 1, index);
      var before := LaneUpTo(epoch, laneCount, digest, l, n - 1).transactionIndexes;
      assert forall i :: i in before + [epoch[n - 1].index] <==> i in before || i == epoch[n - 1].index;
    }
  }

  lemma LaneWorkCovers(step: nat, lane: Lane, batch: seq<Transaction>, index: nat)
    requires InBatch(lane.transactionIndexes, batch)
    ensures Covers(LaneWork(step, lane, batch), index) <==> index in lane.transactionIndexes
  {
    var content := LaneContent(lane.transactionIndexes, batch);
    if index in lane.transactionIndexes {
      var k :| 0 <= k < |lane.transactionIndexes| && lane.transactionIndexes[k] == index;
      assert content[k].0 == index;
    }
  }

  /** Which transactions the works of one step bind. */
  ghost predicate StepCovers(
    step: Step, lo: nat, hi: nat, batch: seq<Transaction>, laneCount: nat, hashes: Hashes, w: Work, index: nat)
    requires laneCount > 0 && lo <= hi <= |batch|
  {
    Covers(w, index) == (
      && lo <= index < hi
      && (step.serialTransaction < 0 ==>
            LaneOf(EpochOf(batch, hashes, lo, hi), laneCount, hashes.component, index - lo) == w.lane))
  }

  lemma SerialCovers(k: nat, lo: nat, t: Transaction, index: nat)
    ensures Covers(SerialWork(k, lo, t), index) <==> index == lo
  {
  }

  lemma LaneOfWork(step: Step, batch: seq<Transaction>, w: Work) returns (x: PlanLane)
    requires step.serialTransaction < 0 && w in StepWorks(step, batch)
    ensures x in step.lanes && x.work == w
  {
    var i :| 0 <= i < |step.lanes| && step.lanes[i].work == w;
    x := step.lanes[i];
  }

  lemma LaneInterval(
    batch: seq<Transaction>, hashes: Hashes, lo: nat, hi: nat, laneCount: nat, l: nat, index: nat)
    requires lo <= hi <= |batch| && laneCount > 0
    ensures
      var epoch := EpochOf(batch, hashes, lo, hi);
      index in LaneUpTo(epoch, laneCount, hashes.component, l, |epoch|).transactionIndexes <==>
        lo <= index < hi && LaneOf(epoch, laneCount, hashes.component, index - lo) == l
  {
    hide EpochOf, LaneUpTo, LaneOf;
    var epoch := EpochOf(batch, hashes, lo, hi);
    LaneMembers(epoch, laneCount, hashes.component, l, |epoch|, index);
    forall j: nat | j < |epoch| ensures epoch[j].index == lo + j {
      EpochAt(batch, hashes, lo, hi, j);
    }
    if lo <= index < hi {
      assert epoch[index - lo].index == index;
    }
  }

  lemma StepWorkCovers(
    step: Step, k: nat, lo: nat, hi: nat, batch: seq<Transaction>, laneCount: nat, hashes: Hashes, w: Work, index: nat)
    requires laneCount > 0 && StepOk(step, k, lo, hi, batch, laneCount, hashes) && w in StepWorks(step, batch)
    ensures w.step == k && (w.kind.SerialTransaction? <==> step.serialTransaction >= 0)
    ensures StepCovers(step, lo, hi, batch, laneCount, hashes, w, index)
    ensures step.serialTransaction < 0 ==> exists x :: x in step.lanes && x.work == w && x.lane.lane == w.lane
    ensures step.serialTransaction >= 0 ==> w == SerialWork(k, lo, batch[lo])
  {
    hide Keyed, EpochOf, LaneUpTo, LaneOf, StableDefinitions, FlushedLanes, Covers;
    if step.serialTransaction < 0 {
      var x := LaneOfWork(step, batch, w);
      FlushedLane(k, EpochOf(batch, hashes, lo, hi), batch, laneCount, hashes, x);
      LaneWorkCovers(k, x.lane, batch, index);
      LaneInterval(batch, hashes, lo, hi, laneCount, x.lane.lane, index);
    } else {
      SerialCovers(k, lo, batch[lo], index);
    }
  }

  lemma {:induction false} BatchOrdered(batch: seq<Transaction>, hi: nat, p: nat, q: nat)
    requires hi <= |batch| && p <= q < |BatchItems(batch, 0, hi)|
    ensures BatchItems(batch, 0, hi)[p].transactionIndex <= BatchItems(batch, 0, hi)[q].transactionIndex
    decreases hi
  {
    hide ItemsOf;
    if hi > 0 {
      var init, last := BatchItems(batch, 0, hi - 1), ItemsOf(hi - 1, batch[hi - 1]);
      ItemsCarryIndex(hi - 1, batch[hi - 1]);
      if q < |init| {
        BatchOrdered(batch, hi - 1, p, q);
      } else if p < |init| {
        ItemInBatch(batch, 0, hi - 1, init[p]);
      }
    }
  }

  lemma {:induction false} FindStep(bounds: seq<nat>, n: nat, index: nat) returns (k: nat)
    requires n < |bounds| && bounds[0] == 0 && index < bounds[n]
    ensures k < n && bounds[k] <= index < bounds[k + 1]
    decreases n
  {
    k := 0;
    while bounds[k + 1] <= index
      invariant k < n && bounds[k] <= index
      decreases n - k
    {
      k := k + 1;
    }
  }

  lemma {:induction false} BoundsMonotone(
    steps: seq<Step>, bounds: seq<nat>, batch: seq<Transaction>, laneCount: nat, hashes: Hashes, j: nat, k: nat)
    requires laneCount > 0 && Tiles(steps, bounds, batch, laneCount, hashes) && j <= k <= |steps|
    ensures bounds[j] <= bounds[k]
    decreases k
  {
    if j < k {
      assert StepOk(steps[k - 1], k - 1, bounds[k - 1], bounds[k], batch, laneCount, hashes);
      hide StepOk;
      BoundsMonotone(steps, bounds, batch, laneCount, hashes, j, k - 1);
    }
  }

  /** A plan with its cut points and the facts every claim relies on. */
  ghost predicate Scheduled(
    steps: seq<Step>, works: seq<Work>, bounds: seq<nat>, batch: seq<Transaction>, laneCount: nat, hashes: Hashes)
  {
    && laneCount > 0
    && SourceOk(batch)
    && Tiles(steps, bounds, batch, laneCount, hashes)
    && bounds[|steps|] == |batch|
    && ManifestOf(steps, works, batch)
    && PlanOverlapsJoined(steps, bounds, batch, hashes)
  }

  lemma WorkStep(
    steps: seq<Step>, works: seq<Work>, bounds: seq<nat>, batch: seq<Transaction>, laneCount: nat, hashes: Hashes, w: Work)
    requires Scheduled(steps, works, bounds, batch, laneCount, hashes) && w in works
    ensures w.step < |steps|
    ensures StepOk(steps[w.step], w.step, bounds[w.step], bounds[w.step + 1], batch, laneCount, hashes)
    ensures w in StepWorks(steps[w.step], batch)
    ensures forall index: nat :: Covers(w, index) ==> bounds[w.step] <= index < bounds[w.step + 1]
  {
    hide StepOk, StepWorks, Covers;
    ManifestWorks(steps, works, batch, w);
    var k :| 0 <= k < |steps| && steps[k].serialTransaction < |batch| && w in StepWorks(steps[k], batch);
    assert StepOk(steps[k], k, bounds[k], bounds[k + 1], batch, laneCount, hashes);
    StepIsEpoch(steps[k], k, bounds[k], bounds[k + 1], batch, laneCount, hashes);
    StepWorkCovers(steps[k], k, bounds[k], bounds[k + 1], batch, laneCount, hashes, w, 0);
    forall index: nat | Covers(w, index) ensures bounds[k] <= index < bounds[k + 1] {
      StepWorkCovers(steps[k], k, bounds[k], bounds[k + 1], batch, laneCount, hashes, w, index);
    }
  }

  /** Two works of a plan that bind the same transaction are the same work. */
  lemma OneWorkPerTransaction(
    steps: seq<Step>, works: seq<Work>, bounds: seq<nat>, batch: seq<Transaction>, laneCount: nat, hashes: Hashes,
    v: Work, w: Work, index: nat)
    requires Scheduled(steps, works, bounds, batch, laneCount, hashes) && v in works && w in works
    requires Covers(v, index) && Covers(w, index)
    ensures v == w
  {
    hide StepOk, StepWorks, Covers, EpochOk, EpochOf, LaneOf, SourceOk, PlanOverlapsJoined, ManifestOf;
    WorkStep(steps, works, bounds, batch, laneCount, hashes, v);
    WorkStep(steps, works, bounds, batch, laneCount, hashes, w);
    if v.step < w.step {
      BoundsMonotone(steps, bounds, batch, laneCount, hashes, v.step + 1, w.step);
    } else if w.step < v.step {
      BoundsMonotone(steps, bounds, batch, laneCount, hashes, w.step + 1, v.step);
    } else {
      var k := v.step;
      StepIsEpoch(steps[k], k, bounds[k], bounds[k + 1], batch, laneCount, hashes);
      StepWorkCovers(steps[k], k, bounds[k], bounds[k + 1], batch, laneCount, hashes, v, index);
      StepWorkCovers(steps[k], k, bounds[k], bounds[k + 1], batch, laneCount, hashes, w, index);
      if steps[k].serialTransaction < 0 {
        SameLaneSameWork(steps[k], k, bounds[k], bounds[k + 1], batch, laneCount, hashes, v, w);
      }
    }
  }

  lemma SameLaneSameWork(
    step: Step, k: nat, lo: nat, hi: nat, batch: seq<Transaction>, laneCount: nat, hashes: Hashes, v: Work, w: Work)
    requires laneCount > 0 && StepOk(step, k, lo, hi, batch, laneCount, hashes) && step.serialTransaction < 0
    requires exists x :: x in step.lanes && x.work == v && x.lane.lane == v.lane
    requires exists x :: x in step.lanes && x.work == w && x.lane.lane == w.lane
    requires v.lane == w.lane
    ensures v == w
  {
    hide EpochOk, EpochOf, FlushedLanes, LaneOf, BatchItems;
    StepLanes(k, batch, hashes, lo, hi, laneCount);
  }

  lemma WorksInOrder(
    steps: seq<Step>, works: seq<Work>, bounds: seq<nat>, batch: seq<Transaction>, laneCount: nat, hashes: Hashes,
    v: Work, w: Work)
    requires Scheduled(steps, works, bounds, batch, laneCount, hashes) && v in works && w in works
    requires v != w && v.step <= w.step
    ensures InOrder(BatchItems(batch, 0, |batch|), v, w)
  {
    hide StepOk, StepWorks, Covers, Independent, BatchItems, EpochOk, EpochOf, LaneOf, SourceOk, ManifestOf;
    var items := BatchItems(batch, 0, |batch|);
    WorkStep(steps, works, bounds, batch, laneCount, hashes, v);
    WorkStep(steps, works, bounds, batch, laneCount, hashes, w);
    forall p, q | 0 <= p < q < |items| && Covers(w, items[p].transactionIndex) && Covers(v, items[q].transactionIndex)
      ensures Independent(items[p], items[q])
    {
      var a, b := items[p], items[q];
      BatchOrdered(batch, |batch|, p, q);
      if v.step < w.step {
        BoundsMonotone(steps, bounds, batch, laneCount, hashes, v.step + 1, w.step);
        assert false;
      } else {
        ItemInBatch(batch, 0, |batch|, a);
        ItemInBatch(batch, 0, |batch|, b);
        SameStepIndependent(steps, works, bounds, batch, laneCount, hashes, v, w, a, b);
      }
    }
  }

  lemma SameStepIndependent(
    steps: seq<Step>, works: seq<Work>, bounds: seq<nat>, batch: seq<Transaction>, laneCount: nat, hashes: Hashes,
    v: Work, w: Work, a: Item, b: Item)
    requires Scheduled(steps, works, bounds, batch, laneCount, hashes) && v in works && w in works
    requires v != w && v.step == w.step
    requires a.transactionIndex < |batch| && a in ItemsOf(a.transactionIndex, batch[a.transactionIndex])
    requires b.transactionIndex < |batch| && b in ItemsOf(b.transactionIndex, batch[b.transactionIndex])
    requires Covers(w, a.transactionIndex) && Covers(v, b.transactionIndex)
    ensures Independent(a, b)
  {
    hide StepOk, StepWorks, Covers, Independent, EpochOk, EpochOf, LaneOf, SourceOk, ManifestOf, ItemsOf, OverlapsJoined;
    WorkStep(steps, works, bounds, batch, laneCount, hashes, v);
    WorkStep(steps, works, bounds, batch, laneCount, hashes, w);
    var k := v.step;
    var lo, hi := bounds[k], bounds[k + 1];
    StepIsEpoch(steps[k], k, lo, hi, batch, laneCount, hashes);
    var i, j := a.transactionIndex, b.transactionIndex;
    StepWorkCovers(steps[k], k, lo, hi, batch, laneCount, hashes, w, i);
    StepWorkCovers(steps[k], k, lo, hi, batch, laneCount, hashes, v, j);
    if steps[k].serialTransaction < 0 {
      if v.lane == w.lane {
        SameLaneSameWork(steps[k], k, lo, hi, batch, laneCount, hashes, v, w);
      }
      DifferentLanesIndependent(batch, hashes, lo, hi, laneCount, i, a, j, b);
    }
  }

  lemma DifferentLanesIndependent(
    batch: seq<Transaction>, hashes: Hashes, lo: nat, hi: nat, laneCount: nat, i: nat, a: Item, j: nat, b: Item)
    requires laneCount > 0 && lo <= i < hi <= |batch| && lo <= j < hi
    requires
      var epoch := EpochOf(batch, hashes, lo, hi);
      LaneOf(epoch, laneCount, hashes.component, i - lo) != LaneOf(epoch, laneCount, hashes.component, j - lo)
    requires a in ItemsOf(i, batch[i]) && b in ItemsOf(j, batch[j])
    requires OverlapsJoined(batch, hashes, lo, hi) && SourceOk(batch) && EpochOk(batch, lo, hi)
    ensures Independent(a, b)
  {
    hide EpochOk, ItemsOf, OverlapsJoined, SourceOk, Independent, EpochOf, LaneOf, Connected;
    LanesDifferUnconnected(EpochOf(batch, hashes, lo, hi), laneCount, hashes.component, i - lo, j - lo);
    UnconnectedIndependent(batch, hashes, lo, hi, i, a, j, b);
  }

  lemma LanesDifferUnconnected(
    epoch: seq<PlanTransaction>, laneCount: nat, digest: seq<Digest> -> nat, i: nat, j: nat)
    requires laneCount > 0 && i < |epoch| && j < |epoch|
    requires LaneOf(epoch, laneCount, digest, i) != LaneOf(epoch, laneCount, digest, j)
    ensures !Connected(epoch, i, j)
  {
    hide LaneOf;
    if Connected(epoch, i, j) {
      ConnectedSameLane(epoch, laneCount, digest, i, j);
    }
  }

  lemma EveryItemHasWork(
    steps: seq<Step>, works: seq<Work>, bounds: seq<nat>, batch: seq<Transaction>, laneCount: nat, hashes: Hashes, x: Item)
    returns (w: Work)
    requires Scheduled(steps, works, bounds, batch, laneCount, hashes) && x in BatchItems(batch, 0, |batch|)
    ensures w in works && Covers(w, x.transactionIndex)
  {
    hide StepOk, StepWorks, Covers, BatchItems, EpochOk, EpochOf, LaneOf, SourceOk, OverlapsJoined, FlushedLanes, ItemsOf;
    ItemInBatch(batch, 0, |batch|, x);
    var index := x.transactionIndex;
    var k := FindStep(bounds, |steps|, index);
    var lo, hi := bounds[k], bounds[k + 1];
    assert StepOk(steps[k], k, lo, hi, batch, laneCount, hashes);
    w := StepHasWork(steps[k], k, lo, hi, batch, laneCount, hashes, x);
    ManifestWorks(steps, works, batch, w);
  }

  lemma StepHasWork(
    step: Step, k: nat, lo: nat, hi: nat, batch: seq<Transaction>, laneCount: nat, hashes: Hashes, x: Item)
    returns (w: Work)
    requires laneCount > 0 && StepOk(step, k, lo, hi, batch, laneCount, hashes)
    requires lo <= x.transactionIndex < hi && x in ItemsOf(x.transactionIndex, batch[x.transactionIndex])
    ensures step.serialTransaction < |batch| && w in StepWorks(step, batch) && Covers(w, x.transactionIndex)
  {
    hide EpochOk, EpochOf, LaneOf, FlushedLanes, ItemsOf, Covers;
    StepIsEpoch(step, k, lo, hi, batch, laneCount, hashes);
    if step.serialTransaction >= 0 {
      w := SerialWork(k, lo, batch[lo]);
    } else {
      w := EpochHasWork(k, lo, hi, batch, laneCount, hashes, x);
    }
    StepWorkCovers(step, k, lo, hi, batch, laneCount, hashes, w, x.transactionIndex);
  }

  lemma EpochHasWork(
    k: nat, lo: nat, hi: nat, batch: seq<Transaction>, laneCount: nat, hashes: Hashes, x: Item) returns (w: Work)
    requires laneCount > 0 && lo <= x.transactionIndex < hi <= |batch|
    requires EpochOk(batch, lo, hi) && x in ItemsOf(x.transactionIndex, batch[x.transactionIndex])
    ensures w.lane == LaneOf(EpochOf(batch, hashes, lo, hi), laneCount, hashes.component, x.transactionIndex - lo)
    ensures w in WorksOf(FlushedLanes(k, EpochOf(batch, hashes, lo, hi), batch, laneCount, hashes))
  {
    hide EpochOk, LaneOf, ItemsOf, BatchItems, EpochOf, FlushedLanes;
    var epoch := EpochOf(batch, hashes, lo, hi);
    var lanes := FlushedLanes(k, epoch, batch, laneCount, hashes);
    ItemOfInterval(batch, lo, hi, x);
    StepLanes(k, batch, hashes, lo, hi, laneCount);
    var lane :| lane in lanes && lane.lane.lane == LaneLabel(epoch, laneCount, hashes.component, lo)(x);
    WorkLane(k, batch, hashes, lo, hi, laneCount, lane);
    w := lane.work;
    var i :| 0 <= i < |lanes| && lanes[i] == lane;
    assert WorksOf(lanes)[i] == w;
  }

  lemma WorkLane(step: nat, batch: seq<Transaction>, hashes: Hashes, lo: nat, hi: nat, laneCount: nat, lane: PlanLane)
    requires EpochOk(batch, lo, hi) && laneCount > 0
    requires lane in FlushedLanes(step, EpochOf(batch, hashes, lo, hi), batch, laneCount, hashes)
    ensures lane.work.lane == lane.lane.lane
  {
    hide EpochOk, EpochOf, LaneUpTo, FlushedLanes;
    assert lo <= hi <= |batch| by {
      EpochWithinBatch(batch, lo, hi);
    }
    FlushedLane(step, EpochOf(batch, hashes, lo, hi), batch, laneCount, hashes, lane);
  }

  lemma {:induction false} ItemOfInterval(batch: seq<Transaction>, lo: nat, hi: nat, x: Item)
    requires lo <= x.transactionIndex < hi <= |batch| && x in ItemsOf(x.transactionIndex, batch[x.transactionIndex])
    ensures x in BatchItems(batch, lo, hi)
    decreases hi
  {
    hide ItemsOf;
    if x.transactionIndex < hi - 1 {
      ItemOfInterval(batch, lo, hi - 1, x);
    }
  }

  lemma ParallelWorkItems(
    steps: seq<Step>, works: seq<Work>, bounds: seq<nat>, batch: seq<Transaction>, laneCount: nat, hashes: Hashes, w: Work)
    requires Scheduled(steps, works, bounds, batch, laneCount, hashes) && w in works && w.kind.ParallelLane?
    ensures LaneItems(Select(CoveredBy(w), BatchItems(batch, 0, |batch|)))
  {
    hide StepOk, StepWorks, Covers, BatchItems, EpochOk, EpochOf, LaneOf, OverlapsJoined, LaneItems, ItemsOf;
    WorkStep(steps, works, bounds, batch, laneCount, hashes, w);
    var k := w.step;
    var lo, hi := bounds[k], bounds[k + 1];
    StepWorkCovers(steps[k], k, lo, hi, batch, laneCount, hashes, w, lo);
    StepIsEpoch(steps[k], k, lo, hi, batch, laneCount, hashes);
    var items := Select(CoveredBy(w), BatchItems(batch, 0, |batch|));
    forall x | x in items ensures x in BatchItems(batch, lo, hi) {
      ItemInBatch(batch, 0, |batch|, x);
      EpochWithinBatch(batch, lo, hi);
      ItemOfInterval(batch, lo, hi, x);
    }
    BatchLaneItems(batch, lo, hi, items);
  }

  /** A serial step has a single work. */
  lemma SerialWorkAlone(
    steps: seq<Step>, works: seq<Work>, bounds: seq<nat>, batch: seq<Transaction>, laneCount: nat, hashes: Hashes,
    v: Work, w: Work)
    requires Scheduled(steps, works, bounds, batch, laneCount, hashes) && v in works && w in works
    requires w.kind.SerialTransaction? && v.step == w.step
    ensures v == w
  {
    hide StepOk, StepWorks, Covers, SourceOk, PlanOverlapsJoined, ManifestOf, EpochOk;
    WorkStep(steps, works, bounds, batch, laneCount, hashes, v);
    WorkStep(steps, works, bounds, batch, laneCount, hashes, w);
    var k := w.step;
    StepIsEpoch(steps[k], k, bounds[k], bounds[k + 1], batch, laneCount, hashes);
    StepWorkCovers(steps[k], k, bounds[k], bounds[k + 1], batch, laneCount, hashes, v, 0);
    StepWorkCovers(steps[k], k, bounds[k], bounds[k + 1], batch, laneCount, hashes, w, 0);
  }

  lemma EpochWithinBatch(batch: seq<Transaction>, lo: nat, hi: nat)
    requires EpochOk(batch, lo, hi)
    ensures lo < hi <= |batch|
  {
  }

  /** The works of every plan form a valid schedule of its batch. */
  lemma PlanSchedules(batch: seq<Transaction>, laneCount: nat, hashes: Hashes, bounds: seq<nat>)
    requires laneCount > 0
    requires Scheduled(PlanOf(batch, laneCount, hashes).steps, PlanOf(batch, laneCount, hashes).works, bounds, batch, laneCount, hashes)
    ensures ScheduleOk(BatchItems(batch, 0, |batch|), set w | w in PlanOf(batch, laneCount, hashes).works)
  {
    hide Scheduled, PlanOf, Covers, BatchItems, InOrder, LaneItems, Select;
    var plan := PlanOf(batch, laneCount, hashes);
    var items, works := BatchItems(batch, 0, |batch|), set w | w in plan.works;
    forall x | x in items ensures exists w :: w in works && Covers(w, x.transactionIndex) {
      var w := EveryItemHasWork(plan.steps, plan.works, bounds, batch, laneCount, hashes, x);
    }
    forall v, w, x | v in works && w in works && x in items && Covers(v, x.transactionIndex) && Covers(w, x.transactionIndex)
      ensures v == w
    {
      OneWorkPerTransaction(plan.steps, plan.works, bounds, batch, laneCount, hashes, v, w, x.transactionIndex);
    }
    forall v, w | v in works && w in works && v != w && v.step <= w.step ensures InOrder(items, v, w) {
      WorksInOrder(plan.steps, plan.works, bounds, batch, laneCount, hashes, v, w);
    }
    forall w | w in works && w.kind.ParallelLane? ensures LaneItems(Select(CoveredBy(w), items)) {
      ParallelWorkItems(plan.steps, plan.works, bounds, batch, laneCount, hashes, w);
    }
    forall v, w | v in works && w in works && w.kind.SerialTransaction? && v.step == w.step ensures v == w {
      SerialWorkAlone(plan.steps, plan.works, bounds, batch, laneCount, hashes, v, w);
    }
  }
}
