/** The receipts of a plan count every source transaction and every change exactly once, so the
    totals check that ends planning never fails (internal/cdc/replay_plan.go:219-234). */
module PlanTotals {
  import opened Wrappers
  import opened Model
  import opened Components
  import opened Planner
  import opened PlanShape

  function WorkTransactions(works: seq<Work>): nat {
    if works == [] then 0 else WorkTransactions(works[..|works| - 1]) + works[|works| - 1].expectedTransactions
  }

  function WorkChanges(works: seq<Work>): nat {
    if works == [] then 0 else WorkChanges(works[..|works| - 1]) + works[|works| - 1].expectedChanges
  }

  /** The changes of the first `n` transactions of the batch. */
  function BatchChanges(batch: seq<Transaction>, n: nat): nat
    requires n <= |batch|
  {
    if n == 0 then 0 else BatchChanges(batch, n - 1) + |batch[n - 1].changes|
  }

  lemma {:induction false} WorkTotalsConcat(xs: seq<Work>, ys: seq<Work>)
    ensures WorkTransactions(xs + ys) == WorkTransactions(xs) + WorkTransactions(ys)
    ensures WorkChanges(xs + ys) == WorkChanges(xs) + WorkChanges(ys)
    decreases |ys|
  {
    if ys == [] {
      assert xs + ys == xs;
    } else {
      assert (xs + ys)[..|xs + ys| - 1] == xs + ys[..|ys| - 1];
      WorkTotalsConcat(xs, ys[..|ys| - 1]);
    }
  }

  /** Totals over all lanes, the empty ones included. */
  function LaneTransactions(lanes: seq<Lane>): nat {
    if lanes == [] then 0
    else LaneTransactions(lanes[..|lanes| - 1]) + |lanes[|lanes| - 1].transactionIndexes|
  }

  function LaneChanges(lanes: seq<Lane>, batch: seq<Transaction>): nat
    requires LanesInBatch(lanes, batch)
  {
    if lanes == [] then 0
    else LaneChanges(lanes[..|lanes| - 1], batch) + ChangesIn(lanes[|lanes| - 1].transactionIndexes, batch)
  }

  lemma OneMoreWork(lanes: seq<PlanLane>, x: PlanLane)
    ensures WorkTransactions(WorksOf(lanes + [x])) == WorkTransactions(WorksOf(lanes)) + x.work.expectedTransactions
    ensures WorkChanges(WorksOf(lanes + [x])) == WorkChanges(WorksOf(lanes)) + x.work.expectedChanges
  {
    assert WorksOf(lanes + [x]) == WorksOf(lanes) + [x.work];
    assert (WorksOf(lanes) + [x.work])[..|lanes|] == WorksOf(lanes);
  }

  lemma {:induction false} UsedLaneTotals(step: nat, lanes: seq<Lane>, batch: seq<Transaction>)
    requires LanesInBatch(lanes, batch)
    ensures WorkTransactions(WorksOf(UsedLanes(step, lanes, batch))) == LaneTransactions(lanes)
    ensures WorkChanges(WorksOf(UsedLanes(step, lanes, batch))) == LaneChanges(lanes, batch)
    decreases |lanes|
  {
    hide ChangesIn;
    if lanes != [] {
      var init, last := lanes[..|lanes| - 1], lanes[|lanes| - 1];
      UsedLaneTotals(step, init, batch);
      var rest := UsedLanes(step, init, batch);
      if last.transactionIndexes == [] {
        NoChanges(batch);
      } else {
        hide WorkTransactions, WorkChanges, WorksOf;
        OneMoreWork(rest, PlanLane(last, LaneWork(step, last, batch)));
      }
    }
  }

  lemma NoChanges(batch: seq<Transaction>)
    ensures ChangesIn([], batch) == 0
  {
  }

  /** Appending one transaction to one lane adds one transaction and its changes to the totals. */
  lemma OneMoreListed(indexes: seq<nat>, index: nat, batch: seq<Transaction>)
    requires InBatch(indexes, batch) && index < |batch| && InBatch(indexes + [index], batch)
    ensures ChangesIn(indexes + [index], batch) == ChangesIn(indexes, batch) + |batch[index].changes|
  {
    assert (indexes + [index])[..|indexes|] == indexes;
  }

  lemma {:induction false} AppendToLane(lanes: seq<Lane>, longer: seq<Lane>, l: nat, index: nat, batch: seq<Transaction>)
    requires l < |lanes| == |longer| && index < |batch|
    requires LanesInBatch(lanes, batch) && LanesInBatch(longer, batch)
    requires forall m :: 0 <= m < |lanes| && m != l ==> longer[m].transactionIndexes == lanes[m].transactionIndexes
    requires longer[l].transactionIndexes == lanes[l].transactionIndexes + [index]
    ensures LaneTransactions(longer) == LaneTransactions(lanes) + 1
    ensures LaneChanges(longer, batch) == LaneChanges(lanes, batch) + |batch[index].changes|
    decreases |lanes|
  {
    hide ChangesIn;
    var last := |lanes| - 1;
    if l == last {
      SameLaneTotals(lanes[..last], longer[..last], batch);
      OneMoreListed(lanes[l].transactionIndexes, index, batch);
    } else {
      AppendToLane(lanes[..last], longer[..last], l, index, batch);
    }
  }

  lemma {:induction false} SameLaneTotals(lanes: seq<Lane>, other: seq<Lane>, batch: seq<Transaction>)
    requires |lanes| == |other| && LanesInBatch(lanes, batch) && LanesInBatch(other, batch)
    requires forall m :: 0 <= m < |lanes| ==> other[m].transactionIndexes == lanes[m].transactionIndexes
    ensures LaneTransactions(other) == LaneTransactions(lanes)
    ensures LaneChanges(other, batch) == LaneChanges(lanes, batch)
    decreases |lanes|
  {
    if lanes != [] {
      SameLaneTotals(lanes[..|lanes| - 1], other[..|lanes| - 1], batch);
    }
  }

  ghost function LanesUpTo(epoch: seq<PlanTransaction>, laneCount: nat, digest: seq<Digest> -> nat, n: nat): (lanes: seq<Lane>)
    requires laneCount > 0 && n <= |epoch|
    ensures |lanes| == laneCount && forall l :: 0 <= l < laneCount ==> lanes[l] == LaneUpTo(epoch, laneCount, digest, l, n)
  {
    seq(laneCount, l requires 0 <= l < laneCount => LaneUpTo(epoch, laneCount, digest, l, n))
  }

  lemma LanesUpToInBatch(epoch: seq<PlanTransaction>, batch: seq<Transaction>, laneCount: nat, digest: seq<Digest> -> nat, n: nat)
    requires EpochInBatch(epoch, batch) && laneCount > 0 && n <= |epoch|
    ensures LanesInBatch(LanesUpTo(epoch, laneCount, digest, n), batch)
  {
    forall l: nat | l < laneCount
      ensures InBatch(LanesUpTo(epoch, laneCount, digest, n)[l].transactionIndexes, batch)
    {
      LaneIndexesInBatch(epoch, batch, laneCount, digest, l, n);
    }
  }

  lemma {:induction false} EmptyLaneTotals(lanes: seq<Lane>, batch: seq<Transaction>)
    requires LanesInBatch(lanes, batch) && forall m :: 0 <= m < |lanes| ==> lanes[m].transactionIndexes == []
    ensures LaneTransactions(lanes) == 0 && LaneChanges(lanes, batch) == 0
    decreases |lanes|
  {
    if lanes != [] {
      EmptyLaneTotals(lanes[..|lanes| - 1], batch);
    }
  }

  /** The lanes of an epoch partition its transactions. */
  lemma {:induction false} EpochTotals(
    epoch: seq<PlanTransaction>, batch: seq<Transaction>, lo: nat, laneCount: nat, digest: seq<Digest> -> nat, n: nat)
    requires EpochInBatch(epoch, batch) && laneCount > 0 && n <= |epoch| && lo + |epoch| <= |batch|
    requires forall j :: 0 <= j < |epoch| ==> epoch[j].index == lo + j
    requires LanesInBatch(LanesUpTo(epoch, laneCount, digest, n), batch)
    ensures LaneTransactions(LanesUpTo(epoch, laneCount, digest, n)) == n
    ensures LaneChanges(LanesUpTo(epoch, laneCount, digest, n), batch) ==
      BatchChanges(batch, lo + n) - BatchChanges(batch, lo)
    decreases n
  {
    hide LaneOf, LaneUpTo, LaneTransactions, LaneChanges, InBatch;
    var lanes := LanesUpTo(epoch, laneCount, digest, n);
    forall l: nat ensures LaneUpTo(epoch, laneCount, digest, l, n) ==
      if n == 0 then Lane(l, [], [])
      else
        var lane := LaneUpTo(epoch, laneCount, digest, l, n - 1);
        if LaneOf(epoch, laneCount, digest, n - 1) == l then
          Lane(l, lane.transactionIndexes + [epoch[n - 1].index], lane.items + epoch[n - 1].items)
        else lane
    {
      LaneStep(epoch, laneCount, digest, l, n);
    }
    if n == 0 {
      EmptyLaneTotals(lanes, batch);
    } else {
      LanesUpToInBatch(epoch, batch, laneCount, digest, n - 1);
      EpochTotals(epoch, batch, lo, laneCount, digest, n - 1);
      AppendToLane(LanesUpTo(epoch, laneCount, digest, n - 1), lanes, LaneOf(epoch, laneCount, digest, n - 1), lo + n - 1, batch);
    }
  }

  lemma FlushTotals(k: nat, lo: nat, hi: nat, batch: seq<Transaction>, laneCount: nat, hashes: Hashes)
    requires EpochOk(batch, lo, hi) && laneCount > 0
    ensures
      var works := WorksOf(FlushedLanes(k, EpochOf(batch, hashes, lo, hi), batch, laneCount, hashes));
      && WorkTransactions(works) == hi - lo
      && WorkChanges(works) == BatchChanges(batch, hi) - BatchChanges(batch, lo)
  {
    hide Keyed, EpochOf, LaneUpTo, StableDefinitions, LaneWork, BatchChanges, UsedLanes, WorkTransactions, WorkChanges, LaneTransactions, LaneChanges;
    var epoch := EpochOf(batch, hashes, lo, hi);
    forall j | 0 <= j < |epoch| ensures epoch[j].index == lo + j {
      EpochAt(batch, hashes, lo, hi, j);
    }
    var lanes := LanesUpTo(epoch, laneCount, hashes.component, |epoch|);
    assert lanes == EpochLanes(epoch, laneCount, hashes.component);
    LanesUpToInBatch(epoch, batch, laneCount, hashes.component, |epoch|);
    EpochTotals(epoch, batch, lo, laneCount, hashes.component, |epoch|);
    UsedLaneTotals(k, lanes, batch);
  }

  lemma StepTotals(step: Step, k: nat, lo: nat, hi: nat, batch: seq<Transaction>, laneCount: nat, hashes: Hashes)
    requires laneCount > 0 && StepOk(step, k, lo, hi, batch, laneCount, hashes)
    ensures WorkTransactions(StepWorks(step, batch)) == hi - lo
    ensures WorkChanges(StepWorks(step, batch)) == BatchChanges(batch, hi) - BatchChanges(batch, lo)
  {
    hide EpochOk, EpochOf, FlushedLanes;
    if step.serialTransaction >= 0 {
      assert StepWorks(step, batch) == [SerialWork(step.index, lo, batch[lo])];
      assert [SerialWork(step.index, lo, batch[lo])][..0] == [];
    } else {
      hide WorkTransactions, WorkChanges, BatchChanges;
      FlushTotals(k, lo, hi, batch, laneCount, hashes);
    }
  }

  lemma {:induction false} TileTotals(
    steps: seq<Step>, bounds: seq<nat>, works: seq<Work>, batch: seq<Transaction>, laneCount: nat, hashes: Hashes)
    requires laneCount > 0 && Tiles(steps, bounds, batch, laneCount, hashes) && ManifestOf(steps, works, batch)
    ensures bounds[|steps|] <= |batch|
    ensures WorkTransactions(works) == bounds[|steps|]
    ensures WorkChanges(works) == BatchChanges(batch, bounds[|steps|])
    decreases |steps|
  {
    hide StepOk, StepWorks;
    if steps != [] {
      var last := |steps| - 1;
      var mine := StepWorks(steps[last], batch);
      var rest := works[..|works| - |mine|];
      PrefixTiles(steps, bounds, batch, laneCount, hashes);
      assert StepOk(steps[last], last, bounds[last], bounds[last + 1], batch, laneCount, hashes);
      hide WorkTransactions, WorkChanges, BatchChanges;
      TileTotals(steps[..last], bounds[..|steps|], rest, batch, laneCount, hashes);
      StepTotals(steps[last], last, bounds[last], bounds[last + 1], batch, laneCount, hashes);
      WorkTotalsConcat(rest, mine);
      assert works == rest + mine;
    }
  }

  /** The work manifest covers every transaction and every change of the batch. */
  lemma PlanCountsEverything(batch: seq<Transaction>, laneCount: nat, hashes: Hashes)
    requires laneCount > 0
    ensures WorkTransactions(PlanOf(batch, laneCount, hashes).works) == |batch|
    ensures WorkChanges(PlanOf(batch, laneCount, hashes).works) == BatchChanges(batch, |batch|)
  {
    var bounds := PlanTiles(batch, laneCount, hashes);
    var plan := PlanOf(batch, laneCount, hashes);
    TileTotals(plan.steps, bounds, plan.works, batch, laneCount, hashes);
  }
}
