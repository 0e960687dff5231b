/** A claim is never stuck: a built manifest is always accepted, an interrupted claim is rebuilt
    identically from its stored row, and from every reachable state it can be run to its end
    (internal/cdc/replay_claim.go:531-578, internal/cdc/applier.go:705-925). */
module Completion {
  import opened Wrappers
  import opened Model
  import opened Target
  import opened Dependence
  import opened Components
  import opened Planner
  import opened PlanShape
  import opened PlanTotals
  import opened Serializability
  import opened Execution
  import opened Schedule
  import opened Claims
  import opened ExactlyOnce
  import opened Protocol
  import opened Fencing

  // --- Every plan's manifest is valid ---

  predicate RowsOk(works: seq<Work>, steps: nat) {
    && (forall i :: 0 <= i < |works| ==> WorkRowOk(works[i]) && works[i].step < steps)
    && (forall i :: 0 < i < |works| ==> RowBefore(works[i - 1], works[i]))
  }

  lemma StepRows(step: Step, k: nat, lo: nat, hi: nat, batch: seq<Transaction>, laneCount: nat, hashes: Hashes)
    requires laneCount > 0 && StepOk(step, k, lo, hi, batch, laneCount, hashes)
    ensures RowsOk(StepWorks(step, batch), k + 1)
    ensures forall w :: w in StepWorks(step, batch) ==> w.step == k
  {
    hide Keyed, EpochOf, LaneUpTo, LaneOf, StableDefinitions;
    if step.serialTransaction < 0 {
      var epoch := EpochOf(batch, hashes, lo, hi);
      var all := EpochLanes(epoch, laneCount, hashes.component);
      forall l: nat | l < laneCount ensures all[l].lane == l && InBatch(all[l].transactionIndexes, batch) {
        LaneNumber(epoch, laneCount, hashes.component, l, |epoch|);
        LaneIndexesInBatch(epoch, batch, laneCount, hashes.component, l, |epoch|);
      }
      UsedLanesMeaning(k, all, batch);
      UsedRows(k, all, step.lanes, batch);
    }
  }

  lemma UsedRows(k: nat, lanes: seq<Lane>, used: seq<PlanLane>, batch: seq<Transaction>)
    requires LanesInBatch(lanes, batch)
    requires forall x :: x in used ==> Used(k, lanes, batch, x.lane.lane, x)
    requires forall i, j :: 0 <= i < j < |used| ==> used[i].lane.lane < used[j].lane.lane
    ensures RowsOk(WorksOf(used), k + 1) && forall w :: w in WorksOf(used) ==> w.step == k
  {
    forall i | 0 <= i < |used| ensures WorkRowOk(used[i].work) && used[i].work.step == k && used[i].work.work == used[i].lane.lane {
      assert used[i] in used;
    }
  }

  lemma RowsConcat(rest: seq<Work>, mine: seq<Work>, k: nat)
    requires RowsOk(rest, k) && RowsOk(mine, k + 1) && forall w :: w in mine ==> w.step == k
    ensures RowsOk(rest + mine, k + 1)
  {
    hide WorkRowOk;
    assert mine != [] ==> mine[0] in mine;
  }

  lemma {:induction false} ManifestRows(
    steps: seq<Step>, works: seq<Work>, bounds: seq<nat>, batch: seq<Transaction>, laneCount: nat, hashes: Hashes)
    requires laneCount > 0 && Tiles(steps, bounds, batch, laneCount, hashes) && ManifestOf(steps, works, batch)
    ensures RowsOk(works, |steps|)
    decreases |steps|
  {
    hide StepOk, StepWorks, RowsOk;
    if steps != [] {
      var last := |steps| - 1;
      var mine := StepWorks(steps[last], batch);
      var rest := works[..|works| - |mine|];
      PrefixTiles(steps, bounds, batch, laneCount, hashes);
      ManifestRows(steps[..last], rest, bounds[..|steps|], batch, laneCount, hashes);
      assert StepOk(steps[last], last, bounds[last], bounds[last + 1], batch, laneCount, hashes);
      StepRows(steps[last], last, bounds[last], bounds[last + 1], batch, laneCount, hashes);
      assert works == rest + mine;
      RowsConcat(rest, mine, last);
    } else {
      assert RowsOk([], 0) by {
        NoRows();
      }
    }
  }

  lemma NoRows()
    ensures RowsOk([], 0)
  {
  }

  /** Every claim built from a plan passes the manifest validation. */
  lemma BuiltManifestValid(sys: System, generation: Generation, lo: nat, hi: nat, laneCount: nat)
    requires lo < hi <= |sys.source| && laneCount > 0
    ensures ManifestValid(BuildClaim(sys, generation, lo, hi, laneCount))
  {
    hide PlanOf, Tiles, ManifestOf, WorkRowOk, WorkTransactions, WorkChanges, BatchChanges;
    var batch := sys.source[lo..hi];
    var bounds := PlanTiles(batch, laneCount, sys.hashes);
    var plan := PlanOf(batch, laneCount, sys.hashes);
    ManifestRows(plan.steps, plan.works, bounds, batch, laneCount, sys.hashes);
    PlanCountsEverything(batch, laneCount, sys.hashes);
    FenceIsNew(BuildClaim(sys, generation, lo, hi, laneCount));
  }

  // --- Starting and resuming ---

  /** An idle target accepts a claim of the next source transactions under its own generation. */
  lemma IdleAcceptsClaim(sys: System, s: Store, n: nat, hi: nat, laneCount: nat)
    requires SystemOk(sys) && Invariant(sys, s, n) && s.claim.None? && s.identity.Some?
    requires n < hi <= |sys.source| && laneCount > 0
    ensures
      var c := BuildClaim(sys, s.identity.value.effective, n, hi, laneCount);
      && EnsureClaimStep(s, c).Some?
      && EnsureClaimStep(s, c).value.claim == Some(c)
      && EnsureClaimStep(s, c).value.data == s.data
  {
    hide ManifestValid, Replayed, PlanOf, SystemOk, BatchChanges;
    BuiltManifestValid(sys, s.identity.value.effective, n, hi, laneCount);
    FenceIsNew(BuildClaim(sys, s.identity.value.effective, n, hi, laneCount));
  }

  /** An applier that lost its memory rebuilds the active claim from the stored start generation,
      lane count and positions, and the target accepts it; every other claim is rejected. */
  lemma ResumeRebuildsClaim(sys: System, ops: seq<Op>, other: Claim) returns (lo: nat, hi: nat)
    requires SystemOk(sys) && RunOk(sys, ops) && Execute(sys, ops).claim.Some?
    ensures lo < hi <= |sys.source| && Execute(sys, ops).claim.value.laneCount > 0
    ensures
      var s := Execute(sys, ops);
      var c := s.claim.value;
      && LsnAt(sys.source, lo) == ProgressLsn(s) && LsnAt(sys.source, hi) == c.endLsn
      && BuildClaim(sys, c.startGeneration, lo, hi, c.laneCount) == c
      && EnsureClaimStep(s, BuildClaim(sys, c.startGeneration, lo, hi, c.laneCount)) == Some(s)
      && (other != c ==> EnsureClaimStep(s, other).None?)
  {
    hide SystemOk, Execute, ManifestValid, Run, Replayed, Select, PlanOf;
    lo := ExactlyOnceAlways(sys, ops);
    var s := Execute(sys, ops);
    hi :| Active(sys, s, lo, s.claim.value, hi);
    BuiltManifestValid(sys, s.claim.value.startGeneration, lo, hi, s.claim.value.laneCount);
  }

  // --- Finishing ---

  /** Among the works without a receipt one has all earlier steps done. */
  lemma NextReadyWork(s: Store, c: Claim, works: set<Work>) returns (w: Work)
    requires works != {} && forall v :: v in works <==> v in c.works && v !in s.receipts
    ensures w in works && PriorDone(s, c, w.step)
  {
    w := LowestStep(works);
  }

  lemma {:induction false} LowestStep(works: set<Work>) returns (w: Work)
    requires works != {}
    ensures w in works && forall v :: v in works ==> w.step <= v.step
    decreases |works|
  {
    w :| w in works;
    var rest := works - {w};
    if rest != {} {
      var v := LowestStep(rest);
      if v.step < w.step {
        w := v;
      }
    }
  }

  lemma ActiveCanFinalize(sys: System, s: Store, n: nat, c: Claim, hi: nat)
    requires SystemOk(sys) && Active(sys, s, n, c, hi) && Invariant(sys, s, n)
    requires forall w :: w in c.works ==> w in s.receipts
    ensures FinalizeStep(s, c).Some?
    ensures FinalizeStep(s, c).value.claim.None? && ProgressLsn(FinalizeStep(s, c).value) == LsnAt(sys.source, hi)
    ensures Some(FinalizeStep(s, c).value.data) == Replayed(sys, hi)
  {
    hide ManifestValid, Replayed, PlanOf, SystemOk, BatchChanges, Run, Select, Closed;
    BuiltManifestValid(sys, c.startGeneration, n, hi, c.laneCount);
    AllDone(sys, s, n, c, hi);
  }

  lemma AppendOp(sys: System, ops: seq<Op>, op: Op)
    requires RunOk(sys, ops) && OpOk(sys, op)
    ensures RunOk(sys, ops + [op]) && Execute(sys, ops + [op]) == Next(sys, Execute(sys, ops), op)
  {
    assert (ops + [op])[..|ops + [op]| - 1] == ops;
  }

  lemma {:induction false} FinishActive(sys: System, ops: seq<Op>, c: Claim, n: nat, hi: nat, left: set<Work>) returns (more: seq<Op>)
    requires SystemOk(sys) && RunOk(sys, ops) && Invariant(sys, Execute(sys, ops), n)
    requires Active(sys, Execute(sys, ops), n, c, hi)
    requires left == WorkSet(c) - Execute(sys, ops).receipts
    ensures RunOk(sys, ops + more)
    ensures Execute(sys, ops + more).claim.None? && ProgressLsn(Execute(sys, ops + more)) == LsnAt(sys.source, hi)
    ensures Some(Execute(sys, ops + more).data) == Replayed(sys, hi)
    decreases |left|
  {
    hide SystemOk, Execute, FinalizeStep, CompleteWork, Active, Invariant, PriorDone, Replayed;
    var s := Execute(sys, ops);
    HoldsWhileActive(sys, s, n, c, hi);
    if left == {} {
      more := [Finalize(c)];
      forall w | w in c.works ensures w in s.receipts {
        assert w in WorkSet(c) && w !in left;
      }
      ActiveCanFinalize(sys, s, n, c, hi);
      AppendOp(sys, ops, Finalize(c));
    } else {
      var w := NextReadyWork(s, c, left);
      WorkCommits(sys, s, n, c, hi, w);
      CommitWorkKeeps(sys, s, n, c, w);
      AppendOp(sys, ops, CommitWork(c, w));
      OneMoreReceipt(sys.sem, s, c, w);
      var rest := FinishActive(sys, ops + [CommitWork(c, w)], c, n, hi, left - {w});
      more := [CommitWork(c, w)] + rest;
      assert ops + more == ops + [CommitWork(c, w)] + rest;
    }
  }

  lemma HoldsWhileActive(sys: System, s: Store, n: nat, c: Claim, hi: nat)
    requires Active(sys, s, n, c, hi)
    ensures HoldsFence(s, c)
  {
  }

  lemma OneMoreReceipt(sem: Semantics, s: Store, c: Claim, w: Work)
    requires CompleteWork(sem, s, c, w).Some?
    ensures CompleteWork(sem, s, c, w).value.receipts == s.receipts + {w}
  {
    hide WorkEffect;
  }

  /** From every reachable state with an active claim, some further transactions finish the claim
      with the target exactly at its end. */
  lemma ClaimCanAlwaysFinish(sys: System, ops: seq<Op>) returns (more: seq<Op>, hi: nat)
    requires SystemOk(sys) && RunOk(sys, ops) && Execute(sys, ops).claim.Some?
    ensures hi <= |sys.source| && LsnAt(sys.source, hi) == Execute(sys, ops).claim.value.endLsn
    ensures RunOk(sys, ops + more) && Execute(sys, ops + more).claim.None?
    ensures ProgressLsn(Execute(sys, ops + more)) == LsnAt(sys.source, hi)
    ensures Some(Execute(sys, ops + more).data) == Replayed(sys, hi)
  {
    hide SystemOk, Execute, Run, Replayed, Select, PlanOf;
    var n := ExactlyOnceAlways(sys, ops);
    var s := Execute(sys, ops);
    var c := s.claim.value;
    hi :| Active(sys, s, n, c, hi);
    more := FinishActive(sys, ops, c, n, hi, WorkSet(c) - s.receipts);
  }
}
