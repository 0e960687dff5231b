/** Every run of the replay protocol keeps the exactly-once invariant, and fenced appliers cannot
    write (internal/cdc/replay_claim.go, internal/cdc/progress_identity.go). */
module Protocol {
  import opened Wrappers
  import opened Model
  import opened Target
  import opened Dependence
  import opened Components
  import opened Planner
  import opened PlanShape
  import opened PlanTotals
  import opened LaneRewrite
  import opened Serializability
  import opened Execution
  import opened Schedule
  import opened Claims
  import opened ExactlyOnce

  lemma SliceSourceOk(source: seq<Transaction>, lo: nat, hi: nat)
    requires SourceOk(source) && lo <= hi <= |source|
    ensures SourceOk(source[lo..hi])
  {
    var batch := source[lo..hi];
    forall i, x | 0 <= i < |batch| && x in ItemsOf(i, batch[i]) ensures OldTupleIsIdentity(x) {
      var t := source[lo + i];
      var c :| 0 <= c < |t.changes| && x == ItemAt(i, t, c);
      assert ItemsOf(lo + i, t)[c] == ItemAt(lo + i, t, c);
      assert ItemAt(lo + i, t, c) in ItemsOf(lo + i, t);
      assert OldTupleIsIdentity(ItemAt(lo + i, t, c));
    }
  }

  /** The works of a built claim schedule its batch. */
  lemma ClaimSchedule(sys: System, generation: Generation, lo: nat, hi: nat, laneCount: nat)
    requires SystemOk(sys) && lo < hi <= |sys.source| && laneCount > 0
    ensures
      var c := BuildClaim(sys, generation, lo, hi, laneCount);
      ScheduleOk(ClaimItems(c), WorkSet(c))
  {
    hide SourceOk, ScheduleOk, PlanOf, EpochOk, OverlapsJoined, Tiles, ManifestOf, BatchItems, Replayed;
    var batch := sys.source[lo..hi];
    SliceSourceOk(sys.source, lo, hi);
    var bounds := PlanTiles(batch, laneCount, sys.hashes);
    var plan := PlanOf(batch, laneCount, sys.hashes);
    BoundsLength(plan.steps, bounds, batch, laneCount, sys.hashes);
    forall k | 0 <= k < |plan.steps| && plan.steps[k].serialTransaction < 0 && EpochOk(batch, bounds[k], bounds[k + 1])
      ensures OverlapsJoined(batch, sys.hashes, bounds[k], bounds[k + 1])
    {
    }
    PlanSchedules(batch, laneCount, sys.hashes, bounds);
  }

  predicate StepBounds(step: Step, bounds: seq<nat>, k: nat, limit: nat) {
    step.index == k && k + 1 < |bounds| && bounds[k] <= bounds[k + 1] <= limit
  }

  lemma BoundsLength(steps: seq<Step>, bounds: seq<nat>, batch: seq<Transaction>, laneCount: nat, hashes: Hashes)
    requires laneCount > 0 && Tiles(steps, bounds, batch, laneCount, hashes)
    ensures |bounds| == |steps| + 1
    ensures forall k :: 0 <= k < |steps| ==> StepBounds(steps[k], bounds, k, |batch|)
  {
    forall k | 0 <= k < |steps| ensures StepBounds(steps[k], bounds, k, |batch|) {
      assert StepOk(steps[k], k, bounds[k], bounds[k + 1], batch, laneCount, hashes);
    }
  }

  lemma ClosedNext(s: Store, c: Claim, w: Work)
    requires Closed(WorkSet(c), s.receipts) && PriorDone(s, c, w.step)
    ensures Closed(WorkSet(c), s.receipts + {w})
  {
  }

  /** The works of a built claim schedule its items, and its items take the prefix to its end. */
  lemma ClaimReplays(sys: System, generation: Generation, lo: nat, hi: nat, laneCount: nat)
    requires SystemOk(sys) && lo < hi <= |sys.source| && laneCount > 0
    ensures
      var c := BuildClaim(sys, generation, lo, hi, laneCount);
      && ScheduleOk(ClaimItems(c), WorkSet(c))
      && Run(sys.sem, Replayed(sys, lo), ClaimItems(c)) == Replayed(sys, hi)
      && Replayed(sys, hi).Some?
  {
    ClaimSchedule(sys, generation, lo, hi, laneCount);
    BatchExtendsPrefix(sys, lo, hi);
    hide ScheduleOk, SourceOk, UniformlyKeyed, Run, BatchItems, PlanOf;
    assert Replayed(sys, hi).Some?;
  }

  /** An uncommitted work whose earlier steps are done always commits, and adds exactly its changes. */
  lemma WorkCommits(sys: System, s: Store, n: nat, c: Claim, hi: nat, w: Work)
    requires SystemOk(sys) && Active(sys, s, n, c, hi)
    requires w in c.works && w !in s.receipts && PriorDone(s, c, w.step)
    ensures CompleteWork(sys.sem, s, c, w).Some?
    ensures Active(sys, CompleteWork(sys.sem, s, c, w).value, n, c, hi)
  {
    hide SystemOk, ScheduleOk, Closed, Run, Select, Rewritten, PriorDone, BuildClaim, ClaimItems, CoveredBy, DoneBy, Replayed;
    ClosedNext(s, c, w);
    ClaimReplays(sys, c.startGeneration, n, hi, c.laneCount);
    CommitAddsWork(sys.sem, Replayed(sys, n), ClaimItems(c), WorkSet(c), s.receipts, w);
  }

  lemma CommitWorkKeeps(sys: System, s: Store, n: nat, c: Claim, w: Work)
    requires SystemOk(sys) && Invariant(sys, s, n) && CommitWorkStep(sys.sem, s, c, w).Some?
    ensures Invariant(sys, CommitWorkStep(sys.sem, s, c, w).value, n)
  {
    hide Active, SystemOk, Idle, PriorDone, WorkEffect;
    var hi :| Active(sys, s, n, c, hi);
    if w !in s.receipts {
      WorkCommits(sys, s, n, c, hi, w);
      assert Active(sys, CompleteWork(sys.sem, s, c, w).value, n, c, hi);
    }
  }

  /** The tail of a serial group is ready once its head has committed. */
  lemma GroupTailReady(s: Store, c: Claim, works: seq<Work>, items: seq<Item>)
    requires ScheduleOk(items, WorkSet(c)) && |works| > 1
    requires works[0] in c.works && works[0].kind.SerialTransaction? && works[1].step == works[0].step + 1
    requires PriorDone(s, c, works[0].step) && works[0] in s.receipts
    ensures PriorDone(s, c, works[1].step)
  {
    hide InOrder, LaneItems;
    forall v | v in c.works && v.step < works[1].step ensures v in s.receipts {
      if v.step == works[0].step {
        assert v in WorkSet(c) && works[0] in WorkSet(c);
      }
    }
  }

  lemma {:induction false} GroupKeeps(sys: System, s: Store, n: nat, c: Claim, hi: nat, works: seq<Work>)
    requires SystemOk(sys) && Active(sys, s, n, c, hi)
    requires forall i :: 0 <= i < |works| ==> works[i] in c.works && works[i].kind.SerialTransaction?
    requires forall i :: 0 < i < |works| ==> works[i].step == works[i - 1].step + 1
    requires works != [] ==> PriorDone(s, c, works[0].step)
    ensures CompleteWorks(sys.sem, s, c, works).Some?
    ensures Active(sys, CompleteWorks(sys.sem, s, c, works).value, n, c, hi)
    ensures Same(s, CompleteWorks(sys.sem, s, c, works).value)
    decreases |works|
  {
    hide Active, SystemOk, PriorDone, WorkEffect, ScheduleOk;
    if works != [] {
      var next := s;
      if works[0] !in s.receipts {
        WorkCommits(sys, s, n, c, hi, works[0]);
        next := CompleteWork(sys.sem, s, c, works[0]).value;
        PriorDoneGrows(s, next, c, works[0].step);
      }
      if |works| > 1 {
        ActiveSchedule(sys, s, n, c, hi);
        GroupTailReady(next, c, works, ClaimItems(c));
      }
      GroupKeeps(sys, next, n, c, hi, works[1..]);
    }
  }

  /** Committing works leaves identity, progress and claim alone. */
  predicate Same(s: Store, next: Store) {
    next.identity == s.identity && next.progress == s.progress && next.claim == s.claim
  }

  lemma PriorDoneGrows(s: Store, next: Store, c: Claim, step: nat)
    requires PriorDone(s, c, step) && s.receipts <= next.receipts
    ensures PriorDone(next, c, step)
  {
  }

  lemma ActiveSchedule(sys: System, s: Store, n: nat, c: Claim, hi: nat)
    requires SystemOk(sys) && Active(sys, s, n, c, hi)
    ensures ScheduleOk(ClaimItems(c), WorkSet(c))
  {
    hide ScheduleOk, SystemOk, PlanOf, BatchItems;
    ClaimSchedule(sys, c.startGeneration, n, hi, c.laneCount);
  }

  lemma CommitSerialGroupKeeps(sys: System, s: Store, n: nat, c: Claim, works: seq<Work>)
    requires SystemOk(sys) && Invariant(sys, s, n) && CommitSerialGroupStep(sys.sem, s, c, works).Some?
    ensures Invariant(sys, CommitSerialGroupStep(sys.sem, s, c, works).value, n)
  {
    hide Active, SystemOk, Idle, PriorDone, CompleteWorks;
    var hi :| Active(sys, s, n, c, hi);
    GroupKeeps(sys, s, n, c, hi, works);
    assert Active(sys, CompleteWorks(sys.sem, s, c, works).value, n, c, hi);
  }

  /** With every receipt committed the data is the prefix through the claim's EndLSN. */
  lemma AllDone(sys: System, s: Store, n: nat, c: Claim, hi: nat)
    requires SystemOk(sys) && Active(sys, s, n, c, hi) && forall w :: w in c.works ==> w in s.receipts
    ensures Some(s.data) == Replayed(sys, hi)
  {
    hide SystemOk, ScheduleOk, Closed, Run, Select, BuildClaim, ClaimItems, DoneBy, Replayed;
    ClaimReplays(sys, c.startGeneration, n, hi, c.laneCount);
    assert s.receipts == WorkSet(c);
    DoneReplays(sys.sem, Replayed(sys, n), ClaimItems(c), WorkSet(c), s.receipts);
  }

  lemma FinalizeKeeps(sys: System, s: Store, n: nat, c: Claim) returns (hi: nat)
    requires SystemOk(sys) && Invariant(sys, s, n) && FinalizeStep(s, c).Some?
    ensures n < hi && Invariant(sys, FinalizeStep(s, c).value, hi)
  {
    hide Replayed, PlanOf, BatchItems, SystemOk, Run, Select, Closed, ManifestValid, BatchChanges, Rewritten;
    hi :| Active(sys, s, n, c, hi);
    AllDone(sys, s, n, c, hi);
    SliceChanges(sys.source, n, hi, hi - n);
    LsnOrder(sys, n, hi);
  }

  lemma LsnOrder(sys: System, n: nat, lo: nat)
    requires SystemOk(sys) && n <= |sys.source| && lo <= |sys.source|
    ensures LsnAt(sys.source, n) == LsnAt(sys.source, lo) ==> n == lo
    ensures n < lo ==> LsnAt(sys.source, n) < LsnAt(sys.source, lo)
  {
    hide SourceOk, UniformlyKeyed, Replayed;
  }

  lemma EnsureClaimKeeps(sys: System, s: Store, n: nat, generation: Generation, lo: nat, hi: nat, laneCount: nat)
    requires SystemOk(sys) && Invariant(sys, s, n) && lo < hi <= |sys.source| && laneCount > 0
    requires EnsureClaimStep(s, BuildClaim(sys, generation, lo, hi, laneCount)).Some?
    ensures Invariant(sys, EnsureClaimStep(s, BuildClaim(sys, generation, lo, hi, laneCount)).value, n)
  {
    hide ManifestValid, Replayed, PlanOf, BatchItems, SystemOk, Run;
    var c := BuildClaim(sys, generation, lo, hi, laneCount);
    var next := EnsureClaimStep(s, c).value;
    if s.claim.None? {
      LsnOrder(sys, n, lo);
      assert n == lo;
      SelectNone(DoneBy({}), ClaimItems(c));
      assert Run(sys.sem, Replayed(sys, n), []) == Replayed(sys, n) by {
        RunNothing(sys.sem, Replayed(sys, n));
      }
      assert Active(sys, next, n, c, hi);
    }
  }

  lemma RunNothing(sem: Semantics, db: Option<Database>)
    ensures Run(sem, db, []) == db
  {
  }

  /** While a claim is active no progress write of any generation is accepted. */
  lemma ClaimBlocksProgress(
    sys: System, s: Store, n: nat, generation: Generation, expected: Lsn, remote: Lsn, transactions: nat, rows: nat)
    requires Invariant(sys, s, n) && s.claim.Some?
    ensures StreamProgress(s, generation, expected, remote, transactions, rows).None?
  {
    hide Replayed, PlanOf, BatchItems, Run, Select, Closed;
    var end :| Active(sys, s, n, s.claim.value, end);
    FenceIsNew(s.claim.value);
  }

  lemma StandaloneKeeps(sys: System, s: Store, n: nat, generation: Generation, lo: nat, hi: nat)
    requires SystemOk(sys) && Invariant(sys, s, n) && lo < hi <= |sys.source|
    requires Submit(sys, s, Standalone(generation, lo, hi)).Some?
    ensures Invariant(sys, Submit(sys, s, Standalone(generation, lo, hi)).value, hi)
    ensures n < hi
  {
    hide Replayed, BatchItems, SystemOk, Run, BatchChanges, Active;
    var rows := BatchChanges(sys.source[lo..hi], hi - lo);
    if s.claim.Some? {
      ClaimBlocksProgress(sys, s, n, generation, LsnAt(sys.source, lo), LsnAt(sys.source, hi), hi - lo, rows);
    }
    LsnOrder(sys, n, lo);
    LsnOrder(sys, lo, hi);
    SliceChanges(sys.source, lo, hi, hi - lo);
    BatchExtendsPrefix(sys, lo, hi);
    RankOfFence(s.identity.value.effective);
    NoChangesYet(sys.source);
  }

  lemma NoChangesYet(source: seq<Transaction>)
    ensures BatchChanges(source, 0) == 0
  {
  }

  lemma RankOfFence(g: Generation)
    ensures Rank(g) >= -1
  {
  }

  lemma FenceIsNew(c: Claim)
    ensures FenceOf(c) != c.startGeneration
  {
  }

  lemma EnsureIdentityKeeps(sys: System, s: Store, n: nat, freshSetup: bool, copied: bool)
    requires SystemOk(sys) && Invariant(sys, s, n) && EnsureIdentityStep(s, sys.name, freshSetup, copied).Some?
    ensures Invariant(sys, EnsureIdentityStep(s, sys.name, freshSetup, copied).value, n)
  {
    hide Replayed, PlanOf, BatchItems, SystemOk, Run, Select, Closed;
    if s.claim.Some? {
      var c := s.claim.value;
      var hi :| Active(sys, s, n, c, hi);
      assert Active(sys, EnsureIdentityStep(s, sys.name, freshSetup, copied).value, n, c, hi);
    }
  }

  /** One submitted transaction, whoever submits it, keeps the invariant and never moves back. */
  lemma NextKeeps(sys: System, s: Store, n: nat, op: Op) returns (m: nat)
    requires SystemOk(sys) && Invariant(sys, s, n) && OpOk(sys, op)
    ensures n <= m && Invariant(sys, Next(sys, s, op), m)
  {
    m := n;
    hide Invariant, SystemOk, EnsureClaimStep, CommitWorkStep, CommitSerialGroupStep, FinalizeStep, EnsureIdentityStep;
    if Submit(sys, s, op).Some? {
      match op
      case EnsureIdentity(freshSetup, copied) => EnsureIdentityKeeps(sys, s, n, freshSetup, copied);
      case EnsureClaim(generation, lo, hi, laneCount) => EnsureClaimKeeps(sys, s, n, generation, lo, hi, laneCount);
      case CommitWork(c, w) => CommitWorkKeeps(sys, s, n, c, w);
      case CommitSerialGroup(c, works) => CommitSerialGroupKeeps(sys, s, n, c, works);
      case Finalize(c) => m := FinalizeKeeps(sys, s, n, c);
      case Standalone(generation, lo, hi) =>
        StandaloneKeeps(sys, s, n, generation, lo, hi);
        m := hi;
    }
  }

  /** Exactly once, over any run: whatever appliers crash, resume or go stale, the store always
      satisfies the invariant. */
  lemma {:induction false} ExactlyOnceAlways(sys: System, ops: seq<Op>) returns (n: nat)
    requires SystemOk(sys) && forall i :: 0 <= i < |ops| ==> OpOk(sys, ops[i])
    ensures Invariant(sys, Execute(sys, ops), n)
    decreases |ops|
  {
    if ops == [] {
      n := 0;
      hide Run;
      assert Replayed(sys, 0) == Some(sys.initial) by {
        RunNothing(sys.sem, Some(sys.initial));
      }
    } else {
      hide Next, Invariant, SystemOk;
      var m := ExactlyOnceAlways(sys, ops[..|ops| - 1]);
      n := NextKeeps(sys, Execute(sys, ops[..|ops| - 1]), m, ops[|ops| - 1]);
    }
  }
}
