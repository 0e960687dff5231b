/** Which target transactions of the replay protocol are accepted: for every reachable state and every one an
    applier may submit, exactly those that carry the effective generation and the committed position
    (internal/cdc/replay_claim.go, internal/cdc/progress_identity.go). */
module Acceptance {
  import opened Wrappers
  import opened Model
  import opened Target
  import opened Dependence
  import opened Planner
  import opened PlanShape
  import opened PlanTotals
  import opened Serializability
  import opened Execution
  import opened Schedule
  import opened Claims
  import opened ExactlyOnce
  import opened Protocol
  import opened Fencing
  import opened Completion
  import opened ReplayTarget

  predicate Started(s: Store) {
    s.identity.Some? && s.identity.value.started
  }

  /** A stream with a progress row is marked as started. */
  predicate StartMarked(s: Store) {
    s.progress.Some? ==> Started(s)
  }

  lemma StartStaysMarked(sys: System, s: Store, op: Op)
    requires OpOk(sys, op) && StartMarked(s)
    ensures StartMarked(Next(sys, s, op))
  {
    hide ManifestValid, PriorDone, SerialGroup, WorkEffect, PlanOf, BatchItems, BatchChanges, Run;
    match op
    case CommitSerialGroup(c, works) => GroupFrame(sys.sem, s, c, works);
    case _ =>
  }

  lemma {:induction false} StartAlwaysMarked(sys: System, ops: seq<Op>)
    requires RunOk(sys, ops)
    ensures StartMarked(Execute(sys, ops))
    decreases |ops|
  {
    hide Next;
    if ops != [] {
      StartAlwaysMarked(sys, ops[..|ops| - 1]);
      StartStaysMarked(sys, Execute(sys, ops[..|ops| - 1]), ops[|ops| - 1]);
    }
  }

  // --- Exactly when a stream is opened, whatever the rows say ---

  predicate StreamOpens(s: Store, name: Bytes, freshSetup: bool, copied: bool) {
    match s.identity
    case None =>
      s.claim.None? && (copied ==> freshSetup) && (s.progress.Some? ==> s.progress.value.generation == Configured(name))
    case Some(identity) =>
      identity.base == name &&
      match s.claim
      case Some(c) =>
        c.generation == name && identity.effective == FenceOf(c) &&
        s.progress.Some? && s.progress.value.generation == c.startGeneration
      case None =>
        if s.progress.Some? then s.progress.value.generation == identity.effective
        else freshSetup || !(identity.started || copied)
  }

  /** A stream is opened exactly under these rows, and then only its identity may change: it is created, or
      marked as started if there is progress. */
  lemma StreamOpensIff(s: Store, name: Bytes, freshSetup: bool, copied: bool)
    ensures EnsureIdentityStep(s, name, freshSetup, copied).Some? <==> StreamOpens(s, name, freshSetup, copied)
    ensures StreamOpens(s, name, freshSetup, copied) ==>
      var effective := if s.identity.Some? then s.identity.value.effective else Configured(name);
      var identity := Identity(name, effective, Started(s) || s.progress.Some?);
      EnsureIdentityStep(s, name, freshSetup, copied) == Some(s.(identity := Some(identity)))
  {
  }

  // --- Exactly when a transaction is accepted ---

  /** A stream is opened if it has its progress row; without one only if it is set up afresh or has neither
      started nor copied data. */
  predicate MayOpen(s: Store, freshSetup: bool, copied: bool) {
    s.progress.Some? || freshSetup || !(Started(s) || copied)
  }

  /** Standing at source position `n`, under the effective generation. */
  ghost predicate Admissible(sys: System, s: Store, n: nat, op: Op)
    requires OpOk(sys, op)
  {
    match op
    case EnsureIdentity(freshSetup, copied) => MayOpen(s, freshSetup, copied)
    case EnsureClaim(generation, lo, hi, laneCount) =>
      if s.claim.Some? then s.claim.value == BuildClaim(sys, generation, lo, hi, laneCount)
      else Effective(s) == Some(generation) && lo == n
    case CommitWork(c, w) => s.claim == Some(c) && w in c.works && PriorDone(s, c, w.step)
    case CommitSerialGroup(c, works) => s.claim == Some(c) && SerialGroup(s, c, works)
    case Finalize(c) => s.claim == Some(c) && forall w :: w in c.works ==> w in s.receipts
    case Standalone(generation, lo, _) => s.claim.None? && Effective(s) == Some(generation) && lo == n
  }

  lemma IdentityAcceptedIff(sys: System, s: Store, n: nat, freshSetup: bool, copied: bool)
    requires Invariant(sys, s, n) && StartMarked(s)
    ensures EnsureIdentityStep(s, sys.name, freshSetup, copied).Some? <==> MayOpen(s, freshSetup, copied)
  {
    hide BuildClaim, Replayed, Run, Select, Closed, ClaimItems;
    if s.claim.Some? {
      var hi :| Active(sys, s, n, s.claim.value, hi);
    }
  }

  lemma ClaimAcceptedIff(sys: System, s: Store, n: nat, generation: Generation, lo: nat, hi: nat, laneCount: nat)
    requires SystemOk(sys) && Invariant(sys, s, n) && OpOk(sys, EnsureClaim(generation, lo, hi, laneCount))
    ensures EnsureClaimStep(s, BuildClaim(sys, generation, lo, hi, laneCount)).Some? <==>
      Admissible(sys, s, n, EnsureClaim(generation, lo, hi, laneCount))
  {
    hide SystemOk, ManifestValid, Replayed, Run, Select, Closed, ClaimItems, PlanOf, BatchChanges;
    BuiltManifestValid(sys, generation, lo, hi, laneCount);
    FenceIsNew(BuildClaim(sys, generation, lo, hi, laneCount));
    if s.claim.Some? {
      var end :| Active(sys, s, n, s.claim.value, end);
    } else {
      LsnOrder(sys, n, lo);
      LsnOrder(sys, 0, lo);
    }
  }

  lemma ActiveOfClaim(sys: System, s: Store, n: nat) returns (hi: nat)
    requires Invariant(sys, s, n) && s.claim.Some?
    ensures Active(sys, s, n, s.claim.value, hi)
  {
    hide Active;
    hi :| Active(sys, s, n, s.claim.value, hi);
  }

  lemma WorkAcceptedIff(sys: System, s: Store, n: nat, c: Claim, w: Work)
    requires SystemOk(sys) && Invariant(sys, s, n)
    ensures CommitWorkStep(sys.sem, s, c, w).Some? <==> Admissible(sys, s, n, CommitWork(c, w))
  {
    hide SystemOk, Invariant, Active, PriorDone, WorkEffect, CompleteWork;
    if s.claim == Some(c) {
      var hi := ActiveOfClaim(sys, s, n);
      HoldsWhileActive(sys, s, n, c, hi);
      if w in c.works && w !in s.receipts && PriorDone(s, c, w.step) {
        WorkCommits(sys, s, n, c, hi, w);
      }
    }
  }

  lemma GroupAcceptedIff(sys: System, s: Store, n: nat, c: Claim, works: seq<Work>)
    requires SystemOk(sys) && Invariant(sys, s, n)
    ensures CommitSerialGroupStep(sys.sem, s, c, works).Some? <==> Admissible(sys, s, n, CommitSerialGroup(c, works))
  {
    hide SystemOk, Invariant, Active, PriorDone, CompleteWorks;
    if s.claim == Some(c) {
      var hi := ActiveOfClaim(sys, s, n);
      HoldsWhileActive(sys, s, n, c, hi);
      if SerialGroup(s, c, works) {
        GroupKeeps(sys, s, n, c, hi, works);
      }
    }
  }

  lemma FinalizeAcceptedIff(sys: System, s: Store, n: nat, c: Claim)
    requires SystemOk(sys) && Invariant(sys, s, n)
    ensures FinalizeStep(s, c).Some? <==> Admissible(sys, s, n, Finalize(c))
  {
    hide SystemOk, Invariant, Active, ManifestValid;
    if s.claim == Some(c) && forall w :: w in c.works ==> w in s.receipts {
      var hi := ActiveOfClaim(sys, s, n);
      ActiveCanFinalize(sys, s, n, c, hi);
    }
  }

  /** A standalone batch from the committed position is accepted and takes the target to its end. */
  lemma StandaloneCommits(sys: System, s: Store, n: nat, generation: Generation, hi: nat)
    requires SystemOk(sys) && Invariant(sys, s, n) && n < hi <= |sys.source|
    requires s.claim.None? && Effective(s) == Some(generation)
    ensures
      var next := Submit(sys, s, Standalone(generation, n, hi));
      && next.Some? && Some(next.value.data) == Replayed(sys, hi)
      && next.value.progress == Some(Progress(LsnAt(sys.source, hi), generation, hi, BatchChanges(sys.source, hi)))
      && next.value.identity == Some(Identity(sys.name, generation, true))
      && next.value.claim == None && next.value.receipts == {}
  {
    hide SystemOk, Run, BatchItems, Replayed, Active, BatchChanges;
    var op := Standalone(generation, n, hi);
    BatchExtendsPrefix(sys, n, hi);
    ReplayedSome(sys, hi);
    LsnOrder(sys, n, hi);
    SliceChanges(sys.source, n, hi, hi - n);
    NoChangesYet(sys.source);
  }

  lemma ReplayedSome(sys: System, n: nat)
    requires SystemOk(sys) && n <= |sys.source|
    ensures Replayed(sys, n).Some?
  {
    hide SourceOk, UniformlyKeyed, Replayed;
  }

  lemma StandaloneAcceptedIff(sys: System, s: Store, n: nat, generation: Generation, lo: nat, hi: nat)
    requires SystemOk(sys) && Invariant(sys, s, n) && OpOk(sys, Standalone(generation, lo, hi))
    ensures Submit(sys, s, Standalone(generation, lo, hi)).Some? <==>
      Admissible(sys, s, n, Standalone(generation, lo, hi))
  {
    hide SystemOk, Run, BatchItems, Replayed, Active, BatchChanges;
    if s.claim.None? && Effective(s) == Some(generation) && lo == n {
      StandaloneCommits(sys, s, n, generation, hi);
    } else if s.claim.Some? {
      ClaimBlocksProgress(
        sys, s, n, generation, LsnAt(sys.source, lo), LsnAt(sys.source, hi), hi - lo,
        BatchChanges(sys.source[lo..hi], hi - lo));
    } else {
      LsnOrder(sys, n, lo);
      LsnOrder(sys, 0, lo);
    }
  }

  /** In every reachable state, whoever submits it, a transaction is accepted if and only if it is admissible. */
  lemma AcceptedIff(sys: System, ops: seq<Op>, op: Op) returns (n: nat)
    requires SystemOk(sys) && RunOk(sys, ops) && OpOk(sys, op)
    ensures n <= |sys.source| && ProgressLsn(Execute(sys, ops)) == LsnAt(sys.source, n)
    ensures Submit(sys, Execute(sys, ops), op).Some? <==> Admissible(sys, Execute(sys, ops), n, op)
  {
    hide SystemOk, Execute, Invariant, Admissible, BuildClaim;
    n := ExactlyOnceAlways(sys, ops);
    var s := Execute(sys, ops);
    PositionOf(sys, s, n);
    StartAlwaysMarked(sys, ops);
    match op
    case EnsureIdentity(freshSetup, copied) =>
      IdentityAcceptedIff(sys, s, n, freshSetup, copied);
      assert Admissible(sys, s, n, op) <==> MayOpen(s, freshSetup, copied) by {
        OpeningIs(sys, s, n, freshSetup, copied);
      }
    case EnsureClaim(generation, lo, hi, laneCount) => ClaimAcceptedIff(sys, s, n, generation, lo, hi, laneCount);
    case CommitWork(c, w) => WorkAcceptedIff(sys, s, n, c, w);
    case CommitSerialGroup(c, works) => GroupAcceptedIff(sys, s, n, c, works);
    case Finalize(c) => FinalizeAcceptedIff(sys, s, n, c);
    case Standalone(generation, lo, hi) => StandaloneAcceptedIff(sys, s, n, generation, lo, hi);
  }

  lemma OpeningIs(sys: System, s: Store, n: nat, freshSetup: bool, copied: bool)
    ensures Admissible(sys, s, n, EnsureIdentity(freshSetup, copied)) <==> MayOpen(s, freshSetup, copied)
  {
  }

  /** From every reachable state without a claim, a standalone batch of the next source transactions commits:
      the data, position and counters are those of the source prefix through its end. */
  lemma StandaloneAdvances(sys: System, ops: seq<Op>, hi: nat) returns (n: nat)
    requires SystemOk(sys) && RunOk(sys, ops)
    requires Execute(sys, ops).claim.None? && Execute(sys, ops).identity.Some?
    ensures n <= |sys.source| && ProgressLsn(Execute(sys, ops)) == LsnAt(sys.source, n)
    ensures n < hi <= |sys.source| ==>
      var generation := Execute(sys, ops).identity.value.effective;
      var next := Submit(sys, Execute(sys, ops), Standalone(generation, n, hi));
      && next.Some? && Some(next.value.data) == Replayed(sys, hi)
      && next.value.progress == Some(Progress(LsnAt(sys.source, hi), generation, hi, BatchChanges(sys.source, hi)))
  {
    hide SystemOk, Execute, Invariant, Submit, Replayed, BatchChanges;
    n := ExactlyOnceAlways(sys, ops);
    PositionOf(sys, Execute(sys, ops), n);
    if n < hi <= |sys.source| {
      StandaloneCommits(sys, Execute(sys, ops), n, Execute(sys, ops).identity.value.effective, hi);
    }
  }

  /** An admissible group leaves a receipt for each of its works and moves neither progress nor claim. */
  lemma GroupCommits(sys: System, ops: seq<Op>, c: Claim, works: seq<Work>)
    requires SystemOk(sys) && RunOk(sys, ops)
    requires Execute(sys, ops).claim == Some(c) && SerialGroup(Execute(sys, ops), c, works)
    ensures
      var s, next := Execute(sys, ops), Submit(sys, Execute(sys, ops), CommitSerialGroup(c, works));
      && next.Some? && Same(s, next.value)
      && next.value.receipts == s.receipts + (set w | w in works)
  {
    hide SystemOk, Execute, Invariant, CompleteWorks, SerialGroup;
    var s := Execute(sys, ops);
    var n := ExactlyOnceAlways(sys, ops);
    GroupAcceptedIff(sys, s, n, c, works);
    CompletedGroup(sys.sem, s, c, works);
    GroupFrame(sys.sem, s, c, works);
  }
}
