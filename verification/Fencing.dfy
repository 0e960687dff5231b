/** What the exactly-once invariant means for an operator: an idle target is a source prefix,
    positions never move back, generations and claims never come back once superseded, an active
    claim excludes every other writer, and it can always be resumed and finished. */
module Fencing {
  import opened Wrappers
  import opened Model
  import opened Target
  import opened Dependence
  import opened Planner
  import opened PlanTotals
  import opened Serializability
  import opened Schedule
  import opened Claims
  import opened ExactlyOnce
  import opened Protocol

  predicate RunOk(sys: System, ops: seq<Op>) {
    forall i :: 0 <= i < |ops| ==> OpOk(sys, ops[i])
  }

  function ProgressLsn(s: Store): Lsn {
    if s.progress.None? then 0 else s.progress.value.lsn
  }

  function Effective(s: Store): Option<Generation> {
    if s.identity.None? then None else Some(s.identity.value.effective)
  }

  function EffectiveRank(s: Store): int {
    match Effective(s)
    case None => -2
    case Some(g) => Rank(g)
  }

  /** Whenever no claim is active the target is exactly the source prefix its progress row names,
      and the counters of the row are the totals of that prefix. */
  lemma IdleTargetIsSourcePrefix(sys: System, ops: seq<Op>) returns (n: nat)
    requires SystemOk(sys) && RunOk(sys, ops) && Execute(sys, ops).claim.None?
    ensures n <= |sys.source| && ProgressLsn(Execute(sys, ops)) == LsnAt(sys.source, n)
    ensures Some(Execute(sys, ops).data) == Replayed(sys, n)
    ensures Execute(sys, ops).receipts == {}
    ensures Execute(sys, ops).progress.Some? ==>
      && Execute(sys, ops).progress.value.transactions == n
      && Execute(sys, ops).progress.value.rows == BatchChanges(sys.source, n)
  {
    hide SystemOk, Execute, Active;
    n := ExactlyOnceAlways(sys, ops);
  }

  /** While a claim is active the target is the prefix before it plus exactly its committed works. */
  lemma ActiveTargetIsPrefixPlusReceipts(sys: System, ops: seq<Op>) returns (n: nat, hi: nat)
    requires SystemOk(sys) && RunOk(sys, ops) && Execute(sys, ops).claim.Some?
    ensures
      var s := Execute(sys, ops);
      var c := s.claim.value;
      && n < hi <= |sys.source| && c.laneCount > 0
      && ProgressLsn(s) == LsnAt(sys.source, n) == c.startLsn && LsnAt(sys.source, hi) == c.endLsn
      && s.receipts <= WorkSet(c)
      && Some(s.data) == Run(sys.sem, Replayed(sys, n), Select(DoneBy(s.receipts), ClaimItems(c)))
      && c == BuildClaim(sys, c.startGeneration, n, hi, c.laneCount)
  {
    hide SystemOk, Execute, Idle, Run, Replayed, Select, ClaimItems, PlanOf;
    n := ExactlyOnceAlways(sys, ops);
    var s := Execute(sys, ops);
    hi :| Active(sys, s, n, s.claim.value, hi);
  }

  // --- Positions and generations only move forward ---

  lemma {:induction false} ProgressNeverMovesBack(sys: System, ops: seq<Op>, i: nat)
    requires SystemOk(sys) && RunOk(sys, ops) && i <= |ops|
    ensures ProgressLsn(Execute(sys, ops[..i])) <= ProgressLsn(Execute(sys, ops))
    decreases |ops|
  {
    if i == |ops| {
      assert ops[..i] == ops;
    } else {
      hide SystemOk, Next;
      var before := ops[..|ops| - 1];
      ProgressNeverMovesBack(sys, before, i);
      assert before[..i] == ops[..i];
      var n := ExactlyOnceAlways(sys, before);
      var m := NextKeeps(sys, Execute(sys, before), n, ops[|ops| - 1]);
      PositionOf(sys, Execute(sys, before), n);
      PositionOf(sys, Execute(sys, ops), m);
      if n < m {
        LsnOrder(sys, m, n);
        LsnOrder(sys, n, m);
      }
    }
  }

  lemma PositionOf(sys: System, s: Store, n: nat)
    requires Invariant(sys, s, n)
    ensures n <= |sys.source| && ProgressLsn(s) == LsnAt(sys.source, n)
  {
    hide Idle, Active;
  }

  /** One transaction keeps the effective generation or replaces it by one of higher rank. */
  lemma StepRank(sys: System, s: Store, n: nat, op: Op)
    requires SystemOk(sys) && Invariant(sys, s, n) && OpOk(sys, op)
    ensures EffectiveRank(s) <= EffectiveRank(Next(sys, s, op))
    ensures EffectiveRank(s) == EffectiveRank(Next(sys, s, op)) ==> Effective(s) == Effective(Next(sys, s, op))
  {
    hide SystemOk, Active, PlanOf, Replayed, BatchItems, BatchChanges, PriorDone, SerialGroup;
    match op
    case EnsureIdentity(freshSetup, copied) =>
    case EnsureClaim(generation, lo, hi, laneCount) =>
    case CommitWork(c, w) => hide WorkEffect;
    case CommitSerialGroup(c, works) => GroupFrame(sys.sem, s, c, works);
    case Finalize(c) => hide ManifestValid;
    case Standalone(generation, lo, hi) => hide Run;
  }

  lemma {:induction false} GroupFrame(sem: Semantics, s: Store, c: Claim, works: seq<Work>)
    ensures CompleteWorks(sem, s, c, works).Some? ==> Same(s, CompleteWorks(sem, s, c, works).value)
    decreases |works|
  {
    hide WorkEffect;
    if works != [] {
      if works[0] in s.receipts {
        GroupFrame(sem, s, c, works[1..]);
      } else if CompleteWork(sem, s, c, works[0]).Some? {
        GroupFrame(sem, CompleteWork(sem, s, c, works[0]).value, c, works[1..]);
      }
    }
  }

  lemma {:induction false} RanksGrow(sys: System, ops: seq<Op>, i: nat)
    requires SystemOk(sys) && RunOk(sys, ops) && i <= |ops|
    ensures EffectiveRank(Execute(sys, ops[..i])) <= EffectiveRank(Execute(sys, ops))
    ensures EffectiveRank(Execute(sys, ops[..i])) == EffectiveRank(Execute(sys, ops)) ==>
      Effective(Execute(sys, ops[..i])) == Effective(Execute(sys, ops))
    decreases |ops|
  {
    if i == |ops| {
      assert ops[..i] == ops;
    } else {
      hide SystemOk, Next, Invariant, EffectiveRank, Effective;
      var before := ops[..|ops| - 1];
      RanksGrow(sys, before, i);
      assert before[..i] == ops[..i];
      var n := ExactlyOnceAlways(sys, before);
      StepRank(sys, Execute(sys, before), n, ops[|ops| - 1]);
    }
  }

  /** An effective generation that has been replaced never becomes effective again. */
  lemma GenerationsNeverRepeat(sys: System, ops: seq<Op>, i: nat, j: nat)
    requires SystemOk(sys) && RunOk(sys, ops) && i <= j <= |ops|
    requires Effective(Execute(sys, ops[..i])) != Effective(Execute(sys, ops[..j]))
    ensures Effective(Execute(sys, ops[..i])) != Effective(Execute(sys, ops))
  {
    hide SystemOk, Execute;
    assert ops[..j][..i] == ops[..i];
    RanksGrow(sys, ops[..j], i);
    RanksGrow(sys, ops, j);
  }

  /** The generation an applier acts under when it submits this transaction. */
  function ActsUnder(op: Op): Option<Generation> {
    match op
    case EnsureIdentity(_, _) => None
    case EnsureClaim(generation, _, _, _) => Some(generation)
    case CommitWork(c, _) => Some(FenceOf(c))
    case CommitSerialGroup(c, _) => Some(FenceOf(c))
    case Finalize(c) => Some(FenceOf(c))
    case Standalone(generation, _, _) => Some(generation)
  }

  /** A transaction of any generation but the effective one changes nothing. */
  lemma OtherGenerationChangesNothing(sys: System, s: Store, op: Op)
    requires OpOk(sys, op) && ActsUnder(op).Some? && ActsUnder(op) != Effective(s)
    ensures Next(sys, s, op) == s
  {
    hide PlanOf, BatchItems, BatchChanges, Run, ManifestValid, PriorDone, SerialGroup, WorkEffect;
  }

  /** Fencing: whatever an applier that was superseded at moment `j` submits later changes nothing. */
  lemma SupersededCannotWrite(sys: System, ops: seq<Op>, i: nat, j: nat, op: Op)
    requires SystemOk(sys) && RunOk(sys, ops) && OpOk(sys, op) && i <= j <= |ops|
    requires ActsUnder(op).Some? && Effective(Execute(sys, ops[..i])) == ActsUnder(op)
    requires Effective(Execute(sys, ops[..j])) != ActsUnder(op)
    ensures Next(sys, Execute(sys, ops), op) == Execute(sys, ops)
  {
    hide SystemOk, Execute, Next;
    GenerationsNeverRepeat(sys, ops, i, j);
    OtherGenerationChangesNothing(sys, Execute(sys, ops), op);
  }

  /** A claim that has been finalized is never active again, so none of its works can commit twice. */
  lemma FinalizedClaimNeverReturns(sys: System, ops: seq<Op>, i: nat, j: nat, c: Claim)
    requires SystemOk(sys) && RunOk(sys, ops) && i < j <= |ops|
    requires ops[i] == Finalize(c) && FinalizeStep(Execute(sys, ops[..i]), c).Some?
    ensures Execute(sys, ops[..j]).claim != Some(c)
  {
    hide SystemOk, Execute, BuildClaim, Invariant;
    var s := Execute(sys, ops[..i]);
    var n, hi := ActiveTargetIsPrefixPlusReceipts(sys, ops[..i]);
    LsnOrder(sys, n, hi);
    StepOf(sys, ops, i);
    ProgressNeverMovesBack(sys, ops[..j], i + 1);
    assert ops[..j][..i + 1] == ops[..i + 1];
    if Execute(sys, ops[..j]).claim == Some(c) {
      var m, end := ActiveTargetIsPrefixPlusReceipts(sys, ops[..j]);
    }
  }

  lemma StepOf(sys: System, ops: seq<Op>, i: nat)
    requires RunOk(sys, ops) && i < |ops|
    ensures Execute(sys, ops[..i + 1]) == Next(sys, Execute(sys, ops[..i]), ops[i])
  {
    assert ops[..i + 1][..i] == ops[..i];
  }

  /** While a claim is active nothing but its own works and its finalization changes data, progress,
      claim or receipts. */
  lemma ActiveClaimExcludesOthers(sys: System, s: Store, n: nat, op: Op)
    requires SystemOk(sys) && Invariant(sys, s, n) && OpOk(sys, op) && s.claim.Some?
    ensures
      var next := Next(sys, s, op);
      || (op.CommitWork? && op.claim == s.claim.value)
      || (op.CommitSerialGroup? && op.claim == s.claim.value)
      || (op.Finalize? && op.claim == s.claim.value)
      || (next.data == s.data && next.progress == s.progress && next.claim == s.claim && next.receipts == s.receipts)
  {
    hide SystemOk, Invariant, PlanOf, Run, BatchItems, BatchChanges;
    if op.Standalone? {
      if Run(sys.sem, Some(s.data), BatchItems(sys.source, op.lo, op.hi)).Some? {
        NoProgressWhileClaimed(sys, s, n, op);
      }
    }
  }

  lemma NoProgressWhileClaimed(sys: System, s: Store, n: nat, op: Op)
    requires Invariant(sys, s, n) && OpOk(sys, op) && s.claim.Some? && op.Standalone?
    ensures Next(sys, s, op) == s
  {
    hide Invariant, BatchItems, BatchChanges, Run;
    var rows := BatchChanges(sys.source[op.lo..op.hi], op.hi - op.lo);
    ClaimBlocksProgress(
      sys, s, n, op.generation, LsnAt(sys.source, op.lo), LsnAt(sys.source, op.hi), op.hi - op.lo, rows);
  }

  /** A transaction built on any other position than the committed one changes nothing. */
  lemma WrongPositionChangesNothing(sys: System, s: Store, op: Op)
    requires OpOk(sys, op) && op.Standalone? && LsnAt(sys.source, op.lo) != ProgressLsn(s)
    ensures Next(sys, s, op) == s
  {
    hide BatchItems, BatchChanges, Run;
  }
}
