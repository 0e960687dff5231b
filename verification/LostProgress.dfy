/** What happens to a stream whose progress row is lost while it is replayed: no applier starts any more, those
    still running cannot write but for works of the active claim that have no receipt, and so no source
    transaction runs a second time (internal/cdc/progress_identity.go:91-97, 239-254). */
module LostProgress {
  import opened Wrappers
  import opened Model
  import opened Target
  import opened Dependence
  import opened Planner
  import opened PlanTotals
  import opened LaneRewrite
  import opened Serializability
  import opened Schedule
  import opened Claims
  import opened ExactlyOnce
  import opened Protocol
  import opened Fencing
  import opened Completion
  import opened Acceptance

  /** The outside event: the progress row is deleted. */
  function Lose(s: Store): Store {
    s.(progress := None)
  }

  /** What is submitted after the loss, and by whom. */
  datatype Submission = Submission(applier: nat, op: Op)

  predicate SubmissionsOk(sys: System, subs: seq<Submission>) {
    forall i :: 0 <= i < |subs| ==> OpOk(sys, subs[i].op)
  }

  ghost function After(sys: System, s: Store, subs: seq<Submission>): Store
    requires SubmissionsOk(sys, subs)
  {
    if subs == [] then s else Next(sys, After(sys, s, subs[..|subs| - 1]), subs[|subs| - 1].op)
  }

  /** The appliers that may write: those running at the loss and those that have opened the stream since. */
  ghost function Running(sys: System, s: Store, begun: set<nat>, subs: seq<Submission>): set<nat>
    requires SubmissionsOk(sys, subs)
  {
    if subs == [] then begun
    else
      var init, last := subs[..|subs| - 1], subs[|subs| - 1];
      var rest := Running(sys, s, begun, init);
      if last.op.EnsureIdentity? && Submit(sys, After(sys, s, init), last.op).Some? then rest + {last.applier} else rest
  }

  /** The transaction begins at the very start of the source. */
  predicate FromStart(op: Op) {
    (op.EnsureClaim? || op.Standalone?) && op.lo == 0
  }

  /** Nobody sets the stream up afresh, only running appliers write, and those that ran at the loss know a
      position beyond the start. */
  ghost predicate Disciplined(sys: System, s: Store, begun: set<nat>, subs: seq<Submission>) {
    SubmissionsOk(sys, subs) &&
    forall i :: 0 <= i < |subs| ==>
      var x := subs[i];
      if x.op.EnsureIdentity? then !x.op.freshSetup
      else x.applier in Running(sys, s, begun, subs[..i]) && (x.applier in begun ==> !FromStart(x.op))
  }

  // --- One submission ---

  /** Put back, the row `p` makes the state one of the protocol's. */
  ghost predicate LostAt(sys: System, s: Store, n: nat, p: Progress) {
    s.progress.None? && Started(s) && Invariant(sys, s.(progress := Some(p)), n)
  }

  lemma WithRow(sem: Semantics, s: Store, c: Claim, w: Work, row: Option<Progress>)
    ensures CommitWorkStep(sem, s.(progress := row), c, w) ==
      match CommitWorkStep(sem, s, c, w) case None => None case Some(next) => Some(next.(progress := row))
  {
    hide WorkEffect;
  }

  lemma {:induction false} WorksWithRow(sem: Semantics, s: Store, c: Claim, works: seq<Work>, row: Option<Progress>)
    ensures CompleteWorks(sem, s.(progress := row), c, works) ==
      match CompleteWorks(sem, s, c, works) case None => None case Some(next) => Some(next.(progress := row))
    decreases |works|
  {
    hide WorkEffect;
    if works != [] {
      if works[0] in s.receipts {
        WorksWithRow(sem, s, c, works[1..], row);
      } else if CompleteWork(sem, s, c, works[0]).Some? {
        WorksWithRow(sem, CompleteWork(sem, s, c, works[0]).value, c, works[1..], row);
      }
    }
  }

  lemma GroupWithRow(sem: Semantics, s: Store, c: Claim, works: seq<Work>, row: Option<Progress>)
    ensures CommitSerialGroupStep(sem, s.(progress := row), c, works) ==
      match CommitSerialGroupStep(sem, s, c, works) case None => None case Some(next) => Some(next.(progress := row))
  {
    hide CompleteWorks;
    WorksWithRow(sem, s, c, works, row);
    assert SerialGroup(s.(progress := row), c, works) <==> SerialGroup(s, c, works);
  }

  /** Receipts are never withdrawn. */
  lemma {:induction false} ReceiptsGrow(sem: Semantics, s: Store, c: Claim, works: seq<Work>)
    ensures CompleteWorks(sem, s, c, works).Some? ==> s.receipts <= CompleteWorks(sem, s, c, works).value.receipts
    decreases |works|
  {
    hide WorkEffect;
    if works != [] {
      if works[0] in s.receipts {
        ReceiptsGrow(sem, s, c, works[1..]);
      } else if CompleteWork(sem, s, c, works[0]).Some? {
        ReceiptsGrow(sem, CompleteWork(sem, s, c, works[0]).value, c, works[1..]);
      }
    }
  }

  /** What a loss leaves untouched by everything that may follow it. */
  predicate Frozen(s: Store, next: Store) {
    && next.progress.None? && next.claim == s.claim && next.identity == s.identity
    && s.receipts <= next.receipts && (s.claim.None? ==> next == s)
  }

  lemma WorkAfterLoss(sys: System, s: Store, n: nat, p: Progress, c: Claim, w: Work)
    requires SystemOk(sys) && LostAt(sys, s, n, p)
    ensures var next := Next(sys, s, CommitWork(c, w)); LostAt(sys, next, n, p) && Frozen(s, next)
  {
    hide SystemOk, Invariant;
    WithRow(sys.sem, s, c, w, Some(p));
    if CommitWorkStep(sys.sem, s, c, w).Some? {
      CommitWorkKeeps(sys, s.(progress := Some(p)), n, c, w);
      hide WorkEffect;
    }
  }

  lemma GroupAfterLoss(sys: System, s: Store, n: nat, p: Progress, c: Claim, works: seq<Work>)
    requires SystemOk(sys) && LostAt(sys, s, n, p)
    ensures var next := Next(sys, s, CommitSerialGroup(c, works)); LostAt(sys, next, n, p) && Frozen(s, next)
  {
    hide SystemOk, Invariant, CompleteWorks, SerialGroup;
    GroupWithRow(sys.sem, s, c, works, Some(p));
    GroupFrame(sys.sem, s, c, works);
    ReceiptsGrow(sys.sem, s, c, works);
    if CommitSerialGroupStep(sys.sem, s, c, works).Some? {
      CommitSerialGroupKeeps(sys, s.(progress := Some(p)), n, c, works);
    }
  }

  /** Nothing but works is accepted, unless it begins at the start of the source or is a fresh setup. */
  lemma OthersAfterLoss(sys: System, s: Store, n: nat, p: Progress, op: Op)
    requires SystemOk(sys) && LostAt(sys, s, n, p) && OpOk(sys, op)
    requires !op.CommitWork? && !op.CommitSerialGroup? && !FromStart(op) && (op.EnsureIdentity? ==> !op.freshSetup)
    ensures Next(sys, s, op) == s && (op.EnsureIdentity? ==> Submit(sys, s, op).None?)
  {
    hide Invariant, ManifestValid, PlanOf, BatchItems, BatchChanges, Run, SystemOk;
    if op.EnsureClaim? || op.Standalone? {
      LsnOrder(sys, 0, op.lo);
    }
  }

  lemma NextAfterLoss(sys: System, s: Store, n: nat, p: Progress, op: Op)
    requires SystemOk(sys) && LostAt(sys, s, n, p) && OpOk(sys, op)
    requires !FromStart(op) && (op.EnsureIdentity? ==> !op.freshSetup)
    ensures LostAt(sys, Next(sys, s, op), n, p) && Frozen(s, Next(sys, s, op))
    ensures op.EnsureIdentity? ==> Submit(sys, s, op).None?
  {
    hide SystemOk, Invariant, Next, Submit;
    if op.CommitWork? {
      WorkAfterLoss(sys, s, n, p, op.claim, op.work);
    } else if op.CommitSerialGroup? {
      GroupAfterLoss(sys, s, n, p, op.claim, op.works);
    } else {
      OthersAfterLoss(sys, s, n, p, op);
    }
  }

  // --- Any number of submissions ---

  lemma DisciplinedInit(sys: System, s: Store, begun: set<nat>, subs: seq<Submission>)
    requires Disciplined(sys, s, begun, subs) && subs != []
    ensures Disciplined(sys, s, begun, subs[..|subs| - 1])
  {
    hide Running, FromStart;
    var init := subs[..|subs| - 1];
    forall i | 0 <= i < |init| ensures init[..i] == subs[..i] && init[i] == subs[i] {
    }
  }

  lemma {:induction false} NobodyStarts(
    sys: System, s: Store, n: nat, p: Progress, begun: set<nat>, subs: seq<Submission>)
    requires SystemOk(sys) && LostAt(sys, s, n, p) && Disciplined(sys, s, begun, subs)
    ensures Running(sys, s, begun, subs) == begun
    ensures LostAt(sys, After(sys, s, subs), n, p) && Frozen(s, After(sys, s, subs))
    decreases |subs|
  {
    hide SystemOk, LostAt, Next, Submit;
    if subs == [] {
      assert Frozen(s, s) by {
        LostHasNoRow(sys, s, n, p);
      }
    } else {
      var init, last := subs[..|subs| - 1], subs[|subs| - 1];
      DisciplinedInit(sys, s, begun, subs);
      NobodyStarts(sys, s, n, p, begun, init);
      NextAfterLoss(sys, After(sys, s, init), n, p, last.op);
    }
  }

  lemma LostHasNoRow(sys: System, s: Store, n: nat, p: Progress)
    requires LostAt(sys, s, n, p)
    ensures s.progress.None?
  {
  }

  /** Whatever reachable state loses its progress row, and whatever appliers that were running and appliers
      that try to start submit afterwards: no applier can start, and nothing of the source runs twice. Without
      an active claim nothing changes at all; with one, the target stays the prefix before the claim plus
      exactly its works with receipts, each committed once. */
  lemma LostProgressStops(sys: System, ops: seq<Op>, begun: set<nat>, subs: seq<Submission>)
    returns (n: nat, hi: nat)
    requires SystemOk(sys) && RunOk(sys, ops) && Execute(sys, ops).progress.Some?
    requires Disciplined(sys, Lose(Execute(sys, ops)), begun, subs)
    ensures
      var lost := Lose(Execute(sys, ops));
      var s := After(sys, lost, subs);
      && (forall copied :: Submit(sys, s, EnsureIdentity(false, copied)).None?)
      && Running(sys, lost, begun, subs) == begun
      && n <= |sys.source| && LsnAt(sys.source, n) == ProgressLsn(Execute(sys, ops))
      && s.claim == lost.claim && lost.receipts <= s.receipts
      && match s.claim
         case None => s == lost && Some(s.data) == Replayed(sys, n)
         case Some(c) =>
           && n < hi <= |sys.source| && c.laneCount > 0 && c == BuildClaim(sys, c.startGeneration, n, hi, c.laneCount)
           && s.receipts <= WorkSet(c)
           && Some(s.data) == Run(sys.sem, Replayed(sys, n), Select(DoneBy(s.receipts), ClaimItems(c)))
  {
    assert SubmissionsOk(sys, subs);
    hide SystemOk, Execute, Invariant, Submit, BuildClaim, Run, Replayed, Select, ClaimItems, Disciplined, After, Running;
    n := ExactlyOnceAlways(sys, ops);
    var before := Execute(sys, ops);
    PositionOf(sys, before, n);
    StartAlwaysMarked(sys, ops);
    var lost, p := Lose(before), before.progress.value;
    assert lost.(progress := Some(p)) == before;
    NobodyStarts(sys, lost, n, p, begun, subs);
    var s := After(sys, lost, subs);
    forall copied ensures Submit(sys, s, EnsureIdentity(false, copied)).None? {
      NextAfterLoss(sys, s, n, p, EnsureIdentity(false, copied));
    }
    hi := 0;
    var again := s.(progress := Some(p));
    if s.claim.Some? {
      hi := ActiveOfClaim(sys, again, n);
    } else {
      IdleData(sys, again, n);
    }
  }

  lemma IdleData(sys: System, s: Store, n: nat)
    requires Invariant(sys, s, n) && s.claim.None?
    ensures n <= |sys.source| && Some(s.data) == Replayed(sys, n)
  {
    hide Replayed, Active;
  }

  // --- The condition on running appliers is needed ---

  /** An applier that still believes the source is at its start is not stopped: its batch is accepted, on top of
      everything replayed before, exactly if the changes succeed there. */
  lemma RestartRepeatsIff(sys: System, ops: seq<Op>, hi: nat)
    requires SystemOk(sys) && RunOk(sys, ops) && 0 < hi <= |sys.source|
    requires Execute(sys, ops).progress.Some? && Execute(sys, ops).claim.None?
    ensures
      var s := Lose(Execute(sys, ops));
      var generation := Execute(sys, ops).progress.value.generation;
      var again := Run(sys.sem, Some(s.data), BatchItems(sys.source, 0, hi));
      var next := Submit(sys, s, Standalone(generation, 0, hi));
      && (next.Some? <==> again.Some?)
      && (next.Some? ==> Some(next.value.data) == again)
  {
    hide SystemOk, Execute, Run, Replayed, BatchItems, BatchChanges, Active;
    var n := ExactlyOnceAlways(sys, ops);
  }
}
