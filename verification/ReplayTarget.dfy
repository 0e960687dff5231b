/** The durable rows of one stream as the appliers update them: every method is one target
    transaction, which either commits its writes or rolls them all back
    (internal/cdc/replay_claim.go:324-894, internal/cdc/progress_identity.go:25-246). */
module ReplayTarget {
  import opened Wrappers
  import opened Model
  import opened Target
  import opened Planner
  import opened PlanTotals
  import opened Claims

  /** The transaction commits exactly when the step accepts, and then leaves exactly its result. */
  predicate Committed(before: Store, step: Option<Store>, ok: bool, after: Store) {
    ok == step.Some? && after == (if ok then step.value else before)
  }

  lemma NoWorks()
    ensures WorkTransactions([]) == 0 && WorkChanges([]) == 0
  {
  }

  /** What one more row adds to the totals. */
  lemma OneMoreRow(works: seq<Work>, index: nat)
    requires index < |works|
    ensures WorkTransactions(works[..index + 1]) == WorkTransactions(works[..index]) + works[index].expectedTransactions
    ensures WorkChanges(works[..index + 1]) == WorkChanges(works[..index]) + works[index].expectedChanges
  {
    assert works[..index + 1][..index] == works[..index];
  }

  /** validateReplayClaimManifest as it runs: one pass with running totals. */
  method ValidateManifest(c: Claim) returns (ok: bool)
    ensures ok <==> ManifestValid(c)
  {
    hide FenceOf, WorkTransactions, WorkChanges;
    assert WorkTransactions([]) == 0 && WorkChanges([]) == 0 by {
      NoWorks();
    }
    if FenceOf(c) == c.startGeneration {
      return false;
    }
    var transactions, changes := 0, 0;
    var previousStep: int, previousWork: int := -1, -1;
    for index := 0 to |c.works|
      invariant transactions == WorkTransactions(c.works[..index]) && changes == WorkChanges(c.works[..index])
      invariant forall i :: 0 <= i < index ==> WorkRowOk(c.works[i])
      invariant forall i :: 0 < i < index ==> RowBefore(c.works[i - 1], c.works[i])
      invariant index > 0 ==> previousStep == c.works[index - 1].step && previousWork == c.works[index - 1].work
    {
      var work := c.works[index];
      OneMoreRow(c.works, index);
      if work.expectedTransactions == 0 {
        return false;
      }
      if index != 0 && (work.step < previousStep || (work.step == previousStep && work.work <= previousWork)) {
        assert !RowBefore(c.works[index - 1], c.works[index]);
        return false;
      }
      match work.kind {
        case ParallelLane =>
          if work.lane < 0 || work.work != work.lane {
            return false;
          }
        case SerialTransaction =>
          if work.lane != -1 || work.work != 0 || work.expectedTransactions != 1 {
            return false;
          }
      }
      transactions := transactions + work.expectedTransactions;
      changes := changes + work.expectedChanges;
      previousStep, previousWork := work.step, work.work;
    }
    assert c.works[..|c.works|] == c.works;
    ok := transactions == c.transactions && changes == c.changes;
  }

  class StreamRows {
    var identity: Option<Identity>
    var progress: Option<Progress>
    var claim: Option<Claim>
    var receipts: set<Work>
    ghost var data: Database

    ghost function Contents(): Store
      reads this
    {
      Store(identity, progress, claim, receipts, data)
    }

    constructor (ghost initial: Database)
      ensures Contents() == InitialStore(initial)
    {
      identity, progress, claim, receipts, data := None, None, None, {}, initial;
    }

    method EnsureReplayClaim(desired: Claim) returns (ok: bool)
      modifies this
      ensures Committed(old(Contents()), EnsureClaimStep(old(Contents()), desired), ok, Contents())
    {
      hide ManifestValid;
      if identity.None? || identity.value.base != desired.generation {
        return false;
      }
      var valid := ValidateManifest(desired);
      if claim.Some? {
        return identity.value.effective == FenceOf(claim.value) && claim.value == desired && valid;
      }
      if FenceOf(desired) == identity.value.effective || desired.startGeneration != identity.value.effective || !valid {
        return false;
      }
      var stored := progress;
      if progress.None? {
        if desired.startLsn != 0 {
          return false;
        }
        progress := Some(Progress(0, desired.startGeneration, 0, 0));
      }
      if progress.value.lsn != desired.startLsn || progress.value.generation != desired.startGeneration {
        progress := stored;
        return false;
      }
      claim := Some(desired);
      receipts := {};
      identity := Some(identity.value.(effective := FenceOf(desired), started := true));
      ok := true;
    }

    /** The join of claim and identity rows that every work transaction checks. */
    method FenceHolds(c: Claim) returns (holds: bool)
      ensures holds == HoldsFence(Contents(), c)
    {
      holds := claim == Some(c) && identity.Some? && identity.value.base == c.generation
               && identity.value.effective == FenceOf(c);
    }

    /** No work of an earlier step lacks its receipt. */
    method PriorWorkDone(c: Claim, step: nat) returns (done: bool)
      ensures done == PriorDone(Contents(), c, step)
    {
      for i := 0 to |c.works|
        invariant forall j :: 0 <= j < i && c.works[j].step < step ==> c.works[j] in receipts
      {
        if c.works[i].step < step && c.works[i] !in receipts {
          return false;
        }
      }
      done := true;
    }

    /** One work: lock its row, send its DML, record its receipt. `executed` is the target's answer
        to the DML. */
    method CommitWork(ghost sem: Semantics, c: Claim, w: Work, executed: bool) returns (ok: bool)
      requires executed == WorkEffect(sem, c, w, data).Some?
      modifies this
      ensures Committed(old(Contents()), CommitWorkStep(sem, old(Contents()), c, w), ok, Contents())
    {
      hide WorkEffect, PriorDone;
      var holds := FenceHolds(c);
      if !holds || w !in c.works {
        return false;
      }
      var ready := PriorWorkDone(c, w.step);
      if !ready {
        return false;
      }
      if w in receipts {
        return true;
      }
      if !executed {
        return false;
      }
      data := WorkEffect(sem, c, w, data).value;
      receipts := receipts + {w};
      ok := true;
    }

    /** A contiguous serial run commits every missing work and receipt in one transaction.
        `executed` is the target's answer to all of its DML. */
    method CommitSerialGroup(ghost sem: Semantics, c: Claim, works: seq<Work>, executed: bool) returns (ok: bool)
      requires executed == CompleteWorks(sem, Contents(), c, works).Some?
      modifies this
      ensures Committed(old(Contents()), CommitSerialGroupStep(sem, old(Contents()), c, works), ok, Contents())
    {
      hide PriorDone, CompleteWorks, HoldsFence;
      if |works| == 0 {
        return false;
      }
      for index := 0 to |works|
        invariant forall i :: 0 <= i < index ==> works[i] in c.works && works[i].kind.SerialTransaction?
        invariant forall i :: 0 < i < index ==> works[i].step == works[i - 1].step + 1
      {
        if works[index] !in c.works || !works[index].kind.SerialTransaction?
           || (index != 0 && works[index].step != works[index - 1].step + 1) {
          return false;
        }
      }
      var holds := FenceHolds(c);
      if !holds {
        return false;
      }
      var ready := PriorWorkDone(c, works[0].step);
      if !ready {
        return false;
      }
      var seenUncommitted := false;
      for index := 0 to |works|
        invariant seenUncommitted <==> exists i :: 0 <= i < index && works[i] !in receipts
        invariant forall i, j :: 0 <= i < j < index && works[j] in receipts ==> works[i] in receipts
      {
        if works[index] !in receipts {
          seenUncommitted := true;
        } else if seenUncommitted {
          return false;
        }
      }
      if !executed {
        return false;
      }
      ghost var next := CompleteWorks(sem, Contents(), c, works).value;
      CompletedGroup(sem, Contents(), c, works);
      receipts := receipts + (set w | w in works);
      data := next.data;
      ok := true;
    }

    /** Progress moves to the end of the claim once every work has its receipt. */
    method FinalizeReplayClaim(c: Claim) returns (ok: bool)
      modifies this
      ensures Committed(old(Contents()), FinalizeStep(old(Contents()), c), ok, Contents())
    {
      hide ManifestValid;
      var holds := FenceHolds(c);
      if !holds {
        return false;
      }
      var valid := ValidateManifest(c);
      if !valid {
        return false;
      }
      for i := 0 to |c.works|
        invariant forall j :: 0 <= j < i ==> c.works[j] in receipts
      {
        if c.works[i] !in receipts {
          return false;
        }
      }
      if progress.None? || progress.value.lsn != c.startLsn || progress.value.generation != c.startGeneration {
        return false;
      }
      progress := Some(Progress(
        c.endLsn, FenceOf(c), progress.value.transactions + c.transactions, progress.value.rows + c.changes));
      claim := None;
      receipts := {};
      ok := true;
    }

    /** streamProgressSQL. */
    method PublishProgress(generation: Generation, expected: Lsn, remote: Lsn, transactions: nat, rows: nat) returns (ok: bool)
      modifies this`identity, this`progress
      ensures Committed(
        old(Contents()), StreamProgress(old(Contents()), generation, expected, remote, transactions, rows), ok, Contents())
    {
      if identity.None? || identity.value.effective != generation {
        return false;
      }
      if progress.None? {
        if expected != 0 {
          return false;
        }
        progress := Some(Progress(remote, generation, transactions, rows));
      } else {
        if progress.value.generation != generation || progress.value.lsn != expected || remote <= progress.value.lsn {
          return false;
        }
        progress := Some(Progress(
          remote, generation, progress.value.transactions + transactions, progress.value.rows + rows));
      }
      identity := Some(identity.value.(started := true));
      ok := true;
    }

    /** EnsureStreamProgressIdentity. */
    method EnsureIdentity(name: Bytes, freshSetup: bool, copied: bool) returns (ok: bool)
      modifies this`identity
      ensures Committed(old(Contents()), EnsureIdentityStep(old(Contents()), name, freshSetup, copied), ok, Contents())
    {
      var stored := identity;
      if identity.Some? && identity.value.base != name {
        return false;
      }
      if identity.None? {
        if progress.Some? && progress.value.generation != Configured(name) {
          return false;
        }
        if copied && !freshSetup {
          return false;
        }
        identity := Some(Identity(name, Configured(name), progress.Some?));
      }
      if claim.Some? && (claim.value.generation != identity.value.base || FenceOf(claim.value) != identity.value.effective) {
        identity := stored;
        return false;
      }
      var expected := identity.value.effective;
      if claim.Some? {
        expected := claim.value.startGeneration;
      }
      if progress.Some? {
        if progress.value.generation != expected {
          identity := stored;
          return false;
        }
        identity := Some(identity.value.(started := true));
        return true;
      }
      if claim.Some? || ((identity.value.started || copied) && !freshSetup) {
        identity := stored;
        return false;
      }
      ok := true;
    }
  }

  /** What a completed group leaves: a receipt for each of its works, nothing else but data. */
  lemma {:induction false} CompletedGroup(sem: Semantics, s: Store, c: Claim, works: seq<Work>)
    requires CompleteWorks(sem, s, c, works).Some?
    ensures
      var next := CompleteWorks(sem, s, c, works).value;
      next == s.(receipts := s.receipts + (set w | w in works), data := next.data)
    decreases |works|
  {
    hide WorkEffect;
    if works == [] {
      assert (set w | w in works) == {};
    } else {
      assert forall w :: w in works <==> w == works[0] || w in works[1..];
      assert (set w | w in works) == {works[0]} + (set w | w in works[1..]);
      if works[0] in s.receipts {
        CompletedGroup(sem, s, c, works[1..]);
        assert s.receipts + (set w | w in works) == s.receipts + (set w | w in works[1..]);
      } else {
        var middle := CompleteWork(sem, s, c, works[0]).value;
        CompletedGroup(sem, middle, c, works[1..]);
        assert s.receipts + (set w | w in works) == middle.receipts + (set w | w in works[1..]);
      }
    }
  }
}
