/** What the reader guarantees over whole runs. */
module FollowedRuns {
  import opened Wrappers
  import opened Model
  import opened Frames
  import opened Following
  import opened FollowedLog

  /** NewReader on a directory whose deleted segments lie below the target progress. */
  function Start(d: Disk, after: Lsn, gate: Lsn, floor: Lsn): System
    requires d.pruned <= |d.starts|
  {
    System(d, Reader(Listing(d), 0, None, after, gate, ORIGIN, None), [], floor, true)
  }

  ghost predicate StartOk(d: Disk, gate: Lsn, floor: Lsn) {
    && DiskOk(d) && DeletedBelow(d, 0, floor)
    && floor <= d.durable && gate <= d.durable <= LastEnd(d.log)
  }

  datatype Run = Running(system: System) | Impossible

  /** Writer, pruner and reader in any interleaving. */
  ghost function Execute(start: System, events: seq<Event>): Run {
    if events == [] then Running(start)
    else
      match Execute(start, events[..|events| - 1])
      case Impossible => Impossible
      case Running(s) =>
        if Enabled(s, events[|events| - 1]) then Running(Step(s, events[|events| - 1])) else Impossible
  }

  lemma StartTracks(d: Disk, after: Lsn, gate: Lsn, floor: Lsn)
    requires DiskOk(d)
    ensures d.pruned <= |d.starts| && Tracks(Start(d, after, gate, floor), d.pruned)
  {
    hide DiskOk, Matches;
    LiveInLog(d);
    ListingMatchesFrom(d, floor, 0);
  }

  lemma StartKeeps(d: Disk, after: Lsn, gate: Lsn, floor: Lsn)
    requires StartOk(d, gate, floor)
    ensures d.pruned <= |d.starts| && Invariant(Start(d, after, gate, floor), d.pruned)
  {
    LiveInLog(d);
    StartTracks(d, after, gate, floor);
    hide Tracks;
  }

  lemma {:induction false} RunKeeps(d: Disk, after: Lsn, gate: Lsn, floor: Lsn, events: seq<Event>) returns (at: nat)
    requires StartOk(d, gate, floor)
    ensures d.pruned <= |d.starts|
    ensures Execute(Start(d, after, gate, floor), events).Running? ==>
      Invariant(Execute(Start(d, after, gate, floor), events).system, at)
    decreases |events|
  {
    hide Invariant, StartOk, Enabled, Step;
    StartKeeps(d, after, gate, floor);
    var start := Start(d, after, gate, floor);
    if events == [] {
      at := d.pruned;
    } else {
      at := RunKeeps(d, after, gate, floor, events[..|events| - 1]);
      var before := Execute(start, events[..|events| - 1]);
      if before.Running? && Enabled(before.system, events[|events| - 1]) {
        at := StepKeeps(before.system, at, events[|events| - 1]);
      }
    }
  }

  /** In every run the reader has returned, in LSN order and hence once each, only transactions of the
      log that were durable and wanted, and none from the starting progress on is missing up to where
      it stands; the one it holds back, if any, is not durable for it yet or next to be returned. */
  lemma ReturnedExactly(d: Disk, after: Lsn, gate: Lsn, floor: Lsn, events: seq<Event>) returns (position: nat)
    requires StartOk(d, gate, floor)
    ensures d.pruned <= |d.starts|
    ensures Execute(Start(d, after, gate, floor), events).Running? ==>
      var s := Execute(Start(d, after, gate, floor), events).system;
      && position <= |s.disk.log| && Rising(s.emitted)
      && (forall x :: x in s.emitted ==> In(s.disk.log, position, x) && s.reader.after < x.commit && x.end <= s.disk.durable)
      && (forall i :: 0 <= i < position && s.reader.after < s.disk.log[i].commit && floor <= s.disk.log[i].end ==>
            s.disk.log[i] in s.emitted || s.reader.pending == Some(s.disk.log[i]))
  {
    hide Execute, StartOk;
    var at := RunKeeps(d, after, gate, floor, events);
    var run := Execute(Start(d, after, gate, floor), events);
    position := 0;
    if run.Running? {
      position := Position(run.system, at);
      FloorFixed(d, after, gate, floor, events);
      ReadsMeaning(run.system, at);
    }
  }

  lemma ReadsMeaning(s: System, at: nat)
    requires Reads(s, at)
    ensures
      var position := Position(s, at);
      && position <= |s.disk.log| && Rising(s.emitted)
      && (forall x :: x in s.emitted ==> In(s.disk.log, position, x) && s.reader.after < x.commit && x.end <= s.disk.durable)
      && (forall i :: 0 <= i < position && s.reader.after < s.disk.log[i].commit && s.floor <= s.disk.log[i].end ==>
            s.disk.log[i] in s.emitted || s.reader.pending == Some(s.disk.log[i]))
  {
    hide Follows;
    assert forall i :: 0 <= i < |s.emitted| ==> Kept(s)[i] == s.emitted[i];
    assert forall x :: x in s.emitted ==> x in Kept(s);
  }

  lemma {:induction false} FloorFixed(d: Disk, after: Lsn, gate: Lsn, floor: Lsn, events: seq<Event>)
    requires d.pruned <= |d.starts|
    ensures Execute(Start(d, after, gate, floor), events).Running? ==>
      Execute(Start(d, after, gate, floor), events).system.floor == floor
    decreases |events|
  {
    hide Enabled, Turn, Refreshed;
    if events != [] {
      FloorFixed(d, after, gate, floor, events[..|events| - 1]);
    }
  }

  // --- The reader is never stuck ---

  /** The reader's listing is that of the directory, and it stands at segment `at` in it. */
  ghost predicate Current(s: System, at: nat) {
    s.disk.pruned <= at <= |s.disk.starts| && s.reader.snapshot == Listing(s.disk) && s.reader.index == at - s.disk.pruned
  }

  /** Why `Next` can report the end of the input. */
  predicate Exhausted(s: System) {
    if s.reader.pending.Some? then s.reader.pending.value.end > s.reader.gate
    else if s.reader.file.None? then s.reader.index >= |s.reader.snapshot|
    else
      && s.reader.file.value.segment < |s.disk.cuts| && s.reader.index < |s.reader.snapshot|
      && s.reader.file.value.position >= SegmentEnd(s.disk, s.reader.file.value.segment)
      && s.reader.snapshot[s.reader.index].partial
  }

  ghost predicate Named(s: System) {
    s.reader.index < |s.reader.snapshot| && exists k: nat :: Exists(s.disk, s.reader.snapshot[s.reader.index], k)
  }

  /** Turns left before the reader must open a file, and what it has left to read. */
  ghost function Phase(s: System): nat {
    if s.reader.file.Some? then 0 else if Named(s) then 1 else 2
  }

  function Remaining(s: System, at: nat): int {
    |s.disk.log| - Position(s, at) + |s.disk.starts| - at
  }

  lemma RemainingBound(s: System, at: nat)
    requires Invariant(s, at)
    ensures Remaining(s, at) >= 0
  {
    hide Delivered, Tracks, DiskOk;
    OpenFile(s, at);
    DeliveredBound(s, at);
  }

  lemma DeliveredBound(s: System, at: nat)
    requires Reads(s, at)
    ensures Position(s, at) <= |s.disk.log|
  {
  }

  /** A turn that does not end the call makes progress. */
  lemma TurnProgress(s: System, at: nat)
    requires Invariant(s, at) && FileReadable(s) && Turn(s.reader, s.disk).1 == Again
    ensures
      var t, next := AfterTurn(s), NextAt(s, at);
      && t.emitted == s.emitted && t.disk == s.disk
      && Remaining(t, next) <= Remaining(s, at)
      && (Remaining(t, next) == Remaining(s, at) ==> Phase(t) < Phase(s))
  {
    hide DiskOk, Reads, Tracks, FirstFrom, Exists;
    NextEntry(s, at);
    OpenFile(s, at);
    LiveInLog(s.disk);
    if s.reader.file.None? {
      if exists k: nat :: Exists(s.disk, s.reader.snapshot[s.reader.index], k) {
        OpensSegment(s, at, AfterTurn(s).reader.file.value.segment);
      } else {
        RelistNames(s, at);
      }
    } else {
      CutsOrdered(s.disk, at, at);
    }
  }

  lemma RelistNames(s: System, at: nat)
    requires Invariant(s, at) && FileReadable(s) && s.reader.pending.None? && s.reader.file.None?
    requires s.reader.index < |s.reader.snapshot| && !(exists k: nat :: Exists(s.disk, s.reader.snapshot[s.reader.index], k))
    ensures Named(AfterTurn(s))
    ensures at < s.disk.pruned ==> Position(s, at) <= Position(AfterTurn(s), s.disk.pruned)
  {
    hide DiskOk, Reads, Tracks, FirstFrom;
    NextEntry(s, at);
    LiveInLog(s.disk);
    FindInListing(s.disk, at);
    var t := AfterTurn(s);
    var next := if at < s.disk.pruned then s.disk.pruned else at;
    assert Exists(s.disk, t.reader.snapshot[t.reader.index], next);
    CutsOrdered(s.disk, at, next);
  }

  lemma {:induction false} ExecuteConcat(s: System, first: seq<Event>, rest: seq<Event>)
    requires Execute(s, first).Running?
    ensures Execute(s, first + rest) == Execute(Execute(s, first).system, rest)
    decreases |rest|
  {
    hide Enabled, Step;
    if rest == [] {
      assert first + rest == first;
    } else {
      assert (first + rest)[..|first + rest| - 1] == first + rest[..|rest| - 1];
      ExecuteConcat(s, first, rest[..|rest| - 1]);
    }
  }

  lemma ExecuteOne(s: System, e: Event)
    requires Enabled(s, e)
    ensures Execute(s, [e]) == Running(Step(s, e))
  {
    hide Enabled, Step;
    assert [e][..0] == [];
    assert Execute(s, []) == Running(s);
  }

  /** A turn keeps a current listing current. */
  lemma TurnCurrent(s: System, at: nat)
    requires Invariant(s, at) && FileReadable(s) && Current(s, at)
    ensures Current(AfterTurn(s), NextAt(s, at))
  {
    hide DiskOk, Reads, Tracks, FirstFrom, Exists;
    NextEntry(s, at);
    LiveInLog(s.disk);
    OpenFile(s, at);
    if s.reader.file.None? && s.reader.index < |s.reader.snapshot| {
      FindInListing(s.disk, at);
    }
  }

  lemma TurnFrame(s: System, at: nat)
    requires Invariant(s, at) && FileReadable(s)
    ensures
      var t, outcome := AfterTurn(s), Turn(s.reader, s.disk).1;
      && t.disk == s.disk && t.floor == s.floor && t.reader.gate == s.reader.gate && t.reader.after == s.reader.after
      && (outcome.Emit? ==> t.emitted == s.emitted + [outcome.transaction])
      && (!outcome.Emit? ==> t.emitted == s.emitted) && t.mayRefresh == !outcome.Again?
      && (outcome == AtEnd ==> Exhausted(t))
  {
    hide DiskOk, Reads, Tracks, FirstFrom, Exists;
    OpenFile(s, at);
  }

  /** What a call of `Next` leads to: another transaction, or a reason to report the end. */
  ghost predicate Called(s: System, at: nat, events: seq<Event>, t: System, next: nat) {
    && (forall i :: 0 <= i < |events| ==> events[i] == Next) && Execute(s, events) == Running(t)
    && Invariant(t, next) && t.mayRefresh
    && t.disk == s.disk && t.floor == s.floor && t.reader.gate == s.reader.gate && t.reader.after == s.reader.after
    && s.emitted <= t.emitted && (s.emitted == t.emitted ==> Exhausted(t))
    && (Current(s, at) ==> Current(t, next))
  }

  lemma CalledAfterTurn(s: System, at: nat, events: seq<Event>, t: System, next: nat)
    requires Invariant(s, at) && Enabled(s, Next) && FileReadable(s) && Turn(s.reader, s.disk).1 == Again
    requires Called(AfterTurn(s), NextAt(s, at), events, t, next)
    ensures Called(s, at, [Next] + events, t, next)
  {
    hide Invariant, Enabled, Current, Exhausted, AfterTurn, NextAt;
    TurnFrame(s, at);
    ExecuteOne(s, Next);
    ExecuteConcat(s, [Next], events);
    if Current(s, at) {
      TurnCurrent(s, at);
    }
  }

  lemma NextEnabled(s: System, at: nat)
    requires Invariant(s, at)
    ensures Enabled(s, Next) && FileReadable(s)
  {
    NextEntry(s, at);
  }

  /** Every call of `Next` returns. */
  lemma {:induction false} NextReturns(s: System, at: nat) returns (events: seq<Event>, t: System, next: nat)
    requires Invariant(s, at)
    ensures Called(s, at, events, t, next)
    decreases Remaining(s, at), Phase(s)
  {
    hide Invariant, Enabled, Current, Exhausted, AfterTurn, NextAt, Turn, Remaining, Phase;
    NextEnabled(s, at);
    TurnFrame(s, at);
    next := TurnKeeps(s, at);
    if Turn(s.reader, s.disk).1 == Again {
      TurnProgress(s, at);
      RemainingBound(s, at);
      var rest;
      rest, t, next := NextReturns(AfterTurn(s), NextAt(s, at));
      events := [Next] + rest;
      CalledAfterTurn(s, at, rest, t, next);
    } else {
      events, t := [Next], AfterTurn(s);
      ExecuteOne(s, Next);
      if Current(s, at) {
        TurnCurrent(s, at);
      }
    }
  }

  /** A transaction the reader still owes: logged, durable, wanted, and not returned yet. */
  predicate Owed(s: System, i: nat) {
    && i < |s.disk.log| && s.reader.after < s.disk.log[i].commit
    && s.floor <= s.disk.log[i].end <= s.disk.durable && s.disk.log[i] !in s.emitted
  }

  lemma KeptMeaning(s: System, at: nat)
    requires Invariant(s, at)
    ensures Position(s, at) <= |s.disk.log|
    ensures forall i :: 0 <= i < Position(s, at) && s.reader.after < s.disk.log[i].commit && s.floor <= s.disk.log[i].end ==>
      s.disk.log[i] in Kept(s)
    ensures s.reader.pending.Some? ==>
      forall i :: Position(s, at) <= i < |s.disk.log| ==> s.reader.pending.value.end < s.disk.log[i].end
  {
    hide Tracks, DiskOk;
    var log := s.disk.log;
    if s.reader.pending.Some? {
      var p := s.reader.pending.value;
      assert Kept(s)[|s.emitted|] == p;
      assert In(log, Position(s, at), p);
      var j :| 0 <= j < Position(s, at) && log[j] == p;
      forall i | Position(s, at) <= i < |log| ensures p.end < log[i].end {
        assert Follows(log[j], log[i]);
      }
    }
  }

  lemma OwedIsUnread(s: System, at: nat, i: nat)
    requires Invariant(s, at) && Owed(s, i) && Exhausted(s) && s.reader.gate == s.disk.durable
    ensures Position(s, at) <= i && s.reader.pending.None?
  {
    hide Invariant;
    KeptMeaning(s, at);
  }

  lemma CurrentAtEnd(s: System, at: nat)
    requires Invariant(s, at) && Current(s, at) && Exhausted(s) && s.reader.pending.None?
    ensures Position(s, at) == |s.disk.log|
  {
    hide DiskOk, Reads, Matches;
    LiveInLog(s.disk);
    OpenFile(s, at);
  }

  /** With a current listing the reader only reports the end when it owes nothing. */
  lemma CurrentOwesNothing(s: System, at: nat, i: nat)
    requires Invariant(s, at) && Current(s, at) && Exhausted(s) && s.reader.gate == s.disk.durable
    ensures !Owed(s, i)
  {
    hide Invariant, Current, Exhausted;
    if Owed(s, i) {
      OwedIsUnread(s, at, i);
      CurrentAtEnd(s, at);
      assert false;
    }
  }

  /** A refresh after the end was reported makes the listing current. */
  lemma RefreshCurrent(s: System, at: nat, gate: Lsn) returns (next: nat)
    requires Invariant(s, at) && MayTake(s, gate) && Exhausted(s) && s.reader.pending.None?
    ensures Invariant(AfterRefresh(s, gate), next) && Current(AfterRefresh(s, gate), next)
  {
    hide DiskOk, Reads, FirstFrom, Tracks;
    LiveInLog(s.disk);
    next := RefreshKeeps(s, at, gate);
    OpenFile(s, at);
    if s.reader.file.Some? {
      EntryOfFile(s, at);
      PartialIsLive(s, at);
      FindInListing(s.disk, at);
      OpenFile(AfterRefresh(s, gate), next);
    } else {
      BetweenSegments(s, at);
      if s.reader.snapshot == [] {
        next := s.disk.pruned;
        TakeFirst(s, at, AfterRefresh(s, gate));
        SkipKeeps(s, AfterRefresh(s, gate), at, next);
      } else {
        next := RefreshPast(s, at, gate);
        RefreshPastTo(s, at, gate);
        SkipKeeps(s, AfterRefresh(s, gate), at, next);
      }
    }
  }

  lemma PartialIsLive(s: System, at: nat)
    requires Tracks(s, at) && s.reader.file.Some? && s.reader.snapshot[s.reader.index].partial
    ensures s.disk.pruned <= at
  {
    assert Matches(
      s.disk, s.floor, s.reader.snapshot[s.reader.index], at + (s.reader.index - s.reader.index),
      s.reader.index == |s.reader.snapshot| - 1);
  }

  /** Calls of `Next` and refreshes to the durable position alone, without any help from the writer. */
  predicate ReaderOnly(events: seq<Event>, durable: Lsn) {
    forall i :: 0 <= i < |events| ==> events[i] == Next || events[i] == Refresh(durable)
  }

  /** One refresh and one call of `Next`. */
  lemma RefreshAndCall(s: System, at: nat) returns (events: seq<Event>, t: System, next: nat)
    requires Invariant(s, at) && s.mayRefresh
    ensures ReaderOnly(events, s.disk.durable) && Execute(s, events) == Running(t)
    ensures Invariant(t, next) && t.mayRefresh && t.reader.gate == s.disk.durable
    ensures t.disk == s.disk && t.floor == s.floor && t.reader.after == s.reader.after
    ensures s.emitted <= t.emitted && (s.emitted == t.emitted ==> Exhausted(t))
    ensures s.reader.pending.None? && Exhausted(s) ==> Current(t, next)
  {
    hide Invariant, Current, Exhausted, Refreshed, Execute, Enabled, MayTake;
    var gate := s.disk.durable;
    PrunedInRange(s, at);
    RefreshEnabled(s, at);
    var between := RefreshKeeps(s, at, gate);
    if s.reader.pending.None? && Exhausted(s) {
      between := RefreshCurrent(s, at, gate);
    }
    ExecuteOne(s, Refresh(gate));
    RefreshFrame(s.reader, s.disk, gate);
    var calls;
    calls, t, next := NextReturns(AfterRefresh(s, gate), between);
    events := [Refresh(gate)] + calls;
    ExecuteConcat(s, [Refresh(gate)], calls);
  }

  lemma RefreshFrame(r: Reader, d: Disk, gate: Lsn)
    requires d.pruned <= |d.starts|
    ensures Refreshed(r, d, gate).gate == gate && Refreshed(r, d, gate).after == r.after
  {
    hide FirstFrom;
  }

  lemma RefreshEnabled(s: System, at: nat)
    requires Invariant(s, at) && s.mayRefresh
    ensures Enabled(s, Refresh(s.disk.durable)) && MayTake(s, s.disk.durable)
  {
    LiveInLog(s.disk);
  }

  /** The reader is never stuck: whenever it owes a transaction, at most two rounds of refresh and
      `Next` make it return one, whatever the writer and the pruner have done before. */
  lemma NeverStuck(s: System, at: nat, i: nat) returns (events: seq<Event>, t: System)
    requires Invariant(s, at) && s.mayRefresh && Owed(s, i)
    ensures ReaderOnly(events, s.disk.durable) && Execute(s, events) == Running(t)
    ensures s.emitted < t.emitted
  {
    hide Invariant, Current, Exhausted, Execute;
    var next;
    events, t, next := RefreshAndCall(s, at);
    if t.emitted == s.emitted {
      OwedIsUnread(t, next, i);
      var again, u, last := RefreshAndCall(t, next);
      ExecuteConcat(s, events, again);
      if u.emitted == t.emitted {
        CurrentOwesNothing(u, last, i);
      }
      events, t := events + again, u;
    }
  }

  // --- What pruning leaves on disk ---

  lemma AppliedGrows(s: System, at: nat)
    requires Invariant(s, at) && FileReadable(s)
    ensures Applied(s) <= Applied(AfterTurn(s))
  {
    hide DiskOk, Tracks, FirstFrom, Exists;
    TurnFrame(s, at);
    var t, outcome := AfterTurn(s), Turn(s.reader, s.disk).1;
    if outcome.Emit? && s.emitted != [] {
      var next := TurnKeeps(s, at);
      ReadsMeaning(t, next);
      assert Follows(t.emitted[|s.emitted| - 1], t.emitted[|s.emitted|]);
    }
  }

  lemma PruneRetains(s: System, at: nat, kept: nat)
    requires Invariant(s, at) && MayPrune(s, kept)
    ensures DeletedBelow(AfterPrune(s, kept).disk, 0, Applied(s))
  {
    hide Tracks, Reads, NamesRise, NoneEmpty;
    CutsOrdered(s.disk, kept, kept);
    forall i | 0 <= i < s.disk.cuts[kept] ensures s.disk.log[i].end < Applied(s) {
      assert i < SegmentEnd(s.disk, kept) - 1 ==> Follows(s.disk.log[i], s.disk.log[SegmentEnd(s.disk, kept) - 1]);
    }
  }

  lemma AppendRetains(s: System, t: Stamp)
    requires DiskOk(s.disk) && DeletedBelow(s.disk, 0, Applied(s))
    ensures DeletedBelow(AfterAppend(s, t).disk, 0, Applied(s))
  {
    LiveInLog(s.disk);
    hide DiskOk, Applied;
  }

  lemma OpenRetains(s: System, start: Lsn)
    requires DiskOk(s.disk) && DeletedBelow(s.disk, 0, Applied(s))
    ensures DeletedBelow(AfterOpen(s, start).disk, 0, Applied(s))
  {
    LiveInLog(s.disk);
    hide DiskOk, Applied;
  }

  lemma RetainedStep(s: System, at: nat, e: Event)
    requires Invariant(s, at) && Enabled(s, e) && DeletedBelow(s.disk, 0, Applied(s))
    ensures DeletedBelow(Step(s, e).disk, 0, Applied(Step(s, e)))
  {
    hide Tracks, Reads, DiskOk, Turn, Refreshed, MayPrune, DeletedBelow;
    match e {
      case Open(start) => {
        OpenRetains(s, start);
      }
      case Append(t) => {
        AppendRetains(s, t);
      }
      case Prune(kept) => {
        PruneRetains(s, at, kept);
      }
      case Next => {
        AppliedGrows(s, at);
        TurnFrame(s, at);
        RetainedHigher(s.disk, Applied(s), Applied(AfterTurn(s)));
      }
      case Sync => {
        RetainedSame(s.disk, AfterSync(s).disk, Applied(s));
      }
      case Rotate => {
        RetainedSame(s.disk, AfterRotate(s).disk, Applied(s));
      }
      case Refresh(_) => {}
    }
  }

  lemma RetainedHigher(d: Disk, applied: Lsn, higher: Lsn)
    requires DeletedBelow(d, 0, applied) && applied <= higher
    ensures DeletedBelow(d, 0, higher)
  {
  }

  lemma RetainedSame(d: Disk, t: Disk, applied: Lsn)
    requires DeletedBelow(d, 0, applied) && t.log == d.log && t.cuts == d.cuts && t.pruned == d.pruned
    ensures DeletedBelow(t, 0, applied)
  {
  }

  /** Pruning deletes only transactions below the applied position, so the range of an active claim,
      which starts there, is always still on disk. */
  lemma {:induction false} UnappliedIsRetained(d: Disk, after: Lsn, gate: Lsn, floor: Lsn, events: seq<Event>)
    requires StartOk(d, gate, floor)
    ensures d.pruned <= |d.starts|
    ensures Execute(Start(d, after, gate, floor), events).Running? ==>
      var s := Execute(Start(d, after, gate, floor), events).system;
      forall i :: 0 <= i < FirstLive(s.disk) <= |s.disk.log| ==> s.disk.log[i].end < Applied(s)
    decreases |events|
  {
    LiveInLog(d);
    if events != [] {
      hide Invariant, StartOk, Enabled, Step, Applied;
      UnappliedIsRetained(d, after, gate, floor, events[..|events| - 1]);
      var at := RunKeeps(d, after, gate, floor, events[..|events| - 1]);
      var before := Execute(Start(d, after, gate, floor), events[..|events| - 1]);
      if before.Running? && Enabled(before.system, events[|events| - 1]) {
        RetainedStep(before.system, at, events[|events| - 1]);
      }
    }
  }

  // --- Refreshing out of turn ---

  /** The branch of Refresh for a reader between segments with entries left keeps the index. */
  predicate KeepsIndex(r: Reader) {
    r.file.None? && r.index < |r.snapshot|
  }

  /** The first listed segment not before the one the reader stands at is at its index. */
  predicate IndexStillRight(s: System)
    requires s.disk.pruned <= |s.disk.starts| && s.reader.index < |s.reader.snapshot|
  {
    FirstFrom(Listing(s.disk), s.reader.snapshot[s.reader.index].start, 0) == s.reader.index
  }

  lemma WrongIndexLosesPlace(s: System, at: nat, gate: Lsn)
    requires DiskOk(s.disk) && Tracks(s, at) && s.disk.pruned <= |s.disk.starts| && KeepsIndex(s.reader)
    requires !IndexStillRight(s)
    ensures !Tracks(AfterRefresh(s, gate), Place(s, at))
  {
    hide DiskOk, FirstFrom;
    LiveInLog(s.disk);
    EntryNamed(s, at);
    FindInListing(s.disk, at);
    var t, place := AfterRefresh(s, gate), Place(s, at);
    if Tracks(t, place) {
      if t.reader.index < |t.reader.snapshot| {
        EntryNamed(t, place);
        OtherName(s.disk, s.disk.pruned + s.reader.index, place);
      } else {
        LastNamed(t, place);
        OtherName(s.disk, |s.disk.starts| - 1, place - 1);
      }
    }
  }

  lemma OtherName(d: Disk, i: nat, j: nat)
    requires DiskOk(d) && i < |d.starts| && j < |d.starts| && i != j
    ensures d.starts[i] != d.starts[j]
  {
    if i < j {
      NamesDiffer(d, i, j);
    } else {
      NamesDiffer(d, j, i);
    }
  }

  lemma LastNamed(s: System, at: nat)
    requires Tracks(s, at) && s.reader.file.None? && s.reader.index == |s.reader.snapshot| && s.reader.snapshot != []
    ensures 0 < at <= |s.disk.starts| && s.reader.snapshot[|s.reader.snapshot| - 1].start == s.disk.starts[at - 1]
  {
  }

  lemma RightIndexKeepsPlace(s: System, at: nat, gate: Lsn)
    requires Invariant(s, at) && s.disk.pruned <= |s.disk.starts| && KeepsIndex(s.reader) && IndexStillRight(s)
    requires s.reader.gate <= gate <= s.disk.durable
    ensures Invariant(AfterRefresh(s, gate), Place(s, at))
  {
    hide DiskOk, Reads, Tracks, FirstFrom;
    LiveInLog(s.disk);
    EntryNamed(s, at);
    FindInListing(s.disk, at);
    ListedTracks(AfterRefresh(s, gate), Place(s, at));
    CutsOrdered(s.disk, at, Place(s, at));
    PendingNeedsFile(s, at);
    SkipKeeps(s, AfterRefresh(s, gate), at, Place(s, at));
  }

  lemma PendingNeedsFile(s: System, at: nat)
    requires Reads(s, at)
    ensures s.reader.pending.Some? ==> s.reader.file.Some?
  {
  }

  /** Exactly when a refresh, in or out of turn, leaves the reader where it should be: unless it stands
      between segments with entries left and its index is wrong in the new listing. */
  lemma RefreshKeepsPlaceIff(s: System, at: nat, gate: Lsn)
    requires Invariant(s, at) && s.reader.gate <= gate <= s.disk.durable
    ensures s.disk.pruned <= |s.disk.starts|
    ensures Invariant(AfterRefresh(s, gate), Place(s, at)) <==> (KeepsIndex(s.reader) ==> IndexStillRight(s))
  {
    hide DiskOk, Reads, Tracks, Refreshed, Place, IndexStillRight;
    LiveInLog(s.disk);
    if !KeepsIndex(s.reader) {
      InTurn(s, at);
      var inTurn := s.(mayRefresh := true);
      var next := RefreshKeeps(inTurn, at, gate);
      SamePlaceInTurn(s, at, gate);
    } else if IndexStillRight(s) {
      RightIndexKeepsPlace(s, at, gate);
    } else {
      WrongIndexLosesPlace(s, at, gate);
    }
  }

  lemma InTurn(s: System, at: nat)
    requires Invariant(s, at) && !KeepsIndex(s.reader)
    ensures Invariant(s.(mayRefresh := true), at)
  {
    hide DiskOk, Delivered, Matches;
  }

  lemma SamePlaceInTurn(s: System, at: nat, gate: Lsn)
    requires s.disk.pruned <= |s.disk.starts|
    ensures AfterRefresh(s.(mayRefresh := true), gate) == AfterRefresh(s, gate)
    ensures Place(s.(mayRefresh := true), at) == Place(s, at)
  {
  }
}
