/** From the replication stream to the durable log: sessions resume at the durable watermark, leave
    transactions behind in the channel when they fail, and the persister drops what it has already
    appended (internal/cdc/receiver.go:18-43, 92-330, internal/cdc/persister.go:43-108). Over every
    run the appended log is a contiguous, duplicate-free piece of the source stream. */
module Capture {
  import opened Wrappers
  import opened Model
  import opened Frames

  /** The source stream: every transaction ends no earlier than it commits and no later than the next
      one commits. A cutover message is a transaction that ends where it commits. */
  predicate SourceOrdered(source: seq<Stamp>) {
    && (forall i :: 0 <= i < |source| ==> 0 < source[i].commit <= source[i].end)
    && (forall i, j :: 0 <= i < j < |source| ==>
          source[i].commit < source[j].commit && source[i].end < source[j].end && source[i].end <= source[j].commit)
  }

  /** Where the server starts when asked for `position`: it skips transactions committed before. */
  function ResumeIndex(source: seq<Stamp>, position: Lsn): (n: nat)
    ensures n <= |source|
  {
    if source == [] then 0
    else if source[|source| - 1].commit < position then |source|
    else ResumeIndex(source[..|source| - 1], position)
  }

  /** Resuming at the end of a transaction starts with the next one, or repeats it if it ends where it
      commits. */
  lemma {:induction false} ResumeAfterEnd(source: seq<Stamp>, n: nat)
    requires SourceOrdered(source) && n < |source|
    ensures n <= ResumeIndex(source, source[n].end) <= n + 1
    decreases |source|
  {
    if n < |source| - 1 {
      ResumeAfterEnd(source[..|source| - 1], n);
    }
  }

  /** `log` and `channel` hold source positions. The first `durable` entries of the log are fsynced;
      the channel holds deliveries of the current session and of earlier ones. `session` is the next
      position the current session delivers; `confirmed` is the last feedback the server has seen. */
  datatype State = State(
    log: seq<nat>, durable: nat, watermark: Lsn, channel: seq<nat>, session: Option<nat>, confirmed: Lsn)

  datatype Event =
    | Connect
    | Deliver
    | Disconnect
    | Feedback
    | Persist
    | Fsync
    | Sync
    | Restart(kept: nat)

  predicate InSource(source: seq<Stamp>, indexes: seq<nat>) {
    forall i :: 0 <= i < |indexes| ==> indexes[i] < |source|
  }

  predicate WellFormed(source: seq<Stamp>, s: State) {
    InSource(source, s.log) && InSource(source, s.channel) && s.durable <= |s.log|
  }

  /** The stamp of the last of the first `n` appended transactions. */
  function LastOfFirst(source: seq<Stamp>, log: seq<nat>, n: nat): Stamp
    requires InSource(source, log) && n <= |log|
  {
    if n == 0 then Stamp(0, 0) else source[log[n - 1]]
  }

  function Max(a: Lsn, b: Lsn): Lsn {
    if a < b then b else a
  }

  /** receiverResumeLSN. */
  function ResumeLsn(initial: Lsn, watermark: Lsn): Lsn {
    if watermark != 0 then watermark else initial
  }

  /** What the persister does with the next transaction of the channel. One that ends inside the log
      is dropped; appending one that does not follow the log is refused and stops the persister. */
  function PersistNext(source: seq<Stamp>, s: State): Option<State>
    requires WellFormed(source, s) && s.channel != []
  {
    var next, last := source[s.channel[0]], LastOfFirst(source, s.log, |s.log|);
    if next.end <= last.end then
      Some(s.(channel := s.channel[1..], watermark := Max(s.watermark, LastOfFirst(source, s.log, s.durable).end)))
    else if !Follows(last, next) then None
    else Some(s.(channel := s.channel[1..], log := s.log + [s.channel[0]]))
  }

  predicate Enabled(source: seq<Stamp>, s: State, e: Event) {
    WellFormed(source, s) &&
    match e
    case Connect => s.session.None?
    case Deliver => s.session.Some? && s.session.value < |source|
    case Disconnect => s.session.Some?
    case Feedback => s.session.Some?
    case Persist => s.channel != []
    case Fsync => true
    case Sync => true
    case Restart(kept) => s.durable <= kept <= |s.log|
  }

  /** `Fsync` makes the log durable without publishing it, as a rotation does; `Sync` publishes it too.
      `Restart` is a crash of the process: recovery keeps the durable log and possibly more, and a new
      persister publishes what it found. `None` is a persister that stops with an error. */
  function Step(source: seq<Stamp>, initial: Lsn, s: State, e: Event): Option<State>
    requires Enabled(source, s, e)
  {
    match e
    case Connect =>
      Some(s.(session := Some(ResumeIndex(source, Max(ResumeLsn(initial, s.watermark), s.confirmed)))))
    case Deliver => Some(s.(channel := s.channel + [s.session.value], session := Some(s.session.value + 1)))
    case Disconnect => Some(s.(session := None))
    case Feedback => Some(s.(confirmed := Max(s.confirmed, s.watermark)))
    case Persist => PersistNext(source, s)
    case Fsync => Some(s.(durable := |s.log|))
    case Sync =>
      Some(s.(durable := |s.log|, watermark := Max(s.watermark, LastOfFirst(source, s.log, |s.log|).end)))
    case Restart(kept) =>
      Some(State(s.log[..kept], kept, LastOfFirst(source, s.log, kept).end, [], None, s.confirmed))
  }

  function Initial(): State {
    State([], 0, 0, [], None, 0)
  }

  // --- The invariant ---

  /** Reading the channel never skips a position: each entry is already in the log or exactly the
      next one. `n` is the position the log has reached. */
  predicate NoGap(base: nat, n: nat, channel: seq<nat>)
    decreases |channel|
  {
    channel == [] || (base <= channel[0] <= n && NoGap(base, Advanced(n, channel[0]), channel[1..]))
  }

  function Advanced(n: nat, next: nat): nat {
    if next == n then n + 1 else n
  }

  /** The position reached once the channel has been read. */
  function Reach(n: nat, channel: seq<nat>): nat
    decreases |channel|
  {
    if channel == [] then n else Reach(Advanced(n, channel[0]), channel[1..])
  }

  /** The log is the source from `base` on. */
  predicate Contiguous(log: seq<nat>, base: nat) {
    forall i :: 0 <= i < |log| ==> log[i] == base + i
  }

  predicate Gapless(source: seq<Stamp>, initial: Lsn, s: State) {
    var base := ResumeIndex(source, initial);
    && WellFormed(source, s)
    && Contiguous(s.log, base) && base + |s.log| <= |source|
    && PublishedAt(source, s)
    && s.confirmed <= s.watermark
    && NoGap(base, base + |s.log|, s.channel)
    && (s.session.Some? ==> base <= s.session.value <= Reach(base + |s.log|, s.channel))
  }

  /** The watermark is zero or the end of a durable transaction. */
  predicate PublishedAt(source: seq<Stamp>, s: State)
    requires WellFormed(source, s)
  {
    s.watermark == 0 || exists k {:trigger s.log[k]} :: 0 <= k < s.durable && s.watermark == source[s.log[k]].end
  }

  lemma {:induction false} ReachGrows(n: nat, channel: seq<nat>)
    ensures n <= Reach(n, channel)
    decreases |channel|
  {
    if channel != [] {
      ReachGrows(Advanced(n, channel[0]), channel[1..]);
    }
  }

  /** Delivering a position no further than the channel reaches keeps it gapless. */
  lemma {:induction false} DeliverKeeps(base: nat, n: nat, channel: seq<nat>, next: nat)
    requires NoGap(base, n, channel) && base <= next <= Reach(n, channel)
    ensures NoGap(base, n, channel + [next]) && next + 1 <= Reach(n, channel + [next])
    decreases |channel|
  {
    var more := channel + [next];
    if channel == [] {
      assert more[1..] == [];
    } else {
      assert more[1..] == channel[1..] + [next];
      DeliverKeeps(base, Advanced(n, channel[0]), channel[1..], next);
    }
  }

  lemma EndsOrdered(source: seq<Stamp>, i: nat, j: nat)
    requires SourceOrdered(source) && i <= j < |source|
    ensures source[i].end <= source[j].end && (i < j ==> Follows(source[i], source[j]))
  {
  }

  lemma ConnectKeeps(source: seq<Stamp>, initial: Lsn, s: State)
    requires SourceOrdered(source) && Gapless(source, initial, s) && s.session.None?
    ensures Gapless(source, initial, Step(source, initial, s, Connect).value)
  {
    hide SourceOrdered, ResumeIndex, NoGap, Reach;
    var base := ResumeIndex(source, initial);
    ReachGrows(base + |s.log|, s.channel);
    ResumePlace(source, initial, s);
    SamePublished(source, s, Step(source, initial, s, Connect).value);
    hide PublishedAt;
  }

  /** A new session starts no later than the log continues. */
  lemma ResumePlace(source: seq<Stamp>, initial: Lsn, s: State)
    requires SourceOrdered(source) && Gapless(source, initial, s)
    ensures
      var base := ResumeIndex(source, initial);
      base <= ResumeIndex(source, Max(ResumeLsn(initial, s.watermark), s.confirmed)) <= base + |s.log|
  {
    hide SourceOrdered, ResumeIndex, NoGap, Reach;
    if s.watermark != 0 {
      var k :| 0 <= k < s.durable && s.watermark == source[s.log[k]].end;
      ResumeAfterEnd(source, ResumeIndex(source, initial) + k);
    }
  }

  /** The persister never refuses a transaction, and what it appends continues the log. */
  lemma PersistKeeps(source: seq<Stamp>, initial: Lsn, s: State)
    requires SourceOrdered(source) && Gapless(source, initial, s) && s.channel != []
    ensures PersistNext(source, s).Some? && Gapless(source, initial, PersistNext(source, s).value)
    ensures
      var next := PersistNext(source, s).value;
      next.log == s.log || next.log == s.log + [ResumeIndex(source, initial) + |s.log|]
  {
    hide SourceOrdered, ResumeIndex, Follows;
    var base, m, next := ResumeIndex(source, initial), |s.log|, s.channel[0];
    if next == base + m {
      if m > 0 {
        EndsOrdered(source, base + m - 1, next);
      } else {
        PositiveStamp(source, next);
      }
      var after := PersistNext(source, s).value;
      assert after.log == s.log + [next];
      if s.watermark != 0 {
        var k :| 0 <= k < s.durable && s.watermark == source[s.log[k]].end;
        assert after.log[k] == s.log[k];
      }
    } else {
      EndsOrdered(source, next, base + m - 1);
      assert s.log[m - 1] == base + m - 1;
      DropKeeps(source, initial, s);
    }
  }

  lemma PositiveStamp(source: seq<Stamp>, i: nat)
    requires SourceOrdered(source) && i < |source|
    ensures Follows(Stamp(0, 0), source[i])
  {
  }

  lemma DropKeeps(source: seq<Stamp>, initial: Lsn, s: State)
    requires Gapless(source, initial, s) && s.channel != [] && s.channel[0] != ResumeIndex(source, initial) + |s.log|
    ensures
      var end := LastOfFirst(source, s.log, s.durable).end;
      Gapless(source, initial, s.(channel := s.channel[1..], watermark := Max(s.watermark, end)))
  {
    hide ResumeIndex;
    PublishKeeps(source, s, s.durable);
  }

  /** Publishing the end of a durable transaction keeps the watermark at such an end. */
  lemma PublishKeeps(source: seq<Stamp>, s: State, n: nat)
    requires WellFormed(source, s) && PublishedAt(source, s) && s.durable <= n <= |s.log|
    ensures PublishedAt(source, s.(durable := n, watermark := Max(s.watermark, LastOfFirst(source, s.log, n).end)))
  {
    var after := s.(durable := n, watermark := Max(s.watermark, LastOfFirst(source, s.log, n).end));
    if after.watermark == s.watermark {
      if s.watermark != 0 {
        var k :| 0 <= k < s.durable && s.watermark == source[s.log[k]].end;
        assert 0 <= k < after.durable && after.watermark == source[after.log[k]].end;
      }
    } else {
      assert after.watermark == source[after.log[n - 1]].end;
    }
  }

  lemma SyncKeeps(source: seq<Stamp>, initial: Lsn, s: State)
    requires Gapless(source, initial, s)
    ensures Gapless(source, initial, Step(source, initial, s, Sync).value)
  {
    hide ResumeIndex, PublishedAt;
    PublishKeeps(source, s, |s.log|);
  }

  lemma FsyncKeeps(source: seq<Stamp>, initial: Lsn, s: State)
    requires Gapless(source, initial, s)
    ensures Gapless(source, initial, Step(source, initial, s, Fsync).value)
  {
    hide ResumeIndex, NoGap;
    if s.watermark != 0 {
      var k :| 0 <= k < s.durable && s.watermark == source[s.log[k]].end;
      assert k < |s.log|;
    }
  }

  /** A crash may lose appended transactions but never a durable one, so nothing below the watermark. */
  lemma RestartKeeps(source: seq<Stamp>, initial: Lsn, s: State, kept: nat)
    requires SourceOrdered(source) && Gapless(source, initial, s) && s.durable <= kept <= |s.log|
    ensures Gapless(source, initial, Step(source, initial, s, Restart(kept)).value)
    ensures s.watermark <= Step(source, initial, s, Restart(kept)).value.watermark
  {
    hide ResumeIndex, SourceOrdered;
    var after := Step(source, initial, s, Restart(kept)).value;
    if kept > 0 {
      assert after.log[kept - 1] == s.log[kept - 1];
    }
    if s.watermark != 0 {
      var k :| 0 <= k < s.durable && s.watermark == source[s.log[k]].end;
      EndsOrdered(source, s.log[k], s.log[kept - 1]);
    }
  }

  lemma SamePublished(source: seq<Stamp>, s: State, t: State)
    requires WellFormed(source, s) && WellFormed(source, t)
    requires PublishedAt(source, s) && s.log == t.log && s.durable == t.durable && s.watermark == t.watermark
    ensures PublishedAt(source, t)
  {
  }

  lemma StepKeeps(source: seq<Stamp>, initial: Lsn, s: State, e: Event)
    requires SourceOrdered(source) && Gapless(source, initial, s) && Enabled(source, s, e)
    ensures Step(source, initial, s, e).Some? && Gapless(source, initial, Step(source, initial, s, e).value)
    ensures s.watermark <= Step(source, initial, s, e).value.watermark
  {
    hide ResumeIndex, SourceOrdered, PublishedAt, NoGap;
    match e
    case Connect => ConnectKeeps(source, initial, s);
    case Deliver =>
      DeliverKeeps(ResumeIndex(source, initial), ResumeIndex(source, initial) + |s.log|, s.channel, s.session.value);
      SamePublished(source, s, Step(source, initial, s, e).value);
    case Disconnect => SamePublished(source, s, Step(source, initial, s, e).value);
    case Feedback => SamePublished(source, s, Step(source, initial, s, e).value);
    case Persist => PersistKeeps(source, initial, s);
    case Fsync => FsyncKeeps(source, initial, s);
    case Sync => SyncKeeps(source, initial, s);
    case Restart(kept) => RestartKeeps(source, initial, s, kept);
  }

  /** A run: every event is enabled where it happens. */
  datatype Outcome = Running(state: State) | Stopped | Impossible

  function Run(source: seq<Stamp>, initial: Lsn, events: seq<Event>): Outcome {
    if events == [] then Running(Initial())
    else
      match Run(source, initial, events[..|events| - 1])
      case Running(s) =>
        var e := events[|events| - 1];
        if !Enabled(source, s, e) then Impossible
        else if Step(source, initial, s, e).None? then Stopped
        else Running(Step(source, initial, s, e).value)
      case other => other
  }

  lemma {:induction false} RunGapless(source: seq<Stamp>, initial: Lsn, events: seq<Event>)
    requires SourceOrdered(source)
    ensures Run(source, initial, events) != Stopped
    ensures Run(source, initial, events).Running? ==> Gapless(source, initial, Run(source, initial, events).state)
    decreases |events|
  {
    if events != [] {
      hide Enabled, Step, SourceOrdered, Gapless;
      RunGapless(source, initial, events[..|events| - 1]);
      var before := Run(source, initial, events[..|events| - 1]);
      if before.Running? && Enabled(source, before.state, events[|events| - 1]) {
        StepKeeps(source, initial, before.state, events[|events| - 1]);
      }
    }
  }

  /** The appended log is always a contiguous piece of the source without gaps or duplicates, it
      starts where the stream was asked to start, the published watermark never exceeds what is
      durable, and the server never confirms past the watermark. */
  lemma GaplessLog(source: seq<Stamp>, initial: Lsn, events: seq<Event>)
    requires SourceOrdered(source) && Run(source, initial, events).Running?
    ensures
      var s, base := Run(source, initial, events).state, ResumeIndex(source, initial);
      && s.durable <= |s.log| && base + |s.log| <= |source|
      && (forall i :: 0 <= i < |s.log| ==> s.log[i] == base + i)
      && s.confirmed <= s.watermark
      && s.watermark <= (if s.durable == 0 then 0 else source[s.log[s.durable - 1]].end)
      && (s.durable > 0 ==> source[s.log[s.durable - 1]].end <= source[s.log[|s.log| - 1]].end)
  {
    hide Run, ResumeIndex, NoGap;
    RunGapless(source, initial, events);
    var s := Run(source, initial, events).state;
    if s.durable > 0 {
      hide SourceOrdered;
      EndsOrdered(source, s.log[s.durable - 1], s.log[|s.log| - 1]);
      if s.watermark != 0 {
        var k :| 0 <= k < s.durable && s.watermark == source[s.log[k]].end;
        EndsOrdered(source, s.log[k], s.log[s.durable - 1]);
      }
    }
  }

  /** The watermark of a run never moves back, not even across crashes. */
  lemma {:induction false} WatermarkMonotone(source: seq<Stamp>, initial: Lsn, events: seq<Event>, i: nat)
    requires SourceOrdered(source) && i <= |events| && Run(source, initial, events).Running?
    ensures Run(source, initial, events[..i]).Running?
    ensures Run(source, initial, events[..i]).state.watermark <= Run(source, initial, events).state.watermark
    decreases |events|
  {
    if i == |events| {
      assert events[..i] == events;
    } else {
      hide Enabled, Step, SourceOrdered, Gapless;
      var before := events[..|events| - 1];
      WatermarkMonotone(source, initial, before, i);
      assert before[..i] == events[..i];
      RunGapless(source, initial, before);
      StepKeeps(source, initial, Run(source, initial, before).state, events[|events| - 1]);
    }
  }
}
