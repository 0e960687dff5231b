/** The segment writer and the persister carry out the capture protocol: whatever they do to the disk
    is a run of the protocol's events, so the log they write is a gapless piece of the source
    (internal/cdc/persister.go:43-108 over internal/cdc/segment.go:191-525). */
module LogCapture {
  import opened Wrappers
  import opened Model
  import opened Frames
  import opened SegmentRecovery
  import opened SegmentWriter
  import opened Persister
  import opened Capture

  /** The writer's log holds the transactions at the positions of the protocol's log. */
  predicate SameLog(source: seq<Stamp>, s: State, w: WriterState) {
    && WellFormed(source, s)
    && |Everything(w)| == |s.log| && |Durable(w)| == s.durable
    && forall i :: 0 <= i < |s.log| ==> StampOf(Everything(w)[i]) == source[s.log[i]]
  }

  /** A segment that is open but empty was opened for the transaction at `next`, or an earlier one. */
  predicate OpenedFor(source: seq<Stamp>, next: nat, w: WriterState) {
    w.isOpen && w.tail == [] && next < |source| ==> w.start <= source[next].commit
  }

  ghost predicate Refines(source: seq<Stamp>, initial: Lsn, s: State, w: WriterState, watermark: Lsn) {
    && WellFormed(source, s) && Gapless(source, initial, s)
    && SameLog(source, s, w)
    && watermark == s.watermark
    && OpenedFor(source, ResumeIndex(source, initial) + |s.log|, w)
  }

  lemma StartRefines(source: seq<Stamp>, initial: Lsn, crc: Checksum, w: WriterState)
    requires SourceOrdered(source) && StateOk(crc, w) && Everything(w) == [] && !w.isOpen
    ensures Capture.Run(source, initial, []) == Running(Initial())
    ensures Refines(source, initial, Initial(), w, w.durableEnd)
  {
    hide Ranges, StampOf, Log, StartsFit, StartFits, Appendable;
    RunGapless(source, initial, []);
  }

  // --- Where both logs end ---

  lemma DurableIsPrefix(w: WriterState)
    ensures Durable(w) == Everything(w)[..|Durable(w)|]
  {
    hide AllOf;
  }

  lemma LogEnds(source: seq<Stamp>, s: State, crc: Checksum, w: WriterState)
    requires SameLog(source, s, w) && StateOk(crc, w)
    ensures w.last == LastOfFirst(source, s.log, |s.log|)
    ensures w.durableEnd == LastOfFirst(source, s.log, s.durable).end
  {
    hide Ranges, Log, StartsFit, StartFits, Appendable, StampOf, Durable, Everything;
    DurableIsPrefix(w);
  }

  /** A transaction of the channel that is no replay is the next one of the source. */
  lemma NextInPlace(source: seq<Stamp>, initial: Lsn, s: State)
    requires SourceOrdered(source) && Gapless(source, initial, s) && s.channel != []
    requires source[s.channel[0]].end > LastOfFirst(source, s.log, |s.log|).end
    ensures s.channel[0] == ResumeIndex(source, initial) + |s.log|
    ensures Follows(LastOfFirst(source, s.log, |s.log|), source[s.channel[0]])
    ensures PersistNext(source, s) == Some(s.(channel := s.channel[1..], log := s.log + [s.channel[0]]))
  {
    hide SourceOrdered, ResumeIndex, Follows;
    var base, m, next := ResumeIndex(source, initial), |s.log|, s.channel[0];
    if m == 0 {
      PositiveStamp(source, next);
    } else {
      assert s.log[m - 1] == base + m - 1;
      if next < base + m {
        EndsOrdered(source, next, base + m - 1);
      } else {
        EndsOrdered(source, base + m - 1, next);
      }
    }
  }

  // --- Appending ---

  /** What a segment that is open but empty asks of the transaction appended to it. */
  lemma FitsOpenSegment(source: seq<Stamp>, initial: Lsn, s: State, crc: Checksum, w: WriterState, watermark: Lsn)
    requires SourceOrdered(source) && Refines(source, initial, s, w, watermark) && StateOk(crc, w) && s.channel != []
    requires source[s.channel[0]].end > w.last.end
    ensures w.isOpen && w.tail == [] ==> w.start <= source[s.channel[0]].commit
    ensures Follows(w.last, source[s.channel[0]])
  {
    hide StateOk, SourceOrdered, Gapless, Follows, SameLog;
    LogEnds(source, s, crc, w);
    NextInPlace(source, initial, s);
    InChannel(source, s);
  }

  lemma InChannel(source: seq<Stamp>, s: State)
    requires WellFormed(source, s) && s.channel != []
    ensures s.channel[0] < |source|
  {
  }

  /** An appended frame is the protocol's `Persist`. */
  lemma AppendRefines(
    source: seq<Stamp>, initial: Lsn, s: State, crc: Checksum, w: WriterState, watermark: Lsn, payload: Payload)
    requires SourceOrdered(source) && Refines(source, initial, s, w, watermark) && StateOk(crc, w)
    requires s.channel != [] && StampOf(payload) == source[s.channel[0]] && StampOf(payload).end > w.last.end
    ensures
      var after := PersistNext(source, s);
      var appended := Appended(Opened(w, payload), payload);
      && after.Some? && after.value.log == s.log + [s.channel[0]] && after.value.channel == s.channel[1..]
      && StateOk(crc, appended) && Refines(source, initial, after.value, appended, watermark)
  {
    hide StateOk, SourceOrdered, Gapless, Follows, StampOf, AllOf;
    FitsOpenSegment(source, initial, s, crc, w, watermark);
    Accepting(crc, w, payload);
    LogEnds(source, s, crc, w);
    NextInPlace(source, initial, s);
    PersistKeeps(source, initial, s);
    hide Everything, Durable, ResumeIndex;
    assert Opened(w, payload).tail + [payload] != [];
  }

  /** A segment opened for a transaction that was never written. */
  lemma OpenRefines(
    source: seq<Stamp>, initial: Lsn, s: State, crc: Checksum, w: WriterState, watermark: Lsn, payload: Payload)
    requires SourceOrdered(source) && Refines(source, initial, s, w, watermark) && StateOk(crc, w)
    requires s.channel != [] && StampOf(payload) == source[s.channel[0]] && StampOf(payload).end > w.last.end
    ensures StateOk(crc, Opened(w, payload)) && Refines(source, initial, s, Opened(w, payload), watermark)
  {
    hide StateOk, SourceOrdered, Gapless, Follows, StampOf, AllOf;
    FitsOpenSegment(source, initial, s, crc, w, watermark);
    Accepting(crc, w, payload);
    LogEnds(source, s, crc, w);
    NextInPlace(source, initial, s);
    hide Everything, Durable, ResumeIndex;
  }

  // --- Making the log durable ---

  /** Where `Sync` moves the watermark. */
  predicate PublishesAt(source: seq<Stamp>, s: State, end: Lsn) {
    WellFormed(source, s) && end == Max(s.watermark, LastOfFirst(source, s.log, |s.log|).end)
  }

  lemma SyncSteps(source: seq<Stamp>, initial: Lsn, s: State)
    requires Gapless(source, initial, s)
    ensures Enabled(source, s, Fsync) && Enabled(source, s, Sync)
    ensures Step(source, initial, s, Fsync) == Some(s.(durable := |s.log|))
    ensures forall end :: PublishesAt(source, s, end) ==>
      Step(source, initial, s, Sync) == Some(s.(durable := |s.log|, watermark := end))
  {
  }

  /** A writer with the same log, all of it durable: a rotation is `Fsync`, a published sync is `Sync`. */
  lemma DurableRefines(
    source: seq<Stamp>, initial: Lsn, s: State, crc: Checksum, w: WriterState, after: WriterState, watermark: Lsn)
    requires SourceOrdered(source) && Refines(source, initial, s, w, watermark) && StateOk(crc, after)
    requires Everything(after) == Everything(w) == Durable(after)
    requires after.isOpen && after.tail == [] ==> w.isOpen && w.tail == [] && after.start == w.start
    ensures watermark <= after.last.end
    ensures Refines(source, initial, s.(durable := |s.log|), after, watermark)
    ensures Refines(source, initial, s.(durable := |s.log|, watermark := after.last.end), after, after.last.end)
    ensures PublishesAt(source, s, after.last.end)
  {
    hide StateOk, SourceOrdered, Gapless, Everything, Durable, ResumeIndex, StampOf;
    FsyncKeeps(source, initial, s);
    Capture.SyncKeeps(source, initial, s);
    var synced := s.(durable := |s.log|);
    assert SameLog(source, synced, after);
    LogEnds(source, synced, crc, after);
    WatermarkBelowEnd(source, initial, s);
  }

  lemma WatermarkBelowEnd(source: seq<Stamp>, initial: Lsn, s: State)
    requires SourceOrdered(source) && Gapless(source, initial, s)
    ensures s.watermark <= LastOfFirst(source, s.log, |s.log|).end
  {
    hide ResumeIndex, SourceOrdered;
    if s.watermark != 0 {
      var k :| 0 <= k < s.durable && s.watermark == source[s.log[k]].end;
      EndsOrdered(source, s.log[k], s.log[|s.log| - 1]);
    }
  }

  // --- The persister ---

  lemma {:induction false} Extended(source: seq<Stamp>, initial: Lsn, events: seq<Event>, s: State, e: Event)
    requires Capture.Run(source, initial, events) == Running(s) && Enabled(source, s, e)
    requires Step(source, initial, s, e).Some?
    ensures Capture.Run(source, initial, events + [e]) == Running(Step(source, initial, s, e).value)
  {
    hide Enabled, Step;
    assert (events + [e])[..|events|] == events;
  }

  /** The persister's state is one the protocol reaches by `events`. */
  ghost predicate Reached(
    source: seq<Stamp>, initial: Lsn, events: seq<Event>, s: State, w: WriterState, watermark: Lsn)
  {
    Capture.Run(source, initial, events) == Running(s) && Refines(source, initial, s, w, watermark)
  }

  lemma DropReached(
    source: seq<Stamp>, initial: Lsn, events: seq<Event>, s: State, crc: Checksum, w: WriterState, watermark: Lsn)
    requires SourceOrdered(source) && Reached(source, initial, events, s, w, watermark) && StateOk(crc, w)
    requires s.channel != [] && source[s.channel[0]].end <= w.last.end && watermark <= w.durableEnd
    ensures
      var after := s.(channel := s.channel[1..], watermark := w.durableEnd);
      Reached(source, initial, events + [Persist], after, w, w.durableEnd)
  {
    hide StateOk, SourceOrdered, Gapless, Everything, Durable, ResumeIndex, StampOf, Capture.Run;
    LogEnds(source, s, crc, w);
    InChannel(source, s);
    PersistKeeps(source, initial, s);
    Extended(source, initial, events, s, Persist);
  }

  /** Appending adds to the log; syncing or rotating after it makes all of it durable. */
  lemma AfterAppend(crc: Checksum, w: WriterState, payload: Payload, after: WriterState, ok: bool)
    requires StateOk(crc, w) && Follows(w.last, StampOf(payload))
    requires w.isOpen && w.tail == [] ==> w.start <= StampOf(payload).commit
    requires Received(w, after, payload, ok) && (ok || (after != w && after != Opened(w, payload)))
    ensures
      var appended := Appended(Opened(w, payload), payload);
      && Everything(after) == Everything(appended)
      && (after != appended ==> Durable(after) == Everything(after))
      && !(after.isOpen && after.tail == [])
  {
    hide StateOk, StampOf, Follows, Everything, Durable, AllOf;
    Accepting(crc, w, payload);
    SegmentWriter.SyncKeeps(crc, Appended(Opened(w, payload), payload));
  }

  lemma PersistStep(source: seq<Stamp>, initial: Lsn, s: State)
    requires SourceOrdered(source) && Gapless(source, initial, s) && s.channel != []
    ensures Enabled(source, s, Persist) && Step(source, initial, s, Persist) == PersistNext(source, s)
  {
  }

  lemma ReceiveReached(
    source: seq<Stamp>, initial: Lsn, events: seq<Event>, s: State, crc: Checksum, w: WriterState, watermark: Lsn,
    payload: Payload, after: WriterState, watermark': Lsn, ok: bool) returns (events': seq<Event>, s': State)
    requires SourceOrdered(source) && Reached(source, initial, events, s, w, watermark) && StateOk(crc, w)
    requires s.channel != [] && StampOf(payload) == source[s.channel[0]] && StampOf(payload).end > w.last.end
    requires StateOk(crc, after) && Received(w, after, payload, ok)
    requires watermark' == watermark || (ok && watermark' == after.last.end && Durable(after) == Everything(after))
    ensures Reached(source, initial, events', s', after, watermark') && events <= events'
    ensures ok ==> s'.channel == s.channel[1..] && s'.log == s.log + [s.channel[0]]
  {
    hide StateOk, SourceOrdered, Gapless, Everything, Durable, ResumeIndex, StampOf, Capture.Run, OpenedFor, SameLog;
    hide Step, Enabled;
    events', s' := events, s;
    var started, appended := Opened(w, payload), Appended(Opened(w, payload), payload);
    OpenRefines(source, initial, s, crc, w, watermark, payload);
    AppendRefines(source, initial, s, crc, w, watermark, payload);
    if !ok && (after == w || after == started) {
      return;
    }
    PersistStep(source, initial, s);
    Extended(source, initial, events, s, Persist);
    events', s' := events + [Persist], PersistNext(source, s).value;
    FitsOpenSegment(source, initial, s, crc, w, watermark);
    AfterAppend(crc, w, payload, after, ok);
    if after == appended && watermark' == watermark {
      return;
    }
    DurableRefines(source, initial, s', crc, appended, after, watermark);
    SyncSteps(source, initial, s');
    if watermark' == watermark {
      Extended(source, initial, events', s', Fsync);
      events', s' := events' + [Fsync], Step(source, initial, s', Fsync).value;
    } else {
      Extended(source, initial, events', s', Sync);
      events', s' := events' + [Sync], Step(source, initial, s', Sync).value;
    }
  }

  /** One transaction of the channel through the persister. Nothing is asked of the transaction but that
      the channel holds it: an open empty segment never refuses it, and the persister stops only if the
      disk fails or the writer is closed. */
  method ReceiveNext(
    p: TransactionPersister, payload: Payload, written: bool, fsynced: bool,
    ghost source: seq<Stamp>, ghost initial: Lsn, ghost events: seq<Event>, ghost s: State)
    returns (ok: bool, ghost events': seq<Event>, ghost s': State)
    requires p.Valid() && SourceOrdered(source)
    requires Reached(source, initial, events, s, p.writer.State(), p.watermark)
    requires s.channel != [] && StampOf(payload) == source[s.channel[0]]
    modifies p`unsyncedBytes, p`watermark, p.writer
    ensures p.writer.Valid() && (ok ==> p.Valid())
    ensures Reached(source, initial, events', s', p.writer.State(), p.watermark) && events <= events'
    ensures ok ==> s'.channel == s.channel[1..]
    ensures !old(p.writer.closed) && written && fsynced ==> ok
  {
    hide StateOk, SourceOrdered, StampOf, Follows, Capture.Run, Gapless, SameLog, OpenedFor;
    ghost var before, watermark := p.writer.State(), p.watermark;
    if StampOf(payload).end > p.writer.last.end {
      FitsReached(source, initial, events, s, p.writer.crc, before, watermark);
    }
    ok := p.Receive(payload, written, fsynced);
    if StampOf(payload).end <= before.last.end {
      DropReached(source, initial, events, s, p.writer.crc, before, watermark);
      events' := events + [Persist];
      s' := s.(channel := s.channel[1..], watermark := before.durableEnd);
    } else {
      events', s' := ReceiveReached(
        source, initial, events, s, p.writer.crc, before, watermark, payload, p.writer.State(), p.watermark, ok);
    }
  }

  lemma FitsReached(
    source: seq<Stamp>, initial: Lsn, events: seq<Event>, s: State, crc: Checksum, w: WriterState, watermark: Lsn)
    requires SourceOrdered(source) && Reached(source, initial, events, s, w, watermark) && StateOk(crc, w)
    requires s.channel != [] && source[s.channel[0]].end > w.last.end
    ensures w.isOpen && w.tail == [] ==> w.start <= source[s.channel[0]].commit
    ensures Follows(w.last, source[s.channel[0]])
  {
    hide StateOk, SourceOrdered, Gapless, SameLog, OpenedFor, Follows, Capture.Run;
    FitsOpenSegment(source, initial, s, crc, w, watermark);
  }

  /** The timer's sync is the protocol's `Sync`, or nothing. */
  method SyncNext(
    p: TransactionPersister, fsynced: bool,
    ghost source: seq<Stamp>, ghost initial: Lsn, ghost events: seq<Event>, ghost s: State)
    returns (ok: bool, ghost events': seq<Event>, ghost s': State)
    requires p.Valid() && SourceOrdered(source)
    requires Reached(source, initial, events, s, p.writer.State(), p.watermark)
    modifies p`unsyncedBytes, p`watermark, p.writer
    ensures p.Valid() && Reached(source, initial, events', s', p.writer.State(), p.watermark) && events <= events'
    ensures fsynced && !old(p.writer.closed) ==> ok
  {
    hide StateOk, SourceOrdered, StampOf, Capture.Run, Gapless, SameLog, Everything, Durable;
    ghost var before, pending := p.writer.State(), p.unsyncedBytes > 0;
    SegmentWriter.SyncKeeps(p.writer.crc, before);
    ok := p.SyncPending(fsynced);
    events', s' := events, s;
    if ok && pending {
      DurableRefines(source, initial, s, p.writer.crc, before, p.writer.State(), s.watermark);
      SyncSteps(source, initial, s);
      Extended(source, initial, events, s, Sync);
      events', s' := events + [Sync], Step(source, initial, s, Sync).value;
    }
  }

  // --- Crashes ---

  /** A crash that cuts the tail short anywhere behind its durable frames, then recovery and a new writer
      and persister: the protocol's `Restart`. */
  lemma CrashReached(
    source: seq<Stamp>, initial: Lsn, events: seq<Event>, s: State, crc: Checksum, w: WriterState, watermark: Lsn,
    n: nat) returns (recovery: Recovery, kept: nat, s': State)
    requires SourceOrdered(source) && Reached(source, initial, events, s, w, watermark) && StateOk(crc, w) && w.isOpen
    requires w.synced <= |w.tail| && |Log(crc, w.tail[..w.synced])| <= n <= |Log(crc, w.tail)|
    ensures RecoverInOrder(crc, Crashed(crc, w.segments, w.start, Log(crc, w.tail)[..n])) == Some(recovery)
    ensures w.synced <= kept <= |w.tail| && RecoveryOf(crc, recovery, w.start, w.segments, w.tail[..kept])
    ensures
      var after := Reopened(w.start, recovery, w.segments, w.tail[..kept]);
      Reached(source, initial, events + [Restart(|AllOf(w.segments)| + kept)], s', after, after.durableEnd)
  {
    hide Scan, Log, SourceOrdered, Reached, Ranges, Growing, StartsFit, RecoverInOrder, AllOf, Stamps, Crashed;
    kept := TornCrashKeepsPrefix(crc, w.segments, w.start, w.tail, w.synced, n);
    recovery := RecoverInOrder(crc, Crashed(crc, w.segments, w.start, Log(crc, w.tail)[..n])).value;
    TornRecovery(crc, w, recovery, kept);
    hide StateOk, RecoveryOf;
    RestartReached(source, initial, events, s, crc, w, watermark, recovery, kept);
    s' := Step(source, initial, s, Restart(|AllOf(w.segments)| + kept)).value;
  }

  /** A crash between two segments: nothing is lost. */
  lemma CleanCrashReached(
    source: seq<Stamp>, initial: Lsn, events: seq<Event>, s: State, crc: Checksum, w: WriterState, watermark: Lsn)
    returns (recovery: Recovery, s': State)
    requires SourceOrdered(source) && Reached(source, initial, events, s, w, watermark) && StateOk(crc, w) && !w.isOpen
    ensures RecoverInOrder(crc, FilesOf(crc, w.segments)) == Some(recovery)
    ensures RecoveryOf(crc, recovery, w.start, w.segments, [])
    ensures
      var after := Reopened(w.start, recovery, w.segments, []);
      Reached(source, initial, events + [Restart(|s.log|)], s', after, after.durableEnd)
  {
    hide Log, Scan, SourceOrdered, Reached, Ranges, Growing, StartsFit, RecoverInOrder, RecoveryOf, AllOf, Stamps, FilesOf;
    assert w.tail[..0] == [] == w.tail && AllOf(w.segments) + [] == AllOf(w.segments);
    CleanDirectoryKeepsAll(crc, w.segments, w.start);
    recovery := RecoverInOrder(crc, FilesOf(crc, w.segments)).value;
    hide StateOk;
    RestartReached(source, initial, events, s, crc, w, watermark, recovery, 0);
    SameLength(source, initial, events, s, w, watermark);
    s' := Step(source, initial, s, Restart(|AllOf(w.segments)| + 0)).value;
  }

  lemma SameLength(source: seq<Stamp>, initial: Lsn, events: seq<Event>, s: State, w: WriterState, watermark: Lsn)
    requires Reached(source, initial, events, s, w, watermark) && w.tail == []
    ensures |s.log| == |AllOf(w.segments)|
  {
    hide Capture.Run, Gapless, AllOf;
  }

  lemma TornRecovery(crc: Checksum, w: WriterState, recovery: Recovery, kept: nat)
    requires StateOk(crc, w) && w.isOpen && kept <= |w.tail|
    requires recovery.tail == Some(Log(crc, w.tail[..kept]))
    requires recovery.last == LastOfLog(AllOf(w.segments) + w.tail[..kept])
    requires Some(recovery.finalized) == Ranges(crc, FilesOf(crc, w.segments))
    ensures RecoveryOf(crc, recovery, w.start, w.segments, w.tail[..kept])
  {
    hide Log, Ranges, StartsFit, AllOf, StampOf, Appendable;
    KeptAppendable(w, kept);
  }

  lemma KeptAppendable(w: WriterState, kept: nat)
    requires Appendable(ORIGIN, Everything(w)) && kept <= |w.tail|
    ensures Appendable(ORIGIN, AllOf(w.segments) + w.tail[..kept])
  {
    hide AllOf, Appendable;
    assert (AllOf(w.segments) + w.tail)[..|AllOf(w.segments)| + kept] == AllOf(w.segments) + w.tail[..kept];
    AppendablePrefix(ORIGIN, Everything(w), |AllOf(w.segments)| + kept);
  }

  lemma RestartReached(
    source: seq<Stamp>, initial: Lsn, events: seq<Event>, s: State, crc: Checksum, w: WriterState, watermark: Lsn,
    recovery: Recovery, kept: nat)
    requires SourceOrdered(source) && Reached(source, initial, events, s, w, watermark) && StateOk(crc, w)
    requires w.synced <= kept <= |w.tail| && RecoveryOf(crc, recovery, w.start, w.segments, w.tail[..kept])
    requires recovery.tail.Some? ==> w.isOpen
    ensures
      var after := Reopened(w.start, recovery, w.segments, w.tail[..kept]);
      var e := Restart(|AllOf(w.segments)| + kept);
      Enabled(source, s, e) && Step(source, initial, s, e).Some?
      && Reached(source, initial, events + [e], Step(source, initial, s, e).value, after, after.durableEnd)
  {
    hide Capture.Run, SourceOrdered, StateOk, StampOf, Gapless, ResumeIndex, AllOf, RecoveryOf, SameLog, Durable, Everything;
    var after := Reopened(w.start, recovery, w.segments, w.tail[..kept]);
    var count := |AllOf(w.segments)| + kept;
    KeptLog(source, s, crc, w, after, kept);
    ReopenKeeps(crc, w.start, recovery, w.segments, w.tail[..kept]);
    RestartKeeps(source, initial, s, count);
    var s' := Step(source, initial, s, Restart(count)).value;
    LogEnds(source, s', crc, after);
    if after.isOpen && after.tail == [] {
      EmptiedTail(source, initial, s, crc, w, watermark, kept);
    }
    Extended(source, initial, events, s, Restart(count));
  }

  lemma KeptLog(source: seq<Stamp>, s: State, crc: Checksum, w: WriterState, after: WriterState, kept: nat)
    requires SameLog(source, s, w) && StateOk(crc, w) && w.synced <= kept <= |w.tail|
    requires after.segments == w.segments && after.tail == w.tail[..kept] && after.synced == kept
    ensures
      var count := |AllOf(w.segments)| + kept;
      && s.durable <= count <= |s.log|
      && SameLog(source, State(s.log[..count], count, LastOfFirst(source, s.log, count).end, [], None, s.confirmed), after)
  {
    hide StateOk, StampOf, AllOf, LastOfFirst;
    assert |Durable(w)| <= |AllOf(w.segments)| + w.synced;
    assert after.tail[..kept] == after.tail;
    assert Everything(after) == Everything(w)[..|AllOf(w.segments)| + kept];
  }

  /** A crash that empties the tail leaves it named for the transaction that comes next again. */
  lemma EmptiedTail(
    source: seq<Stamp>, initial: Lsn, s: State, crc: Checksum, w: WriterState, watermark: Lsn, kept: nat)
    requires SourceOrdered(source) && Refines(source, initial, s, w, watermark) && StateOk(crc, w) && kept <= |w.tail|
    requires w.isOpen && kept == 0
    ensures
      var next := ResumeIndex(source, initial) + |AllOf(w.segments)|;
      next < |source| ==> w.start <= source[next].commit
  {
    hide SourceOrdered, StampOf, Ranges, StartsFit, Log, Appendable, ResumeIndex, AllOf;
    if w.tail != [] {
      var i := |AllOf(w.segments)|;
      assert Everything(w)[i] == w.tail[0];
      assert s.log[i] == ResumeIndex(source, initial) + i;
    }
  }

  // --- What the disk holds ---

  /** Whatever the persister, its writer and crashes have done: the appended log is the source from where
      capture was asked to start, without gap or duplicate, and what is published is durable. */
  lemma CapturedLog(
    source: seq<Stamp>, initial: Lsn, events: seq<Event>, s: State, crc: Checksum, w: WriterState, watermark: Lsn)
    requires SourceOrdered(source) && Reached(source, initial, events, s, w, watermark) && StateOk(crc, w)
    ensures
      var base, n := ResumeIndex(source, initial), |Everything(w)|;
      && base + n <= |source| && Stamps(Everything(w)) == source[base..base + n]
      && watermark <= w.durableEnd
      && (|Durable(w)| > 0 ==> w.durableEnd == source[base + |Durable(w)| - 1].end)
  {
    hide SourceOrdered, StampOf, Capture.Run, ResumeIndex, StateOk, Everything, Durable, Gapless, LastOfFirst;
    LogEnds(source, s, crc, w);
    GaplessLog(source, initial, events);
    SourceStamps(source, s, w, ResumeIndex(source, initial));
    LastDurable(source, s);
  }

  lemma LastDurable(source: seq<Stamp>, s: State)
    requires WellFormed(source, s)
    ensures s.durable > 0 ==> LastOfFirst(source, s.log, s.durable) == source[s.log[s.durable - 1]]
    ensures s.durable == 0 ==> LastOfFirst(source, s.log, s.durable).end == 0
  {
  }

  lemma SourceStamps(source: seq<Stamp>, s: State, w: WriterState, base: nat)
    requires SameLog(source, s, w) && base + |s.log| <= |source| && Contiguous(s.log, base)
    ensures Stamps(Everything(w)) == source[base..base + |Everything(w)|]
  {
    hide StampOf, Everything;
  }
}
