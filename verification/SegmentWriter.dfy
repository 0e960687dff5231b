/** The append-only segment writer: frames go to one partial tail, `Sync` makes them durable, and
    rotation turns the tail into a finalized segment (Writer, internal/cdc/segment.go:39-525).
    After a crash at any point, recovery finds every durable transaction, in order. */
module SegmentWriter {
  import opened Wrappers
  import opened Model
  import opened Frames
  import opened SegmentRecovery

  datatype Segment = Segment(start: Lsn, payloads: seq<Payload>)

  function AllOf(segments: seq<Segment>): seq<Payload> {
    if segments == [] then [] else AllOf(segments[..|segments| - 1]) + segments[|segments| - 1].payloads
  }

  function FilesOf(crc: Checksum, segments: seq<Segment>): (files: seq<SegmentFile>)
    ensures |files| == |segments| && forall i :: 0 <= i < |files| ==> !files[i].partial
  {
    if segments == [] then []
    else
      var last := segments[|segments| - 1];
      FilesOf(crc, segments[..|segments| - 1]) + [SegmentFile(last.start, false, Log(crc, last.payloads))]
  }

  function LastOfLog(payloads: seq<Payload>): Stamp {
    LastStamp(ORIGIN, Stamps(payloads))
  }

  lemma StampsConcat(s: seq<Payload>, t: seq<Payload>)
    ensures Stamps(s + t) == Stamps(s) + Stamps(t)
  {
  }

  lemma GrowingSuffix(previous: Stamp, s: seq<Stamp>, t: seq<Stamp>)
    requires Growing(previous, s + t)
    ensures Growing(previous, s) && Growing(LastStamp(previous, s), t)
  {
    hide Follows;
    forall i: nat | i < |s| ensures FollowsAt(previous, s, i) {
      assert FollowsAt(previous, s + t, i);
    }
    forall i: nat | i < |t| ensures FollowsAt(LastStamp(previous, s), t, i) {
      assert FollowsAt(previous, s + t, |s| + i);
    }
  }

  /** An appendable sequence splits into an appendable front and an appendable continuation. */
  lemma AppendableSplit(s: seq<Payload>, t: seq<Payload>)
    ensures Appendable(ORIGIN, s + t) <==> Appendable(ORIGIN, s) && Appendable(LastOfLog(s), t)
  {
    hide StampOf, Growing;
    StampsConcat(s, t);
    if Appendable(ORIGIN, s + t) {
      GrowingSuffix(ORIGIN, Stamps(s), Stamps(t));
    } else if Appendable(ORIGIN, s) && Appendable(LastOfLog(s), t) {
      GrowingConcat(ORIGIN, Stamps(s), Stamps(t));
    }
  }

  lemma LastOfLogConcat(s: seq<Payload>, t: seq<Payload>)
    ensures LastOfLog(s + t) == LastStamp(LastOfLog(s), Stamps(t))
  {
    StampsConcat(s, t);
  }

  lemma {:induction false} GrowingEnds(previous: Stamp, stamps: seq<Stamp>)
    requires Growing(previous, stamps)
    ensures previous.end <= LastStamp(previous, stamps).end
    ensures stamps != [] ==> previous.end < LastStamp(previous, stamps).end && previous.commit < LastStamp(previous, stamps).commit
    decreases |stamps|
  {
    if stamps != [] {
      var init := stamps[..|stamps| - 1];
      assert stamps == init + stamps[|stamps| - 1..];
      GrowingSuffix(previous, init, stamps[|stamps| - 1..]);
      GrowingEnds(previous, init);
      assert FollowsAt(previous, stamps, |stamps| - 1);
    }
  }

  /** The finalized files of a log validate, and validation reads back exactly the log. */
  lemma {:induction false} FilesValidate(crc: Checksum, segments: seq<Segment>)
    requires Appendable(ORIGIN, AllOf(segments))
    ensures Ranges(crc, FilesOf(crc, segments)).Some?
    ensures LastOf(Ranges(crc, FilesOf(crc, segments)).value) == LastOfLog(AllOf(segments))
    ensures FinalizedStamps(crc, FilesOf(crc, segments)) == Stamps(AllOf(segments))
    decreases |segments|
  {
    hide Scan, Appendable, Stamps, Log;
    if segments == [] {
      assert Stamps([]) == [];
    } else {
      var init, last := segments[..|segments| - 1], segments[|segments| - 1];
      AppendableSplit(AllOf(init), last.payloads);
      FilesValidate(crc, init);
      LogReadBack(crc, last.payloads, LastOfLog(AllOf(init)));
      StampsConcat(AllOf(init), last.payloads);
      LastOfLogConcat(AllOf(init), last.payloads);
      assert FilesOf(crc, segments)[..|segments| - 1] == FilesOf(crc, init);
    }
  }

  /** A segment is named after a commit LSN beyond everything before it. */
  predicate StartFits(before: seq<Payload>, start: Lsn, payloads: seq<Payload>) {
    LastOfLog(before).commit < start && (payloads != [] ==> start <= StampOf(payloads[0]).commit)
  }

  predicate StartsFit(segments: seq<Segment>) {
    segments == [] ||
    var init, last := segments[..|segments| - 1], segments[|segments| - 1];
    StartsFit(init) && last.payloads != [] && StartFits(AllOf(init), last.start, last.payloads)
  }

  /** The fields of a writer and the log they stand for. */
  datatype WriterState = WriterState(
    isOpen: bool, start: Lsn, size: nat, last: Stamp, durableEnd: Lsn, catalog: seq<SegmentRange>,
    segments: seq<Segment>, tail: seq<Payload>, synced: nat)

  /** Every transaction appended so far. */
  function Everything(w: WriterState): seq<Payload> {
    AllOf(w.segments) + w.tail
  }

  /** Every transaction an fsync has covered. */
  function Durable(w: WriterState): seq<Payload> {
    AllOf(w.segments) + (if w.synced <= |w.tail| then w.tail[..w.synced] else w.tail)
  }

  ghost predicate StateOk(crc: Checksum, w: WriterState) {
    && w.synced <= |w.tail|
    && Appendable(ORIGIN, Everything(w))
    && w.last == LastOfLog(Everything(w))
    && w.durableEnd == LastOfLog(Durable(w)).end
    && w.size == |Log(crc, w.tail)| && (!w.isOpen ==> w.tail == [])
    && StartsFit(w.segments) && (w.isOpen ==> StartFits(AllOf(w.segments), w.start, w.tail))
    && Ranges(crc, FilesOf(crc, w.segments)) == Some(w.catalog)
  }

  function Opened(w: WriterState, payload: Payload): WriterState {
    if w.isOpen then w else w.(isOpen := true, start := StampOf(payload).commit)
  }

  function Appended(w: WriterState, payload: Payload): WriterState {
    w.(size := w.size + HEADER_SIZE + |payload|, last := StampOf(payload), tail := w.tail + [payload])
  }

  function Synced(w: WriterState): WriterState {
    w.(durableEnd := w.last.end, synced := |w.tail|)
  }

  function Rotated(w: WriterState): WriterState {
    w.(isOpen := false, size := 0, durableEnd := w.last.end, tail := [], synced := 0,
       catalog := w.catalog + [SegmentRange(w.start, w.last, w.size)],
       segments := w.segments + [Segment(w.start, w.tail)])
  }

  function Reopened(start: Lsn, recovery: Recovery, segments: seq<Segment>, kept: seq<Payload>): WriterState
  {
    var size := match recovery.tail case None => 0 case Some(bytes) => |bytes|;
    WriterState(
      recovery.tail.Some?, start, size, recovery.last, recovery.last.end, recovery.finalized, segments, kept, |kept|)
  }

  /** What recovery reports about the finalized segments and the transactions kept from the tail, if the
      directory has one. */
  ghost predicate RecoveryOf(
    crc: Checksum, recovery: Recovery, start: Lsn, segments: seq<Segment>, kept: seq<Payload>)
  {
    && Appendable(ORIGIN, AllOf(segments) + kept)
    && StartsFit(segments)
    && Ranges(crc, FilesOf(crc, segments)) == Some(recovery.finalized)
    && recovery.last == LastOfLog(AllOf(segments) + kept)
    && match recovery.tail
       case None => kept == []
       case Some(bytes) => bytes == Log(crc, kept) && StartFits(AllOf(segments), start, kept)
  }

  class Writer {
    const crc: Checksum
    const rotationBytes: nat
    var isOpen: bool
    var start: Lsn
    var size: nat
    var last: Stamp
    var pendingEnd: Lsn
    var durableEnd: Lsn
    var catalog: seq<SegmentRange>
    var closed: bool

    ghost var segments: seq<Segment>
    ghost var tail: seq<Payload>
    ghost var synced: nat

    ghost function State(): WriterState
      reads this
    {
      WriterState(isOpen, start, size, last, durableEnd, catalog, segments, tail, synced)
    }

    ghost predicate Valid()
      reads this
    {
      pendingEnd == last.end && StateOk(crc, State())
    }

    /** OpenWriter on an empty directory. */
    constructor (crc: Checksum, rotationBytes: nat)
      ensures Valid() && Everything(State()) == [] && !closed
      ensures this.crc == crc && this.rotationBytes == rotationBytes
    {
      this.crc, this.rotationBytes := crc, rotationBytes;
      isOpen, start, size, last := false, 0, 0, ORIGIN;
      pendingEnd, durableEnd, catalog, closed := 0, 0, [], false;
      segments, tail, synced := [], [], 0;
    }

    /** OpenWriter on a recovered directory: everything recovery kept is durable, and appending continues
        behind it, in the partial tail if there is one. */
    constructor Reopen(
      crc: Checksum, rotationBytes: nat, start: Lsn, recovery: Recovery, ghost segments: seq<Segment>, ghost kept: seq<Payload>)
      requires RecoveryOf(crc, recovery, start, segments, kept)
      ensures Valid() && !closed && State() == Reopened(start, recovery, segments, kept)
      ensures Everything(State()) == AllOf(segments) + kept && Durable(State()) == AllOf(segments) + kept
    {
      hide StateOk, RecoveryOf;
      ReopenKeeps(crc, start, recovery, segments, kept);
      this.crc, this.rotationBytes := crc, rotationBytes;
      isOpen, this.start, last := recovery.tail.Some?, start, recovery.last;
      size := match recovery.tail case None => 0 case Some(bytes) => |bytes|;
      pendingEnd, durableEnd, catalog, closed := recovery.last.end, recovery.last.end, recovery.finalized, false;
      this.segments, tail, synced := segments, kept, |kept|;
    }

    /** fsyncs the tail if something in it is not durable yet. `fsynced` is the answer of the disk. */
    method SyncLocked(fsynced: bool) returns (ok: bool)
      requires Valid()
      modifies this`durableEnd, this`synced
      ensures Valid()
      ensures State() == if ok then Synced(old(State())) else old(State())
      ensures !ok ==> !fsynced
    {
      hide StateOk;
      SyncKeeps(crc, State());
      if !isOpen || pendingEnd == durableEnd {
        return true;
      }
      if !fsynced {
        return false;
      }
      durableEnd := pendingEnd;
      synced := |tail|;
      ok := true;
    }

    /** Reports the latest durable EndLSN, raised by a successful fsync. */
    method Sync(fsynced: bool) returns (ok: bool, durable: Lsn)
      requires Valid()
      modifies this`durableEnd, this`synced
      ensures Valid() && durable == durableEnd
      ensures State() == if ok then Synced(old(State())) else old(State())
      ensures ok <== !closed && fsynced
    {
      hide StateOk;
      if closed {
        return false, durableEnd;
      }
      ok := SyncLocked(fsynced);
      durable := durableEnd;
    }

    /** fsyncs the tail and finalizes it; the catalog never refuses the new range. */
    method RotateLocked(fsynced: bool) returns (ok: bool)
      requires Valid() && (isOpen ==> tail != [])
      modifies this`durableEnd, this`synced, this`isOpen, this`size, this`catalog, this`segments, this`tail
      ensures Valid()
      ensures State() == if !ok || !old(isOpen) then old(State()) else Rotated(old(State()))
      ensures !ok ==> !fsynced
    {
      hide StateOk;
      if !isOpen {
        return true;
      }
      var range := SegmentRange(start, last, size);
      RotateKeeps(crc, State());
      var done := SyncLocked(fsynced);
      if !done {
        return false;
      }
      if catalog != [] {
        var previous := catalog[|catalog| - 1];
        if range.start <= previous.start || range.last.commit <= previous.last.commit
           || range.last.end <= previous.last.end {
          assert false;
        }
      }
      segments := segments + [Segment(start, tail)];
      tail, synced := [], 0;
      isOpen, size := false, 0;
      catalog := catalog + [range];
      ok := true;
    }

    /** Appends one complete transaction frame. `written` and `fsynced` are the answers of the disk. */
    method AppendFrame(payload: Payload, written: bool, fsynced: bool) returns (frameBytes: Option<nat>)
      requires Valid() && (isOpen && tail == [] ==> start <= StampOf(payload).commit)
      modifies this
      ensures Valid() && closed == old(closed)
      ensures
        var accepts := !old(closed) && Follows(old(last), StampOf(payload));
        var appended := Appended(Opened(old(State()), payload), payload);
        if !accepts then frameBytes == None && State() == old(State())
        else if !written then frameBytes == None && State() == Opened(old(State()), payload)
        else if appended.size < rotationBytes then frameBytes == Some(HEADER_SIZE + |payload|) && State() == appended
        else
          && State() == (if frameBytes.Some? then Rotated(appended) else appended)
          && (frameBytes.Some? ==> frameBytes.value == HEADER_SIZE + |payload|)
          && (fsynced ==> frameBytes == Some(HEADER_SIZE + |payload|))
    {
      hide StateOk, StampOf, Follows, Appended, Rotated;
      if closed || !Follows(last, StampOf(payload)) {
        return None;
      }
      OpenKeeps(crc, State(), payload);
      if !isOpen {
        start := StampOf(payload).commit;
        isOpen := true;
      }
      var done := WriteFrame(payload, written);
      if !done {
        return None;
      }
      frameBytes := Some(HEADER_SIZE + |payload|);
      if size >= rotationBytes {
        var rotated := RotateLocked(fsynced);
        if !rotated {
          frameBytes := None;
        }
      }
    }

    /** Writes a frame to the open tail; one that cannot be written is rolled back. */
    method WriteFrame(payload: Payload, written: bool) returns (ok: bool)
      requires Valid() && isOpen && Follows(last, StampOf(payload)) && (tail == [] ==> start <= StampOf(payload).commit)
      modifies this`tail, this`size, this`last, this`pendingEnd
      ensures Valid() && ok == written && (ok ==> tail != [])
      ensures State() == if ok then Appended(old(State()), payload) else old(State())
    {
      hide StateOk, StampOf, Follows;
      if !written {
        return false;
      }
      AppendKeeps(crc, State(), payload);
      tail := tail + [payload];
      size := size + HEADER_SIZE + |payload|;
      last := StampOf(payload);
      pendingEnd := last.end;
      ok := true;
    }
  }

  lemma ReopenKeeps(crc: Checksum, start: Lsn, recovery: Recovery, segments: seq<Segment>, kept: seq<Payload>)
    requires RecoveryOf(crc, recovery, start, segments, kept)
    ensures
      var w := Reopened(start, recovery, segments, kept);
      StateOk(crc, w) && Everything(w) == AllOf(segments) + kept && Durable(w) == AllOf(segments) + kept
  {
    EmptyLog(crc);
    hide Appendable, StartsFit, StartFits, Ranges, Log, AllOf, Stamps;
    assert kept[..|kept|] == kept;
  }

  /** Opening a segment names it after the transaction that needs it. */
  lemma OpenKeeps(crc: Checksum, w: WriterState, payload: Payload)
    requires StateOk(crc, w) && Follows(w.last, StampOf(payload))
    ensures StateOk(crc, Opened(w, payload))
  {
    hide Ranges, StampOf, Appendable, Stamps;
    EmptyLog(crc);
    assert AllOf(w.segments) + [] == AllOf(w.segments);
  }

  lemma AppendKeeps(crc: Checksum, w: WriterState, payload: Payload)
    requires StateOk(crc, w) && w.isOpen && Follows(w.last, StampOf(payload))
    requires w.tail == [] ==> w.start <= StampOf(payload).commit
    ensures StateOk(crc, Appended(w, payload))
    ensures Everything(Appended(w, payload)) == Everything(w) + [payload] && Durable(Appended(w, payload)) == Durable(w)
  {
    hide Ranges, StampOf, Appendable, Stamps, Log, FrameBytes, StartsFit, AllOf, LastOfLog, FilesOf, Follows;
    Appending(crc, AllOf(w.segments), w.tail, payload);
    FrameParts(crc, payload, []);
    assert FrameBytes(crc, payload) + [] == FrameBytes(crc, payload);
    var after := Appended(w, payload);
    assert after.tail[..w.synced] == w.tail[..w.synced];
    assert AllOf(w.segments) + after.tail == AllOf(w.segments) + w.tail + [payload];
  }

  /** After a sync everything appended is durable. A writer whose positions agree has nothing to sync. */
  lemma SyncKeeps(crc: Checksum, w: WriterState)
    requires StateOk(crc, w)
    ensures StateOk(crc, Synced(w)) && Durable(Synced(w)) == Everything(w) && Everything(Synced(w)) == Everything(w)
    ensures !w.isOpen || w.last.end == w.durableEnd ==> Synced(w) == w
  {
    hide Ranges, StampOf, Appendable, Stamps, Log, StartsFit, StartFits;
    assert w.tail[..|w.tail|] == w.tail;
    SameEnd(AllOf(w.segments), w.tail, w.synced);
    assert w.tail[..w.synced] == w.tail || w.synced < |w.tail|;
  }

  /** A rotation keeps the log, and the new range follows the last cataloged one. */
  lemma RotateKeeps(crc: Checksum, w: WriterState)
    requires StateOk(crc, w) && w.isOpen && w.tail != []
    ensures StateOk(crc, Rotated(w))
    ensures Everything(Rotated(w)) == Everything(w) && Durable(Rotated(w)) == Everything(w)
    ensures w.catalog != [] ==>
      var previous := w.catalog[|w.catalog| - 1];
      previous.start < w.start && previous.last.commit < w.last.commit && previous.last.end < w.last.end
  {
    hide Ranges, StampOf, Appendable, Stamps, Log;
    var after := Rotated(w);
    Finalizing(crc, w.segments, w.catalog, w.start, w.tail);
    if w.catalog != [] {
      CatalogFollows(crc, w.segments, w.catalog, w.start, w.tail);
    }
    assert after.segments[..|w.segments|] == w.segments;
    assert AllOf(after.segments) + [] == AllOf(w.segments) + w.tail;
    assert after.tail[..0] == [];
    EmptyLog(crc);
  }

  /** The durable end never exceeds the last one, and reaches it only when everything is durable. */
  lemma DurableBelowLast(crc: Checksum, w: WriterState)
    requires StateOk(crc, w)
    ensures w.durableEnd <= w.last.end
  {
    hide Ranges, StampOf, Log, StartsFit, StartFits;
    assert AllOf(w.segments) + w.tail == Durable(w) + w.tail[w.synced..];
    AppendableSplit(Durable(w), w.tail[w.synced..]);
    LastOfLogConcat(Durable(w), w.tail[w.synced..]);
    GrowingEnds(LastOfLog(Durable(w)), Stamps(w.tail[w.synced..]));
  }

  lemma CaughtUp(crc: Checksum, w: WriterState)
    requires StateOk(crc, w)
    ensures w.durableEnd <= w.last.end
    ensures w.last.end <= w.durableEnd ==> Durable(w) == Everything(w)
  {
    hide Ranges, StampOf, Log, StartsFit, StartFits, Appendable, Stamps;
    DurableBelowLast(crc, w);
    SyncKeeps(crc, w);
  }

  /** Everything an append does to the log, whether or not it also rotates. */
  lemma Accepting(crc: Checksum, w: WriterState, payload: Payload)
    requires StateOk(crc, w) && (w.isOpen && w.tail == [] ==> w.start <= StampOf(payload).commit)
    ensures Follows(w.last, StampOf(payload)) ==>
      var appended := Appended(Opened(w, payload), payload);
      && StateOk(crc, appended) && StateOk(crc, Rotated(appended)) && StateOk(crc, Opened(w, payload))
      && Everything(appended) == Everything(w) + [payload] && Everything(Rotated(appended)) == Everything(appended)
      && Durable(appended) == Durable(w) && Durable(Rotated(appended)) == Everything(appended)
      && w.durableEnd <= w.last.end
      && Everything(Opened(w, payload)) == Everything(w) && Durable(Opened(w, payload)) == Durable(w)
  {
    hide StateOk, StampOf, Follows;
    if Follows(w.last, StampOf(payload)) {
      OpenKeeps(crc, w, payload);
      DurableBelowLast(crc, w);
      FreshSegmentFits(crc, w, payload);
      AppendKeeps(crc, Opened(w, payload), payload);
      RotateKeeps(crc, Appended(Opened(w, payload), payload));
    }
  }

  lemma FreshSegmentFits(crc: Checksum, w: WriterState, payload: Payload)
    requires StateOk(crc, w) && (w.isOpen && w.tail == [] ==> w.start <= StampOf(payload).commit)
    ensures Opened(w, payload).tail == [] ==> Opened(w, payload).start <= StampOf(payload).commit
  {
  }

  lemma EmptyLog(crc: Checksum)
    ensures Log(crc, []) == []
  {
  }

  lemma Appending(crc: Checksum, before: seq<Payload>, tail: seq<Payload>, payload: Payload)
    requires Appendable(ORIGIN, before + tail) && Follows(LastOfLog(before + tail), StampOf(payload))
    ensures Appendable(ORIGIN, before + tail + [payload]) && LastOfLog(before + tail + [payload]) == StampOf(payload)
    ensures Log(crc, tail + [payload]) == Log(crc, tail) + FrameBytes(crc, payload)
  {
    hide FrameBytes, StampOf;
    AppendableSplit(before + tail, [payload]);
    assert Stamps([payload]) == [StampOf(payload)];
    assert (tail + [payload])[..|tail|] == tail;
  }

  /** When no later end LSN is pending, everything is durable. */
  lemma SameEnd(before: seq<Payload>, tail: seq<Payload>, synced: nat)
    requires synced <= |tail| && Appendable(ORIGIN, before + tail)
    ensures LastOfLog(before + tail).end == LastOfLog(before + tail[..synced]).end ==> synced == |tail|
  {
    hide StampOf;
    var front, rest := before + tail[..synced], tail[synced..];
    assert before + tail == front + rest;
    AppendableSplit(front, rest);
    LastOfLogConcat(front, rest);
    GrowingEnds(LastOfLog(front), Stamps(rest));
  }

  lemma {:induction false} CatalogLast(crc: Checksum, segments: seq<Segment>)
    requires Appendable(ORIGIN, AllOf(segments)) && StartsFit(segments) && segments != []
    requires Ranges(crc, FilesOf(crc, segments)).Some?
    ensures
      var range := Ranges(crc, FilesOf(crc, segments)).value[|segments| - 1];
      range.start == segments[|segments| - 1].start && range.start <= LastOfLog(AllOf(segments)).commit
      && range.last == LastOfLog(AllOf(segments))
  {
    hide Scan, StampOf, Log;
    var init, last := segments[..|segments| - 1], segments[|segments| - 1];
    FilesValidate(crc, segments);
    assert FilesOf(crc, segments)[..|segments| - 1] == FilesOf(crc, init);
    AppendableSplit(AllOf(init), last.payloads);
    LastOfLogConcat(AllOf(init), last.payloads);
    var stamps := Stamps(last.payloads);
    FirstBelowLast(LastOfLog(AllOf(init)), stamps);
  }

  lemma {:induction false} FirstBelowLast(previous: Stamp, stamps: seq<Stamp>)
    requires stamps != [] && Growing(previous, stamps)
    ensures stamps[0].commit <= LastStamp(previous, stamps).commit
  {
    assert stamps == [stamps[0]] + stamps[1..];
    GrowingSuffix(previous, [stamps[0]], stamps[1..]);
    GrowingEnds(stamps[0], stamps[1..]);
  }

  /** The range of the tail follows the last cataloged one. */
  lemma CatalogFollows(crc: Checksum, segments: seq<Segment>, catalog: seq<SegmentRange>, start: Lsn, tail: seq<Payload>)
    requires Appendable(ORIGIN, AllOf(segments) + tail) && StartsFit(segments) && catalog != [] && tail != []
    requires Ranges(crc, FilesOf(crc, segments)) == Some(catalog) && StartFits(AllOf(segments), start, tail)
    ensures
      var previous, last := catalog[|catalog| - 1], LastOfLog(AllOf(segments) + tail);
      previous.start < start && previous.last.commit < last.commit && previous.last.end < last.end
  {
    hide Scan, StampOf, Log, Ranges;
    AppendableSplit(AllOf(segments), tail);
    LastOfLogConcat(AllOf(segments), tail);
    GrowingEnds(LastOfLog(AllOf(segments)), Stamps(tail));
    CatalogLast(crc, segments);
  }

  lemma Finalizing(crc: Checksum, segments: seq<Segment>, catalog: seq<SegmentRange>, start: Lsn, tail: seq<Payload>)
    requires Appendable(ORIGIN, AllOf(segments) + tail) && Ranges(crc, FilesOf(crc, segments)) == Some(catalog)
    ensures
      var finalized := segments + [Segment(start, tail)];
      && AllOf(finalized) == AllOf(segments) + tail
      && Ranges(crc, FilesOf(crc, finalized)) ==
           Some(catalog + [SegmentRange(start, LastOfLog(AllOf(segments) + tail), |Log(crc, tail)|)])
  {
    hide Scan, StampOf, Log;
    var finalized := segments + [Segment(start, tail)];
    assert finalized[..|segments|] == segments;
    AppendableSplit(AllOf(segments), tail);
    FilesValidate(crc, segments);
    LastOfLogConcat(AllOf(segments), tail);
    LogReadBack(crc, tail, LastOfLog(AllOf(segments)));
    var files := FilesOf(crc, finalized);
    assert files[..|segments|] == FilesOf(crc, segments);
  }

  // --- Crashes ---

  /** The directory found after a crash: finalized files are intact, the tail holds `onDisk`. */
  function Crashed(crc: Checksum, segments: seq<Segment>, start: Lsn, onDisk: Bytes): seq<SegmentFile> {
    FilesOf(crc, segments) + [SegmentFile(start, true, onDisk)]
  }

  /** Recovery after a crash finds every durable transaction, in order, whatever bytes the crash
      left after them, and reports at least the durable position. */
  lemma CrashKeepsDurable(
    crc: Checksum, segments: seq<Segment>, start: Lsn, tail: seq<Payload>, synced: nat, garbage: Bytes)
    requires Appendable(ORIGIN, AllOf(segments) + tail) && synced <= |tail|
    ensures
      var found := Crashed(crc, segments, start, Log(crc, tail[..synced]) + garbage);
      var durable := AllOf(segments) + tail[..synced];
      && RecoverInOrder(crc, found).Some?
      && Stamps(durable) <= RecoveredStamps(crc, found)
      && LastOfLog(durable).end <= RecoverInOrder(crc, found).value.last.end
  {
    hide Scan, Log, Ranges, FinalizedStamps, StampOf, Growing;
    var bytes, all := Log(crc, tail[..synced]), AllOf(segments);
    assert all + tail == (all + tail[..synced]) + tail[synced..];
    AppendableSplit(all + tail[..synced], tail[synced..]);
    AppendableSplit(all, tail[..synced]);
    FilesValidate(crc, segments);
    LogReadBack(crc, tail[..synced], LastOfLog(all));
    StampsConcat(all, tail[..synced]);
    var files := FilesOf(crc, segments);
    DurableFramesSurvive(crc, files, start, bytes, garbage);
    var intact, found := Crashed(crc, segments, start, bytes), Crashed(crc, segments, start, bytes + garbage);
    assert Finalized(intact) == files && Finalized(found) == files;
    assert RecoveredStamps(crc, intact) == Stamps(all) + Stamps(tail[..synced]);
    RecoveredGrowing(crc, found);
    LongerEndsLater(Stamps(all + tail[..synced]), RecoveredStamps(crc, found));
  }

  /** Without a partial tail recovery finds everything. */
  lemma CleanDirectoryKeepsAll(crc: Checksum, segments: seq<Segment>, start: Lsn)
    requires Appendable(ORIGIN, AllOf(segments)) && StartsFit(segments)
    ensures
      var recovery := RecoverInOrder(crc, FilesOf(crc, segments));
      recovery.Some? && recovery.value.tail.None? && RecoveryOf(crc, recovery.value, start, segments, [])
  {
    hide Scan, Log, Ranges, StampOf, Growing, AllOf, StartsFit, FilesOf;
    FilesValidate(crc, segments);
    assert AllOf(segments) + [] == AllOf(segments);
  }

  lemma LongerEndsLater(s: seq<Stamp>, t: seq<Stamp>)
    requires s <= t && Growing(ORIGIN, t)
    ensures LastStamp(ORIGIN, s).end <= LastStamp(ORIGIN, t).end
  {
    assert t == s + t[|s|..];
    GrowingSuffix(ORIGIN, s, t[|s|..]);
    GrowingEnds(LastStamp(ORIGIN, s), t[|s|..]);
  }

  /** When the crash only cut the tail short, recovery finds exactly a prefix of what was appended,
      no shorter than what was durable, and a writer can reopen on it. */
  lemma TornCrashKeepsPrefix(
    crc: Checksum, segments: seq<Segment>, start: Lsn, tail: seq<Payload>, synced: nat, n: nat) returns (kept: nat)
    requires Appendable(ORIGIN, AllOf(segments) + tail) && synced <= |tail|
    requires |Log(crc, tail[..synced])| <= n <= |Log(crc, tail)|
    ensures synced <= kept <= |tail|
    ensures
      var found := Crashed(crc, segments, start, Log(crc, tail)[..n]);
      var recovery := RecoverInOrder(crc, found);
      && recovery.Some?
      && RecoveredStamps(crc, found) == Stamps(AllOf(segments) + tail[..kept])
      && recovery.value.tail == Some(Log(crc, tail[..kept]))
      && recovery.value.last == LastOfLog(AllOf(segments) + tail[..kept])
      && Some(recovery.value.finalized) == Ranges(crc, FilesOf(crc, segments))
  {
    hide Scan, Log, Ranges, FinalizedStamps, StampOf, Growing, RecoverInOrder, RecoveredStamps, Crashed, AllOf, FilesOf, LastOf;
    var all, files := AllOf(segments), FilesOf(crc, segments);
    AppendableSplit(all, tail);
    FilesValidate(crc, segments);
    kept := TornLogKeepsCompleteFrames(crc, tail, LastOfLog(all), n);
    StampsConcat(all, tail[..kept]);
    LastOfLogConcat(all, tail[..kept]);
    RecoveredTail(crc, segments, start, Log(crc, tail)[..n]);
    if kept < synced {
      LogLonger(crc, tail, kept + 1, synced);
    }
  }

  /** What recovery makes of finalized files and the bytes of a tail. */
  lemma RecoveredTail(crc: Checksum, segments: seq<Segment>, start: Lsn, onDisk: Bytes)
    requires Ranges(crc, FilesOf(crc, segments)).Some?
    ensures
      var found := Crashed(crc, segments, start, onDisk);
      var recovery := RecoverInOrder(crc, found);
      var ranges, stamps := Ranges(crc, FilesOf(crc, segments)).value, FinalizedStamps(crc, FilesOf(crc, segments));
      var inPlace, inOrder := Scan(crc, onDisk, LastOf(ranges)), Scan(crc, onDisk, LastStamp(ORIGIN, stamps));
      && recovery.Some? && recovery.value.finalized == ranges
      && inPlace.size <= |onDisk| && recovery.value.tail == Some(onDisk[..inPlace.size])
      && recovery.value.last == LastStamp(LastOf(ranges), inPlace.stamps)
      && RecoveredStamps(crc, found) == stamps + inOrder.stamps
  {
    hide Scan, Log, Ranges, FinalizedStamps, LastOf;
    assert Finalized(Crashed(crc, segments, start, onDisk)) == FilesOf(crc, segments);
  }

  lemma {:induction false} LogLonger(crc: Checksum, payloads: seq<Payload>, i: nat, j: nat)
    requires i <= j <= |payloads|
    ensures |Log(crc, payloads[..i])| <= |Log(crc, payloads[..j])|
    decreases j
  {
    hide FrameBytes;
    if i < j {
      LogLonger(crc, payloads, i, j - 1);
      assert payloads[..j][..j - 1] == payloads[..j - 1];
    }
  }
}
