/** Frames of a segment file and what a scan accepts (internal/cdc/segment.go:906-1052). A frame is
    a little-endian length, a CRC-32C and a payload whose first bytes carry its LSNs. The checksum
    is an arbitrary 32-bit function of the payload. */
module Frames {
  import opened Wrappers
  import opened Model

  type Word = x: int | 0 <= x < 0x1_0000_0000

  type Checksum = Bytes -> Word

  const HEADER_SIZE := 8
  const METADATA_SIZE := 21
  const MAX_PAYLOAD := 0xFFFF_FFFF

  // --- Little-endian numbers ---

  function Le(bytes: Bytes): nat {
    if bytes == [] then 0 else bytes[0] + 256 * Le(bytes[1..])
  }

  function LePut(value: nat, width: nat): (bytes: Bytes)
    ensures |bytes| == width
  {
    if width == 0 then [] else [value % 256] + LePut(value / 256, width - 1)
  }

  function Pow256(width: nat): (p: nat)
    ensures p > 0
  {
    if width == 0 then 1 else 256 * Pow256(width - 1)
  }

  lemma {:induction false} LeRoundTrip(value: nat, width: nat)
    requires value < Pow256(width)
    ensures Le(LePut(value, width)) == value
    decreases width
  {
    if width > 0 {
      LeRoundTrip(value / 256, width - 1);
      assert LePut(value, width)[1..] == LePut(value / 256, width - 1);
    }
  }

  lemma {:induction false} LePutLe(bytes: Bytes)
    ensures LePut(Le(bytes), |bytes|) == bytes
    decreases |bytes|
  {
    if bytes != [] {
      LePutLe(bytes[1..]);
      assert Le(bytes) % 256 == bytes[0] && Le(bytes) / 256 == Le(bytes[1..]);
    }
  }

  lemma WordRoundTrip(value: Word)
    ensures Le(LePut(value, 4)) == value
  {
    assert Pow256(4) == 256 * Pow256(3) && Pow256(3) == 256 * Pow256(2) && Pow256(2) == 256 * Pow256(1);
    LeRoundTrip(value, 4);
  }

  // --- One frame ---

  datatype Stamp = Stamp(commit: Lsn, end: Lsn)

  const MAGIC: Bytes := [80, 71, 77, 67]  // "PGMC"

  /** The LSNs at the front of a payload (scanTransactionMetadata). */
  function PayloadStamp(payload: Bytes): Option<Stamp> {
    if |payload| < METADATA_SIZE || payload[..4] != MAGIC || payload[4] !in {1, 2} then None
    else Some(Stamp(Le(payload[5..13]), Le(payload[13..21])))
  }

  function FrameBytes(crc: Checksum, payload: Bytes): Bytes
    requires |payload| <= MAX_PAYLOAD
  {
    LePut(|payload|, 4) + LePut(crc(payload), 4) + payload
  }

  datatype Frame = Frame(stamp: Stamp, size: nat)

  /** The frame at the front of `data`, if a complete one with the right checksum is there. */
  function FirstFrame(crc: Checksum, data: Bytes): (frame: Option<Frame>)
    ensures frame.Some? ==> HEADER_SIZE < frame.value.size <= |data|
  {
    if |data| < HEADER_SIZE then None
    else
      var length := Le(data[..4]);
      if length > MAX_PAYLOAD || length < METADATA_SIZE || |data| < HEADER_SIZE + length then None
      else
        var payload := data[HEADER_SIZE..HEADER_SIZE + length];
        if crc(payload) != Le(data[4..8]) || PayloadStamp(payload).None? then None
        else Some(Frame(PayloadStamp(payload).value, HEADER_SIZE + length))
  }

  predicate PayloadOk(payload: Bytes) {
    |payload| <= MAX_PAYLOAD && PayloadStamp(payload).Some?
  }

  const EMPTY_PAYLOAD: Bytes := MAGIC + [2] + [0, 0, 0, 0, 0, 0, 0, 0] + [0, 0, 0, 0, 0, 0, 0, 0]

  /** A payload a writer may append. */
  type Payload = p: Bytes | PayloadOk(p) witness EMPTY_PAYLOAD

  function StampOf(payload: Payload): Stamp {
    PayloadStamp(payload).value
  }

  lemma FrameParts(crc: Checksum, payload: Bytes, rest: Bytes)
    requires |payload| <= MAX_PAYLOAD
    ensures
      var data := FrameBytes(crc, payload) + rest;
      && |FrameBytes(crc, payload)| == HEADER_SIZE + |payload|
      && data[..4] == LePut(|payload|, 4) && data[4..8] == LePut(crc(payload), 4)
      && data[HEADER_SIZE..HEADER_SIZE + |payload|] == payload
      && data[HEADER_SIZE + |payload|..] == rest
  {
  }

  /** A written frame is read back, whatever follows it. */
  lemma FrameReadBack(crc: Checksum, payload: Payload, rest: Bytes)
    ensures FirstFrame(crc, FrameBytes(crc, payload) + rest) == Some(Frame(StampOf(payload), HEADER_SIZE + |payload|))
  {
    hide PayloadStamp;
    FrameParts(crc, payload, rest);
    WordRoundTrip(|payload|);
    WordRoundTrip(crc(payload));
    assert |payload| >= METADATA_SIZE by {
      StampedSize(payload);
    }
  }

  lemma StampedSize(payload: Bytes)
    requires PayloadStamp(payload).Some?
    ensures |payload| >= METADATA_SIZE
  {
  }

  /** A frame cut anywhere before its end is never accepted. */
  lemma TornFrameRejected(crc: Checksum, payload: Payload, n: nat)
    requires n < HEADER_SIZE + |payload|
    ensures |FrameBytes(crc, payload)| == HEADER_SIZE + |payload|
    ensures FirstFrame(crc, FrameBytes(crc, payload)[..n]).None?
  {
    FrameParts(crc, payload, []);
    assert FrameBytes(crc, payload) + [] == FrameBytes(crc, payload);
    WordRoundTrip(|payload|);
    if n >= HEADER_SIZE {
      assert FrameBytes(crc, payload)[..n][..4] == LePut(|payload|, 4);
    }
  }

  /** The zero header a streamed append reserves is never accepted (appendStreamedFrameLocked). */
  lemma PlaceholderRejected(crc: Checksum, written: Bytes)
    ensures FirstFrame(crc, [0, 0, 0, 0, 0, 0, 0, 0] + written).None?
  {
    var data := [0, 0, 0, 0, 0, 0, 0, 0] + written;
    assert data[..4] == LePut(0, 4) by {
      assert LePut(0, 4) == [0] + LePut(0, 3) && LePut(0, 3) == [0] + LePut(0, 2);
      assert LePut(0, 2) == [0] + LePut(0, 1) && LePut(0, 1) == [0] + LePut(0, 0);
    }
    WordRoundTrip(0);
  }

  // --- Scanning a file ---

  predicate Follows(previous: Stamp, next: Stamp) {
    previous.commit < next.commit <= next.end && previous.end < next.end
  }

  /** What a scan accepts: the stamps of its frames, how many bytes they take, and whether the file
      ends there. */
  datatype Scanned = Scanned(stamps: seq<Stamp>, size: nat, clean: bool)

  function Scan(crc: Checksum, data: Bytes, previous: Stamp): (r: Scanned)
    ensures r.size <= |data| && (r.clean <==> r.size == |data|)
    decreases |data|
  {
    if data == [] then Scanned([], 0, true)
    else
      var frame := FirstFrame(crc, data);
      if frame.None? || !Follows(previous, frame.value.stamp) then Scanned([], 0, false)
      else
        var rest := Scan(crc, data[frame.value.size..], frame.value.stamp);
        Scanned([frame.value.stamp] + rest.stamps, frame.value.size + rest.size, rest.clean)
  }

  function LastStamp(previous: Stamp, stamps: seq<Stamp>): Stamp {
    if stamps == [] then previous else stamps[|stamps| - 1]
  }

  predicate FollowsAt(previous: Stamp, stamps: seq<Stamp>, i: nat)
    requires i < |stamps|
  {
    Follows(if i == 0 then previous else stamps[i - 1], stamps[i])
  }

  predicate Growing(previous: Stamp, stamps: seq<Stamp>) {
    forall i: nat :: i < |stamps| ==> FollowsAt(previous, stamps, i)
  }

  lemma GrowingPrefix(previous: Stamp, stamps: seq<Stamp>, n: nat)
    requires Growing(previous, stamps) && n <= |stamps|
    ensures Growing(previous, stamps[..n])
  {
    hide Follows;
    forall i: nat | i < n ensures FollowsAt(previous, stamps[..n], i) {
      assert FollowsAt(previous, stamps, i);
    }
  }

  lemma GrowingCons(previous: Stamp, first: Stamp, rest: seq<Stamp>)
    requires Follows(previous, first) && Growing(first, rest)
    ensures Growing(previous, [first] + rest)
  {
    hide Follows;
    forall i: nat | i < |rest| + 1 ensures FollowsAt(previous, [first] + rest, i) {
      if i > 0 {
        assert FollowsAt(first, rest, i - 1);
      }
    }
  }

  /** LSNs are strictly increasing across everything a scan accepts. */
  lemma {:induction false} ScanGrowing(crc: Checksum, data: Bytes, previous: Stamp)
    ensures Growing(previous, Scan(crc, data, previous).stamps)
    decreases |data|
  {
    hide FirstFrame;
    if data != [] {
      var frame := FirstFrame(crc, data);
      if frame.Some? && Follows(previous, frame.value.stamp) {
        ScanGrowing(crc, data[frame.value.size..], frame.value.stamp);
        GrowingCons(previous, frame.value.stamp, Scan(crc, data[frame.value.size..], frame.value.stamp).stamps);
      }
    }
  }

  lemma FirstFrameIgnoresRest(crc: Checksum, data: Bytes, rest: Bytes)
    requires FirstFrame(crc, data).Some?
    ensures FirstFrame(crc, data + rest) == FirstFrame(crc, data)
  {
    hide PayloadStamp;
    var size := FirstFrame(crc, data).value.size;
    assert (data + rest)[..4] == data[..4] && (data + rest)[4..8] == data[4..8];
    assert (data + rest)[HEADER_SIZE..size] == data[HEADER_SIZE..size];
  }

  lemma ScanStep(crc: Checksum, data: Bytes, previous: Stamp, frame: Frame)
    requires FirstFrame(crc, data) == Some(frame) && Follows(previous, frame.stamp)
    ensures
      var rest := Scan(crc, data[frame.size..], frame.stamp);
      Scan(crc, data, previous) == Scanned([frame.stamp] + rest.stamps, frame.size + rest.size, rest.clean)
  {
    hide FirstFrame;
  }

  lemma ScanNothing(crc: Checksum)
    ensures forall previous :: Scan(crc, [], previous) == Scanned([], 0, true)
  {
  }

  lemma ScanGoesOn(crc: Checksum, data: Bytes, previous: Stamp)
    requires data != [] && Scan(crc, data, previous).clean
    ensures FirstFrame(crc, data).Some? && Follows(previous, FirstFrame(crc, data).value.stamp)
  {
    hide FirstFrame;
  }

  lemma ScanStops(crc: Checksum, data: Bytes, previous: Stamp)
    requires data != []
    requires FirstFrame(crc, data).None? || !Follows(previous, FirstFrame(crc, data).value.stamp)
    ensures Scan(crc, data, previous) == Scanned([], 0, false)
  {
    hide FirstFrame;
  }

  /** A clean file extended by anything scans as itself and then what follows. */
  lemma {:induction false} ScanConcat(crc: Checksum, data: Bytes, tail: Bytes, previous: Stamp)
    requires Scan(crc, data, previous).clean
    ensures
      var before := Scan(crc, data, previous);
      var after := Scan(crc, tail, LastStamp(previous, before.stamps));
      Scan(crc, data + tail, previous) == Scanned(before.stamps + after.stamps, |data| + after.size, after.clean)
    decreases |data|
  {
    hide FirstFrame, Scan;
    if data == [] {
      assert data + tail == tail;
      ScanNothing(crc);
    } else {
      ScanGoesOn(crc, data, previous);
      var frame := FirstFrame(crc, data).value;
      FirstFrameIgnoresRest(crc, data, tail);
      assert (data + tail)[frame.size..] == data[frame.size..] + tail;
      ScanStep(crc, data, previous, frame);
      ScanStep(crc, data + tail, previous, frame);
      ScanConcat(crc, data[frame.size..], tail, frame.stamp);
      LastStampCons(previous, frame.stamp, Scan(crc, data[frame.size..], frame.stamp).stamps);
    }
  }

  lemma LastStampCons(previous: Stamp, first: Stamp, rest: seq<Stamp>)
    ensures LastStamp(previous, [first] + rest) == LastStamp(first, rest)
  {
  }

  /** The accepted bytes scan cleanly to the same frames. */
  lemma {:induction false} AcceptedIsClean(crc: Checksum, data: Bytes, previous: Stamp)
    ensures
      var r := Scan(crc, data, previous);
      Scan(crc, data[..r.size], previous) == Scanned(r.stamps, r.size, true)
    decreases |data|
  {
    hide FirstFrame;
    if data != [] {
      var frame := FirstFrame(crc, data);
      if frame.Some? && Follows(previous, frame.value.stamp) {
        var size, rest := frame.value.size, data[frame.value.size..];
        var r := Scan(crc, rest, frame.value.stamp);
        AcceptedIsClean(crc, rest, frame.value.stamp);
        assert data[..size + r.size][size..] == rest[..r.size];
        FirstFrameOfPrefix(crc, data, size + r.size);
      }
    }
  }

  lemma FirstFrameOfPrefix(crc: Checksum, data: Bytes, n: nat)
    requires FirstFrame(crc, data).Some? && FirstFrame(crc, data).value.size <= n <= |data|
    ensures FirstFrame(crc, data[..n]) == FirstFrame(crc, data)
  {
    hide PayloadStamp;
    var size := FirstFrame(crc, data).value.size;
    assert data[..n][..4] == data[..4] && data[..n][4..8] == data[4..8];
    assert data[..n][HEADER_SIZE..size] == data[HEADER_SIZE..size];
  }

  /** A scan that has read `size` bytes and accepted `seen`. */
  ghost predicate Resumes(crc: Checksum, data: Bytes, previous: Stamp, seen: seq<Stamp>, size: nat) {
    size <= |data| &&
    var r := Scan(crc, data[size..], LastStamp(previous, seen));
    Scan(crc, data, previous) == Scanned(seen + r.stamps, size + r.size, r.clean)
  }

  lemma ResumesNext(crc: Checksum, data: Bytes, previous: Stamp, seen: seq<Stamp>, size: nat, frame: Frame)
    requires Resumes(crc, data, previous, seen, size) && FirstFrame(crc, data[size..]) == Some(frame)
    requires Follows(LastStamp(previous, seen), frame.stamp)
    ensures Resumes(crc, data, previous, seen + [frame.stamp], size + frame.size)
  {
    hide FirstFrame, Follows, Scan;
    ScanStep(crc, data[size..], LastStamp(previous, seen), frame);
    assert data[size..][frame.size..] == data[size + frame.size..];
    var r := Scan(crc, data[size + frame.size..], frame.stamp);
    assert seen + ([frame.stamp] + r.stamps) == seen + [frame.stamp] + r.stamps;
  }

  /** scanSegmentWithProgress, without a visitor: one pass over the file. */
  method ScanFile(crc: Checksum, data: Bytes, previous: Stamp)
    returns (first: Stamp, last: Stamp, size: nat, frames: nat, clean: bool)
    ensures
      var r := Scan(crc, data, previous);
      && size == r.size && clean == r.clean && frames == |r.stamps|
      && last == LastStamp(previous, r.stamps)
      && (frames > 0 ==> first == r.stamps[0])
  {
    hide FirstFrame, Scan, Follows;
    first, last, size, frames, clean := Stamp(0, 0), previous, 0, 0, true;
    ghost var seen: seq<Stamp> := [];
    assert data[0..] == data;
    ScanNothing(crc);
    while size < |data|
      invariant frames == |seen| && last == LastStamp(previous, seen)
      invariant frames > 0 ==> first == seen[0]
      invariant Resumes(crc, data, previous, seen, size)
    {
      var frame := FirstFrame(crc, data[size..]);
      if frame.None? || !Follows(last, frame.value.stamp) {
        ScanStops(crc, data[size..], last);
        clean := false;
        return;
      }
      if frames == 0 {
        first := frame.value.stamp;
      }
      ResumesNext(crc, data, previous, seen, size, frame.value);
      seen := seen + [frame.value.stamp];
      last := frame.value.stamp;
      size := size + frame.value.size;
      frames := frames + 1;
    }
  }

  // --- Files that a writer produced ---

  function Log(crc: Checksum, payloads: seq<Payload>): Bytes {
    if payloads == [] then []
    else Log(crc, payloads[..|payloads| - 1]) + FrameBytes(crc, payloads[|payloads| - 1])
  }

  function Stamps(payloads: seq<Payload>): (stamps: seq<Stamp>)
    ensures |stamps| == |payloads| && forall i :: 0 <= i < |stamps| ==> stamps[i] == StampOf(payloads[i])
  {
    seq(|payloads|, i requires 0 <= i < |payloads| => StampOf(payloads[i]))
  }

  /** Payloads that a writer accepts one after another. */
  predicate Appendable(previous: Stamp, payloads: seq<Payload>) {
    Growing(previous, Stamps(payloads))
  }

  lemma AppendablePrefix(previous: Stamp, payloads: seq<Payload>, n: nat)
    requires Appendable(previous, payloads) && n <= |payloads|
    ensures Appendable(previous, payloads[..n]) && Stamps(payloads[..n]) == Stamps(payloads)[..n]
  {
    hide StampOf, Growing;
    assert Stamps(payloads[..n]) == Stamps(payloads)[..n];
    GrowingPrefix(previous, Stamps(payloads), n);
  }

  /** What was appended is what a scan reads. */
  lemma {:induction false} LogReadBack(crc: Checksum, payloads: seq<Payload>, previous: Stamp)
    requires Appendable(previous, payloads)
    ensures Scan(crc, Log(crc, payloads), previous) == Scanned(Stamps(payloads), |Log(crc, payloads)|, true)
    decreases |payloads|
  {
    hide StampOf, FirstFrame, FrameBytes;
    if payloads != [] {
      var init, last := payloads[..|payloads| - 1], payloads[|payloads| - 1];
      AppendablePrefix(previous, payloads, |payloads| - 1);
      LogReadBack(crc, init, previous);
      ScanConcat(crc, Log(crc, init), FrameBytes(crc, last), previous);
      assert FollowsAt(previous, Stamps(payloads), |payloads| - 1);
      OneFrame(crc, last, LastStamp(previous, Stamps(init)));
      assert Stamps(payloads) == Stamps(init) + [StampOf(last)];
    }
  }

  lemma OneFrame(crc: Checksum, payload: Payload, previous: Stamp)
    requires Follows(previous, StampOf(payload))
    ensures Scan(crc, FrameBytes(crc, payload), previous) ==
      Scanned([StampOf(payload)], |FrameBytes(crc, payload)|, true)
  {
    hide FirstFrame, StampOf;
    FrameReadBack(crc, payload, []);
    var frame := FrameBytes(crc, payload);
    assert frame + [] == frame;
    assert frame[|frame|..] == [];
  }

  lemma TornLastFrame(crc: Checksum, payloads: seq<Payload>, last: Payload, previous: Stamp, n: nat)
    requires Appendable(previous, payloads) && n < |FrameBytes(crc, last)|
    ensures
      var data := Log(crc, payloads) + FrameBytes(crc, last)[..n];
      && Scan(crc, data, previous).stamps == Stamps(payloads)
      && data[..Scan(crc, data, previous).size] == Log(crc, payloads)
  {
    hide StampOf, FirstFrame, FrameBytes, Scan, Growing;
    var torn := FrameBytes(crc, last)[..n];
    LogReadBack(crc, payloads, previous);
    ScanConcat(crc, Log(crc, payloads), torn, previous);
    FrameParts(crc, last, []);
    TornFrameRejected(crc, last, n);
    if torn == [] {
      ScanNothing(crc);
    } else {
      ScanStops(crc, torn, LastStamp(previous, Stamps(payloads)));
    }
  }

  /** The first `n` bytes of a log hold exactly its first `complete` frames. */
  ghost predicate Keeps(crc: Checksum, payloads: seq<Payload>, previous: Stamp, n: nat, complete: nat) {
    && n <= |Log(crc, payloads)| && complete <= |payloads|
    && |Log(crc, payloads[..complete])| <= n
    && (complete < |payloads| ==> n < |Log(crc, payloads[..complete + 1])|)
    && var torn := Log(crc, payloads)[..n];
       && Scan(crc, torn, previous).stamps == Stamps(payloads[..complete])
       && torn[..Scan(crc, torn, previous).size] == Log(crc, payloads[..complete])
  }

  lemma KeepsAll(crc: Checksum, payloads: seq<Payload>, previous: Stamp)
    requires Appendable(previous, payloads)
    ensures Keeps(crc, payloads, previous, |Log(crc, payloads)|, |payloads|)
  {
    hide StampOf, Growing, Log, Scan;
    assert payloads[..|payloads|] == payloads && Log(crc, payloads)[..|Log(crc, payloads)|] == Log(crc, payloads);
    LogReadBack(crc, payloads, previous);
  }

  lemma KeepsAllButLast(crc: Checksum, init: seq<Payload>, last: Payload, previous: Stamp, n: nat)
    requires Appendable(previous, init) && |Log(crc, init)| <= n < |Log(crc, init)| + |FrameBytes(crc, last)|
    ensures Keeps(crc, init + [last], previous, n, |init|)
  {
    hide StampOf, Growing, Scan, FrameBytes;
    var payloads := init + [last];
    assert payloads[..|init|] == init && payloads[..|init| + 1] == payloads && payloads[|init|] == last;
    assert Log(crc, payloads)[..n] == Log(crc, init) + FrameBytes(crc, last)[..n - |Log(crc, init)|];
    TornLastFrame(crc, init, last, previous, n - |Log(crc, init)|);
  }

  lemma KeepsEarlier(crc: Checksum, init: seq<Payload>, last: Payload, previous: Stamp, n: nat, complete: nat)
    requires n < |Log(crc, init)| && Keeps(crc, init, previous, n, complete)
    ensures Keeps(crc, init + [last], previous, n, complete)
  {
    hide StampOf, Scan, FrameBytes, Stamps;
    var payloads := init + [last];
    assert payloads[..|init|] == init && init[..|init|] == init;
    assert complete < |init|;
    assert payloads[..complete] == init[..complete] && payloads[..complete + 1] == init[..complete + 1];
    assert Log(crc, payloads)[..n] == Log(crc, init)[..n];
  }

  /** A torn file keeps exactly the frames that were written completely. */
  lemma {:induction false} TornLogKeepsCompleteFrames(crc: Checksum, payloads: seq<Payload>, previous: Stamp, n: nat)
    returns (complete: nat)
    requires Appendable(previous, payloads) && n <= |Log(crc, payloads)|
    ensures Keeps(crc, payloads, previous, n, complete)
    decreases |payloads|
  {
    hide StampOf, FrameBytes, Growing, Scan, Keeps;
    if n == |Log(crc, payloads)| {
      complete := |payloads|;
      KeepsAll(crc, payloads, previous);
    } else {
      var init, last := payloads[..|payloads| - 1], payloads[|payloads| - 1];
      assert payloads == init + [last];
      AppendablePrefix(previous, payloads, |payloads| - 1);
      if |Log(crc, init)| <= n {
        complete := |init|;
        KeepsAllButLast(crc, init, last, previous, n);
      } else {
        complete := TornLogKeepsCompleteFrames(crc, init, previous, n);
        KeepsEarlier(crc, init, last, previous, n, complete);
      }
    }
  }

  /** A streamed append interrupted before its header is final leaves exactly the earlier frames. */
  lemma InterruptedStreamKeepsLog(crc: Checksum, payloads: seq<Payload>, previous: Stamp, written: Bytes)
    requires Appendable(previous, payloads)
    ensures
      var r := Scan(crc, Log(crc, payloads) + ([0, 0, 0, 0, 0, 0, 0, 0] + written), previous);
      r.stamps == Stamps(payloads) && r.size == |Log(crc, payloads)|
  {
    hide StampOf, FirstFrame;
    LogReadBack(crc, payloads, previous);
    PlaceholderRejected(crc, written);
    ScanConcat(crc, Log(crc, payloads), [0, 0, 0, 0, 0, 0, 0, 0] + written, previous);
  }

  lemma LogLast(crc: Checksum, init: seq<Payload>, last: Payload)
    ensures Log(crc, init + [last]) == Log(crc, init) + FrameBytes(crc, last)
  {
    assert (init + [last])[..|init|] == init;
  }

  lemma Assoc(a: Bytes, b: Bytes, c: Bytes)
    ensures (a + b) + c == a + (b + c)
  {
  }

  lemma {:induction false} LogCons(crc: Checksum, first: Payload, rest: seq<Payload>)
    ensures Log(crc, [first] + rest) == FrameBytes(crc, first) + Log(crc, rest)
    decreases |rest|
  {
    if rest == [] {
      LogLast(crc, [], first);
      assert [] + [first] == [first] + rest;
    } else {
      hide FrameBytes, Log;
      var init, last := rest[..|rest| - 1], rest[|rest| - 1];
      LogCons(crc, first, init);
      LogLast(crc, [first] + init, last);
      LogLast(crc, init, last);
      assert ([first] + init) + [last] == [first] + rest && init + [last] == rest;
      Assoc(FrameBytes(crc, first), Log(crc, init), FrameBytes(crc, last));
    }
  }

  /** An accepted frame is the frame of its payload. */
  lemma AcceptedFrame(crc: Checksum, data: Bytes) returns (payload: Payload)
    requires FirstFrame(crc, data).Some?
    ensures
      var frame := FirstFrame(crc, data).value;
      frame.stamp == StampOf(payload) && data[..frame.size] == FrameBytes(crc, payload)
  {
    hide PayloadStamp;
    var size := FirstFrame(crc, data).value.size;
    payload := data[HEADER_SIZE..size];
    LePutLe(data[..4]);
    LePutLe(data[4..8]);
    assert data[..size] == data[..4] + data[4..8] + data[HEADER_SIZE..size];
  }

  /** A file that scans cleanly is a sequence of frames of increasing LSNs, and nothing else. */
  lemma {:induction false} CleanIsLog(crc: Checksum, data: Bytes, previous: Stamp) returns (payloads: seq<Payload>)
    requires Scan(crc, data, previous).clean
    ensures Appendable(previous, payloads) && Log(crc, payloads) == data
    ensures Stamps(payloads) == Scan(crc, data, previous).stamps
    decreases |data|
  {
    hide FirstFrame, Scan, StampOf, Growing, FrameBytes;
    ScanGrowing(crc, data, previous);
    if data == [] {
      payloads := [];
      ScanNothing(crc);
    } else {
      ScanGoesOn(crc, data, previous);
      var frame := FirstFrame(crc, data).value;
      ScanStep(crc, data, previous, frame);
      var first := AcceptedFrame(crc, data);
      var rest := CleanIsLog(crc, data[frame.size..], frame.stamp);
      payloads := [first] + rest;
      LogCons(crc, first, rest);
      assert data == data[..frame.size] + data[frame.size..];
      assert Stamps(payloads) == [StampOf(first)] + Stamps(rest);
    }
  }

  /** Exactly the logs of appendable payloads scan cleanly. */
  lemma CleanIffLog(crc: Checksum, data: Bytes, previous: Stamp)
    ensures Scan(crc, data, previous).clean <==>
      exists payloads: seq<Payload> :: Appendable(previous, payloads) && Log(crc, payloads) == data
  {
    hide Scan, Log, Appendable;
    if Scan(crc, data, previous).clean {
      var payloads := CleanIsLog(crc, data, previous);
    }
    if payloads: seq<Payload> :| Appendable(previous, payloads) && Log(crc, payloads) == data {
      LogReadBack(crc, payloads, previous);
    }
  }
}
