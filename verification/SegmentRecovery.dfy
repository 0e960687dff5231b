/** Recovery of a segment directory: finalized segments are validated independently of each other
    and then stitched together, and the partial tail is cut at its first invalid frame
    (recoverDirectoryWithConfig, internal/cdc/segment.go:597-731). The result is the one a single
    sequential scan gives, recovery is idempotent, and durable frames always survive it. */
module SegmentRecovery {
  import opened Wrappers
  import opened Model
  import opened Frames

  datatype SegmentFile = SegmentFile(start: Lsn, partial: bool, data: Bytes)

  datatype SegmentRange = SegmentRange(start: Lsn, last: Stamp, size: nat)

  datatype Recovery = Recovery(last: Stamp, finalized: seq<SegmentRange>, tail: Option<Bytes>, truncated: nat)

  const ORIGIN := Stamp(0, 0)

  // --- One sequential scan ---

  predicate TailLast(segments: seq<SegmentFile>) {
    forall i :: 0 <= i < |segments| - 1 ==> !segments[i].partial
  }

  function Finalized(segments: seq<SegmentFile>): seq<SegmentFile> {
    if segments != [] && segments[|segments| - 1].partial then segments[..|segments| - 1] else segments
  }

  /** The ranges of the finalized segments, or nothing if one of them is damaged or out of order. */
  function Ranges(crc: Checksum, files: seq<SegmentFile>): (r: Option<seq<SegmentRange>>)
    ensures r.Some? ==> |r.value| == |files|
  {
    if files == [] then Some([])
    else
      var init, file := Ranges(crc, files[..|files| - 1]), files[|files| - 1];
      if init.None? then None
      else
        var scan := Scan(crc, file.data, LastOf(init.value));
        if !scan.clean then None
        else Some(init.value + [SegmentRange(file.start, LastStamp(LastOf(init.value), scan.stamps), |file.data|)])
  }

  function LastOf(ranges: seq<SegmentRange>): Stamp {
    if ranges == [] then ORIGIN else ranges[|ranges| - 1].last
  }

  function RecoverInOrder(crc: Checksum, segments: seq<SegmentFile>): Option<Recovery> {
    if !TailLast(segments) || Ranges(crc, Finalized(segments)).None? then None
    else
      var ranges := Ranges(crc, Finalized(segments)).value;
      if Finalized(segments) == segments then Some(Recovery(LastOf(ranges), ranges, None, 0))
      else
        var data := segments[|segments| - 1].data;
        var scan := Scan(crc, data, LastOf(ranges));
        Some(Recovery(LastStamp(LastOf(ranges), scan.stamps), ranges, Some(data[..scan.size]), |data| - scan.size))
  }

  // --- Independent scans stitched together ---

  /** How a scan that knows nothing about earlier segments fits behind them. */
  predicate FitsBehind(previous: Stamp, stamps: seq<Stamp>) {
    stamps == [] || (previous.commit < stamps[0].commit && previous.end < stamps[0].end)
  }

  /** Scanning a segment alone and comparing its first frame decides what scanning it in place does. */
  lemma IndependentScan(crc: Checksum, data: Bytes, previous: Stamp)
    ensures
      var alone, inPlace := Scan(crc, data, ORIGIN), Scan(crc, data, previous);
      && (inPlace.clean <==> alone.clean && FitsBehind(previous, alone.stamps))
      && (inPlace.clean ==> inPlace == alone)
  {
    hide FirstFrame, Scan;
    if data == [] {
      ScanNothing(crc);
    } else {
      var frame := FirstFrame(crc, data);
      if frame.None? {
        ScanStops(crc, data, previous);
        ScanStops(crc, data, ORIGIN);
      } else if !Follows(ORIGIN, frame.value.stamp) {
        ScanStops(crc, data, ORIGIN);
        ScanStops(crc, data, previous);
      } else {
        ScanStep(crc, data, ORIGIN, frame.value);
        if Follows(previous, frame.value.stamp) {
          ScanStep(crc, data, previous, frame.value);
        } else {
          ScanStops(crc, data, previous);
        }
      }
    }
  }

  lemma RangesNext(crc: Checksum, files: seq<SegmentFile>, i: nat)
    requires i < |files| && Ranges(crc, files[..i]).Some?
    ensures
      var ranges := Ranges(crc, files[..i]).value;
      var alone := Scan(crc, files[i].data, ORIGIN);
      Ranges(crc, files[..i + 1]) ==
        if alone.clean && FitsBehind(LastOf(ranges), alone.stamps) then
          Some(ranges + [SegmentRange(files[i].start, LastStamp(LastOf(ranges), alone.stamps), |files[i].data|)])
        else None
  {
    hide Scan;
    assert files[..i + 1][..i] == files[..i];
    IndependentScan(crc, files[i].data, LastOf(Ranges(crc, files[..i]).value));
  }

  lemma {:induction false} RangesFail(crc: Checksum, files: seq<SegmentFile>, i: nat)
    requires i <= |files| && Ranges(crc, files[..i]).None?
    ensures Ranges(crc, files).None?
    decreases |files|
  {
    hide Scan;
    if i == |files| {
      assert files[..i] == files;
    } else {
      assert files[..|files| - 1][..i] == files[..i];
      RangesFail(crc, files[..|files| - 1], i);
    }
  }

  datatype SegmentScan = SegmentScan(first: Stamp, last: Stamp, frames: nat, clean: bool)

  /** One recovery worker's result for one segment. */
  predicate ScanOf(crc: Checksum, data: Bytes, scan: SegmentScan) {
    var r := Scan(crc, data, ORIGIN);
    && scan.clean == r.clean && scan.frames == |r.stamps| && scan.last == LastStamp(ORIGIN, r.stamps)
    && (scan.frames > 0 ==> scan.first == r.stamps[0])
  }

  method StitchSegments(crc: Checksum, files: seq<SegmentFile>, scans: seq<SegmentScan>) returns (ranges: Option<seq<SegmentRange>>)
    requires |scans| == |files| && forall i :: 0 <= i < |files| ==> ScanOf(crc, files[i].data, scans[i])
    ensures ranges == Ranges(crc, files)
  {
    hide Scan, Ranges;
    var previous, stitched := ORIGIN, [];
    assert Ranges(crc, files[..0]) == Some([]) by {
      NoRanges(crc, files[..0]);
    }
    for i := 0 to |files|
      invariant Ranges(crc, files[..i]) == Some(stitched) && previous == LastOf(stitched)
    {
      var scan := scans[i];
      RangesNext(crc, files, i);
      if !scan.clean {
        RangesFail(crc, files, i + 1);
        return None;
      }
      if scan.frames != 0 {
        if scan.first.commit <= previous.commit || scan.first.end <= previous.end {
          RangesFail(crc, files, i + 1);
          return None;
        }
        previous := scan.last;
      }
      stitched := stitched + [SegmentRange(files[i].start, previous, |files[i].data|)];
    }
    assert files[..|files|] == files;
    ranges := Some(stitched);
  }

  lemma NoRanges(crc: Checksum, files: seq<SegmentFile>)
    requires files == []
    ensures Ranges(crc, files) == Some([])
  {
  }

  /** The workers may finish in any order: each writes only its own slot of the results. */
  method RecoverDirectory(crc: Checksum, segments: seq<SegmentFile>) returns (result: Option<Recovery>)
    ensures result == RecoverInOrder(crc, segments)
  {
    hide Scan, Ranges;
    var partialIndex: nat := |segments|;
    for i := 0 to |segments|
      invariant partialIndex == |segments| || partialIndex < i
      invariant partialIndex == |segments| ==> forall j :: 0 <= j < i ==> !segments[j].partial
      invariant partialIndex < |segments| ==>
        partialIndex == i - 1 && segments[partialIndex].partial && forall j :: 0 <= j < partialIndex ==> !segments[j].partial
    {
      if partialIndex != |segments| {
        assert !TailLast(segments);
        return None;
      }
      if segments[i].partial {
        partialIndex := i;
      }
    }
    var files := segments[..partialIndex];
    assert files == Finalized(segments);
    var scans: seq<SegmentScan> := [];
    for i := 0 to |files|
      invariant |scans| == i && forall j :: 0 <= j < i ==> ScanOf(crc, files[j].data, scans[j])
    {
      var first, last, size, frames, clean := ScanFile(crc, files[i].data, ORIGIN);
      scans := scans + [SegmentScan(first, last, frames, clean)];
    }
    var ranges := StitchSegments(crc, files, scans);
    if ranges.None? {
      return None;
    }
    var previous := LastOf(ranges.value);
    if partialIndex == |segments| {
      return Some(Recovery(previous, ranges.value, None, 0));
    }
    var data := segments[partialIndex].data;
    var first, last, size, frames, clean := ScanFile(crc, data, previous);
    result := Some(Recovery(last, ranges.value, Some(data[..size]), |data| - size));
  }

  // --- What recovery guarantees ---

  /** The directory recovery leaves behind. */
  function Repaired(segments: seq<SegmentFile>, recovery: Recovery): seq<SegmentFile> {
    if recovery.tail.None? || segments == [] then segments
    else segments[..|segments| - 1] + [segments[|segments| - 1].(data := recovery.tail.value)]
  }

  /** Recovering a recovered directory changes nothing. */
  lemma RecoveryIdempotent(crc: Checksum, segments: seq<SegmentFile>)
    requires RecoverInOrder(crc, segments).Some?
    ensures
      var recovery := RecoverInOrder(crc, segments).value;
      RecoverInOrder(crc, Repaired(segments, recovery)) == Some(recovery.(truncated := 0))
  {
    hide Scan, Ranges;
    var recovery := RecoverInOrder(crc, segments).value;
    if recovery.tail.Some? {
      var again := Repaired(segments, recovery);
      assert Finalized(again) == Finalized(segments);
      AcceptedIsClean(crc, segments[|segments| - 1].data, LastOf(recovery.finalized));
      assert recovery.tail.value[..|recovery.tail.value|] == recovery.tail.value;
    }
  }

  /** The stamps of the finalized segments, in order. */
  function FinalizedStamps(crc: Checksum, files: seq<SegmentFile>): seq<Stamp> {
    if files == [] then []
    else
      var init := FinalizedStamps(crc, files[..|files| - 1]);
      init + Scan(crc, files[|files| - 1].data, LastStamp(ORIGIN, init)).stamps
  }

  /** Every transaction of a recovered directory, in order. */
  function RecoveredStamps(crc: Checksum, segments: seq<SegmentFile>): seq<Stamp> {
    if Finalized(segments) == segments then FinalizedStamps(crc, segments)
    else
      var init := FinalizedStamps(crc, Finalized(segments));
      init + Scan(crc, segments[|segments| - 1].data, LastStamp(ORIGIN, init)).stamps
  }

  lemma GrowingConcat(previous: Stamp, s: seq<Stamp>, t: seq<Stamp>)
    requires Growing(previous, s) && Growing(LastStamp(previous, s), t)
    ensures Growing(previous, s + t)
  {
    hide Follows;
    forall i: nat | i < |s + t| ensures FollowsAt(previous, s + t, i) {
      if i < |s| {
        assert FollowsAt(previous, s, i);
      } else {
        assert FollowsAt(LastStamp(previous, s), t, i - |s|);
      }
    }
  }

  lemma {:induction false} FinalizedGrowing(crc: Checksum, files: seq<SegmentFile>)
    ensures Growing(ORIGIN, FinalizedStamps(crc, files))
    ensures Ranges(crc, files).Some? ==> LastOf(Ranges(crc, files).value) == LastStamp(ORIGIN, FinalizedStamps(crc, files))
    decreases |files|
  {
    hide Scan, Growing;
    if files == [] {
      assert Growing(ORIGIN, []) by {
        NoGrowth(ORIGIN);
      }
    } else {
      var init := FinalizedStamps(crc, files[..|files| - 1]);
      FinalizedGrowing(crc, files[..|files| - 1]);
      ScanGrowing(crc, files[|files| - 1].data, LastStamp(ORIGIN, init));
      GrowingConcat(ORIGIN, init, Scan(crc, files[|files| - 1].data, LastStamp(ORIGIN, init)).stamps);
    }
  }

  lemma NoGrowth(previous: Stamp)
    ensures Growing(previous, [])
  {
  }

  /** The LSNs of a recovered log strictly increase, and recovery reports the last of them. */
  lemma RecoveredGrowing(crc: Checksum, segments: seq<SegmentFile>)
    requires RecoverInOrder(crc, segments).Some?
    ensures Growing(ORIGIN, RecoveredStamps(crc, segments))
    ensures RecoverInOrder(crc, segments).value.last == LastStamp(ORIGIN, RecoveredStamps(crc, segments))
  {
    hide Scan, Ranges, Growing, FinalizedStamps;
    var files := Finalized(segments);
    FinalizedGrowing(crc, files);
    if files != segments {
      var init := FinalizedStamps(crc, files);
      var data := segments[|segments| - 1].data;
      ScanGrowing(crc, data, LastStamp(ORIGIN, init));
      GrowingConcat(ORIGIN, init, Scan(crc, data, LastStamp(ORIGIN, init)).stamps);
    }
  }

  /** Whatever bytes follow the durable ones, every durable transaction survives recovery in place. */
  lemma DurableFramesSurvive(crc: Checksum, files: seq<SegmentFile>, start: Lsn, durable: Bytes, garbage: Bytes)
    requires forall i :: 0 <= i < |files| ==> !files[i].partial
    requires Ranges(crc, files).Some?
    requires Scan(crc, durable, LastOf(Ranges(crc, files).value)).clean
    ensures
      var intact := files + [SegmentFile(start, true, durable)];
      var crashed := files + [SegmentFile(start, true, durable + garbage)];
      && RecoverInOrder(crc, crashed).Some?
      && RecoveredStamps(crc, intact) <= RecoveredStamps(crc, crashed)
      && durable <= RecoverInOrder(crc, crashed).value.tail.value
  {
    hide Scan, Ranges, FinalizedStamps;
    FinalizedGrowing(crc, files);
    var crashed := files + [SegmentFile(start, true, durable + garbage)];
    var intact := files + [SegmentFile(start, true, durable)];
    assert Finalized(crashed) == files && Finalized(intact) == files;
    ScanConcat(crc, durable, garbage, LastOf(Ranges(crc, files).value));
  }
}
