/** A concrete run in which a refresh out of turn makes the reader skip a durable transaction: the
    reader works through three segments, two more are written, it refreshes, the first segment is
    pruned, and it refreshes again before it is asked for the next transaction
    (internal/cdc/reader.go:282-329). */
module SkippedSegment {
  import opened Wrappers
  import opened Model
  import opened Frames
  import opened Following
  import opened FollowedLog
  import opened FollowedRuns

  /** Transaction `i` commits and ends at `i`, in a segment of its own named `i`. */
  function T(i: Lsn): Stamp {
    Stamp(i, i)
  }

  function Three(): Disk {
    Disk([T(1), T(2), T(3)], [1, 2, 3], [0, 1, 2], 0, false, 3)
  }

  function Five(): Disk {
    Disk([T(1), T(2), T(3), T(4), T(5)], [1, 2, 3, 4, 5], [0, 1, 2, 3, 4], 0, true, 5)
  }

  function Writes(): seq<Event> {
    [Open(4), Append(T(4)), Rotate, Open(5), Append(T(5)), Sync]
  }

  // --- Single turns ---

  predicate AtSegment(s: System, k: nat) {
    && s.reader.file.None? && s.reader.pending.None? && s.reader.index < |s.reader.snapshot|
    && s.disk.pruned <= k < |s.disk.starts| == |s.disk.cuts| && s.reader.snapshot[s.reader.index].start == s.disk.starts[k]
    && s.reader.snapshot[s.reader.index].partial == !IsFinalized(s.disk, k)
  }

  function Opened(s: System, k: nat): System
    requires k < |s.disk.cuts|
  {
    s.(reader := s.reader.(file := Some(Handle(k, s.disk.cuts[k]))), mayRefresh := false)
  }

  lemma OnlySegment(d: Disk, e: Entry, k: nat)
    requires DiskOk(d) && d.pruned <= k < |d.starts| && e == Entry(d.starts[k], !IsFinalized(d, k))
    ensures Exists(d, e, k) && forall j: nat :: Exists(d, e, j) ==> j == k
  {
    hide DiskOk;
    forall j: nat | Exists(d, e, j) ensures j == k {
      if j != k {
        OtherName(d, j, k);
      }
    }
  }

  lemma Opens(s: System, k: nat)
    requires DiskOk(s.disk) && AtSegment(s, k)
    ensures Execute(s, [Next]) == Running(Opened(s, k))
  {
    OnlySegment(s.disk, s.reader.snapshot[s.reader.index], k);
    hide DiskOk, Exists, Execute, IsFinalized;
    ExecuteOne(s, Next);
  }

  lemma TurnReturns(r: Reader, d: Disk, k: nat, position: nat)
    requires d.pruned <= |d.starts| && r.pending.None? && r.file == Some(Handle(k, position))
    requires HandleOk(d, Handle(k, position)) && r.index < |r.snapshot| && position < SegmentEnd(d, k)
    requires var t := d.log[position];
             Follows(r.previous, t) && r.after < t.commit && t.end <= r.gate
    ensures Turn(r, d) ==
      (r.(file := Some(Handle(k, position + 1)), previous := d.log[position]), Emit(d.log[position]))
  {
    hide Follows;
  }

  /** A wanted durable transaction is returned. */
  lemma Returns(s: System, k: nat, position: nat)
    requires DiskOk(s.disk) && FileReadable(s) && s.reader.pending.None? && s.reader.file == Some(Handle(k, position))
    requires position < SegmentEnd(s.disk, k)
    requires var t := s.disk.log[position];
             Follows(s.reader.previous, t) && s.reader.after < t.commit && t.end <= s.reader.gate
    ensures var t := s.disk.log[position];
            Execute(s, [Next])
            == Running(System(s.disk, s.reader.(file := Some(Handle(k, position + 1)), previous := t),
                              s.emitted + [t], s.floor, true))
  {
    hide DiskOk, Follows, Execute;
    TurnReturns(s.reader, s.disk, k, position);
    hide Turn;
    ExecuteOne(s, Next);
  }

  lemma Leaves(s: System, k: nat, position: nat)
    requires DiskOk(s.disk) && FileReadable(s) && s.reader.pending.None? && s.reader.file == Some(Handle(k, position))
    requires position >= SegmentEnd(s.disk, k) && !s.reader.snapshot[s.reader.index].partial
    ensures Execute(s, [Next])
            == Running(s.(reader := s.reader.(file := None, index := s.reader.index + 1), mayRefresh := false))
  {
    hide DiskOk, Execute;
    ExecuteOne(s, Next);
  }

  /** What three turns do with a finalized segment of one wanted transaction. */
  lemma SegmentRead(s: System, k: nat)
    requires DiskOk(s.disk) && AtSegment(s, k) && IsFinalized(s.disk, k)
    requires s.disk.cuts[k] < |s.disk.log| && SegmentEnd(s.disk, k) == s.disk.cuts[k] + 1
    requires var t := s.disk.log[s.disk.cuts[k]];
             Follows(s.reader.previous, t) && s.reader.after < t.commit && t.end <= s.reader.gate
    ensures var t := s.disk.log[s.disk.cuts[k]];
            Execute(s, [Next, Next, Next])
            == Running(System(s.disk, s.reader.(index := s.reader.index + 1, previous := t), s.emitted + [t], s.floor, false))
  {
    hide DiskOk, Follows, Execute;
    var t, cut := s.disk.log[s.disk.cuts[k]], s.disk.cuts[k];
    Opens(s, k);
    Returns(Opened(s, k), k, cut);
    var read := System(
      s.disk, s.reader.(file := Some(Handle(k, cut + 1)), previous := t), s.emitted + [t], s.floor, true);
    Leaves(read, k, cut + 1);
    ExecuteConcat(s, [Next], [Next]);
    ExecuteConcat(s, [Next] + [Next], [Next]);
    assert [Next] + [Next] + [Next] == [Next, Next, Next];
  }

  /** A segment opened for one transaction. */
  lemma SegmentWritten(s: System, start: Lsn, t: Stamp)
    requires DiskOk(s.disk) && MayOpen(s.disk, start) && Follows(if s.disk.log == [] then ORIGIN else s.disk.log[|s.disk.log| - 1], t)
    ensures DiskOk(AfterAppend(AfterOpen(s, start), t).disk)
    ensures Execute(s, [Open(start), Append(t)]) == Running(AfterAppend(AfterOpen(s, start), t))
  {
    var a := AfterOpen(s, start);
    OpenDisk(s.disk, a.disk, start, 0, 0);
    AppendDisk(a.disk, AfterAppend(a, t).disk, t, 0, 0);
    hide DiskOk, Follows, Execute, MayOpen;
    ExecuteOne(s, Open(start));
    ExecuteOne(a, Append(t));
    ExecuteConcat(s, [Open(start)], [Append(t)]);
    assert [Open(start)] + [Append(t)] == [Open(start), Append(t)];
  }

  lemma Rotates(s: System)
    requires DiskOk(s.disk) && MayRotate(s.disk)
    ensures Execute(s, [Rotate]) == Running(AfterRotate(s))
  {
    hide DiskOk, Execute;
    ExecuteOne(s, Rotate);
  }

  lemma Syncs(s: System)
    requires DiskOk(s.disk)
    ensures Execute(s, [Sync]) == Running(AfterSync(s))
  {
    hide DiskOk, Execute;
    ExecuteOne(s, Sync);
  }

  // --- The run ---

  function Reading(index: nat, gate: Lsn, previous: Stamp): Reader {
    Reader([Entry(1, false), Entry(2, false), Entry(3, false)], index, None, 0, gate, previous, None)
  }

  lemma ThreeStarts()
    ensures StartOk(Three(), 3, 0)
    ensures Start(Three(), 0, 3, 0) == System(Three(), Reading(0, 3, ORIGIN), [], 0, true)
  {
    var d := Three();
    forall k: nat | IsFinalized(d, k) ensures d.cuts[k] < SegmentEnd(d, k) {
      assert k == 0 || k == 1 || k == 2;
    }
    assert Listing(d) == [Entry(1, false), Entry(2, false), Entry(3, false)];
  }

  function Four(): Disk {
    Disk([T(1), T(2), T(3), T(4)], [1, 2, 3, 4], [0, 1, 2, 3], 0, false, 3)
  }

  function Base(d: Disk, r: Reader): System {
    System(d, r, [], 0, true)
  }

  function FourOpen(): Disk {
    Four().(tailPartial := true)
  }

  lemma GrowsToFour(r: Reader)
    ensures MayOpen(Three(), 4) && Follows(T(3), T(4))
    ensures AfterAppend(AfterOpen(Base(Three(), r), 4), T(4)) == Base(FourOpen(), r)
    ensures MayRotate(FourOpen()) && AfterRotate(Base(FourOpen(), r)) == Base(Four(), r)
  {
  }

  lemma GrowsToFive(r: Reader)
    ensures MayOpen(Four(), 5) && Follows(T(4), T(5))
    ensures AfterAppend(AfterOpen(Base(Four(), r), 5), T(5)) == Base(Five().(durable := 3), r)
    ensures AfterSync(Base(Five().(durable := 3), r)) == Base(Five(), r)
  {
  }

  lemma FourWritten(r: Reader)
    ensures Execute(Base(Three(), r), [Open(4), Append(T(4)), Rotate]) == Running(Base(Four(), r))
    ensures DiskOk(Four())
  {
    assert [Open(4), Append(T(4))] + [Rotate] == [Open(4), Append(T(4)), Rotate];
    assert Three().log == [T(1), T(2), T(3)];
    ThreeStarts();
    GrowsToFour(r);
    hide DiskOk, Execute, MayOpen, MayRotate, AfterOpen, AfterAppend, AfterRotate, Follows, Three, FourOpen, Four;
    SegmentWritten(Base(Three(), r), 4, T(4));
    RotateDisk(FourOpen(), Four(), 0, 0);
    Rotates(Base(FourOpen(), r));
    ExecuteConcat(Base(Three(), r), [Open(4), Append(T(4))], [Rotate]);
  }

  lemma FiveWritten(r: Reader)
    requires DiskOk(Four())
    ensures Execute(Base(Four(), r), [Open(5), Append(T(5)), Sync]) == Running(Base(Five(), r))
    ensures DiskOk(Five())
  {
    assert [Open(5), Append(T(5))] + [Sync] == [Open(5), Append(T(5)), Sync];
    assert Four().log == [T(1), T(2), T(3), T(4)];
    GrowsToFive(r);
    hide DiskOk, Execute, MayOpen, AfterOpen, AfterAppend, AfterSync, Follows, Four, Five;
    SegmentWritten(Base(Four(), r), 5, T(5));
    SameDiskOk(Five().(durable := 3), Five());
    Syncs(Base(Five().(durable := 3), r));
    ExecuteConcat(Base(Four(), r), [Open(5), Append(T(5))], [Sync]);
  }

  /** Two more segments are written and synced. */
  lemma Written(r: Reader)
    ensures Execute(Base(Three(), r), Writes()) == Running(Base(Five(), r))
    ensures DiskOk(Five())
  {
    assert [Open(4), Append(T(4)), Rotate] + [Open(5), Append(T(5)), Sync] == Writes();
    hide *;
    FourWritten(r);
    FiveWritten(r);
    ExecuteConcat(Base(Three(), r), [Open(4), Append(T(4)), Rotate], [Open(5), Append(T(5)), Sync]);
  }

  lemma SameDiskOk(d: Disk, t: Disk)
    requires DiskOk(d) && t == d.(durable := t.durable)
    ensures DiskOk(t)
  {
    hide NamesRise, CutsRise, Rising;
    assert forall k: nat :: IsFinalized(t, k) <==> IsFinalized(d, k);
    assert forall k: nat :: k < |t.cuts| ==> SegmentEnd(t, k) == SegmentEnd(d, k);
  }

  /** The reader after the first `n` segments. */
  function After(n: nat): System
    requires n <= 3
  {
    System(Five(), Reading(n, 3, if n == 0 then ORIGIN else T(n)), [T(1), T(2), T(3)][..n], 0, n == 0)
  }

  lemma ReadsOne(n: nat)
    requires n < 3 && DiskOk(Five())
    ensures Execute(After(n), [Next, Next, Next]) == Running(After(n + 1))
  {
    hide DiskOk, Execute;
    assert AtSegment(After(n), n) && IsFinalized(Five(), n);
    assert Five().log[Five().cuts[n]] == T(n + 1);
    assert [T(1), T(2), T(3)][..n + 1] == [T(1), T(2), T(3)][..n] + [T(n + 1)];
    SegmentRead(After(n), n);
  }

  function Reads(n: nat): seq<Event> {
    if n == 0 then [] else Reads(n - 1) + [Next, Next, Next]
  }

  lemma {:induction false} ReadsAll(n: nat)
    requires n <= 3 && DiskOk(Five())
    ensures Execute(After(0), Reads(n)) == Running(After(n))
  {
    if n > 0 {
      ReadsAll(n - 1);
      ReadsOne(n - 1);
      hide *;
      ExecuteConcat(After(0), Reads(n - 1), [Next, Next, Next]);
      assert Reads(n) == Reads(n - 1) + [Next, Next, Next] by {
        ReadsStep(n);
      }
    } else {
      NothingExecuted(After(0));
    }
  }

  lemma ReadsStep(n: nat)
    requires n > 0
    ensures Reads(n) == Reads(n - 1) + [Next, Next, Next]
  {
  }

  lemma NothingExecuted(s: System)
    ensures Execute(s, []) == Running(s)
  {
  }

  /** The end is reported, and the reader refreshed in turn. */
  function BeforeFour(pruned: nat): System {
    System(
      Five().(pruned := pruned),
      Reader([Entry(1, false), Entry(2, false), Entry(3, false), Entry(4, false), Entry(5, true)], 3, None, 0, 5, T(3), None),
      [T(1), T(2), T(3)], 0, false)
  }

  lemma RefreshedInTurn()
    requires DiskOk(Five())
    ensures Execute(After(3), [Next, Refresh(5), Prune(1)]) == Running(BeforeFour(1))
  {
    var ended := After(3).(mayRefresh := true);
    assert [T(1), T(2), T(3)][..3] == [T(1), T(2), T(3)];
    FiveListing(0);
    assert FirstFrom(Listing(Five()), 3, 0) == 2;
    hide DiskOk, Execute;
    ExecuteOne(After(3), Next);
    assert Step(After(3), Next) == ended;
    ExecuteOne(ended, Refresh(5));
    assert Step(ended, Refresh(5)) == BeforeFour(0);
    ExecuteOne(BeforeFour(0), Prune(1));
    hide *;
    ExecuteConcat(After(3), [Next], [Refresh(5)]);
    ExecuteConcat(After(3), [Next] + [Refresh(5)], [Prune(1)]);
    assert [Next] + [Refresh(5)] + [Prune(1)] == [Next, Refresh(5), Prune(1)];
  }

  lemma FiveListing(pruned: nat)
    requires pruned <= 1
    ensures Listing(Five().(pruned := pruned))
            == [Entry(1, false), Entry(2, false), Entry(3, false), Entry(4, false), Entry(5, true)][pruned..]
  {
  }

  lemma ReachesFour()
    ensures StartOk(Three(), 3, 0)
    ensures Execute(Start(Three(), 0, 3, 0), Writes() + Reads(3) + [Next, Refresh(5), Prune(1)]) == Running(BeforeFour(1))
    ensures DiskOk(BeforeFour(1).disk)
  {
    ThreeStarts();
    Written(Reading(0, 3, ORIGIN));
    ReadsAll(3);
    RefreshedInTurn();
    StartIsBase();
    PrunedOk();
    hide *;
    ExecuteConcat(Start(Three(), 0, 3, 0), Writes(), Reads(3));
    ExecuteConcat(Start(Three(), 0, 3, 0), Writes() + Reads(3), [Next, Refresh(5), Prune(1)]);
  }

  lemma StartIsBase()
    ensures Start(Three(), 0, 3, 0) == Base(Three(), Reading(0, 3, ORIGIN))
    ensures Base(Five(), Reading(0, 3, ORIGIN)) == After(0)
  {
    ThreeStarts();
    assert [T(1), T(2), T(3)][..0] == [];
  }

  lemma PrunedOk()
    requires DiskOk(Five())
    ensures DiskOk(Five().(pruned := 1))
  {
    hide NamesRise, CutsRise, Rising;
    var d, t := Five(), Five().(pruned := 1);
    assert forall k: nat :: IsFinalized(t, k) <==> IsFinalized(d, k);
    assert forall k: nat :: k < |t.cuts| ==> SegmentEnd(t, k) == SegmentEnd(d, k);
  }

  /** The reader after the second refresh: it opens segment 5 and returns transaction 5. */
  function PastFour(): System {
    System(Five().(pruned := 1),
      Reader([Entry(2, false), Entry(3, false), Entry(4, false), Entry(5, true)], 3, None, 0, 5, T(3), None),
      [T(1), T(2), T(3)], 0, false)
  }

  lemma OutOfTurn()
    ensures KeepsIndex(BeforeFour(1).reader) && !IndexStillRight(BeforeFour(1))
    ensures AfterRefresh(BeforeFour(1), 5) == PastFour()
  {
    FiveListing(1);
    assert Listing(BeforeFour(1).disk) == [Entry(2, false), Entry(3, false), Entry(4, false), Entry(5, true)];
    assert FirstFrom(Listing(BeforeFour(1).disk), 4, 0) == 2;
  }

  function ReturnedFive(): System {
    System(Five().(pruned := 1), PastFour().reader.(file := Some(Handle(4, 5)), previous := T(5)),
      [T(1), T(2), T(3), T(5)], 0, true)
  }

  lemma AtFive()
    ensures AtSegment(PastFour(), 4) && PastFour().disk.cuts[4] == 4 && SegmentEnd(PastFour().disk, 4) == 5
    ensures PastFour().disk.log[4] == T(5) && Follows(T(3), T(5))
    ensures FileReadable(Opened(PastFour(), 4))
    ensures PastFour().emitted + [T(5)] == ReturnedFive().emitted
  {
  }

  lemma ReturnsFive()
    requires DiskOk(PastFour().disk)
    ensures Execute(PastFour(), [Next, Next]) == Running(ReturnedFive())
  {
    assert [Next] + [Next] == [Next, Next];
    AtFive();
    hide DiskOk, Execute, FileReadable, AtSegment, Follows;
    Opens(PastFour(), 4);
    Returns(Opened(PastFour(), 4), 4, 4);
    hide *;
    ExecuteConcat(PastFour(), [Next], [Next]);
  }

  /** A refresh without a call of `Next` since the last one can lose a transaction: in a run from a new
      reader on a sound directory, transaction 4 is owed, and after a second refresh in a row the reader
      returns transaction 5 with 4 never returned. Its index was wrong in the new listing. */
  lemma RefreshOutOfTurnSkips()
    ensures StartOk(Three(), 3, 0)
    ensures Execute(Start(Three(), 0, 3, 0), Writes() + Reads(3) + [Next, Refresh(5), Prune(1)]) == Running(BeforeFour(1))
    ensures Owed(BeforeFour(1), 3) && KeepsIndex(BeforeFour(1).reader) && !IndexStillRight(BeforeFour(1))
    ensures Execute(AfterRefresh(BeforeFour(1), 5), [Next, Next]) == Running(ReturnedFive())
    ensures ReturnedFive().emitted == [T(1), T(2), T(3), T(5)] && Owed(ReturnedFive(), 3)
  {
    OwesFour();
    ReachesFour();
    OutOfTurn();
    hide Execute, StartOk, DiskOk;
    ReturnsFive();
  }

  lemma OwesFour()
    ensures Owed(BeforeFour(1), 3) && Owed(ReturnedFive(), 3)
  {
  }
}
