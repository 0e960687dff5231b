/** Over every interleaving of writer, pruner and reader: each durable transaction above the starting
    progress is returned exactly once, in order and never before it is durable, and a reader that
    stops short of an unread one returns it after refreshing. */
module FollowedLog {
  import opened Wrappers
  import opened Model
  import opened Frames
  import opened Following

  /** Everything after segment `k` lies above the floor. */
  ghost predicate NewerAbove(d: Disk, k: nat, floor: Lsn)
    requires k < |d.cuts|
  {
    forall i :: SegmentEnd(d, k) <= i < |d.log| ==> floor < d.log[i].end
  }

  /** Entry `e` of the reader's listing stands for segment `k`. A partial entry may be out of date, but
      then nothing after it has been applied, so nothing of it is pruned. */
  ghost predicate Matches(d: Disk, floor: Lsn, e: Entry, k: nat, last: bool) {
    && k < |d.starts| == |d.cuts| && e.start == d.starts[k]
    && if e.partial then last && d.pruned <= k && NewerAbove(d, k, floor) else IsFinalized(d, k)
  }

  /** The reader stands before or inside segment `at`. */
  ghost predicate Tracks(s: System, at: nat) {
    var d, r := s.disk, s.reader;
    && at <= |d.starts| == |d.cuts| && r.index <= |r.snapshot|
    && (forall j: nat :: r.index <= j < |r.snapshot| ==>
          Matches(d, s.floor, r.snapshot[j], at + (j - r.index), j == |r.snapshot| - 1))
    && (r.file.Some? ==>
          && r.index < |r.snapshot| && r.file.value.segment == at && at < |d.cuts|
          && d.cuts[at] <= r.file.value.position <= SegmentEnd(d, at))
    && (r.file.None? && r.index == |r.snapshot| ==>
          if r.snapshot == [] then at == 0
          else at > 0 && Matches(d, s.floor, r.snapshot[|r.snapshot| - 1], at - 1, true) && !r.snapshot[|r.snapshot| - 1].partial)
    && (r.file.None? && r.index < |r.snapshot| && s.mayRefresh ==>
          r.index == 0 && r.pending.None? && at <= d.pruned)
  }

  /** How much of the log the reader has worked through. */
  function Position(s: System, at: nat): nat {
    if s.reader.file.Some? then s.reader.file.value.position
    else if at < |s.disk.cuts| then s.disk.cuts[at] else |s.disk.log|
  }

  /** The first position that is still on disk. */
  function FirstLive(d: Disk): nat {
    if d.pruned < |d.cuts| then d.cuts[d.pruned] else 0
  }

  function Kept(s: System): seq<Stamp> {
    if s.reader.pending.None? then s.emitted else s.emitted + [s.reader.pending.value]
  }

  /** Where the reader stands it has returned what it should; what it has not read is still on disk
      or below the floor. */
  ghost predicate Reads(s: System, at: nat) {
    && Delivered(s.disk.log, Position(s, at), s.reader.after, s.floor, Kept(s), s.reader.previous)
    && DeletedBelow(s.disk, Position(s, at), s.floor)
    && s.floor <= s.disk.durable
    && s.reader.gate <= s.disk.durable <= LastEnd(s.disk.log)
    && (forall x :: x in s.emitted ==> x.end <= s.reader.gate)
    && (s.reader.pending.Some? ==> s.reader.file.Some?)
  }

  /** Deleted frames from `position` on lie below the floor. */
  predicate DeletedBelow(d: Disk, position: nat, floor: Lsn) {
    forall i :: position <= i < FirstLive(d) <= |d.log| ==> d.log[i].end < floor
  }

  ghost predicate Invariant(s: System, at: nat) {
    DiskOk(s.disk) && Tracks(s, at) && Reads(s, at)
  }

  lemma LiveInLog(d: Disk)
    requires DiskOk(d)
    ensures FirstLive(d) <= |d.log| && d.pruned <= |d.starts| == |d.cuts| && (|d.starts| == d.pruned ==> d.pruned == 0)
    ensures |d.cuts| == 0 ==> |d.log| == 0
    ensures |d.cuts| > 0 ==> d.cuts[0] == 0
  {
    hide NamesRise, NoneEmpty, Rising;
  }

  lemma CutsOrdered(d: Disk, i: nat, j: nat)
    requires DiskOk(d) && i <= j < |d.cuts|
    ensures d.cuts[i] <= d.cuts[j] <= SegmentEnd(d, j) <= |d.log|
    ensures i < j ==> SegmentEnd(d, i) <= d.cuts[j]
  {
    hide NamesRise, NoneEmpty, Rising;
  }

  lemma NamesDiffer(d: Disk, i: nat, j: nat)
    requires DiskOk(d) && i < j < |d.starts|
    ensures d.starts[i] < d.starts[j]
  {
    hide CutsRise, NoneEmpty, Rising;
  }

  /** The reader's entries stay valid when the directory changes. */
  ghost predicate EntriesSurvive(d: Disk, t: Disk, floor: Lsn, at: nat) {
    forall e, k: nat, last :: Matches(d, floor, e, k, last) && (at <= k || !e.partial) ==> Matches(t, floor, e, k, last)
  }

  /** A change of the directory that leaves the reader's entries valid leaves it where it stands. */
  lemma TracksLift(s: System, t: System, at: nat)
    requires Tracks(s, at) && t.floor == s.floor && s.disk.pruned <= t.disk.pruned
    requires t.reader.snapshot == s.reader.snapshot && t.reader.index == s.reader.index && t.reader.file == s.reader.file
    requires s.reader.file.None? ==> t.mayRefresh == s.mayRefresh && t.reader.pending == s.reader.pending
    requires at <= |t.disk.starts| == |t.disk.cuts| && EntriesSurvive(s.disk, t.disk, s.floor, at)
    requires s.reader.file.Some? ==>
      at < |t.disk.cuts| && t.disk.cuts[at] == s.disk.cuts[at] && SegmentEnd(s.disk, at) <= SegmentEnd(t.disk, at)
    ensures Tracks(t, at)
  {
    hide Matches;
    forall j: nat | t.reader.index <= j < |t.reader.snapshot|
      ensures Matches(t.disk, t.floor, t.reader.snapshot[j], at + (j - t.reader.index), j == |t.reader.snapshot| - 1)
    {
      assert Matches(s.disk, s.floor, s.reader.snapshot[j], at + (j - s.reader.index), j == |s.reader.snapshot| - 1);
    }
  }

  lemma OpenFile(s: System, at: nat)
    requires Tracks(s, at)
    ensures at <= |s.disk.starts| == |s.disk.cuts|
    ensures s.reader.file.Some? ==>
      && at < |s.disk.cuts| && s.reader.file.value.segment == at && s.reader.index < |s.reader.snapshot|
      && s.disk.cuts[at] <= s.reader.file.value.position <= SegmentEnd(s.disk, at)
  {
    hide Matches;
  }

  /** A reader past every segment has seen the tail finalized. */
  lemma PastAllIsFinal(s: System, at: nat)
    requires DiskOk(s.disk) && Tracks(s, at) && s.disk.tailPartial
    ensures at < |s.disk.cuts|
  {
    if s.reader.index < |s.reader.snapshot| {
      assert Matches(s.disk, s.floor, s.reader.snapshot[s.reader.index], at, s.reader.index == |s.reader.snapshot| - 1);
    }
  }

  // --- Writer and pruner steps ---

  lemma OpenRises(starts: seq<Lsn>, cuts: seq<nat>, length: nat, start: Lsn)
    requires NamesRise(starts) && CutsRise(cuts, length) && forall i :: 0 <= i < |starts| ==> starts[i] < start
    ensures NamesRise(starts + [start]) && CutsRise(cuts + [length], length)
  {
  }

  lemma OpenDisk(d: Disk, t: Disk, start: Lsn, floor: Lsn, at: nat)
    requires DiskOk(d) && MayOpen(d, start)
    requires t == d.(starts := d.starts + [start], cuts := d.cuts + [|d.log|], tailPartial := true)
    ensures DiskOk(t) && EntriesSurvive(d, t, floor, at)
  {
    OpenRises(d.starts, d.cuts, |d.log|, start);
    hide Rising, NamesRise, CutsRise;
    forall k: nat | k < |d.starts| ensures IsFinalized(t, k) && IsFinalized(d, k) && SegmentEnd(t, k) == SegmentEnd(d, k) {
    }
    forall k: nat | IsFinalized(t, k) ensures t.cuts[k] < SegmentEnd(t, k) {
      assert IsFinalized(d, k);
    }
  }

  lemma OpenKeeps(s: System, at: nat, start: Lsn)
    requires Invariant(s, at) && MayOpen(s.disk, start)
    ensures Invariant(AfterOpen(s, start), at)
  {
    hide Delivered, DiskOk, Tracks, EntriesSurvive, MayOpen;
    var t := AfterOpen(s, start);
    OpenDisk(s.disk, t.disk, start, s.floor, at);
    LiveInLog(s.disk);
    OpenFile(s, at);
    TracksLift(s, t, at);
  }

  lemma AppendDisk(d: Disk, next: Disk, t: Stamp, floor: Lsn, at: nat)
    requires DiskOk(d) && MayAppend(d, t) && floor <= LastEnd(d.log) && next == d.(log := d.log + [t])
    ensures DiskOk(next) && EntriesSurvive(d, next, floor, at)
    ensures LastEnd(d.log) < LastEnd(next.log)
  {
    RisingAppend(d.log, t);
    assert CutsRise(next.cuts, |next.log|);
    StillNoneEmpty(d, next, t);
    hide Rising, NamesRise, CutsRise, Follows, NoneEmpty;
    assert IsFinalized(d, d.pruned) ==> IsFinalized(next, d.pruned);
    forall e, k: nat, last | Matches(d, floor, e, k, last) ensures Matches(next, floor, e, k, last) {
      StillMatches(d, next, t, floor, e, k, last);
    }
  }

  lemma StillNoneEmpty(d: Disk, next: Disk, t: Stamp)
    requires |d.cuts| == |d.starts| && NoneEmpty(d) && next == d.(log := d.log + [t])
    ensures NoneEmpty(next)
  {
    forall k: nat | IsFinalized(next, k) ensures next.cuts[k] < SegmentEnd(next, k) {
      assert IsFinalized(d, k);
    }
  }

  lemma StillMatches(d: Disk, next: Disk, t: Stamp, floor: Lsn, e: Entry, k: nat, last: bool)
    requires d.tailPartial && next == d.(log := d.log + [t]) && floor < t.end && Matches(d, floor, e, k, last)
    requires CutsRise(d.cuts, |d.log|)
    ensures Matches(next, floor, e, k, last)
  {
    if e.partial {
      assert NewerAbove(next, k, floor);
    }
  }

  lemma RisingAppend(log: seq<Stamp>, t: Stamp)
    requires Rising(log) && Follows(if log == [] then ORIGIN else log[|log| - 1], t)
    ensures Rising(log + [t]) && LastEnd(log) < t.end
  {
  }

  lemma AppendKeeps(s: System, at: nat, t: Stamp)
    requires Invariant(s, at) && MayAppend(s.disk, t)
    ensures Invariant(AfterAppend(s, t), at)
  {
    hide Delivered, DiskOk, Tracks, EntriesSurvive, Follows;
    var next := AfterAppend(s, t);
    AppendDisk(s.disk, next.disk, t, s.floor, at);
    LiveInLog(s.disk);
    PastAllIsFinal(s, at);
    OpenFile(s, at);
    GrowDelivered(s.disk.log, t, Position(s, at), s.reader.after, s.floor, Kept(s), s.reader.previous);
    TracksLift(s, next, at);
  }

  lemma RotateDisk(d: Disk, t: Disk, floor: Lsn, at: nat)
    requires DiskOk(d) && MayRotate(d) && t == d.(tailPartial := false)
    ensures DiskOk(t) && EntriesSurvive(d, t, floor, at)
  {
    hide Rising, NamesRise, CutsRise;
    forall k: nat | IsFinalized(t, k) ensures t.cuts[k] < SegmentEnd(t, k) {
      assert k + 1 < |d.starts| ==> IsFinalized(d, k);
    }
  }

  lemma RotateKeeps(s: System, at: nat)
    requires Invariant(s, at) && MayRotate(s.disk)
    ensures Invariant(AfterRotate(s), at)
  {
    hide Delivered, DiskOk, Tracks, EntriesSurvive;
    RotateDisk(s.disk, AfterRotate(s).disk, s.floor, at);
    LiveInLog(s.disk);
    OpenFile(s, at);
    TracksLift(s, AfterRotate(s), at);
  }

  /** The pruner never reaches a segment the reader still takes for the tail. */
  lemma PruneStopsBefore(s: System, at: nat, kept: nat, k: nat)
    requires Invariant(s, at) && MayPrune(s, kept) && at <= k < |s.disk.cuts| && NewerAbove(s.disk, k, s.floor)
    ensures kept <= k
  {
    hide Delivered, Rising, Tracks, NamesRise, CutsRise;
    var d := s.disk;
    if k < kept {
      CutsOrdered(d, k, kept);
      PositionBelow(s, at, k);
      AppliedIsRead(s, at, SegmentEnd(d, kept) - 1);
      assert false;
    }
  }

  lemma PositionBelow(s: System, at: nat, k: nat)
    requires DiskOk(s.disk) && Tracks(s, at) && at <= k < |s.disk.cuts|
    ensures Position(s, at) <= SegmentEnd(s.disk, k)
  {
    hide Matches;
  }

  /** A frame below the applied position is either below the floor or already read. */
  lemma AppliedIsRead(s: System, at: nat, i: nat)
    requires Delivered(s.disk.log, Position(s, at), s.reader.after, s.floor, Kept(s), s.reader.previous)
    requires i < |s.disk.log| && s.disk.log[i].end < Applied(s)
    ensures s.disk.log[i].end < s.floor || i < Position(s, at)
  {
    if s.floor <= LastEnd(s.emitted) && s.emitted != [] {
      var x := s.emitted[|s.emitted| - 1];
      assert Kept(s)[|s.emitted| - 1] == x;
      assert In(s.disk.log, Position(s, at), x);
      var j :| 0 <= j < Position(s, at) && s.disk.log[j] == x;
      assert i < j || i == j || Follows(s.disk.log[j], s.disk.log[i]);
    }
  }

  lemma PruneDisk(s: System, at: nat, kept: nat)
    requires Invariant(s, at) && MayPrune(s, kept)
    ensures DiskOk(AfterPrune(s, kept).disk) && EntriesSurvive(s.disk, AfterPrune(s, kept).disk, s.floor, at)
  {
    hide Delivered, Rising, Tracks, NamesRise, CutsRise;
    var d, t := s.disk, AfterPrune(s, kept);
    forall k: nat | IsFinalized(t.disk, k) ensures t.disk.cuts[k] < SegmentEnd(t.disk, k) {
      assert IsFinalized(d, k);
    }
    forall e, k: nat, last | Matches(d, s.floor, e, k, last) && (at <= k || !e.partial)
      ensures Matches(t.disk, s.floor, e, k, last)
    {
      if e.partial {
        PruneStopsBefore(s, at, kept, k);
        assert NewerAbove(t.disk, k, s.floor);
      }
    }
  }

  lemma PrunedIsBelowFloor(s: System, at: nat, kept: nat, i: nat)
    requires Invariant(s, at) && MayPrune(s, kept) && Position(s, at) <= i < s.disk.cuts[kept]
    ensures i < |s.disk.log| && s.disk.log[i].end < s.floor
  {
    hide Tracks, NamesRise;
    var d := s.disk;
    var last := SegmentEnd(d, kept) - 1;
    assert i < d.cuts[kept] <= last < |d.log|;
    assert Follows(d.log[i], d.log[last]) || i == last;
    AppliedIsRead(s, at, i);
  }

  lemma PruneKeeps(s: System, at: nat, kept: nat)
    requires Invariant(s, at) && MayPrune(s, kept)
    ensures Invariant(AfterPrune(s, kept), at)
  {
    hide Delivered, DiskOk, Tracks, EntriesSurvive;
    PruneDisk(s, at, kept);
    LiveInLog(s.disk);
    OpenFile(s, at);
    forall i | Position(s, at) <= i < s.disk.cuts[kept] <= |s.disk.log| ensures s.disk.log[i].end < s.floor {
      PrunedIsBelowFloor(s, at, kept, i);
    }
    TracksLift(s, AfterPrune(s, kept), at);
  }

  // --- Reader steps ---

  /** A fresh listing stands for every live segment. */
  lemma ListingMatches(d: Disk, floor: Lsn, i: nat)
    requires DiskOk(d) && i < |Listing(d)|
    ensures Matches(d, floor, Listing(d)[i], d.pruned + i, i == |Listing(d)| - 1)
  {
    hide NamesRise, CutsRise, NoneEmpty, Rising;
  }

  lemma ListingMatchesFrom(d: Disk, floor: Lsn, index: nat)
    requires DiskOk(d)
    ensures forall j: nat :: index <= j < |Listing(d)| ==>
      Matches(d, floor, Listing(d)[j], d.pruned + index + (j - index), j == |Listing(d)| - 1)
    ensures Listing(d) != [] ==> Matches(d, floor, Listing(d)[|Listing(d)| - 1], |d.starts| - 1, true)
  {
    hide DiskOk, Matches;
    LiveInLog(d);
    forall j: nat | j < |Listing(d)| ensures Matches(d, floor, Listing(d)[j], d.pruned + j, j == |Listing(d)| - 1) {
      ListingMatches(d, floor, j);
    }
  }

  /** Where a fresh listing continues after segment `at - 1`, or at segment `at`. */
  lemma FindInListing(d: Disk, k: nat)
    requires DiskOk(d) && k < |d.starts|
    ensures FirstFrom(Listing(d), d.starts[k], 0) == if k < d.pruned then 0 else k - d.pruned
    ensures d.pruned < |d.starts|
  {
    hide Rising, CutsRise, NoneEmpty;
    var i := FirstFrom(Listing(d), d.starts[k], 0);
    if k >= d.pruned {
      assert Listing(d)[k - d.pruned].start == d.starts[k];
    } else {
      assert Listing(d)[0].start == d.starts[d.pruned];
    }
  }

  /** A reader that takes up a fresh listing with segment `at` next. */
  lemma ListedTracks(s: System, at: nat)
    requires DiskOk(s.disk) && s.disk.pruned <= at <= |s.disk.starts| && !s.mayRefresh
    requires s.reader.snapshot == Listing(s.disk) && s.reader.index == at - s.disk.pruned
    requires s.reader.file.Some? ==>
      && s.reader.file.value.segment == at < |s.disk.cuts|
      && s.disk.cuts[at] <= s.reader.file.value.position <= SegmentEnd(s.disk, at)
    requires s.reader.file.None? && at == |s.disk.starts| ==>
      at == 0 || (s.disk.pruned < at && IsFinalized(s.disk, at - 1))
    ensures Tracks(s, at)
  {
    hide DiskOk, Matches, IsFinalized;
    LiveInLog(s.disk);
    ListingMatchesFrom(s.disk, s.floor, s.reader.index);
  }

  lemma SkipKeeps(s: System, t: System, at: nat, next: nat)
    requires Invariant(s, at) && t.disk == s.disk && t.emitted == s.emitted && t.floor == s.floor
    requires Tracks(t, next) && Position(s, at) <= Position(t, next)
    requires Position(t, next) <= FirstLive(s.disk) || Position(t, next) == Position(s, at)
    requires t.reader.after == s.reader.after && t.reader.previous == s.reader.previous
    requires t.reader.pending == s.reader.pending && (t.reader.pending.Some? ==> t.reader.file.Some?)
    requires s.reader.gate <= t.reader.gate <= s.disk.durable
    ensures Invariant(t, next)
  {
    hide Tracks, Rising;
    LiveInLog(s.disk);
    SkipDelivered(
      s.disk.log, Position(s, at), Position(t, next), s.reader.after, s.floor, Kept(s), s.reader.previous);
  }

  /** Taking up the first live segment of a fresh listing. */
  lemma TakeFirst(s: System, at: nat, t: System)
    requires Invariant(s, at) && at <= s.disk.pruned && s.reader.file.None?
    requires t.disk == s.disk && t.floor == s.floor && !t.mayRefresh
    requires t.reader == s.reader.(snapshot := Listing(s.disk), index := 0, gate := t.reader.gate)
    ensures Tracks(t, s.disk.pruned)
    ensures Position(s, at) <= Position(t, s.disk.pruned)
    ensures Position(t, s.disk.pruned) <= FirstLive(s.disk) || Position(t, s.disk.pruned) == Position(s, at)
  {
    hide Delivered, Tracks, DiskOk;
    LiveInLog(s.disk);
    ListedTracks(t, s.disk.pruned);
    if at < |s.disk.cuts| {
      CutsOrdered(s.disk, at, s.disk.pruned);
    }
  }

  predicate MayTake(s: System, gate: Lsn) {
    s.disk.pruned <= |s.disk.starts| && s.mayRefresh && s.reader.gate <= gate <= s.disk.durable
  }

  lemma RefreshOpen(s: System, at: nat, gate: Lsn)
    requires Invariant(s, at) && MayTake(s, gate) && s.reader.file.Some?
    ensures Tracks(AfterRefresh(s, gate), at)
  {
    hide Reads, DiskOk, Tracks, FirstFrom, EntriesSurvive;
    var d, r, t := s.disk, s.reader, AfterRefresh(s, gate);
    OpenFile(s, at);
    EntryOfFile(s, at);
    FindInListing(d, at);
    if d.pruned <= at {
      ListedTracks(t, at);
    } else {
      NamesDiffer(d, at, d.pruned);
      SameDisk(d, s.floor, at);
      TracksLift(s, t, at);
    }
  }

  lemma EntryOfFile(s: System, at: nat)
    requires Tracks(s, at) && s.reader.file.Some?
    ensures at < |s.disk.starts| && s.reader.index < |s.reader.snapshot|
    ensures s.reader.snapshot[s.reader.index].start == s.disk.starts[at]
    ensures !s.reader.snapshot[s.reader.index].partial ==> IsFinalized(s.disk, at)
  {
    assert Matches(
      s.disk, s.floor, s.reader.snapshot[s.reader.index], at + (s.reader.index - s.reader.index),
      s.reader.index == |s.reader.snapshot| - 1);
  }

  lemma SameDisk(d: Disk, floor: Lsn, at: nat)
    ensures EntriesSurvive(d, d, floor, at)
  {
  }

  /** The segment a refresh should leave the reader at: the one of its open file, else the next one, or
      the first one left if that has been pruned. */
  function Place(s: System, at: nat): nat {
    if s.reader.file.None? && at < s.disk.pruned then s.disk.pruned else at
  }

  /** A reader between segments. */
  lemma RefreshClosed(s: System, at: nat, gate: Lsn) returns (next: nat)
    requires Invariant(s, at) && MayTake(s, gate) && s.reader.file.None?
    ensures
      var t := AfterRefresh(s, gate);
      && Tracks(t, next) && Position(s, at) <= Position(t, next)
      && (Position(t, next) <= FirstLive(s.disk) || Position(t, next) == Position(s, at))
    ensures next == Place(s, at)
  {
    var d, r, t := s.disk, s.reader, AfterRefresh(s, gate);
    hide Delivered, Matches, DiskOk, Tracks;
    BetweenSegments(s, at);
    if r.index < |r.snapshot| || r.snapshot == [] {
      next := d.pruned;
      LiveInLog(d);
      TakeFirst(s, at, t);
    } else {
      next := RefreshPast(s, at, gate);
    }
  }

  /** A reader that has left its last listed segment continues with the one after it, or with the
      first one left if that has been pruned. */
  lemma RefreshPast(s: System, at: nat, gate: Lsn) returns (next: nat)
    requires Invariant(s, at) && MayTake(s, gate) && s.reader.file.None?
    requires s.reader.index >= |s.reader.snapshot| && s.reader.snapshot != []
    requires 0 < at <= |s.disk.starts| && IsFinalized(s.disk, at - 1)
    requires s.reader.snapshot[|s.reader.snapshot| - 1] == Entry(s.disk.starts[at - 1], false)
    ensures
      var t := AfterRefresh(s, gate);
      && Tracks(t, next) && Position(s, at) <= Position(t, next)
      && (Position(t, next) <= FirstLive(s.disk) || Position(t, next) == Position(s, at))
    ensures next == if s.disk.pruned < at then at else s.disk.pruned
  {
    hide Reads, Matches, DiskOk, Tracks, AfterRefresh, MayTake;
    RefreshPastTo(s, at, gate);
    if s.disk.pruned < at {
      next := at;
      ListedTracks(AfterRefresh(s, gate), at);
    } else {
      next := s.disk.pruned;
      TakeFirst(s, at, AfterRefresh(s, gate));
    }
  }

  lemma RefreshPastTo(s: System, at: nat, gate: Lsn)
    requires DiskOk(s.disk) && MayTake(s, gate) && s.reader.file.None?
    requires s.reader.index >= |s.reader.snapshot| && s.reader.snapshot != []
    requires 0 < at <= |s.disk.starts| && IsFinalized(s.disk, at - 1)
    requires s.reader.snapshot[|s.reader.snapshot| - 1] == Entry(s.disk.starts[at - 1], false)
    ensures s.disk.pruned <= |s.disk.starts|
    ensures AfterRefresh(s, gate) == s.(
      reader := s.reader.(
        snapshot := Listing(s.disk), index := if s.disk.pruned < at then at - s.disk.pruned else 0, gate := gate),
      mayRefresh := false)
  {
    hide DiskOk, FirstFrom;
    FindInListing(s.disk, at - 1);
    if at - 1 < s.disk.pruned {
      NamesDiffer(s.disk, at - 1, s.disk.pruned);
    }
  }

  lemma BetweenSegments(s: System, at: nat)
    requires Tracks(s, at) && s.reader.file.None? && s.mayRefresh && DiskOk(s.disk)
    ensures s.reader.index < |s.reader.snapshot| ==> s.reader.index == 0 && at <= s.disk.pruned
    ensures s.reader.snapshot == [] ==> at == 0
    ensures s.reader.index >= |s.reader.snapshot| && s.reader.snapshot != [] ==>
      && 0 < at <= |s.disk.starts| && IsFinalized(s.disk, at - 1)
      && s.reader.snapshot[|s.reader.snapshot| - 1] == Entry(s.disk.starts[at - 1], false)
  {
    hide DiskOk;
  }

  /** Refreshing never moves past a frame the reader still has to return. */
  lemma RefreshKeeps(s: System, at: nat, gate: Lsn) returns (next: nat)
    requires Invariant(s, at) && MayTake(s, gate)
    ensures Invariant(AfterRefresh(s, gate), next) && next == Place(s, at)
  {
    hide Delivered, Rising, Tracks, DiskOk;
    next := at;
    if s.reader.file.Some? {
      RefreshOpen(s, at, gate);
    } else {
      next := RefreshClosed(s, at, gate);
    }
    SkipKeeps(s, AfterRefresh(s, gate), at, next);
  }

  /** What the invariant says about the next turn: the file can be read, and a closed one is next. */
  lemma NextEntry(s: System, at: nat)
    requires Invariant(s, at)
    ensures FileReadable(s)
    ensures s.reader.file.None? && s.reader.index < |s.reader.snapshot| ==>
      at < |s.disk.starts| && s.reader.snapshot[s.reader.index].start == s.disk.starts[at]
  {
    hide DiskOk, Reads, Tracks;
    LiveInLog(s.disk);
    OpenFile(s, at);
    if s.reader.index < |s.reader.snapshot| {
      EntryNamed(s, at);
      CutsOrdered(s.disk, at, at);
    }
  }

  /** The entry the reader stands at names segment `at`. */
  lemma EntryNamed(s: System, at: nat)
    requires Tracks(s, at) && s.reader.index < |s.reader.snapshot|
    ensures at < |s.disk.starts| == |s.disk.cuts| && s.reader.snapshot[s.reader.index].start == s.disk.starts[at]
  {
    assert Matches(
      s.disk, s.floor, s.reader.snapshot[s.reader.index], at + (s.reader.index - s.reader.index),
      s.reader.index == |s.reader.snapshot| - 1);
  }

  /** A reader that keeps its place and what it has kept. */
  lemma SamePlace(s: System, t: System, at: nat)
    requires Invariant(s, at) && s.reader.file.Some?
    requires t.disk == s.disk && t.floor == s.floor && Kept(t) == Kept(s)
    requires t.reader == s.reader.(pending := t.reader.pending)
    requires forall x :: x in t.emitted ==> x.end <= s.reader.gate
    ensures Invariant(t, at)
  {
    hide DiskOk, Delivered, Tracks, EntriesSurvive;
    OpenFile(s, at);
    SameDisk(s.disk, s.floor, at);
    TracksLift(s, t, at);
  }

  lemma TurnPendingKeeps(s: System, at: nat)
    requires Invariant(s, at) && FileReadable(s) && s.reader.pending.Some?
    ensures Invariant(AfterTurn(s), at)
  {
    hide DiskOk, Delivered, Tracks;
    SamePlace(s, AfterTurn(s), at);
  }

  lemma OpenedTracks(s: System, t: System, at: nat)
    requires Tracks(s, at) && DiskOk(s.disk) && s.reader.file.None? && s.reader.index < |s.reader.snapshot|
    requires at < |s.disk.cuts| && t.disk == s.disk && t.floor == s.floor
    requires t.reader == s.reader.(file := Some(Handle(at, s.disk.cuts[at])))
    ensures Tracks(t, at) && Position(t, at) == Position(s, at)
  {
    hide Matches, DiskOk;
    CutsOrdered(s.disk, at, at);
    forall j: nat | t.reader.index <= j < |t.reader.snapshot|
      ensures Matches(t.disk, t.floor, t.reader.snapshot[j], at + (j - t.reader.index), j == |t.reader.snapshot| - 1)
    {
      assert Matches(s.disk, s.floor, s.reader.snapshot[j], at + (j - s.reader.index), j == |s.reader.snapshot| - 1);
    }
  }

  /** Only segment `at` can have the name the reader opens next. */
  lemma OpensSegment(s: System, at: nat, k: nat)
    requires DiskOk(s.disk) && s.reader.index < |s.reader.snapshot| && at < |s.disk.starts|
    requires s.reader.snapshot[s.reader.index].start == s.disk.starts[at]
    requires Exists(s.disk, s.reader.snapshot[s.reader.index], k)
    ensures k == at
  {
    if k < at {
      NamesDiffer(s.disk, k, at);
    } else if at < k {
      NamesDiffer(s.disk, at, k);
    }
  }

  /** Where the reader stands after a turn. */
  ghost function NextAt(s: System, at: nat): nat
    requires FileReadable(s)
  {
    var r, d := s.reader, s.disk;
    if r.pending.Some? then at
    else if r.file.None? then
      if r.index < |r.snapshot| && !(exists k: nat :: Exists(d, r.snapshot[r.index], k)) && at < d.pruned
      then d.pruned else at
    else if r.file.value.position >= SegmentEnd(d, r.file.value.segment) && !r.snapshot[r.index].partial then at + 1
    else at
  }

  lemma TurnOpenKeeps(s: System, at: nat) returns (next: nat)
    requires Invariant(s, at) && FileReadable(s) && s.reader.pending.None?
    requires s.reader.file.None? && s.reader.index < |s.reader.snapshot|
    ensures Invariant(AfterTurn(s), next) && next == NextAt(s, at)
  {
    hide DiskOk, Delivered, Tracks, FirstFrom, Exists;
    var d, t := s.disk, AfterTurn(s);
    NextEntry(s, at);
    LiveInLog(d);
    next := at;
    if exists k: nat :: Exists(d, s.reader.snapshot[s.reader.index], k) {
      OpensSegment(s, at, t.reader.file.value.segment);
      OpenedTracks(s, t, at);
      SkipKeeps(s, t, at, at);
    } else {
      next := if at < d.pruned then d.pruned else at;
      RelistKeeps(s, at, t, next);
    }
  }

  /** The file to open has been renamed or deleted: continue at the first listed segment not before it. */
  lemma RelistKeeps(s: System, at: nat, t: System, next: nat)
    requires Invariant(s, at) && s.reader.file.None? && s.reader.pending.None? && s.reader.index < |s.reader.snapshot|
    requires s.disk.pruned <= |s.disk.starts| && next == if at < s.disk.pruned then s.disk.pruned else at
    requires t == s.(
      reader := s.reader.(
        snapshot := Listing(s.disk), index := FirstFrom(Listing(s.disk), s.reader.snapshot[s.reader.index].start, 0)),
      mayRefresh := false)
    ensures Invariant(t, next)
  {
    hide DiskOk, Delivered, Tracks, FirstFrom;
    NextEntry(s, at);
    LiveInLog(s.disk);
    FindInListing(s.disk, at);
    ListedTracks(t, next);
    CutsOrdered(s.disk, at, next);
    SkipKeeps(s, t, at, next);
  }

  lemma ClosedTracks(s: System, t: System, at: nat)
    requires Tracks(s, at) && DiskOk(s.disk) && s.reader.file.Some? && !s.reader.snapshot[s.reader.index].partial
    requires s.reader.file.value.position >= SegmentEnd(s.disk, at)
    requires t.disk == s.disk && t.floor == s.floor && !t.mayRefresh
    requires t.reader == s.reader.(file := None, index := s.reader.index + 1)
    ensures Tracks(t, at + 1) && Position(t, at + 1) == Position(s, at)
  {
    hide DiskOk;
    EntryOfFile(s, at);
    OpenFile(s, at);
    forall j: nat | t.reader.index <= j < |t.reader.snapshot|
      ensures Matches(t.disk, t.floor, t.reader.snapshot[j], at + 1 + (j - t.reader.index), j == |t.reader.snapshot| - 1)
    {
      assert Matches(s.disk, s.floor, s.reader.snapshot[j], at + (j - s.reader.index), j == |s.reader.snapshot| - 1);
    }
    var last := |s.reader.snapshot| - 1;
    assert Matches(s.disk, s.floor, s.reader.snapshot[last], at + (last - s.reader.index), true);
  }

  lemma TurnEofKeeps(s: System, at: nat) returns (next: nat)
    requires Invariant(s, at) && FileReadable(s) && s.reader.pending.None? && s.reader.file.Some?
    requires s.reader.file.value.position >= SegmentEnd(s.disk, s.reader.file.value.segment)
    ensures Invariant(AfterTurn(s), next) && next == NextAt(s, at)
  {
    hide DiskOk, Delivered, Tracks;
    OpenFile(s, at);
    if s.reader.snapshot[s.reader.index].partial {
      next := at;
      SamePlace(s, AfterTurn(s), at);
    } else {
      next := at + 1;
      ClosedTracks(s, AfterTurn(s), at);
      SkipKeeps(s, AfterTurn(s), at, at + 1);
    }
  }

  lemma ReadTracks(s: System, t: System, at: nat)
    requires Tracks(s, at) && s.reader.file.Some? && s.reader.file.value.position < SegmentEnd(s.disk, at)
    requires t.disk == s.disk && t.floor == s.floor
    requires t.reader.snapshot == s.reader.snapshot && t.reader.index == s.reader.index
    requires t.reader.file == Some(Handle(at, s.reader.file.value.position + 1))
    ensures Tracks(t, at) && Position(t, at) == Position(s, at) + 1
  {
    hide Matches;
    forall j: nat | t.reader.index <= j < |t.reader.snapshot|
      ensures Matches(t.disk, t.floor, t.reader.snapshot[j], at + (j - t.reader.index), j == |t.reader.snapshot| - 1)
    {
      assert Matches(s.disk, s.floor, s.reader.snapshot[j], at + (j - s.reader.index), j == |s.reader.snapshot| - 1);
    }
  }

  /** Reading a frame: order validation never fails, and the frame is skipped, held back or returned. */
  lemma TurnReadKeeps(s: System, at: nat)
    requires Invariant(s, at) && FileReadable(s) && s.reader.pending.None? && s.reader.file.Some?
    requires s.reader.file.value.position < SegmentEnd(s.disk, s.reader.file.value.segment)
    ensures Invariant(AfterTurn(s), at)
    ensures Turn(s.reader, s.disk).1 != Broken
  {
    hide DiskOk, Delivered, Tracks, Follows;
    OpenFile(s, at);
    ReadDelivered(s.disk.log, Position(s, at), s.reader.after, s.floor, Kept(s), s.reader.previous);
    ReadTracks(s, AfterTurn(s), at);
  }

  lemma TurnKeeps(s: System, at: nat) returns (next: nat)
    requires Invariant(s, at) && FileReadable(s)
    ensures Invariant(AfterTurn(s), next) && next == NextAt(s, at) && Turn(s.reader, s.disk).1 != Broken
  {
    hide Invariant;
    next := at;
    if s.reader.pending.Some? {
      TurnPendingKeeps(s, at);
    } else if s.reader.file.None? {
      if s.reader.index < |s.reader.snapshot| {
        next := TurnOpenKeeps(s, at);
      } else {
        TurnDoneKeeps(s, at);
      }
    } else if s.reader.file.value.position >= SegmentEnd(s.disk, s.reader.file.value.segment) {
      next := TurnEofKeeps(s, at);
    } else {
      TurnReadKeeps(s, at);
    }
  }

  lemma TurnDoneKeeps(s: System, at: nat)
    requires Invariant(s, at) && FileReadable(s) && s.reader.pending.None?
    requires s.reader.file.None? && s.reader.index >= |s.reader.snapshot|
    ensures Invariant(AfterTurn(s), at)
  {
    hide DiskOk, Delivered, Matches;
    var t := AfterTurn(s);
    assert t.reader == s.reader && t.emitted == s.emitted;
  }

  lemma SyncKeeps(s: System, at: nat)
    requires Invariant(s, at)
    ensures Invariant(AfterSync(s), at)
  {
    hide Delivered, Tracks, EntriesSurvive;
    SyncDisk(s.disk, s.floor, at);
    OpenFile(s, at);
    TracksLift(s, AfterSync(s), at);
  }

  lemma SyncDisk(d: Disk, floor: Lsn, at: nat)
    requires DiskOk(d)
    ensures DiskOk(d.(durable := LastEnd(d.log))) && EntriesSurvive(d, d.(durable := LastEnd(d.log)), floor, at)
  {
    hide Rising, NamesRise, CutsRise;
    var t := d.(durable := LastEnd(d.log));
    forall k: nat | IsFinalized(t, k) ensures t.cuts[k] < SegmentEnd(t, k) {
      assert IsFinalized(d, k);
    }
    forall e, k: nat, last | Matches(d, floor, e, k, last) ensures Matches(t, floor, e, k, last) {
      assert e.partial ==> NewerAbove(t, k, floor);
    }
  }

  // --- Runs ---

  lemma StepKeeps(s: System, at: nat, e: Event) returns (next: nat)
    requires Invariant(s, at) && Enabled(s, e)
    ensures Invariant(Step(s, e), next)
  {
    hide Invariant, DiskOk;
    next := at;
    match e
    case Open(start) => OpenKeeps(s, at, start);
    case Append(t) => AppendKeeps(s, at, t);
    case Sync => SyncKeeps(s, at);
    case Rotate => RotateKeeps(s, at);
    case Prune(kept) => PruneKeeps(s, at, kept);
    case Refresh(gate) =>
      PrunedInRange(s, at);
      next := RefreshKeeps(s, at, gate);
    case Next => next := TurnKeeps(s, at);
  }

  lemma PrunedInRange(s: System, at: nat)
    requires Invariant(s, at)
    ensures s.disk.pruned <= |s.disk.starts|
  {
    LiveInLog(s.disk);
  }
}
