/** The reader that follows the segment directory while the writer appends, syncs and rotates and the
    pruner deletes applied segments (internal/cdc/reader.go:15-329, internal/cdc/maintenance.go:146-227).
    The directory is modelled at the level of complete frames: bytes of an unfinished frame read as
    the end of the file. */
module Following {
  import opened Wrappers
  import opened Model
  import opened Frames

  const ORIGIN := Stamp(0, 0)

  // --- The directory ---

  /** Segment `k` is named `starts[k]` and holds the log from `cuts[k]` up to the next cut. The first
      `pruned` segments are deleted; the last one is the partial tail when `tailPartial` is set. */
  datatype Disk = Disk(
    log: seq<Stamp>, starts: seq<Lsn>, cuts: seq<nat>, pruned: nat, tailPartial: bool, durable: Lsn)

  function SegmentEnd(d: Disk, k: nat): nat
    requires k < |d.cuts|
  {
    if k + 1 < |d.cuts| then d.cuts[k + 1] else |d.log|
  }

  predicate IsFinalized(d: Disk, k: nat) {
    k < |d.starts| && (k + 1 < |d.starts| || !d.tailPartial)
  }

  predicate NamesRise(starts: seq<Lsn>) {
    forall i, j :: 0 <= i < j < |starts| ==> starts[i] < starts[j]
  }

  predicate CutsRise(cuts: seq<nat>, length: nat) {
    && (forall i, j :: 0 <= i <= j < |cuts| ==> cuts[i] <= cuts[j])
    && (forall i :: 0 <= i < |cuts| ==> cuts[i] <= length)
  }

  /** Finalized segments hold at least one frame. */
  ghost predicate NoneEmpty(d: Disk)
    requires |d.cuts| == |d.starts|
  {
    forall k: nat :: IsFinalized(d, k) ==> d.cuts[k] < SegmentEnd(d, k)
  }

  ghost predicate DiskOk(d: Disk) {
    && |d.cuts| == |d.starts|
    && NamesRise(d.starts)
    && CutsRise(d.cuts, |d.log|)
    && NoneEmpty(d)
    && (if d.cuts == [] then d.log == [] && !d.tailPartial else d.cuts[0] == 0)
    && Rising(d.log)
    && (d.pruned == 0 || IsFinalized(d, d.pruned))
  }

  predicate Rising(log: seq<Stamp>) {
    && (forall i :: 0 <= i < |log| ==> Follows(ORIGIN, log[i]))
    && (forall i, j :: 0 <= i < j < |log| ==> Follows(log[i], log[j]))
  }

  datatype Entry = Entry(start: Lsn, partial: bool)

  /** listSegments. */
  function Listing(d: Disk): (entries: seq<Entry>)
    requires d.pruned <= |d.starts|
    ensures |entries| == |d.starts| - d.pruned
    ensures forall i :: 0 <= i < |entries| ==> entries[i] == Entry(d.starts[d.pruned + i], !IsFinalized(d, d.pruned + i))
  {
    seq(|d.starts| - d.pruned, i requires 0 <= i < |d.starts| - d.pruned =>
      Entry(d.starts[d.pruned + i], !IsFinalized(d, d.pruned + i)))
  }

  // --- The reader ---

  /** An open file: the segment it is, whatever its name is by now, and the read position in the log. */
  datatype Handle = Handle(segment: nat, position: nat)

  datatype Reader = Reader(
    snapshot: seq<Entry>, index: nat, file: Option<Handle>, after: Lsn, gate: Lsn, previous: Stamp, pending: Option<Stamp>)

  datatype Outcome = Emit(transaction: Stamp) | AtEnd | Again | Broken

  function FirstFrom(entries: seq<Entry>, start: Lsn, i: nat): (n: nat)
    requires i <= |entries|
    ensures i <= n <= |entries|
    ensures n < |entries| ==> start <= entries[n].start
    ensures forall j :: i <= j < n ==> entries[j].start < start
    decreases |entries| - i
  {
    if i == |entries| || start <= entries[i].start then i else FirstFrom(entries, start, i + 1)
  }

  /** The live segment with this name, if the name still exists. */
  predicate Exists(d: Disk, e: Entry, k: nat) {
    d.pruned <= k < |d.starts| && d.starts[k] == e.start && e.partial == !IsFinalized(d, k)
  }

  predicate HandleOk(d: Disk, h: Handle) {
    h.segment < |d.cuts| && h.position <= SegmentEnd(d, h.segment) <= |d.log|
  }

  /** One turn of the loop of `Next`: open a segment, read a frame, or leave an exhausted segment. */
  ghost function Turn(r: Reader, d: Disk): (Reader, Outcome)
    requires d.pruned <= |d.starts|
    requires r.file.Some? ==> HandleOk(d, r.file.value) && r.index < |r.snapshot|
  {
    if r.pending.Some? then
      if r.pending.value.end > r.gate then (r, AtEnd) else (r.(pending := None), Emit(r.pending.value))
    else if r.file.None? then
      if r.index >= |r.snapshot| then (r, AtEnd)
      else if exists k: nat :: Exists(d, r.snapshot[r.index], k) then
        var k: nat :| Exists(d, r.snapshot[r.index], k);
        (r.(file := Some(Handle(k, if k < |d.cuts| then d.cuts[k] else 0))), Again)
      else
        var updated := Listing(d);
        (r.(snapshot := updated, index := FirstFrom(updated, r.snapshot[r.index].start, 0)), Again)
    else
      var h := r.file.value;
      if h.position >= SegmentEnd(d, h.segment) then
        if r.snapshot[r.index].partial then (r, AtEnd) else (r.(file := None, index := r.index + 1), Again)
      else
        var transaction := d.log[h.position];
        if !Follows(r.previous, transaction) then (r, Broken)
        else
          var read := r.(file := Some(Handle(h.segment, h.position + 1)), previous := transaction);
          if transaction.commit <= r.after then (read, Again)
          else if transaction.end > r.gate then (read.(pending := Some(transaction)), AtEnd)
          else (read, Emit(transaction))
  }

  /** Refresh. */
  function Refreshed(r: Reader, d: Disk, gate: Lsn): Reader
    requires d.pruned <= |d.starts|
  {
    var updated := Listing(d);
    var raised := r.(gate := gate);
    if r.file.Some? && r.index < |r.snapshot| then
      var i := FirstFrom(updated, r.snapshot[r.index].start, 0);
      if i < |updated| && updated[i].start == r.snapshot[r.index].start then raised.(snapshot := updated, index := i)
      else raised
    else if r.file.None? && r.index >= |r.snapshot| then
      if r.snapshot == [] then raised.(snapshot := updated, index := 0)
      else
        var last := r.snapshot[|r.snapshot| - 1];
        var i := FirstFrom(updated, last.start, 0);
        if i < |updated| && updated[i].start == last.start && !(last.partial && updated[i].partial)
        then raised.(snapshot := updated, index := i + 1)
        else raised.(snapshot := updated, index := i)
    else raised.(snapshot := updated)
  }

  // --- Writer, pruner and reader together ---

  /** `floor` is the target progress when the reader was created and `emitted` is what it has returned.
      `mayRefresh` holds on a new reader and once a call of `Next` has returned since the last refresh. */
  datatype System = System(disk: Disk, reader: Reader, emitted: seq<Stamp>, floor: Lsn, mayRefresh: bool)

  datatype Event =
    | Open(start: Lsn)
    | Append(transaction: Stamp)
    | Sync
    | Rotate
    | Prune(kept: nat)
    | Refresh(gate: Lsn)
    | Next

  function LastEnd(log: seq<Stamp>): Lsn {
    if log == [] then 0 else log[|log| - 1].end
  }

  /** What has been applied to the target: at most what the reader has returned. */
  function Applied(s: System): Lsn {
    if LastEnd(s.emitted) < s.floor then s.floor else LastEnd(s.emitted)
  }

  /** The pruner removes a prefix of finalized segments and keeps the newest one that lies wholly below
      the applied position as a safety segment. */
  predicate MayPrune(s: System, kept: nat)
    requires |s.disk.cuts| == |s.disk.starts|
  {
    && s.disk.pruned <= kept && IsFinalized(s.disk, kept)
    && 0 < SegmentEnd(s.disk, kept) <= |s.disk.log|
    && s.disk.log[SegmentEnd(s.disk, kept) - 1].end < Applied(s)
  }

  predicate MayOpen(d: Disk, start: Lsn) {
    !d.tailPartial && forall i :: 0 <= i < |d.starts| ==> d.starts[i] < start
  }

  predicate MayAppend(d: Disk, t: Stamp) {
    d.tailPartial && Follows(if d.log == [] then ORIGIN else d.log[|d.log| - 1], t)
  }

  predicate MayRotate(d: Disk) {
    d.tailPartial && d.cuts != [] && d.cuts[|d.cuts| - 1] < |d.log|
  }

  /** The applier refreshes with a published watermark, and calls `Next` after every refresh. */
  ghost predicate Enabled(s: System, e: Event) {
    DiskOk(s.disk) &&
    match e
    case Open(start) => MayOpen(s.disk, start)
    case Append(t) => MayAppend(s.disk, t)
    case Sync => true
    case Rotate => MayRotate(s.disk)
    case Prune(kept) => MayPrune(s, kept)
    case Refresh(gate) => s.mayRefresh && s.reader.gate <= gate <= s.disk.durable
    case Next => FileReadable(s)
  }

  predicate FileReadable(s: System) {
    s.disk.pruned <= |s.disk.starts| &&
    (s.reader.file.Some? ==> HandleOk(s.disk, s.reader.file.value) && s.reader.index < |s.reader.snapshot|)
  }

  function AfterOpen(s: System, start: Lsn): System {
    s.(disk := s.disk.(starts := s.disk.starts + [start], cuts := s.disk.cuts + [|s.disk.log|], tailPartial := true))
  }

  function AfterAppend(s: System, t: Stamp): System {
    s.(disk := s.disk.(log := s.disk.log + [t]))
  }

  function AfterSync(s: System): System {
    s.(disk := s.disk.(durable := LastEnd(s.disk.log)))
  }

  function AfterRotate(s: System): System {
    s.(disk := s.disk.(tailPartial := false))
  }

  function AfterPrune(s: System, kept: nat): System {
    s.(disk := s.disk.(pruned := kept))
  }

  function AfterRefresh(s: System, gate: Lsn): System
    requires s.disk.pruned <= |s.disk.starts|
  {
    s.(reader := Refreshed(s.reader, s.disk, gate), mayRefresh := false)
  }

  ghost function AfterTurn(s: System): System
    requires FileReadable(s)
  {
    var (reader, outcome) := Turn(s.reader, s.disk);
    System(
      s.disk, reader, if outcome.Emit? then s.emitted + [outcome.transaction] else s.emitted, s.floor, !outcome.Again?)
  }

  ghost function Step(s: System, e: Event): System
    requires Enabled(s, e)
  {
    match e
    case Open(start) => AfterOpen(s, start)
    case Append(t) => AfterAppend(s, t)
    case Sync => AfterSync(s)
    case Rotate => AfterRotate(s)
    case Prune(kept) => AfterPrune(s, kept)
    case Refresh(gate) => AfterRefresh(s, gate)
    case Next => AfterTurn(s)
  }

  // --- Delivery, on plain sequences ---

  predicate In(log: seq<Stamp>, n: nat, x: Stamp)
    requires n <= |log|
  {
    exists i :: 0 <= i < n && log[i] == x
  }

  /** The reader has worked through `log[..position]`: what it kept is in order, comes from there and is
      wanted, and nothing wanted from `floor` on is missing. */
  ghost predicate Delivered(log: seq<Stamp>, position: nat, after: Lsn, floor: Lsn, kept: seq<Stamp>, previous: Stamp) {
    && position <= |log| && Rising(log) && Rising(kept)
    && (forall x :: x in kept ==> In(log, position, x) && after < x.commit)
    && (forall i :: 0 <= i < position && after < log[i].commit && floor <= log[i].end ==> log[i] in kept)
    && (previous == ORIGIN || In(log, position, previous))
  }

  /** Frames deleted unread lie below the floor, so nothing wanted is skipped. */
  lemma SkipDelivered(
    log: seq<Stamp>, position: nat, next: nat, after: Lsn, floor: Lsn, kept: seq<Stamp>, previous: Stamp)
    requires Delivered(log, position, after, floor, kept, previous) && position <= next <= |log|
    requires forall i :: position <= i < next ==> log[i].end < floor
    ensures Delivered(log, next, after, floor, kept, previous)
  {
    forall x | x in kept ensures In(log, next, x) {
      assert In(log, position, x);
    }
  }

  lemma ReadDelivered(log: seq<Stamp>, position: nat, after: Lsn, floor: Lsn, kept: seq<Stamp>, previous: Stamp)
    requires Delivered(log, position, after, floor, kept, previous) && position < |log|
    ensures Follows(previous, log[position])
    ensures log[position].commit <= after ==> Delivered(log, position + 1, after, floor, kept, log[position])
    ensures after < log[position].commit ==>
      Delivered(log, position + 1, after, floor, kept + [log[position]], log[position])
  {
    forall x | x in kept ensures In(log, position + 1, x) && Follows(x, log[position]) {
      assert In(log, position, x);
    }
    assert log[position] == log[position];
    assert In(log, position + 1, log[position]);
    var more := kept + [log[position]];
    assert forall i :: 0 <= i < |kept| ==> kept[i] in kept;
    if after < log[position].commit {
      assert Rising(more);
    }
  }

  lemma GrowDelivered(log: seq<Stamp>, t: Stamp, position: nat, after: Lsn, floor: Lsn, kept: seq<Stamp>, previous: Stamp)
    requires Delivered(log, position, after, floor, kept, previous)
    requires Follows(if log == [] then ORIGIN else log[|log| - 1], t)
    ensures Delivered(log + [t], position, after, floor, kept, previous)
  {
    forall x | In(log, position, x) ensures In(log + [t], position, x) {
      var i :| 0 <= i < position && log[i] == x;
      assert (log + [t])[i] == x;
    }
  }
}
