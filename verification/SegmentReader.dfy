/** The reader as it runs: `Next` loops over its own fields until it has a transaction to return or
    nothing to read, `Refresh` replaces its listing (internal/cdc/reader.go:75-141, 282-329). */
module SegmentReader {
  import opened Wrappers
  import opened Model
  import opened Frames
  import opened Following
  import opened FollowedLog
  import opened FollowedRuns

  class FollowingReader {
    var snapshot: seq<Entry>
    var index: nat
    var file: Option<Handle>
    var after: Lsn
    var gate: Lsn
    var previous: Stamp
    var pending: Option<Stamp>

    ghost function State(): Reader
      reads this
    {
      Reader(snapshot, index, file, after, gate, previous, pending)
    }

    constructor (d: Disk, after: Lsn, gate: Lsn)
      requires d.pruned <= |d.starts|
      ensures State() == Reader(Listing(d), 0, None, after, gate, ORIGIN, None)
    {
      this.after, this.gate := after, gate;
      snapshot, index, file, previous, pending := Listing(d), 0, None, ORIGIN, None;
    }

    /** os.Open on a listed name. */
    static method OpenByName(d: Disk, e: Entry) returns (segment: Option<nat>)
      requires d.pruned <= |d.starts|
      ensures segment.Some? ==> Exists(d, e, segment.value)
      ensures segment.None? ==> forall k: nat :: !Exists(d, e, k)
    {
      for k := d.pruned to |d.starts|
        invariant forall j: nat :: j < k ==> !Exists(d, e, j)
      {
        if d.starts[k] == e.start && e.partial == !IsFinalized(d, k) {
          return Some(k);
        }
      }
      segment := None;
    }

    /** One turn of the loop. */
    method TakeTurn(d: Disk) returns (outcome: Outcome)
      requires d.pruned <= |d.starts| == |d.cuts| && NamesRise(d.starts)
      requires file.Some? ==> HandleOk(d, file.value) && index < |snapshot|
      modifies this
      ensures (State(), outcome) == Turn(old(State()), d)
    {
      hide FirstFrom, Follows;
      if pending.Some? {
        if pending.value.end > gate {
          return AtEnd;
        }
        outcome := Emit(pending.value);
        pending := None;
        return;
      }
      if file.None? {
        if index >= |snapshot| {
          return AtEnd;
        }
        var segment := OpenByName(d, snapshot[index]);
        if segment.None? {
          var missing := snapshot[index].start;
          snapshot := Listing(d);
          index := FirstFrom(snapshot, missing, 0);
          return Again;
        }
        OneName(d, snapshot[index], segment.value);
        file := Some(Handle(segment.value, d.cuts[segment.value]));
        return Again;
      }
      var h := file.value;
      if h.position >= SegmentEnd(d, h.segment) {
        if snapshot[index].partial {
          return AtEnd;
        }
        file, index := None, index + 1;
        return Again;
      }
      var transaction := d.log[h.position];
      if !Follows(previous, transaction) {
        return Broken;
      }
      file := Some(Handle(h.segment, h.position + 1));
      previous := transaction;
      if transaction.commit <= after {
        return Again;
      }
      if transaction.end > gate {
        pending := Some(transaction);
        return AtEnd;
      }
      outcome := Emit(transaction);
    }

    /** A call returns the next durable transaction, or the end of the input with a reason; it never
        finds the log out of order. */
    method Next(d: Disk, ghost emitted: seq<Stamp>, ghost floor: Lsn, ghost at: nat)
      returns (outcome: Outcome, ghost next: nat)
      requires Invariant(System(d, State(), emitted, floor, false), at)
      modifies this
      ensures outcome.Emit? || outcome.AtEnd?
      ensures
        var returned := if outcome.Emit? then emitted + [outcome.transaction] else emitted;
        Invariant(System(d, State(), returned, floor, true), next)
      ensures outcome.AtEnd? ==> Exhausted(System(d, State(), emitted, floor, true))
      ensures Current(System(d, old(State()), emitted, floor, false), at) ==>
        Current(System(d, State(), emitted, floor, true), next)
    {
      hide Invariant, Turn, AfterTurn, NextAt, Remaining, Phase, Exhausted, Current, Enabled;
      next := at;
      ghost var s := System(d, State(), emitted, floor, false);
      while true
        invariant s == System(d, State(), emitted, floor, false) && Invariant(s, next)
        invariant Current(System(d, old(State()), emitted, floor, false), at) ==> Current(s, next)
        decreases Remaining(s, next), Phase(s)
      {
        NextEnabled(s, next);
        NamedDisk(s, next);
        ghost var before, place := s, next;
        TurnFrame(s, next);
        next := TurnKeeps(s, next);
        outcome := TakeTurn(d);
        Turned(before, State(), outcome);
        s := AfterTurn(before);
        if Current(before, place) {
          TurnCurrent(before, place);
        }
        if outcome != Again {
          SameCurrent(s, System(d, State(), emitted, floor, true), next);
          return;
        }
        TurnProgress(before, place);
        RemainingBound(before, place);
      }
    }

    method Refresh(d: Disk, gate: Lsn)
      requires d.pruned <= |d.starts|
      modifies this
      ensures State() == Refreshed(old(State()), d, gate)
    {
      hide FirstFrom;
      this.gate := gate;
      var updated := Listing(d);
      if file.Some? && index < |snapshot| {
        var i := FirstFrom(updated, snapshot[index].start, 0);
        if i < |updated| && updated[i].start == snapshot[index].start {
          snapshot, index := updated, i;
        }
        return;
      }
      if file.None? && index >= |snapshot| {
        var next: nat := 0;
        if |snapshot| != 0 {
          var last := snapshot[|snapshot| - 1];
          next := FirstFrom(updated, last.start, 0);
          if next < |updated| && updated[next].start == last.start && !(last.partial && updated[next].partial) {
            next := next + 1;
          }
        }
        snapshot, index := updated, next;
        return;
      }
      snapshot := updated;
    }
  }

  lemma OneName(d: Disk, e: Entry, k: nat)
    requires NamesRise(d.starts) && Exists(d, e, k)
    ensures forall j: nat :: Exists(d, e, j) ==> j == k
  {
  }

  lemma NamedDisk(s: System, at: nat)
    requires Invariant(s, at)
    ensures s.disk.pruned <= |s.disk.starts| == |s.disk.cuts| && NamesRise(s.disk.starts)
  {
    LiveInLog(s.disk);
  }

  lemma Turned(s: System, r: Reader, outcome: Outcome)
    requires FileReadable(s) && (r, outcome) == Turn(s.reader, s.disk)
    ensures AfterTurn(s) == System(
      s.disk, r, if outcome.Emit? then s.emitted + [outcome.transaction] else s.emitted, s.floor, !outcome.Again?)
  {
    hide Turn;
  }

  lemma SameCurrent(s: System, t: System, at: nat)
    requires s.disk == t.disk && s.reader == t.reader
    ensures Current(t, at) <==> Current(s, at)
  {
  }
}
