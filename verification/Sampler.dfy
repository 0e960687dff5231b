/** The sampler of applied changes: counters per relation, a buffer that keeps the latest sample of every
    slot, and the stored reservoir the buffer is written to (internal/app/cdcsampler.go). Random draws,
    rendered keys and the outcome of a write are parameters. */
module Sampler {
  import opened Wrappers
  import opened Reservoir

  datatype Relation = Relation(schema: string, table: string)

  datatype Slot = Slot(relation: Relation, index: nat)

  datatype Stream = Stream(relation: Relation, observed: nat, retained: nat, dropped: nat, dirty: bool)

  datatype Counters = Counters(observed: nat, retained: nat, dropped: nat)

  datatype Choice = Choice(stream: Stream, slot: Option<nat>)

  const PENDING_LIMIT := 200_000

  function NameOf(relation: Relation): string {
    relation.schema + "." + relation.table
  }

  /** The locked first part of Observe: count the change and choose its slot. */
  function Choose(s: Stream, capacity: nat, draw: nat): Choice {
    var seen := s.(observed := s.observed + 1, dirty := true);
    if s.retained < capacity then Choice(seen.(retained := s.retained + 1), Some(s.retained))
    else Choice(seen, if draw < capacity then Some(draw) else None)
  }

  /** drop: the slot is given back if it is the last one counted. */
  function Drop(s: Stream, slot: nat): Stream {
    s.(dropped := s.dropped + 1, dirty := true, retained := if slot + 1 == s.retained then s.retained - 1 else s.retained)
  }

  // --- The choices are the reservoir's ---

  datatype Progress = Progress(stream: Stream, slots: map<nat, nat>)

  function SampleOne(p: Progress, capacity: nat, change: nat, draw: nat): Progress {
    var choice := Choose(p.stream, capacity, draw);
    Progress(choice.stream, if choice.slot.None? then p.slots else p.slots[choice.slot.value := change])
  }

  /** The stream and the slots written after `n` changes none of which was dropped. */
  function Sampled(relation: Relation, capacity: nat, n: nat, draws: seq<nat>): Progress
    requires |draws| == Draws(capacity, n)
  {
    if n == 0 then Progress(Stream(relation, 0, 0, 0, false), map[])
    else if n <= capacity then SampleOne(Sampled(relation, capacity, n - 1, draws), capacity, n - 1, 0)
    else SampleOne(Sampled(relation, capacity, n - 1, draws[..|draws| - 1]), capacity, n - 1, draws[|draws| - 1])
  }

  function SlotMap(places: seq<nat>): map<nat, nat> {
    map s | 0 <= s < |places| :: places[s]
  }

  lemma SlotMapUpdate(places: seq<nat>, slot: nat, change: nat)
    requires slot < |places|
    ensures SlotMap(places[slot := change]) == SlotMap(places)[slot := change]
  {
  }

  lemma SlotMapFill(places: seq<nat>, change: nat)
    ensures SlotMap(places + [change]) == SlotMap(places)[|places| := change]
  {
  }

  lemma PlacesFill(capacity: nat, n: nat)
    requires 0 < n <= capacity
    ensures Places(capacity, n, []) == Places(capacity, n - 1, []) + [n - 1]
  {
  }

  lemma PlacesReplace(capacity: nat, n: nat, draws: seq<nat>)
    requires capacity < n && |draws| == Draws(capacity, n)
    ensures
      var last := |draws| - 1;
      Places(capacity, n, draws) == Replaced(Places(capacity, n - 1, draws[..last]), draws[last], n - 1)
  {
    hide Replaced;
  }

  predicate Matches(p: Progress, capacity: nat, n: nat, places: seq<nat>) {
    && p.stream.observed == n && p.stream.retained == |places| == (if n <= capacity then n else capacity)
    && p.slots == SlotMap(places)
  }

  lemma FillMatches(p: Progress, capacity: nat, n: nat, places: seq<nat>, draw: nat)
    requires n < capacity && Matches(p, capacity, n, places)
    ensures Matches(SampleOne(p, capacity, n, draw), capacity, n + 1, places + [n])
  {
    SlotMapFill(places, n);
    hide SlotMap;
  }

  lemma ReplaceMatches(p: Progress, capacity: nat, n: nat, places: seq<nat>, draw: nat)
    requires capacity <= n && Matches(p, capacity, n, places)
    ensures Matches(SampleOne(p, capacity, n, draw), capacity, n + 1, Replaced(places, draw, n))
  {
    if draw < |places| {
      SlotMapUpdate(places, draw, n);
    }
    hide SlotMap;
  }

  /** With nothing dropped, slots are filled and replaced exactly as in Algorithm R, so every set of
      changes is equally likely to be the one held. */
  lemma {:induction false} SampledIsReservoir(relation: Relation, capacity: nat, n: nat, draws: seq<nat>)
    requires |draws| == Draws(capacity, n)
    ensures Matches(Sampled(relation, capacity, n, draws), capacity, n, Places(capacity, n, draws))
  {
    hide SampleOne, Replaced;
    if n == 0 {
    } else if n <= capacity {
      hide SlotMap;
      SampledIsReservoir(relation, capacity, n - 1, draws);
      PlacesFill(capacity, n);
      assert draws == [];
      hide Matches, Places;
      FillMatches(Sampled(relation, capacity, n - 1, draws), capacity, n - 1, Places(capacity, n - 1, draws), 0);
    } else {
      var rest, draw := draws[..|draws| - 1], draws[|draws| - 1];
      SampledIsReservoir(relation, capacity, n - 1, rest);
      PlacesReplace(capacity, n, draws);
      hide Matches, Places;
      ReplaceMatches(Sampled(relation, capacity, n - 1, rest), capacity, n - 1, Places(capacity, n - 1, rest), draw);
    }
  }

  // --- Dropped samples ---

  /** A dropped sample leaves the count of filled slots as it was, unless it had been chosen to replace
      the sample in the last slot of a full reservoir: that slot is given back with a sample in it. */
  lemma DropRestoresCountIff(s: Stream, capacity: nat, draw: nat)
    requires s.retained <= capacity && Choose(s, capacity, draw).slot.Some?
    ensures var choice := Choose(s, capacity, draw);
            Drop(choice.stream, choice.slot.value).retained == s.retained
            <==> !(s.retained == capacity && draw == capacity - 1)
  {
  }

  /** After such a drop the next change is kept whatever it draws, however many were seen before. */
  lemma DropFavoursNext(s: Stream, capacity: nat, draw: nat)
    requires capacity > 0 && s.retained == capacity
    ensures var next := Choose(Drop(Choose(s, capacity, capacity - 1).stream, capacity - 1), capacity, draw);
            next.slot == Some(capacity - 1) && next.stream.retained == capacity
  {
  }

  // --- Writing the buffer at any time ---

  datatype Event<T> = Accept(slot: Slot, sample: T) | Flush

  /** The stored rows and the buffer. */
  function Buffered<T>(rows: map<Slot, T>, events: seq<Event<T>>): (map<Slot, T>, map<Slot, T>) {
    if events == [] then (rows, map[])
    else
      var (stored, pending) := Buffered(rows, events[..|events| - 1]);
      match events[|events| - 1]
      case Accept(slot, sample) => (stored, pending[slot := sample])
      case Flush => (stored + pending, map[])
  }

  /** Every accepted sample stored at once. */
  function WrittenThrough<T>(rows: map<Slot, T>, events: seq<Event<T>>): map<Slot, T> {
    if events == [] then rows
    else
      var stored := WrittenThrough(rows, events[..|events| - 1]);
      match events[|events| - 1]
      case Accept(slot, sample) => stored[slot := sample]
      case Flush => stored
  }

  /** Keeping only the latest sample of a slot between writes loses nothing: rows and buffer together are
      what storing every sample at once would have left, whenever the buffer is written. */
  lemma {:induction false} FlushesDoNotMatter<T>(rows: map<Slot, T>, events: seq<Event<T>>)
    ensures var (stored, pending) := Buffered(rows, events);
            stored + pending == WrittenThrough(rows, events)
    ensures events != [] && events[|events| - 1].Flush? ==> Buffered(rows, events) == (WrittenThrough(rows, events), map[])
  {
    if events != [] {
      FlushesDoNotMatter(rows, events[..|events| - 1]);
    }
  }

  // --- What is stored ---

  /** Slot numbers stay below the capacity. */
  predicate Bounded<T>(rows: map<Slot, T>, capacity: nat) {
    forall slot :: slot in rows ==> slot.index < capacity
  }

  function IndexesOf<T>(rows: map<Slot, T>, relation: Relation): set<nat> {
    set slot | slot in rows && slot.relation == relation :: slot.index
  }

  function Larger(a: nat, b: nat): nat {
    if a < b then b else a
  }

  /** Rows beyond the capacity can only be rows stored before it was lowered. */
  ghost predicate Inherited<T>(rows: map<Slot, T>, resumed: map<Slot, T>, capacity: nat) {
    forall slot :: slot in rows && slot.index >= capacity ==> slot in resumed && rows[slot] == resumed[slot]
  }

  /** The table never holds more rows of a relation than the larger of the capacity and the one the rows it
      resumed from were stored under. */
  lemma RowsWithinCapacity<T>(rows: map<Slot, T>, resumed: map<Slot, T>, relation: Relation, capacity: nat, before: nat)
    requires Inherited(rows, resumed, capacity) && Bounded(resumed, before)
    ensures |IndexesOf(rows, relation)| <= Larger(capacity, before)
    ensures Bounded(rows, Larger(capacity, before))
  {
    SubsetSize(IndexesOf(rows, relation), Below(Larger(capacity, before)));
  }

  /** Counters describe the rows: the filled slots are those below the count. */
  predicate Describes<T>(retained: nat, rows: map<Slot, T>, relation: Relation) {
    IndexesOf(rows, relation) == Below(retained)
  }

  /** Between choosing a slot and buffering its sample the counters describe what would be stored only if
      the slot replaces one: a write just then stores a count one ahead of the rows. */
  lemma WriteMidObserve<T>(s: Stream, capacity: nat, draw: nat, rows: map<Slot, T>, sample: T)
    requires s.retained <= capacity && Describes(s.retained, rows, s.relation)
    requires Choose(s, capacity, draw).slot.Some?
    ensures var choice := Choose(s, capacity, draw);
            && (Describes(choice.stream.retained, rows, s.relation) <==> s.retained == capacity)
            && Describes(choice.stream.retained, rows[Slot(s.relation, choice.slot.value) := sample], s.relation)
  {
    var choice := Choose(s, capacity, draw);
    var slot := Slot(s.relation, choice.slot.value);
    assert s.retained !in IndexesOf(rows, s.relation);
    var after := rows[slot := sample];
    forall i ensures i in IndexesOf(after, s.relation) <==> i in IndexesOf(rows, s.relation) + {slot.index} {
      if i in IndexesOf(rows, s.relation) + {slot.index} {
        assert Slot(s.relation, i) in after;
      }
    }
    assert IndexesOf(after, s.relation) == IndexesOf(rows, s.relation) + {slot.index};
  }

  // --- The sampler ---

  /** cdcSampler over its table of stored samples. `rows` and `counters` are the table. */
  class CdcSampler<T> {
    const capacity: nat
    var streams: map<string, Stream>
    var pending: map<Slot, T>
    var rows: map<Slot, T>
    var counters: map<string, Counters>
    ghost const resumed: map<Slot, T>

    ghost predicate Valid()
      reads this
    {
      && (forall name :: name in streams ==> streams[name].retained <= capacity)
      && Inherited(rows, resumed, capacity) && Bounded(pending, capacity)
    }

    /** The counters of a relation, fresh if it was never seen. */
    function StreamOf(relation: Relation): Stream
      reads this
    {
      if NameOf(relation) in streams then streams[NameOf(relation)] else Stream(relation, 0, 0, 0, false)
    }

    /** Resumes from the stored rows and counters, whatever capacity they were stored under, no more of the
        rows counted as retained than there is room for. */
    constructor (capacity: nat, rows: map<Slot, T>, stored: map<string, Stream>)
      ensures Valid() && this.capacity == capacity && this.rows == rows == resumed && pending == map[]
      ensures streams.Keys == stored.Keys
      ensures forall name :: name in stored ==>
                streams[name] == stored[name].(
                  retained := if stored[name].retained < capacity then stored[name].retained else capacity, dirty := false)
      ensures counters == map name | name in stored ::
                            Counters(stored[name].observed, stored[name].retained, stored[name].dropped)
    {
      this.capacity, this.rows, resumed, pending := capacity, rows, rows, map[];
      counters := map name | name in stored ::
        Counters(stored[name].observed, stored[name].retained, stored[name].dropped);
      streams := map name | name in stored ::
        stored[name].(retained := if stored[name].retained < capacity then stored[name].retained else capacity, dirty := false);
    }

    method DropSample(name: string, slot: nat)
      requires Valid()
      modifies this`streams
      ensures Valid()
      ensures streams == if name in old(streams) then old(streams)[name := Drop(old(streams)[name], slot)] else old(streams)
    {
      if name in streams {
        streams := streams[name := Drop(streams[name], slot)];
      }
    }

    /** Observe: count the change, choose a slot, and buffer the sample unless its key cannot be rendered
        or the buffer is full. */
    method Observe(relation: Relation, draw: nat, sample: Option<T>)
      requires Valid() && (capacity > 0 && StreamOf(relation).retained == capacity ==> draw <= StreamOf(relation).observed)
      modifies this`streams, this`pending
      ensures Valid()
      ensures capacity == 0 ==> streams == old(streams) && pending == old(pending)
      ensures var choice := Choose(old(StreamOf(relation)), capacity, draw);
              var kept := choice.slot.Some? && sample.Some? && |old(pending)| < PENDING_LIMIT;
              capacity > 0 ==>
                && streams == old(streams)[NameOf(relation) :=
                                if choice.slot.None? || kept then choice.stream else Drop(choice.stream, choice.slot.value)]
                && pending == if kept then old(pending)[Slot(relation, choice.slot.value) := sample.value] else old(pending)
    {
      if capacity == 0 {
        return;
      }
      var name := NameOf(relation);
      var stream := StreamOf(relation);
      var observed := stream.observed + 1;
      var retained := stream.retained;
      var slot: Option<nat> := None;
      if retained < capacity {
        slot := Some(retained);
        retained := retained + 1;
      } else if draw < capacity {
        slot := Some(draw);
      }
      streams := streams[name := stream.(observed := observed, retained := retained, dirty := true)];
      if slot.None? {
        return;
      }
      if sample.None? || |pending| >= PENDING_LIMIT {
        DropSample(name, slot.value);
        return;
      }
      pending := pending[Slot(relation, slot.value) := sample.value];
    }

    /** The buffered samples and the counters that changed; both are cleared. */
    method Snapshot() returns (samples: map<Slot, T>, changed: map<string, Counters>)
      requires Valid()
      modifies this`streams, this`pending
      ensures Valid() && samples == old(pending) && pending == map[]
      ensures streams.Keys == old(streams.Keys)
      ensures forall name :: name in streams ==> streams[name] == old(streams)[name].(dirty := false)
      ensures forall name :: name in changed <==> name in old(streams) && old(streams)[name].dirty
      ensures forall name :: name in changed ==>
                var s := old(streams)[name]; changed[name] == Counters(s.observed, s.retained, s.dropped)
    {
      samples := pending;
      pending := map[];
      changed := map name | name in streams && streams[name].dirty ::
        Counters(streams[name].observed, streams[name].retained, streams[name].dropped);
      streams := map name | name in streams :: streams[name].(dirty := false);
    }

    /** write: samples and counters are stored together, or the samples are lost and counted. */
    method Write(stored: bool)
      requires Valid()
      modifies this
      ensures Valid() && pending == map[] && streams.Keys == old(streams.Keys)
      ensures stored ==> rows == old(rows) + old(pending)
      ensures !stored ==> rows == old(rows) && counters == old(counters)
      ensures stored ==> forall name :: name in streams ==>
                && !streams[name].dirty
                && (old(streams)[name].dirty ==>
                      name in counters
                      && counters[name] == Counters(streams[name].observed, streams[name].retained, streams[name].dropped))
                && (!old(streams)[name].dirty && name in old(counters) ==>
                      name in counters && counters[name] == old(counters)[name])
      ensures forall name :: name in streams ==>
                && streams[name].observed == old(streams)[name].observed
                && streams[name].retained == old(streams)[name].retained
                && streams[name].dropped == old(streams)[name].dropped
                     + (if stored then 0 else LostOf(old(pending), name))
                && (!stored && old(streams)[name].dirty ==> streams[name].dirty)
    {
      var samples, changed := Snapshot();
      if stored {
        rows := rows + samples;
        counters := counters + changed;
      } else {
        streams := map name | name in streams ::
          streams[name].(dropped := streams[name].dropped + LostOf(samples, name),
                         dirty := streams[name].dirty || name in changed);
      }
    }
  }

  /** How many buffered samples belong to the relations of a name. */
  function LostOf<T>(samples: map<Slot, T>, name: string): nat {
    |set slot | slot in samples && NameOf(slot.relation) == name|
  }
}
