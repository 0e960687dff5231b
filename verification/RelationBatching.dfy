/** Grouping the changes of a batch by relation inside one target transaction: epochs of lane-safe
    changes, regrouped by relation, between barriers of changes kept in source order
    (planRelationBatchedChanges, internal/cdc/applier.go:958-1009), and the cache that gives every
    relation one object at a time (targetRelationCache, internal/cdc/applier.go:663-692). */
module RelationBatching {
  import opened Wrappers
  import opened Model
  import opened Target
  import opened Dependence
  import opened Planner
  import opened Serializability
  import opened LaneRewrite

  // --- The relation cache ---

  datatype Cached = Cached(instance: nat, target: TargetRelation)

  /** `next` numbers the objects loaded so far. */
  datatype CacheState = CacheState(relations: map<Oid, Cached>, next: nat)

  /** resolve: the cached object if the definition is the same, else a newly loaded one, if it loads. */
  function ResolveIn(s: CacheState, source: Relation, loaded: Option<TargetRelation>): (CacheState, Option<Cached>) {
    if source.oid in s.relations && s.relations[source.oid].target.source == source then
      (s, Some(s.relations[source.oid]))
    else if loaded.None? then
      (s, None)
    else
      var cached := Cached(s.next, loaded.value.(source := source));
      (CacheState(s.relations[source.oid := cached], s.next + 1), Some(cached))
  }

  predicate CacheOk(s: CacheState) {
    && (forall oid :: oid in s.relations ==> s.relations[oid].instance < s.next)
    && (forall a, b :: a in s.relations && b in s.relations && a != b ==>
          s.relations[a].instance != s.relations[b].instance)
  }

  class TargetRelationCache {
    var relations: map<Oid, Cached>
    var next: nat

    function State(): CacheState
      reads this
    {
      CacheState(relations, next)
    }

    constructor ()
      ensures State() == CacheState(map[], 0) && CacheOk(State())
    {
      relations, next := map[], 0;
    }

    method Resolve(source: Relation, loaded: Option<TargetRelation>) returns (result: Option<Cached>)
      requires CacheOk(State())
      modifies this
      ensures (State(), result) == ResolveIn(old(State()), source, loaded) && CacheOk(State())
    {
      if source.oid in relations && relations[source.oid].target.source == source {
        return Some(relations[source.oid]);
      }
      if loaded.None? {
        return None;
      }
      var cached := Cached(next, loaded.value.(source := source));
      relations := relations[source.oid := cached];
      next := next + 1;
      result := Some(cached);
    }
  }

  /** One call of the cache while the relations of a transaction are resolved, with what the catalog
      would load. */
  datatype Call = Call(transaction: nat, source: Relation, loaded: Option<TargetRelation>)

  function StateAfter(calls: seq<Call>, n: nat): CacheState
    requires n <= |calls|
  {
    if n == 0 then CacheState(map[], 0)
    else ResolveIn(StateAfter(calls, n - 1), calls[n - 1].source, calls[n - 1].loaded).0
  }

  function ResultAt(calls: seq<Call>, c: nat): Option<Cached>
    requires c < |calls|
  {
    ResolveIn(StateAfter(calls, c), calls[c].source, calls[c].loaded).1
  }

  lemma {:induction false} StatesOk(calls: seq<Call>, n: nat)
    requires n <= |calls|
    ensures CacheOk(StateAfter(calls, n))
  {
    if n > 0 {
      StatesOk(calls, n - 1);
    }
  }

  /** An object handed out stays the only one with its number, and its OID keeps it or a later one. */
  lemma {:induction false} ResultStays(calls: seq<Call>, c: nat, n: nat)
    requires c < n <= |calls| && ResultAt(calls, c).Some?
    ensures
      var s, oid, instance := StateAfter(calls, n), calls[c].source.oid, ResultAt(calls, c).value.instance;
      && oid in s.relations && instance <= s.relations[oid].instance && instance < s.next
      && forall other :: other in s.relations && s.relations[other].instance == instance ==> other == oid
    decreases n
  {
    StatesOk(calls, c);
    if c + 1 < n {
      ResultStays(calls, c, n - 1);
      StatesOk(calls, n - 1);
    }
  }

  /** Over any sequence of calls an OID never returns to an earlier object, and no object serves two. */
  lemma ResultsAdvance(calls: seq<Call>, c: nat, d: nat)
    requires c <= d < |calls| && ResultAt(calls, c).Some? && ResultAt(calls, d).Some?
    ensures calls[c].source.oid == calls[d].source.oid ==>
      ResultAt(calls, c).value.instance <= ResultAt(calls, d).value.instance
    ensures ResultAt(calls, c).value.instance == ResultAt(calls, d).value.instance ==>
      calls[c].source.oid == calls[d].source.oid
  {
    if c < d {
      ResultStays(calls, c, d);
      StatesOk(calls, d);
      hide StateAfter;
    }
  }

  /** Every answered call for the OID after call `c`, up to call `d`, was for the same definition. */
  predicate SameDefinitions(calls: seq<Call>, c: nat, d: nat)
    requires c < |calls| && d <= |calls|
  {
    forall e :: c < e < d && calls[e].source.oid == calls[c].source.oid && ResultAt(calls, e).Some? ==>
      calls[e].source == calls[c].source
  }

  lemma {:induction false} StaysCached(calls: seq<Call>, c: nat, n: nat)
    requires c < n <= |calls| && ResultAt(calls, c).Some? && SameDefinitions(calls, c, n)
    ensures calls[c].source.oid in StateAfter(calls, n).relations
    ensures StateAfter(calls, n).relations[calls[c].source.oid] == ResultAt(calls, c).value
    ensures ResultAt(calls, c).value.target.source == calls[c].source
    decreases n
  {
    if c + 1 < n {
      StaysCached(calls, c, n - 1);
    }
  }

  lemma {:induction false} FirstOtherDefinition(calls: seq<Call>, c: nat, d: nat) returns (e: nat)
    requires c < |calls| && d <= |calls| && !SameDefinitions(calls, c, d)
    ensures c < e < d && calls[e].source.oid == calls[c].source.oid && ResultAt(calls, e).Some?
    ensures calls[e].source != calls[c].source && SameDefinitions(calls, c, e)
    decreases d
  {
    hide ResultAt;
    if SameDefinitions(calls, c, d - 1) {
      e := d - 1;
    } else {
      e := FirstOtherDefinition(calls, c, d - 1);
    }
  }

  /** The cache answers two calls for an OID with the same object exactly if no call between them was answered
      for another definition. */
  lemma SameObjectIff(calls: seq<Call>, c: nat, d: nat)
    requires c < d < |calls| && calls[c].source.oid == calls[d].source.oid
    requires ResultAt(calls, c).Some? && ResultAt(calls, d).Some?
    ensures ResultAt(calls, c) == ResultAt(calls, d) <==> SameDefinitions(calls, c, d + 1)
  {
    if SameDefinitions(calls, c, d + 1) {
      assert SameDefinitions(calls, c, d);
      StaysCached(calls, c, d);
    } else {
      var e := FirstOtherDefinition(calls, c, d + 1);
      StaysCached(calls, c, e);
      StatesOk(calls, e);
      assert ResultAt(calls, c).value.instance < ResultAt(calls, e).value.instance;
      hide StateAfter, ResultAt;
      ResultsAdvance(calls, e, d);
    }
  }

  /** What the cache leaves true of a batch: a change belongs to one object of its relation, and the
      objects of an OID only ever move forward. */
  predicate InstancesAdvance(instanceOf: Item -> nat, items: seq<Item>) {
    && (forall i, j :: 0 <= i < |items| && 0 <= j < |items| && instanceOf(items[i]) == instanceOf(items[j]) ==>
          items[i].relation.source.oid == items[j].relation.source.oid)
    && (forall i, j :: 0 <= i < j < |items| && items[i].relation.source.oid == items[j].relation.source.oid ==>
          instanceOf(items[i]) <= instanceOf(items[j]))
  }

  /** The last call for an OID while transaction `t` was resolved: its object is the one in the map of
      the transaction. */
  function LastCall(calls: seq<Call>, t: nat, oid: Oid): (c: Option<nat>)
    ensures c.Some? ==> c.value < |calls| && calls[c.value].transaction == t && calls[c.value].source.oid == oid
  {
    if calls == [] then None
    else if calls[|calls| - 1].transaction == t && calls[|calls| - 1].source.oid == oid then Some(|calls| - 1)
    else LastCall(calls[..|calls| - 1], t, oid)
  }

  /** Transactions are resolved one after the other. */
  predicate CallsInOrder(calls: seq<Call>) {
    forall c, d :: 0 <= c < d < |calls| ==> calls[c].transaction <= calls[d].transaction
  }

  predicate ItemsInOrder(items: seq<Item>) {
    forall i, j :: 0 <= i < j < |items| ==> items[i].transactionIndex <= items[j].transactionIndex
  }

  /** The number of the object a change was resolved to. */
  predicate ResolvedTo(calls: seq<Call>, x: Item, instance: nat) {
    var c := LastCall(calls, x.transactionIndex, x.relation.source.oid);
    c.Some? && ResultAt(calls, c.value).Some? && ResultAt(calls, c.value).value.instance == instance
  }

  lemma LaterCall(calls: seq<Call>, c: nat, d: nat)
    requires CallsInOrder(calls) && c < |calls| && d < |calls| && calls[c].transaction < calls[d].transaction
    ensures c < d
  {
  }

  /** Resolving the transactions of a batch through the cache makes the instances of every relation
      advance. */
  lemma CacheAdvances(calls: seq<Call>, instanceOf: Item -> nat, items: seq<Item>)
    requires CallsInOrder(calls) && ItemsInOrder(items)
    requires forall x :: x in items ==> ResolvedTo(calls, x, instanceOf(x))
    ensures InstancesAdvance(instanceOf, items)
  {
    forall i, j | 0 <= i <= j < |items|
      ensures instanceOf(items[i]) == instanceOf(items[j]) ==>
        items[i].relation.source.oid == items[j].relation.source.oid
      ensures items[i].relation.source.oid == items[j].relation.source.oid ==>
        instanceOf(items[i]) <= instanceOf(items[j])
    {
      assert items[i] in items && items[j] in items;
      TwoItems(calls, instanceOf, items[i], items[j]);
    }
  }

  lemma TwoItems(calls: seq<Call>, instanceOf: Item -> nat, x: Item, y: Item)
    requires CallsInOrder(calls) && x.transactionIndex <= y.transactionIndex
    requires ResolvedTo(calls, x, instanceOf(x)) && ResolvedTo(calls, y, instanceOf(y))
    ensures instanceOf(x) == instanceOf(y) ==> x.relation.source.oid == y.relation.source.oid
    ensures x.relation.source.oid == y.relation.source.oid ==> instanceOf(x) <= instanceOf(y)
  {
    hide LastCall, ResultAt, CallsInOrder;
    var c := LastCall(calls, x.transactionIndex, x.relation.source.oid).value;
    var d := LastCall(calls, y.transactionIndex, y.relation.source.oid).value;
    if x.transactionIndex < y.transactionIndex {
      LaterCall(calls, c, d);
    }
    if c <= d {
      ResultsAdvance(calls, c, d);
    } else {
      ResultsAdvance(calls, d, c);
    }
  }

  // --- Segments ---

  predicate LaneSafe(item: Item) {
    item.relation.capabilities.relationLane && item.change.kind != Truncate
  }

  /** A relation whose rows may run in different lanes may run in one. */
  predicate CatalogOk(items: seq<Item>) {
    forall x :: x in items && x.relation.capabilities.relationLane ==> x.relation.capabilities.relationOrderedLane
  }

  datatype Segment = Segment(ordered: bool, items: seq<Item>)

  function AddToSegments(segments: seq<Segment>, item: Item): seq<Segment> {
    var n := |segments|;
    if n == 0 || segments[n - 1].ordered != !LaneSafe(item) then segments + [Segment(!LaneSafe(item), [item])]
    else segments[..n - 1] + [Segment(segments[n - 1].ordered, segments[n - 1].items + [item])]
  }

  /** The batch as alternating runs of lane-safe changes and of others. */
  function Segments(items: seq<Item>): seq<Segment> {
    if items == [] then [] else AddToSegments(Segments(items[..|items| - 1]), items[|items| - 1])
  }

  function FirstInstances(instanceOf: Item -> nat, items: seq<Item>): (instances: seq<nat>)
    ensures forall o :: o in instances <==> exists x :: x in items && instanceOf(x) == o
    ensures Distinct(instances)
  {
    if items == [] then []
    else
      var init, last := items[..|items| - 1], items[|items| - 1];
      var rest := FirstInstances(instanceOf, init);
      assert forall x :: x in items <==> x in init || x == last;
      if instanceOf(last) in rest then rest else rest + [instanceOf(last)]
  }

  /** The order in which a segment's changes reach the target. */
  function Queued(instanceOf: Item -> nat, segment: Segment): seq<Item> {
    if segment.ordered then segment.items
    else Grouped(FirstInstances(instanceOf, segment.items), instanceOf, segment.items)
  }

  function AllQueued(instanceOf: Item -> nat, segments: seq<Segment>): seq<Item> {
    if segments == [] then []
    else AllQueued(instanceOf, segments[..|segments| - 1]) + Queued(instanceOf, segments[|segments| - 1])
  }

  function AllItems(segments: seq<Segment>): seq<Item> {
    if segments == [] then [] else AllItems(segments[..|segments| - 1]) + segments[|segments| - 1].items
  }

  /** The batch in the order it reaches the target. */
  function Batched(instanceOf: Item -> nat, items: seq<Item>): seq<Item> {
    AllQueued(instanceOf, Segments(items))
  }

  predicate SegmentsOk(segments: seq<Segment>) {
    forall s, x :: s in segments && x in s.items && !s.ordered ==> LaneSafe(x)
  }

  lemma {:induction false} SegmentsHoldItems(items: seq<Item>)
    ensures AllItems(Segments(items)) == items && SegmentsOk(Segments(items))
    decreases |items|
  {
    if items != [] {
      var init, last := items[..|items| - 1], items[|items| - 1];
      assert Segments(items) == AddToSegments(Segments(init), last);
      hide AddToSegments, SegmentsOk, AllItems, Segments;
      SegmentsHoldItems(init);
      AddedItem(Segments(init), last);
      assert items == init + [last];
    }
  }

  lemma AddedItem(segments: seq<Segment>, item: Item)
    requires SegmentsOk(segments)
    ensures AllItems(AddToSegments(segments, item)) == AllItems(segments) + [item]
    ensures SegmentsOk(AddToSegments(segments, item))
  {
    var after, n := AddToSegments(segments, item), |segments|;
    if n == 0 || segments[n - 1].ordered != !LaneSafe(item) {
      assert after[..|after| - 1] == segments;
    } else {
      assert after[..|after| - 1] == segments[..n - 1];
      assert segments[n - 1] in segments;
      assert AllItems(after) == AllItems(segments[..n - 1]) + (segments[n - 1].items + [item]);
    }
  }

  predicate Alternate(segments: seq<Segment>) {
    forall n :: 0 < n < |segments| ==> segments[n - 1].ordered != segments[n].ordered
  }

  lemma AddedAlternates(segments: seq<Segment>, item: Item)
    requires Alternate(segments)
    ensures Alternate(AddToSegments(segments, item))
  {
    hide LaneSafe;
  }

  /** Neighbouring segments are of different kinds, so none could be longer. */
  lemma {:induction false} SegmentsAlternate(items: seq<Item>)
    ensures Alternate(Segments(items))
    decreases |items|
  {
    hide AddToSegments, Alternate;
    if items == [] {
      assert Alternate([]) by {
        NothingAlternates();
      }
    } else {
      SegmentsAlternate(items[..|items| - 1]);
      AddedAlternates(Segments(items[..|items| - 1]), items[|items| - 1]);
    }
  }

  lemma NothingAlternates()
    ensures Alternate([])
  {
  }

  // --- Regrouping keeps the meaning ---

  /** Where labels are run in an order different from the source's, the changes are independent. */
  predicate LabelsInOrder(labels: seq<nat>, instanceOf: Item -> nat, xs: seq<Item>) {
    forall p, q, i, j ::
      0 <= p < q < |labels| && 0 <= i < j < |xs| && instanceOf(xs[i]) == labels[q] && instanceOf(xs[j]) == labels[p] ==>
        Independent(xs[i], xs[j])
  }

  lemma {:induction false} OrderedGroupingPreservesRun(
    sem: Semantics, db: Option<Database>, labels: seq<nat>, instanceOf: Item -> nat, xs: seq<Item>)
    requires Distinct(labels) && LabelsInOrder(labels, instanceOf, xs)
    ensures Run(sem, db, Grouped(labels, instanceOf, xs)) == Run(sem, db, Select(AnyLabel(instanceOf, labels), xs))
    decreases |labels|
  {
    if labels == [] {
      SelectNone(AnyLabel(instanceOf, labels), xs);
    } else {
      var head, tail := HasLabel(instanceOf, labels[0]), AnyLabel(instanceOf, labels[1..]);
      LabelsTail(labels, instanceOf, xs);
      RunConcat(sem, db, Select(head, xs), Grouped(labels[1..], instanceOf, xs));
      OrderedGroupingPreservesRun(sem, Run(sem, db, Select(head, xs)), labels[1..], instanceOf, xs);
      Merge(sem, db, head, tail, xs);
      SelectAgree(x => head(x) || tail(x), AnyLabel(instanceOf, labels), xs);
    }
  }

  lemma LabelsTail(labels: seq<nat>, instanceOf: Item -> nat, xs: seq<Item>)
    requires labels != [] && LabelsInOrder(labels, instanceOf, xs)
    ensures LabelsInOrder(labels[1..], instanceOf, xs)
    ensures Separable(HasLabel(instanceOf, labels[0]), AnyLabel(instanceOf, labels[1..]), xs)
  {
    hide Independent;
    forall i, j | 0 <= i < j < |xs| && instanceOf(xs[i]) in labels[1..] && instanceOf(xs[j]) == labels[0]
      ensures Independent(xs[i], xs[j])
    {
      var q :| 0 <= q < |labels[1..]| && labels[1..][q] == instanceOf(xs[i]);
      assert labels[q + 1] == instanceOf(xs[i]);
    }
  }

  /** A label listed before another also occurs before it. */
  lemma {:induction false} FirstInstancesOrder(instanceOf: Item -> nat, xs: seq<Item>, p: nat, q: nat, i: nat)
    returns (earlier: nat)
    requires p < q < |FirstInstances(instanceOf, xs)| && i < |xs|
    requires instanceOf(xs[i]) == FirstInstances(instanceOf, xs)[q]
    ensures earlier < i && instanceOf(xs[earlier]) == FirstInstances(instanceOf, xs)[p]
    decreases |xs|
  {
    var init, last := xs[..|xs| - 1], xs[|xs| - 1];
    var before := FirstInstances(instanceOf, init);
    if i < |init| {
      assert xs[i] in init;
      assert instanceOf(xs[i]) in before;
      earlier := FirstInstancesOrder(instanceOf, init, p, q, i);
    } else {
      assert before[p] in before;
      var x :| x in init && instanceOf(x) == before[p];
      earlier :| 0 <= earlier < |init| && init[earlier] == x;
    }
  }

  lemma InstancesInOrder(instanceOf: Item -> nat, xs: seq<Item>)
    requires InstancesAdvance(instanceOf, xs) && CatalogOk(xs) && forall x :: x in xs ==> LaneSafe(x)
    ensures LabelsInOrder(FirstInstances(instanceOf, xs), instanceOf, xs)
  {
    var labels := FirstInstances(instanceOf, xs);
    forall p, q, i, j |
      0 <= p < q < |labels| && 0 <= i < j < |xs| && instanceOf(xs[i]) == labels[q] && instanceOf(xs[j]) == labels[p]
      ensures Independent(xs[i], xs[j])
    {
      assert xs[i] in xs && xs[j] in xs;
      if xs[i].relation.source.oid == xs[j].relation.source.oid {
        var earlier := FirstInstancesOrder(instanceOf, xs, p, q, i);
        assert false;
      }
    }
  }

  lemma SegmentPreservesRun(sem: Semantics, db: Option<Database>, instanceOf: Item -> nat, s: Segment)
    requires InstancesAdvance(instanceOf, s.items) && CatalogOk(s.items)
    requires !s.ordered ==> forall x :: x in s.items ==> LaneSafe(x)
    ensures Run(sem, db, Queued(instanceOf, s)) == Run(sem, db, s.items)
  {
    if !s.ordered {
      var labels := FirstInstances(instanceOf, s.items);
      InstancesInOrder(instanceOf, s.items);
      OrderedGroupingPreservesRun(sem, db, labels, instanceOf, s.items);
      SelectAll(AnyLabel(instanceOf, labels), s.items);
    }
  }

  lemma AdvanceWithin(instanceOf: Item -> nat, xs: seq<Item>, ys: seq<Item>)
    requires InstancesAdvance(instanceOf, xs + ys) && CatalogOk(xs + ys)
    ensures InstancesAdvance(instanceOf, xs) && CatalogOk(xs)
    ensures InstancesAdvance(instanceOf, ys) && CatalogOk(ys)
  {
    var both := xs + ys;
    assert forall i :: 0 <= i < |xs| ==> xs[i] == both[i];
    assert forall i :: 0 <= i < |ys| ==> ys[i] == both[|xs| + i];
  }

  lemma {:induction false} QueuePreservesRun(
    sem: Semantics, db: Option<Database>, instanceOf: Item -> nat, segments: seq<Segment>)
    requires SegmentsOk(segments)
    requires InstancesAdvance(instanceOf, AllItems(segments)) && CatalogOk(AllItems(segments))
    ensures Run(sem, db, AllQueued(instanceOf, segments)) == Run(sem, db, AllItems(segments))
    decreases |segments|
  {
    if segments != [] {
      var init, last := segments[..|segments| - 1], segments[|segments| - 1];
      assert last in segments && forall s :: s in init ==> s in segments;
      assert SegmentsOk(init) && (!last.ordered ==> forall x :: x in last.items ==> LaneSafe(x));
      assert AllItems(segments) == AllItems(init) + last.items;
      assert AllQueued(instanceOf, segments) == AllQueued(instanceOf, init) + Queued(instanceOf, last);
      hide SegmentsOk, InstancesAdvance, CatalogOk, AllItems, AllQueued, Queued, LaneSafe;
      AdvanceWithin(instanceOf, AllItems(init), last.items);
      QueuePreservesRun(sem, db, instanceOf, init);
      RunConcat(sem, db, AllQueued(instanceOf, init), Queued(instanceOf, last));
      RunConcat(sem, db, AllItems(init), last.items);
      SegmentPreservesRun(sem, Run(sem, db, AllItems(init)), instanceOf, last);
    }
  }

  /** Regrouping a batch by relation leaves the target as source order does, failures included. */
  lemma BatchingPreservesRun(sem: Semantics, db: Option<Database>, instanceOf: Item -> nat, items: seq<Item>)
    requires InstancesAdvance(instanceOf, items) && CatalogOk(items)
    ensures Run(sem, db, Batched(instanceOf, items)) == Run(sem, db, items)
  {
    SegmentsHoldItems(items);
    QueuePreservesRun(sem, db, instanceOf, Segments(items));
  }

  // --- Nothing is lost or repeated ---

  lemma {:induction false} SelectSplits(p: Item -> bool, q: Item -> bool, xs: seq<Item>)
    requires forall x :: x in xs ==> !(p(x) && q(x))
    ensures multiset(Select(p, xs)) + multiset(Select(q, xs)) == multiset(Select(x => p(x) || q(x), xs))
    decreases |xs|
  {
    if xs != [] {
      SelectSplits(p, q, xs[1..]);
    }
  }

  lemma {:induction false} GroupedPermutes(labels: seq<nat>, instanceOf: Item -> nat, xs: seq<Item>)
    requires Distinct(labels)
    ensures multiset(Grouped(labels, instanceOf, xs)) == multiset(Select(AnyLabel(instanceOf, labels), xs))
    decreases |labels|
  {
    if labels == [] {
      SelectNone(AnyLabel(instanceOf, labels), xs);
    } else {
      var head, tail := HasLabel(instanceOf, labels[0]), AnyLabel(instanceOf, labels[1..]);
      GroupedPermutes(labels[1..], instanceOf, xs);
      SelectSplits(head, tail, xs);
      SelectAgree(x => head(x) || tail(x), AnyLabel(instanceOf, labels), xs);
    }
  }

  lemma {:induction false} QueuePermutes(instanceOf: Item -> nat, segments: seq<Segment>)
    ensures multiset(AllQueued(instanceOf, segments)) == multiset(AllItems(segments))
    decreases |segments|
  {
    if segments != [] {
      var last := segments[|segments| - 1];
      QueuePermutes(instanceOf, segments[..|segments| - 1]);
      if !last.ordered {
        var labels := FirstInstances(instanceOf, last.items);
        GroupedPermutes(labels, instanceOf, last.items);
        SelectAll(AnyLabel(instanceOf, labels), last.items);
      }
    }
  }

  /** Every change of the batch is queued once. */
  lemma BatchingPermutes(instanceOf: Item -> nat, items: seq<Item>)
    ensures multiset(Batched(instanceOf, items)) == multiset(items)
  {
    SegmentsHoldItems(items);
    QueuePermutes(instanceOf, Segments(items));
  }

  // --- Why instances must advance ---

  lemma {:induction false} SafeBatchIsOneSegment(items: seq<Item>)
    requires items != [] && forall x :: x in items ==> LaneSafe(x)
    ensures Segments(items) == [Segment(false, items)]
    decreases |items|
  {
    hide LaneSafe;
    var init, last := items[..|items| - 1], items[|items| - 1];
    assert Segments(items) == AddToSegments(Segments(init), last);
    assert items == init + [last];
    if init == [] {
      assert Segments(init) == [];
    } else {
      SafeBatchIsOneSegment(init);
      assert Segments(init)[..0] == [];
    }
  }

  lemma FirstInstancesNext(instanceOf: Item -> nat, items: seq<Item>, item: Item)
    ensures FirstInstances(instanceOf, items + [item])
            == if instanceOf(item) in FirstInstances(instanceOf, items) then FirstInstances(instanceOf, items)
               else FirstInstances(instanceOf, items) + [instanceOf(item)]
  {
    assert (items + [item])[..|items|] == items;
  }

  lemma SelectAppend(p: Item -> bool, items: seq<Item>, item: Item)
    ensures Select(p, items + [item]) == if p(item) then Select(p, items) + [item] else Select(p, items)
  {
    SelectConcat(p, items, [item]);
    assert [item][1..] == [];
  }

  /** If a relation came back to an earlier instance, its later change would be queued before one it
      follows. */
  lemma ReturningInstanceReorders(instanceOf: Item -> nat, a: Item, b: Item, c: Item)
    requires LaneSafe(a) && LaneSafe(b) && LaneSafe(c)
    requires instanceOf(a) == instanceOf(c) != instanceOf(b)
    ensures Batched(instanceOf, [a, b, c]) == [a, c, b]
  {
    var items, m, n := [a, b, c], instanceOf(a), instanceOf(b);
    SafeBatch(instanceOf, items);
    FirstOfThree(instanceOf, a, b, c);
    GroupedInTwo(instanceOf, items, m, n);
    SelectOfThree(HasLabel(instanceOf, m), HasLabel(instanceOf, n), a, b, c);
    hide *;
  }

  lemma SafeBatch(instanceOf: Item -> nat, items: seq<Item>)
    requires items != [] && forall x :: x in items ==> LaneSafe(x)
    ensures Batched(instanceOf, items) == Grouped(FirstInstances(instanceOf, items), instanceOf, items)
  {
    SafeBatchIsOneSegment(items);
    assert [Segment(false, items)][..0] == [];
    assert AllQueued(instanceOf, []) == [];
  }

  lemma FirstOfThree(instanceOf: Item -> nat, a: Item, b: Item, c: Item)
    requires instanceOf(a) == instanceOf(c) != instanceOf(b)
    ensures FirstInstances(instanceOf, [a, b, c]) == [instanceOf(a), instanceOf(b)]
  {
    hide FirstInstances;
    assert FirstInstances(instanceOf, [a]) == [instanceOf(a)] by {
      NoInstances(instanceOf);
      FirstInstancesNext(instanceOf, [], a);
      assert [] + [a] == [a];
    }
    assert FirstInstances(instanceOf, [a, b]) == [instanceOf(a), instanceOf(b)] by {
      FirstInstancesNext(instanceOf, [a], b);
      assert [a] + [b] == [a, b];
    }
    FirstInstancesNext(instanceOf, [a, b], c);
    assert [a, b] + [c] == [a, b, c];
  }

  lemma GroupedInTwo(instanceOf: Item -> nat, items: seq<Item>, m: nat, n: nat)
    ensures Grouped([m, n], instanceOf, items)
            == Select(HasLabel(instanceOf, m), items) + Select(HasLabel(instanceOf, n), items)
  {
    hide Select;
    assert [m, n][1..] == [n] && [n][1..] == [];
    assert Grouped([n], instanceOf, items) == Select(HasLabel(instanceOf, n), items) + Grouped([], instanceOf, items);
  }

  lemma NoInstances(instanceOf: Item -> nat)
    ensures FirstInstances(instanceOf, []) == []
  {
  }

  lemma SelectOfThree(p: Item -> bool, q: Item -> bool, a: Item, b: Item, c: Item)
    requires p(a) && !p(b) && p(c) && !q(a) && q(b) && !q(c)
    ensures Select(p, [a, b, c]) + Select(q, [a, b, c]) == [a, c, b]
  {
    assert [a, b, c][1..] == [b, c] && [b, c][1..] == [c] && [c][1..] == [];
    assert Select(p, [c]) == [c] && Select(p, [b, c]) == [c];
    assert Select(q, [c]) == [] && [b] + [] == [b] && Select(q, [b, c]) == [b];
  }

  // --- The planner ---

  /** relationReplayStep. */
  datatype ReplayStep = ReplayStep(
    ordered: bool, items: seq<Item>, lanes: seq<seq<Item>>, laneIndexes: map<nat, nat>)

  /** The changes of every label, in source order. */
  function LaneList(instanceOf: Item -> nat, labels: seq<nat>, items: seq<Item>): (lanes: seq<seq<Item>>)
    ensures |lanes| == |labels|
  {
    if labels == [] then []
    else
      var n := |labels| - 1;
      LaneList(instanceOf, labels[..n], items) + [Select(HasLabel(instanceOf, labels[n]), items)]
  }

  /** One lane for every instance, in first-seen order. */
  ghost predicate LanesFor(
    instanceOf: Item -> nat, items: seq<Item>, laneIndexes: map<nat, nat>, lanes: seq<seq<Item>>)
  {
    var labels := FirstInstances(instanceOf, items);
    lanes == LaneList(instanceOf, labels, items) && Places(labels, laneIndexes)
  }

  predicate Places(labels: seq<nat>, indexes: map<nat, nat>) {
    && (forall o :: o in indexes ==> indexes[o] < |labels| && labels[indexes[o]] == o)
    && (forall p :: 0 <= p < |labels| ==> labels[p] in indexes)
  }

  ghost predicate StepFor(instanceOf: Item -> nat, step: ReplayStep, segment: Segment) {
    && step.ordered == segment.ordered
    && if segment.ordered then step.items == segment.items
       else LanesFor(instanceOf, segment.items, step.laneIndexes, step.lanes)
  }

  ghost predicate StepsFor(instanceOf: Item -> nat, steps: seq<ReplayStep>, segments: seq<Segment>) {
    |steps| == |segments| && forall i :: 0 <= i < |steps| ==> StepFor(instanceOf, steps[i], segments[i])
  }

  function Flat(lanes: seq<seq<Item>>): seq<Item> {
    if lanes == [] then [] else lanes[0] + Flat(lanes[1..])
  }

  /** The changes in the order queueRelationBatchedChanges queues them. */
  function QueuedSteps(steps: seq<ReplayStep>): seq<Item> {
    if steps == [] then [] else QueuedSteps(steps[..|steps| - 1]) + QueuedStep(steps[|steps| - 1])
  }

  lemma {:induction false} FlatConcat(a: seq<seq<Item>>, b: seq<seq<Item>>)
    ensures Flat(a + b) == Flat(a) + Flat(b)
    decreases |a|
  {
    if a == [] {
      assert a + b == b;
    } else {
      assert (a + b)[1..] == a[1..] + b;
      FlatConcat(a[1..], b);
    }
  }

  lemma {:induction false} GroupedConcat(a: seq<nat>, b: seq<nat>, instanceOf: Item -> nat, items: seq<Item>)
    ensures Grouped(a + b, instanceOf, items) == Grouped(a, instanceOf, items) + Grouped(b, instanceOf, items)
    decreases |a|
  {
    if a == [] {
      assert a + b == b;
    } else {
      assert (a + b)[1..] == a[1..] + b;
      GroupedConcat(a[1..], b, instanceOf, items);
    }
  }

  lemma {:induction false} FlatLanes(instanceOf: Item -> nat, labels: seq<nat>, items: seq<Item>)
    ensures Flat(LaneList(instanceOf, labels, items)) == Grouped(labels, instanceOf, items)
    decreases |labels|
  {
    if labels != [] {
      var n := |labels| - 1;
      var lane := Select(HasLabel(instanceOf, labels[n]), items);
      FlatLanes(instanceOf, labels[..n], items);
      FlatConcat(LaneList(instanceOf, labels[..n], items), [lane]);
      GroupedConcat(labels[..n], [labels[n]], instanceOf, items);
      assert [lane][1..] == [] && [labels[n]][1..] == [] && labels == labels[..n] + [labels[n]];
      assert Grouped([labels[n]], instanceOf, items) == lane + Grouped([], instanceOf, items);
    }
  }

  function QueuedStep(step: ReplayStep): seq<Item> {
    if step.ordered then step.items else Flat(step.lanes)
  }

  lemma QueuedStepIs(instanceOf: Item -> nat, step: ReplayStep, segment: Segment)
    requires StepFor(instanceOf, step, segment)
    ensures QueuedStep(step) == Queued(instanceOf, segment)
  {
    if !step.ordered {
      FlatLanes(instanceOf, FirstInstances(instanceOf, segment.items), segment.items);
    }
  }

  lemma {:induction false} QueuedStepsAre(instanceOf: Item -> nat, steps: seq<ReplayStep>, segments: seq<Segment>)
    requires StepsFor(instanceOf, steps, segments)
    ensures QueuedSteps(steps) == AllQueued(instanceOf, segments)
    decreases |steps|
  {
    if steps != [] {
      hide StepFor, Queued, QueuedStep;
      QueuedStepIs(instanceOf, steps[|steps| - 1], segments[|steps| - 1]);
      QueuedStepsAre(instanceOf, steps[..|steps| - 1], segments[..|steps| - 1]);
    }
  }

  lemma {:induction false} LaneListNext(instanceOf: Item -> nat, labels: seq<nat>, items: seq<Item>, item: Item, p: nat)
    requires Distinct(labels) && p <= |labels|
    requires if p < |labels| then labels[p] == instanceOf(item) else instanceOf(item) !in labels
    ensures var lanes := LaneList(instanceOf, labels, items);
            LaneList(instanceOf, labels, items + [item])
            == if p < |labels| then lanes[p := lanes[p] + [item]] else lanes
    decreases |labels|
  {
    hide Select;
    if labels != [] {
      var n := |labels| - 1;
      LaneListNext(instanceOf, labels[..n], items, item, if p < n then p else n);
      SelectAppend(HasLabel(instanceOf, labels[n]), items, item);
    }
  }

  lemma LaneAdded(
    instanceOf: Item -> nat, items: seq<Item>, item: Item, laneIndexes: map<nat, nat>, lanes: seq<seq<Item>>)
    requires LanesFor(instanceOf, items, laneIndexes, lanes)
    ensures var o := instanceOf(item);
            var indexes := if o in laneIndexes then laneIndexes else laneIndexes[o := |lanes|];
            var more := if o in laneIndexes then lanes else lanes + [[]];
            && indexes[o] < |more|
            && LanesFor(instanceOf, items + [item], indexes, more[indexes[o] := more[indexes[o]] + [item]])
  {
    hide FirstInstances;
    if instanceOf(item) in laneIndexes {
      KnownLane(instanceOf, items, item, laneIndexes, lanes);
    } else {
      FreshLane(instanceOf, items, item, laneIndexes, lanes);
    }
  }

  lemma KnownLane(
    instanceOf: Item -> nat, items: seq<Item>, item: Item, laneIndexes: map<nat, nat>, lanes: seq<seq<Item>>)
    requires LanesFor(instanceOf, items, laneIndexes, lanes) && instanceOf(item) in laneIndexes
    ensures var index := laneIndexes[instanceOf(item)];
            index < |lanes| && LanesFor(instanceOf, items + [item], laneIndexes, lanes[index := lanes[index] + [item]])
  {
    FirstInstancesNext(instanceOf, items, item);
    hide FirstInstances, LaneList;
    LaneListNext(instanceOf, FirstInstances(instanceOf, items), items, item, laneIndexes[instanceOf(item)]);
  }

  lemma FreshLane(
    instanceOf: Item -> nat, items: seq<Item>, item: Item, laneIndexes: map<nat, nat>, lanes: seq<seq<Item>>)
    requires LanesFor(instanceOf, items, laneIndexes, lanes) && instanceOf(item) !in laneIndexes
    ensures LanesFor(instanceOf, items + [item], laneIndexes[instanceOf(item) := |lanes|], lanes + [[] + [item]])
  {
    var o, labels := instanceOf(item), FirstInstances(instanceOf, items);
    FirstInstancesNext(instanceOf, items, item);
    assert o !in labels;
    NewLane(instanceOf, labels, items, item);
    hide FirstInstances, Select;
    LaneListNext(instanceOf, labels, items, item, |labels|);
    assert (labels + [o])[..|labels|] == labels;
    assert LaneList(instanceOf, labels + [o], items + [item]) == lanes + [[] + [item]];
    hide LaneList;
    PlacesNext(labels, laneIndexes, o);
  }

  lemma PlacesNext(labels: seq<nat>, indexes: map<nat, nat>, o: nat)
    requires Places(labels, indexes) && o !in indexes
    ensures Places(labels + [o], indexes[o := |labels|])
  {
  }

  lemma NewLane(instanceOf: Item -> nat, labels: seq<nat>, items: seq<Item>, item: Item)
    requires labels == FirstInstances(instanceOf, items) && instanceOf(item) !in labels
    ensures Select(HasLabel(instanceOf, instanceOf(item)), items + [item]) == [] + [item]
  {
    SelectAppend(HasLabel(instanceOf, instanceOf(item)), items, item);
    SelectNone(HasLabel(instanceOf, instanceOf(item)), items);
  }

  method AddItem(steps: seq<ReplayStep>, item: Item, instanceOf: Item -> nat, ghost segments: seq<Segment>)
    returns (after: seq<ReplayStep>)
    requires StepsFor(instanceOf, steps, segments)
    ensures StepsFor(instanceOf, after, AddToSegments(segments, item))
  {
    hide LanesFor, LaneSafe;
    assert [] + [item] == [item];
    after := steps;
    if !LaneSafe(item) {
      if |after| == 0 || !after[|after| - 1].ordered {
        after := after + [ReplayStep(true, [], [], map[])];
      }
      var step := after[|after| - 1];
      after := after[|after| - 1 := step.(items := step.items + [item])];
    } else {
      if |after| == 0 || after[|after| - 1].ordered {
        after := after + [ReplayStep(false, [], [], map[])];
        NoLanes(instanceOf);
      }
      var step := after[|after| - 1];
      ghost var items := if |after| == |segments| then segments[|segments| - 1].items else [];
      assert LanesFor(instanceOf, items, step.laneIndexes, step.lanes);
      LaneAdded(instanceOf, items, item, step.laneIndexes, step.lanes);
      if instanceOf(item) !in step.laneIndexes {
        step := step.(laneIndexes := step.laneIndexes[instanceOf(item) := |step.lanes|], lanes := step.lanes + [[]]);
      }
      var index := step.laneIndexes[instanceOf(item)];
      after := after[|after| - 1 := step.(lanes := step.lanes[index := step.lanes[index] + [item]])];
    }
  }

  lemma NoLanes(instanceOf: Item -> nat)
    ensures LanesFor(instanceOf, [], map[], [])
  {
  }

  /** The first change whose relation the transaction does not define, if any. */
  predicate RelationMissing(t: Transaction, i: nat)
    requires i < |t.changes|
  {
    Resolve(t.relations, t.changes[i].relationOid).None?
  }

  method AddTransaction(
    steps: seq<ReplayStep>, index: nat, t: Transaction, instanceOf: Item -> nat, ghost before: seq<Item>)
    returns (result: Result<seq<ReplayStep>, Oid>)
    requires StepsFor(instanceOf, steps, Segments(before))
    ensures result.Failure? <==> exists j :: 0 <= j < |t.changes| && RelationMissing(t, j)
    ensures result.Success? ==> StepsFor(instanceOf, result.value, Segments(before + ItemsOf(index, t)))
  {
    hide LaneSafe, StepsFor, Segments, Resolve;
    var after := steps;
    ghost var read := before;
    assert before + ItemsUpTo(index, t, 0) == before;
    for j := 0 to |t.changes|
      invariant read == before + ItemsUpTo(index, t, j) && StepsFor(instanceOf, after, Segments(read))
      invariant forall k :: 0 <= k < j ==> !RelationMissing(t, k)
    {
      if RelationMissing(t, j) {
        return Failure(t.changes[j].relationOid);
      }
      var item := ItemAt(index, t, j);
      after := AddItem(after, item, instanceOf, Segments(read));
      SegmentsNext(read, item);
      assert before + ItemsUpTo(index, t, j + 1) == read + [item];
      read := read + [item];
    }
    result := Success(after);
  }

  /** planRelationBatchedChanges: no plan for a batch with a spilled transaction, an error for a change
      without relation metadata, else the steps. */
  method PlanRelationBatchedChanges(batch: seq<Transaction>, instanceOf: Item -> nat)
    returns (result: Result<Option<seq<ReplayStep>>, Oid>)
    ensures result == Success(None) <==> exists i :: 0 <= i < |batch| && batch[i].spilled
    ensures result.Failure? ==>
              exists i, j :: 0 <= i < |batch| && 0 <= j < |batch[i].changes| && RelationMissing(batch[i], j)
    ensures result.Success? && result.value.Some? ==>
              && (forall i, j :: 0 <= i < |batch| && 0 <= j < |batch[i].changes| ==> !RelationMissing(batch[i], j))
              && StepsFor(instanceOf, result.value.value, Segments(BatchItems(batch, 0, |batch|)))
              && QueuedSteps(result.value.value) == Batched(instanceOf, BatchItems(batch, 0, |batch|))
  {
    hide LaneSafe, StepsFor, Segments, QueuedSteps, Resolve;
    for i := 0 to |batch|
      invariant forall k :: 0 <= k < i ==> !batch[k].spilled
    {
      if batch[i].spilled {
        return Success(None);
      }
    }
    var steps: seq<ReplayStep> := [];
    ghost var read: seq<Item> := [];
    NothingPlanned(instanceOf);
    for i := 0 to |batch|
      invariant read == BatchItems(batch, 0, i) && StepsFor(instanceOf, steps, Segments(read))
      invariant forall k, j :: 0 <= k < i && 0 <= j < |batch[k].changes| ==> !RelationMissing(batch[k], j)
    {
      var more := AddTransaction(steps, i, batch[i], instanceOf, read);
      if more.Failure? {
        return Failure(more.error);
      }
      steps := more.value;
      read := read + ItemsOf(i, batch[i]);
    }
    QueuedStepsAre(instanceOf, steps, Segments(read));
    result := Success(Some(steps));
  }

  lemma SegmentsNext(items: seq<Item>, item: Item)
    ensures Segments(items + [item]) == AddToSegments(Segments(items), item)
  {
    assert (items + [item])[..|items|] == items;
  }

  lemma NothingPlanned(instanceOf: Item -> nat)
    ensures StepsFor(instanceOf, [], Segments([]))
  {
  }

  lemma {:induction false} BatchInOrder(batch: seq<Transaction>, n: nat)
    requires n <= |batch|
    ensures ItemsInOrder(BatchItems(batch, 0, n))
  {
    hide ItemsOf;
    if n > 0 {
      BatchInOrder(batch, n - 1);
      var before, mine := BatchItems(batch, 0, n - 1), ItemsOf(n - 1, batch[n - 1]);
      assert BatchItems(batch, 0, n) == before + mine;
      ItemsCarryIndex(n - 1, batch[n - 1]);
      forall i | 0 <= i < |before| ensures before[i].transactionIndex < n - 1 {
        assert before[i] in before;
        ItemInBatch(batch, 0, n - 1, before[i]);
      }
      forall i | 0 <= i < |mine| ensures mine[i].transactionIndex == n - 1 {
        assert mine[i] in mine;
      }
    }
  }

  /** A batch resolved through the cache and regrouped by relation leaves the target as source order
      does, whatever definitions the cache saw and reloaded. */
  lemma RegroupedBatchPreservesRun(
    sem: Semantics, db: Option<Database>, calls: seq<Call>, instanceOf: Item -> nat, batch: seq<Transaction>)
    requires CallsInOrder(calls) && CatalogOk(BatchItems(batch, 0, |batch|))
    requires forall x :: x in BatchItems(batch, 0, |batch|) ==> ResolvedTo(calls, x, instanceOf(x))
    ensures Run(sem, db, Batched(instanceOf, BatchItems(batch, 0, |batch|))) ==
      Run(sem, db, BatchItems(batch, 0, |batch|))
  {
    hide BatchItems, CallsInOrder, ResolvedTo, CatalogOk, Batched, InstancesAdvance;
    BatchInOrder(batch, |batch|);
    CacheAdvances(calls, instanceOf, BatchItems(batch, 0, |batch|));
    BatchingPreservesRun(sem, db, instanceOf, BatchItems(batch, 0, |batch|));
  }
}
