/** What one lane sends to the target: superseded complete-row updates are dropped, then changes
    are regrouped by first-seen relation (coalesceReplayLaneUpdates and queueParallelReplayLane,
    internal/cdc/replay_execute.go:399-511). The rewritten lane leaves the target exactly as the
    lane's source order would. */
module LaneRewrite {
  import opened Wrappers
  import opened Model
  import opened Catalog
  import opened Target
  import opened Dependence

  /** coalescibleReplayPrimaryKey: the row a change is provably confined to. */
  function CoalesceKey(item: Item): Result<Option<(Oid, Key)>, ReplayError> {
    var r, c := item.relation, item.change;
    if PrimaryIndexes(r) == [] || c.kind == Truncate
       || (c.kind == Update && !CanShardUpdateByPrimaryKey(r, c))
       || (c.kind == Delete && !PrimaryKeyDeleteSafe(r))
       || KeyTuple(c).None?
    then Success(None)
    else if !ValidTuple(r, KeyTuple(c)) then Failure(InvalidTuple)
    else Success(Some((r.source.oid, TupleKey(r, KeyTuple(c).value))))
  }

  predicate HasKey(item: Item, key: (Oid, Key)) {
    CoalesceKey(item) == Success(Some(key))
  }

  /** A complete new image of its row. */
  predicate CompleteUpdate(item: Item) {
    && item.change.kind == Update
    && item.relation.capabilities.relationLane
    && !item.relation.capabilities.crossKeyConflicts
    && CanPrimaryKeyUpsert(item.relation, item.change)
  }

  /** The next change confined to row `key` is a complete update, and nothing unconfined precedes it. */
  predicate Superseded(key: (Oid, Key), rest: seq<Item>) {
    if rest == [] then false
    else if !(CoalesceKey(rest[0]).Success? && CoalesceKey(rest[0]).value.Some?) then false
    else if CoalesceKey(rest[0]).value.value == key then CompleteUpdate(rest[0])
    else Superseded(key, rest[1..])
  }

  predicate Dropped(item: Item, rest: seq<Item>) {
    && CompleteUpdate(item)
    && CoalesceKey(item).Success? && CoalesceKey(item).value.Some?
    && Superseded(CoalesceKey(item).value.value, rest)
  }

  /** The changes that survive coalescing. */
  function Coalesced(items: seq<Item>): seq<Item> {
    if items == [] then []
    else if Dropped(items[0], items[1..]) then Coalesced(items[1..])
    else [items[0]] + Coalesced(items[1..])
  }

  /** The facts a planned lane guarantees about its changes. */
  ghost predicate LaneItems(items: seq<Item>) {
    && (forall x :: x in items ==> RelationLocal(x) && OldTupleIsIdentity(x))
    && (forall x, y :: x in items && y in items && x.relation.source.oid == y.relation.source.oid ==>
          x.relation == y.relation)
  }

  /** An update that may be sharded by its primary key stays inside that one row. */
  lemma ShardedFootprint(item: Item)
    requires RelationLocal(item) && RowLane(item.relation) && OldTupleIsIdentity(item)
    requires item.change.kind == Update && CanShardUpdateByPrimaryKey(item.relation, item.change)
    ensures Footprint(item) == Some({TupleKey(item.relation, item.change.newTuple.value)})
  {
    var r, c := item.relation, item.change;
    if !CanPrimaryKeyUpsert(r, c) {
      assert IdentityCoversKey(r);
      var indexes := PrimaryIndexes(r);
      forall i | 0 <= i < |indexes|
        ensures TupleKey(r, UpdatePredicate(c).value)[i] == TupleKey(r, c.newTuple.value)[i]
        ensures MovedKey(r, c)[i] == TupleKey(r, c.newTuple.value)[i]
      {
        assert indexes[i] in indexes;
      }
      var k := TupleKey(r, c.newTuple.value);
      assert TupleKey(r, UpdatePredicate(c).value) == k == MovedKey(r, c);
      assert {k, MovedKey(r, c)} == {k};
    }
  }

  /** Changes confined to different rows are independent. */
  lemma DifferentKeysIndependent(u: Item, b: Item, key: (Oid, Key))
    requires LaneItems([u, b]) && CompleteUpdate(u) && HasKey(u, key)
    requires CoalesceKey(b).Success? && CoalesceKey(b).value.Some? && CoalesceKey(b).value.value != key
    ensures Independent(u, b)
  {
    assert u in [u, b] && b in [u, b];
    if u.relation.source.oid == b.relation.source.oid {
      ShardedFootprint(u);
      if b.change.kind == Update {
        ShardedFootprint(b);
      }
    }
  }

  /** A later complete image of the same row makes an earlier one unobservable. */
  lemma UpsertOverwrites(sem: Semantics, db: Database, u: Item, v: Item, key: (Oid, Key))
    requires LaneItems([u, v]) && CompleteUpdate(u) && CompleteUpdate(v) && HasKey(u, key) && HasKey(v, key)
    requires Apply(sem, db, u).Some?
    ensures Apply(sem, Apply(sem, db, u).value, v) == Apply(sem, db, v)
  {
    hide OldTupleIsIdentity, InsertableTuple, CanShardUpdateByPrimaryKey, CanPrimaryKeyUpsert, SqlUpsert, SqlUpdate, Apply;
    assert u in [u, v] && v in [u, v];
    var r, oid := u.relation, u.relation.source.oid;
    var after := Apply(sem, db, u).value;
    assert SqlStep(r, u.change, TableOf(db, oid)) == SqlUpsert(r, u.change, TableOf(db, oid));
    ApplyUpsert(sem, db, u);
    ApplyUpsert(sem, db, v);
    ApplyUpsert(sem, after, v);
    assert TupleKey(r, u.change.newTuple.value) == TupleKey(r, v.change.newTuple.value);
    UpsertTwice(r, u.change, v.change, TableOf(db, oid));
    if SqlUpsert(r, v.change, TableOf(db, oid)).Some? {
      var t := SqlUpsert(r, v.change, TableOf(db, oid)).value;
      assert after[oid := t] == db[oid := t];
    }
  }

  lemma ApplyUpsert(sem: Semantics, db: Database, u: Item)
    requires RelationLocal(u) && RowLane(u.relation) && CompleteUpdate(u)
    ensures
      var oid := u.relation.source.oid;
      Apply(sem, db, u) == match SqlUpsert(u.relation, u.change, TableOf(db, oid))
                           case None => None
                           case Some(t) => Some(db[oid := t])
  {
    hide SqlUpsert, SqlUpdate, CanPrimaryKeyUpsert;
  }

  lemma UpsertTwice(r: TargetRelation, c: Change, d: Change, t: Table)
    requires c.newTuple.Some? && d.newTuple.Some? && TupleKey(r, c.newTuple.value) == TupleKey(r, d.newTuple.value)
    requires SqlUpsert(r, c, t).Some?
    ensures SqlUpsert(r, d, SqlUpsert(r, c, t).value) == SqlUpsert(r, d, t)
  {
    hide InsertableTuple, TupleKey, RowOf;
    var key := TupleKey(r, d.newTuple.value);
    assert forall a: Row, b: Row {:trigger t[key := a][key := b]} :: t[key := a][key := b] == t[key := b];
  }

  /** Dropping a superseded update from the front of a run that succeeds changes nothing. */
  lemma {:induction false} DropSuperseded(sem: Semantics, db: Database, u: Item, rest: seq<Item>, key: (Oid, Key))
    requires LaneItems([u] + rest) && CompleteUpdate(u) && HasKey(u, key) && Superseded(key, rest)
    requires Run(sem, Some(db), [u] + rest).Some?
    ensures Run(sem, Some(db), rest) == Run(sem, Some(db), [u] + rest)
    decreases |rest|
  {
    hide CompleteUpdate, CoalesceKey, Apply, RelationLocal, OldTupleIsIdentity, Independent;
    var b, tail := rest[0], rest[1..];
    assert forall x :: x in [u, b] ==> x in [u] + rest;
    assert [u] + rest == [u, b] + tail;
    RunConcat(sem, Some(db), [u, b], tail);
    assert [u, b][1..] == [b] && [b][1..] == [] && rest == [b] + tail;
    if CoalesceKey(b).value.value == key {
      UpsertOverwrites(sem, db, u, b, key);
      assert Run(sem, Some(db), [u, b]) == Run(sem, Apply(sem, db, u), [b]) == Apply(sem, db, b);
    } else {
      DifferentKeysIndependent(u, b, key);
      IndependentCommute(sem, Some(db), u, b);
      assert Run(sem, Some(db), [b, u]).Some?;
      assert [b, u][1..] == [u] && [u][1..] == [];
      var next := Apply(sem, db, b).value;
      assert Run(sem, Some(db), [b, u]) == Run(sem, Some(next), [u]);
      RunConcat(sem, Some(next), [u], tail);
      assert forall x :: x in [u] + tail ==> x in [u] + rest;
      DropSuperseded(sem, next, u, tail, key);
    }
  }

  /** Coalescing preserves the outcome of every lane that replays. */
  lemma {:induction false} CoalescingPreservesRun(sem: Semantics, db: Database, items: seq<Item>)
    requires LaneItems(items) && Run(sem, Some(db), items).Some?
    ensures Run(sem, Some(db), Coalesced(items)) == Run(sem, Some(db), items)
    decreases |items|
  {
    if items != [] {
      var u, rest := items[0], items[1..];
      assert items == [u] + rest;
      assert forall x :: x in rest ==> x in items;
      if Dropped(u, rest) {
        DropSuperseded(sem, db, u, rest, CoalesceKey(u).value.value);
        CoalescingPreservesRun(sem, db, rest);
      } else {
        var next := Apply(sem, db, u);
        assert next.Some?;
        CoalescingPreservesRun(sem, next.value, rest);
        assert ([u] + Coalesced(rest))[1..] == Coalesced(rest);
      }
    }
  }

  lemma {:induction false} CoalescedSubset(items: seq<Item>)
    ensures forall x :: x in Coalesced(items) ==> x in items
    decreases |items|
  {
    if items != [] {
      CoalescedSubset(items[1..]);
    }
  }

  // --- Grouping by relation ---

  /** The relations of a lane in the order they first occur. */
  function FirstSeen(items: seq<Item>): (relations: seq<TargetRelation>)
    ensures forall r :: r in relations <==> exists x :: x in items && x.relation == r
    ensures Distinct(relations)
  {
    if items == [] then []
    else
      var init, last := items[..|items| - 1], items[|items| - 1];
      var rest := FirstSeen(init);
      assert forall x :: x in items <==> x in init || x == last;
      if last.relation in rest then rest else rest + [last.relation]
  }

  /** Earlier relations are seen earlier: a change to `relations[q]` has a change to `relations[p]` before it. */
  lemma {:induction false} FirstSeenInOrder(items: seq<Item>, p: nat, q: nat, j: nat)
    requires p < q < |FirstSeen(items)| && j < |items| && items[j].relation == FirstSeen(items)[q]
    ensures exists i :: 0 <= i < j && items[i].relation == FirstSeen(items)[p]
    decreases |items|
  {
    var init, last := items[..|items| - 1], items[|items| - 1];
    var rest := FirstSeen(init);
    if q < |rest| {
      if j == |items| - 1 {
        assert rest[q] in rest;
        var x :| x in init && x.relation == rest[q];
        var m: nat :| m < |init| && init[m] == x;
        FirstSeenInOrder(init, p, q, m);
      } else {
        FirstSeenInOrder(init, p, q, j);
      }
    } else {
      assert rest[p] in rest;
      var x :| x in init && x.relation == rest[p];
      var i: nat :| i < |init| && init[i] == x;
      forall m: nat | m < |init| ensures init[m].relation in rest {
        assert init[m] in init;
      }
    }
  }

  function RelationOf(item: Item): TargetRelation {
    item.relation
  }

  lemma {:induction false} SelectedByRelation(items: seq<Item>, r: TargetRelation, x: Item)
    ensures x in Select(HasLabel(RelationOf, r), items) <==> x in items && x.relation == r
  {
    assert HasLabel(RelationOf, r)(x) <==> RelationOf(x) == r;
  }

  /** The statements of a lane in the order they reach the target. */
  function Rewritten(items: seq<Item>): seq<Item> {
    Grouped(FirstSeen(Coalesced(items)), RelationOf, Coalesced(items))
  }

  lemma RewrittenOne(item: Item)
    ensures Rewritten([item]) == [item]
  {
    hide Dropped;
    CoalesceShort([item]);
    assert FirstSeen([item]) == [item.relation] by {
      assert [item][..0] == [];
    }
    assert [item.relation][1..] == [];
    SelectAll(HasLabel(RelationOf, item.relation), [item]);
    GroupedOne(item.relation, RelationOf, [item]);
  }

  lemma GroupedOne<L>(l: L, labelOf: Item -> L, xs: seq<Item>)
    ensures Grouped([l], labelOf, xs) == Select(HasLabel(labelOf, l), xs)
  {
    assert [l][1..] == [];
    assert Grouped([], labelOf, xs) == [];
  }

  /** The rewritten lane leaves the target exactly as the lane's source order does. */
  lemma RewritingPreservesRun(sem: Semantics, db: Database, items: seq<Item>)
    requires LaneItems(items) && Run(sem, Some(db), items).Some?
    ensures Run(sem, Some(db), Rewritten(items)) == Run(sem, Some(db), items)
  {
    var kept := Coalesced(items);
    CoalescedSubset(items);
    forall i, j | 0 <= i < j < |kept| && kept[i].relation != kept[j].relation
      ensures Independent(kept[i], kept[j])
    {
      assert kept[i] in items && kept[j] in items;
    }
    GroupingPreservesRun(sem, Some(db), FirstSeen(kept), RelationOf, kept);
    SelectAll(AnyLabel(RelationOf, FirstSeen(kept)), kept);
    CoalescingPreservesRun(sem, db, items);
  }

  // --- The imperative rewriting ---

  /** The change is confined to some row other than `key`. */
  predicate Apart(key: (Oid, Key), x: Item) {
    CoalesceKey(x).Success? && CoalesceKey(x).value.Some? && CoalesceKey(x).value.value != key
  }

  predicate Open(key: (Oid, Key), rest: seq<Item>) {
    forall x :: x in rest ==> Apart(key, x)
  }

  lemma {:induction false} SupersededNext(key: (Oid, Key), rest: seq<Item>, x: Item)
    ensures Superseded(key, rest + [x]) ==
      (Superseded(key, rest) || (Open(key, rest) && HasKey(x, key) && CompleteUpdate(x)))
    decreases |rest|
  {
    hide CompleteUpdate, CoalesceKey;
    if rest == [] {
      assert rest + [x] == [x];
    } else {
      assert (rest + [x])[1..] == rest[1..] + [x];
      SupersededNext(key, rest[1..], x);
      assert forall y :: y in rest <==> y == rest[0] || y in rest[1..];
      assert Open(key, rest) <==> Apart(key, rest[0]) && Open(key, rest[1..]);
    }
  }

  /** What the scan of `items[..n]` has decided about item `j`. */
  predicate Decided(items: seq<Item>, keep: bool, j: nat, n: nat)
    requires j < n <= |items|
  {
    keep == !Dropped(items[j], items[j + 1..n])
  }

  /** `j` is a complete update of row `key` that the next change of that row may still supersede. */
  predicate Pending(items: seq<Item>, key: (Oid, Key), j: nat, n: nat)
    requires n <= |items|
  {
    j < n && CompleteUpdate(items[j]) && HasKey(items[j], key) && Open(key, items[j + 1..n])
  }

  ghost predicate LatestIsPending(items: seq<Item>, latest: map<(Oid, Key), nat>, n: nat)
    requires n <= |items|
  {
    forall key, j: nat {:trigger Pending(items, key, j, n)} ::
      (key in latest && latest[key] == j) <==> Pending(items, key, j, n)
  }

  /** The candidate map after the scan has read one more change. */
  function NextLatest(item: Item, latest: map<(Oid, Key), nat>, i: nat): map<(Oid, Key), nat>
    requires CoalesceKey(item).Success?
  {
    match CoalesceKey(item).value
    case None => map[]
    case Some(key) => if CompleteUpdate(item) then latest[key := i] else latest - {key}
  }

  lemma PendingNext(items: seq<Item>, key: (Oid, Key), j: nat, n: nat)
    requires n < |items| && CoalesceKey(items[n]).Success?
    ensures Pending(items, key, j, n + 1) <==>
      if HasKey(items[n], key) then j == n && CompleteUpdate(items[n])
      else CoalesceKey(items[n]).value.Some? && Pending(items, key, j, n)
  {
    hide CompleteUpdate, CoalesceKey;
    if j < n {
      assert items[j + 1..n + 1] == items[j + 1..n] + [items[n]];
      assert Open(key, items[j + 1..n + 1]) <==> Open(key, items[j + 1..n]) && Apart(key, items[n]) by {
        assert items[n] in items[j + 1..n + 1];
      }
    }
  }

  lemma LatestStep(items: seq<Item>, latest: map<(Oid, Key), nat>, n: nat)
    requires n < |items| && CoalesceKey(items[n]).Success? && LatestIsPending(items, latest, n)
    ensures LatestIsPending(items, NextLatest(items[n], latest, n), n + 1)
  {
    hide CompleteUpdate, CoalesceKey, Pending;
    var next := NextLatest(items[n], latest, n);
    forall key, j: nat {:trigger Pending(items, key, j, n + 1)}
      ensures (key in next && next[key] == j) <==> Pending(items, key, j, n + 1)
    {
      PendingNext(items, key, j, n);
    }
  }

  /** Reading change `n` drops exactly the pending update of its row. */
  lemma DecisionStep(items: seq<Item>, latest: map<(Oid, Key), nat>, keep: bool, j: nat, n: nat)
    requires j < n < |items| && CoalesceKey(items[n]).Success?
    requires LatestIsPending(items, latest, n) && Decided(items, keep, j, n)
    ensures
      var superseding := CompleteUpdate(items[n]) && CoalesceKey(items[n]).value.Some? &&
        CoalesceKey(items[n]).value.value in latest && latest[CoalesceKey(items[n]).value.value] == j;
      Decided(items, keep && !superseding, j, n + 1)
  {
    hide CompleteUpdate, CoalesceKey;
    assert items[j + 1..n + 1] == items[j + 1..n] + [items[n]];
    if CompleteUpdate(items[j]) && CoalesceKey(items[j]).Success? && CoalesceKey(items[j]).value.Some? {
      var key := CoalesceKey(items[j]).value.value;
      SupersededNext(key, items[j + 1..n], items[n]);
      assert (key in latest && latest[key] == j) <==> Pending(items, key, j, n);
    }
    if CoalesceKey(items[n]).value.Some? {
      var key := CoalesceKey(items[n]).value.value;
      assert (key in latest && latest[key] == j) <==> Pending(items, key, j, n);
    }
  }

  // --- Which changes are dropped ---

  /** Position `j` is the next change of the row of position `i`, nothing between them is unconfined, and both
      are complete updates. */
  ghost predicate SupersededBy(items: seq<Item>, i: nat, j: nat)
    requires i < |items|
  {
    && i < j < |items| && CompleteUpdate(items[i]) && CompleteUpdate(items[j])
    && exists key :: HasKey(items[i], key) && HasKey(items[j], key) && Open(key, items[i + 1..j])
  }

  ghost predicate DroppedAt(items: seq<Item>, i: nat)
    requires i < |items|
  {
    exists j: nat :: SupersededBy(items, i, j)
  }

  function Pick(items: seq<Item>, positions: seq<nat>): (picked: seq<Item>)
    requires forall i :: i in positions ==> i < |items|
  {
    seq(|positions|, n requires 0 <= n < |positions| => assert positions[n] in positions; items[positions[n]])
  }

  predicate InPositionOrder(positions: seq<nat>) {
    forall m, n :: 0 <= m < n < |positions| ==> positions[m] < positions[n]
  }

  /** `kept` holds, in order, exactly the changes from position `from` on that are not dropped. */
  ghost predicate KeptFrom(items: seq<Item>, from: nat, positions: seq<nat>, kept: seq<Item>) {
    && (forall i: nat :: i in positions <==> from <= i < |items| && !DroppedAt(items, i))
    && InPositionOrder(positions) && kept == Pick(items, positions)
  }

  lemma {:induction false} SupersededWhere(key: (Oid, Key), rest: seq<Item>) returns (j: nat)
    requires Superseded(key, rest)
    ensures j < |rest| && HasKey(rest[j], key) && CompleteUpdate(rest[j]) && Open(key, rest[..j])
    decreases |rest|
  {
    hide CompleteUpdate, CoalesceKey;
    if HasKey(rest[0], key) {
      j := 0;
    } else {
      var later := SupersededWhere(key, rest[1..]);
      j := later + 1;
      assert rest[..j] == [rest[0]] + rest[1..][..later];
    }
  }

  lemma {:induction false} SupersededHere(key: (Oid, Key), rest: seq<Item>, j: nat)
    requires j < |rest| && HasKey(rest[j], key) && CompleteUpdate(rest[j]) && Open(key, rest[..j])
    ensures Superseded(key, rest)
    decreases j
  {
    hide CompleteUpdate, CoalesceKey;
    if j > 0 {
      assert rest[0] in rest[..j];
      assert rest[1..][..j - 1] == rest[..j][1..];
      SupersededHere(key, rest[1..], j - 1);
    }
  }

  lemma DroppedIff(items: seq<Item>, i: nat)
    requires i < |items|
    ensures Dropped(items[i], items[i + 1..]) <==> DroppedAt(items, i)
  {
    hide CompleteUpdate, CoalesceKey, Superseded;
    var rest := items[i + 1..];
    if Dropped(items[i], rest) {
      var key := CoalesceKey(items[i]).value.value;
      var j := SupersededWhere(key, rest);
      assert rest[..j] == items[i + 1..i + 1 + j];
      assert SupersededBy(items, i, i + 1 + j);
    }
    if j: nat :| SupersededBy(items, i, j) {
      var key :| HasKey(items[i], key) && HasKey(items[j], key) && Open(key, items[i + 1..j]);
      assert rest[..j - i - 1] == items[i + 1..j];
      SupersededHere(key, rest, j - i - 1);
    }
  }

  lemma DroppedNext(items: seq<Item>, from: nat, later: seq<nat>, rest: seq<Item>)
    requires from < |items| && DroppedAt(items, from) && KeptFrom(items, from + 1, later, rest)
    ensures KeptFrom(items, from, later, rest)
  {
    hide DroppedAt, Pick, InPositionOrder;
  }

  lemma InAfter(first: nat, later: seq<nat>, i: nat)
    ensures i in [first] + later <==> i == first || i in later
  {
  }

  lemma InOrderAfter(first: nat, later: seq<nat>)
    requires InPositionOrder(later) && forall i :: i in later ==> first < i
    ensures InPositionOrder([first] + later)
  {
    forall n: nat | n < |later| ensures first < later[n] {
      assert later[n] in later;
    }
  }

  lemma PickAfter(items: seq<Item>, first: nat, later: seq<nat>)
    requires first < |items| && forall i :: i in later ==> i < |items|
    ensures forall i :: i in [first] + later ==> i < |items|
    ensures Pick(items, [first] + later) == [items[first]] + Pick(items, later)
  {
    forall i: nat ensures i in [first] + later <==> i == first || i in later {
      InAfter(first, later, i);
    }
  }

  lemma KeptNext(items: seq<Item>, from: nat, later: seq<nat>, rest: seq<Item>)
    requires from < |items| && !DroppedAt(items, from) && KeptFrom(items, from + 1, later, rest)
    ensures KeptFrom(items, from, [from] + later, [items[from]] + rest)
  {
    hide DroppedAt, Pick, InPositionOrder;
    forall i: nat ensures i in [from] + later <==> from <= i < |items| && !DroppedAt(items, i) {
      InAfter(from, later, i);
    }
    InOrderAfter(from, later);
    PickAfter(items, from, later);
  }

  lemma {:induction false} CoalescedFrom(items: seq<Item>, from: nat) returns (positions: seq<nat>)
    requires from <= |items|
    ensures KeptFrom(items, from, positions, Coalesced(items[from..]))
    decreases |items| - from
  {
    hide DroppedAt, Dropped;
    if from == |items| {
      positions := [];
    } else {
      hide KeptFrom;
      var later := CoalescedFrom(items, from + 1);
      DroppedIff(items, from);
      assert items[from..][1..] == items[from + 1..];
      if DroppedAt(items, from) {
        DroppedNext(items, from, later, Coalesced(items[from + 1..]));
        positions := later;
      } else {
        KeptNext(items, from, later, Coalesced(items[from + 1..]));
        positions := [from] + later;
      }
    }
  }

  /** Coalescing keeps, in order, exactly the positions that are not dropped: a complete update of a row goes
      if and only if a later complete update of the same row follows with nothing but changes confined to
      other rows between them. */
  lemma CoalescedKeeps(items: seq<Item>) returns (positions: seq<nat>)
    ensures KeptFrom(items, 0, positions, Coalesced(items))
  {
    hide KeptFrom, Coalesced;
    positions := CoalescedFrom(items, 0);
    assert items[0..] == items;
  }

  method CoalesceReplayLaneUpdates(items: seq<Item>) returns (result: Result<seq<Item>, ReplayError>)
    ensures result.Failure? <==> |items| >= 2 && exists i :: 0 <= i < |items| && CoalesceKey(items[i]).Failure?
    ensures result.Success? ==> result.value == Coalesced(items)
    ensures result.Success? ==> exists positions :: KeptFrom(items, 0, positions, result.value)
  {
    hide CompleteUpdate, CoalesceKey, Dropped, KeptFrom;
    if |items| < 2 {
      CoalesceShort(items);
      ghost var all := CoalescedKeeps(items);
      return Success(items);
    }
    var keep := new bool[|items|];
    var latest: map<(Oid, Key), nat> := map[];
    for i := 0 to |items|
      invariant forall j :: 0 <= j < i ==> CoalesceKey(items[j]).Success?
      invariant LatestIsPending(items, latest, i)
      invariant forall j: nat :: j < i ==> Decided(items, keep[j], j, i)
    {
      if CoalesceKey(items[i]).Failure? {
        return Failure(CoalesceKey(items[i]).error);
      }
      ghost var before, known := keep[..], latest;
      keep[i] := true;
      DecidedFirst(items, i);
      var keyed := CoalesceKey(items[i]).value;
      LatestStep(items, latest, i);
      forall j: nat | j < i
        ensures
          var superseding := CompleteUpdate(items[i]) && keyed.Some? && keyed.value in known && known[keyed.value] == j;
          Decided(items, before[j] && !superseding, j, i + 1)
      {
        DecisionStep(items, latest, before[j], j, i);
      }
      if keyed.None? {
        latest := map[];
      } else if !CompleteUpdate(items[i]) {
        latest := latest - {keyed.value};
      } else {
        if keyed.value in latest {
          assert Pending(items, keyed.value, latest[keyed.value], i);
          keep[latest[keyed.value]] := false;
        }
        latest := latest[keyed.value := i];
      }
    }
    var kept := [];
    for i := 0 to |items|
      invariant kept + Coalesced(items[i..]) == Coalesced(items)
    {
      assert Decided(items, keep[i], i, |items|);
      assert items[i..][1..] == items[i + 1..] && items[i + 1..|items|] == items[i + 1..];
      if keep[i] {
        kept := kept + [items[i]];
      }
    }
    ghost var positions := CoalescedKeeps(items);
    result := Success(kept);
  }

  lemma CoalesceShort(items: seq<Item>)
    requires |items| < 2
    ensures Coalesced(items) == items
  {
    if items != [] {
      assert items[1..] == [];
    }
  }

  lemma DecidedFirst(items: seq<Item>, i: nat)
    requires i < |items|
    ensures Decided(items, true, i, i + 1)
  {
    assert items[i + 1..i + 1] == [];
  }

  method QueueParallelReplayLane(items: seq<Item>) returns (result: Result<seq<Item>, ReplayError>)
    ensures result.Failure? <==> |items| >= 2 && exists i :: 0 <= i < |items| && CoalesceKey(items[i]).Failure?
    ensures result.Success? ==> result.value == Rewritten(items)
  {
    var coalesced := CoalesceReplayLaneUpdates(items);
    if coalesced.Failure? {
      return coalesced;
    }
    var relationLanes := CollectRelations(coalesced.value);
    var queued := [];
    ghost var relations := FirstSeen(coalesced.value);
    for p := 0 to |relationLanes|
      invariant queued + Grouped(relations[p..], RelationOf, coalesced.value) == Rewritten(items)
    {
      assert relations[p..][0] == relations[p] && relations[p..][1..] == relations[p + 1..];
      queued := queued + relationLanes[p];
    }
    result := Success(queued);
  }

  method CollectRelations(kept: seq<Item>) returns (relationLanes: seq<seq<Item>>)
    ensures |relationLanes| == |FirstSeen(kept)|
    ensures forall p: nat :: p < |relationLanes| ==>
      relationLanes[p] == Select(HasLabel(RelationOf, FirstSeen(kept)[p]), kept)
  {
    hide FirstSeen, Select;
    var relationIndexes: map<TargetRelation, nat> := map[];
    relationLanes := [];
    assert Collected(kept[..0], relationIndexes, relationLanes) by {
      CollectedInitially(kept[..0]);
    }
    for i := 0 to |kept|
      invariant Collected(kept[..i], relationIndexes, relationLanes)
    {
      var item := kept[i];
      CollectNext(kept[..i], item, relationIndexes, relationLanes);
      assert kept[..i + 1] == kept[..i] + [item];
      if item.relation !in relationIndexes {
        relationIndexes := relationIndexes[item.relation := |relationLanes|];
        relationLanes := relationLanes + [[]];
      }
      var index := relationIndexes[item.relation];
      relationLanes := relationLanes[index := relationLanes[index] + [item]];
    }
    assert kept[..|kept|] == kept;
  }

  lemma CollectedInitially(read: seq<Item>)
    requires read == []
    ensures Collected(read, map[], [])
  {
  }

  lemma FirstSeenNext(read: seq<Item>, item: Item)
    ensures FirstSeen(read + [item]) ==
      if item.relation in FirstSeen(read) then FirstSeen(read) else FirstSeen(read) + [item.relation]
  {
    var more := read + [item];
    assert more[..|more| - 1] == read;
  }

  /** `lanes` holds `laneOf` of every label, at the position `indexes` gives it. */
  ghost predicate LaneMap<L(!new)>(
    labels: seq<L>, laneOf: L -> seq<Item>, indexes: map<L, nat>, lanes: seq<seq<Item>>)
  {
    && |lanes| == |labels|
    && (forall l :: l in indexes <==> l in labels)
    && (forall p: nat :: p < |labels| ==> indexes[labels[p]] == p && lanes[p] == laneOf(labels[p]))
  }

  lemma LaneMapNext<L(!new)>(
    labels: seq<L>, laneOf: L -> seq<Item>, laneOf': L -> seq<Item>,
    own: L, item: Item, indexes: map<L, nat>, lanes: seq<seq<Item>>)
    requires LaneMap(labels, laneOf, indexes, lanes)
    requires forall l :: laneOf'(l) == if l == own then laneOf(l) + [item] else laneOf(l)
    requires own !in labels ==> laneOf(own) == []
    ensures
      var labels' := if own in labels then labels else labels + [own];
      var indexes' := if own in indexes then indexes else indexes[own := |lanes|];
      var lanes' := if own in indexes then lanes else lanes + [[]];
      && indexes'[own] < |lanes'|
      && LaneMap(labels', laneOf', indexes', lanes'[indexes'[own] := lanes'[indexes'[own]] + [item]])
  {
  }

  function LaneOfRelation(read: seq<Item>): TargetRelation -> seq<Item> {
    r => Select(HasLabel(RelationOf, r), read)
  }

  /** The lane map after reading `read`: lanes in first-seen order, each in source order. */
  ghost predicate Collected(read: seq<Item>, indexes: map<TargetRelation, nat>, lanes: seq<seq<Item>>) {
    LaneMap(FirstSeen(read), LaneOfRelation(read), indexes, lanes)
  }

  lemma SelectNext(r: TargetRelation, read: seq<Item>, item: Item)
    ensures Select(HasLabel(RelationOf, r), read + [item]) ==
      if item.relation == r then Select(HasLabel(RelationOf, r), read) + [item] else Select(HasLabel(RelationOf, r), read)
  {
    SelectConcat(HasLabel(RelationOf, r), read, [item]);
  }

  lemma UnseenSelectsNothing(read: seq<Item>, r: TargetRelation)
    requires r !in FirstSeen(read)
    ensures Select(HasLabel(RelationOf, r), read) == []
  {
    SelectNone(HasLabel(RelationOf, r), read);
  }

  lemma CollectNext(read: seq<Item>, item: Item, indexes: map<TargetRelation, nat>, lanes: seq<seq<Item>>)
    requires Collected(read, indexes, lanes)
    ensures
      var r := item.relation;
      var indexes' := if r in indexes then indexes else indexes[r := |lanes|];
      var lanes' := if r in indexes then lanes else lanes + [[]];
      && indexes'[r] < |lanes'|
      && Collected(read + [item], indexes', lanes'[indexes'[r] := lanes'[indexes'[r]] + [item]])
  {
    assert item.relation in FirstSeen(read) <==> item.relation in indexes;
    hide FirstSeen, Select, HasLabel, LaneMap;
    FirstSeenNext(read, item);
    if item.relation !in FirstSeen(read) {
      UnseenSelectsNothing(read, item.relation);
    }
    forall r ensures LaneOfRelation(read + [item])(r) ==
      if item.relation == r then LaneOfRelation(read)(r) + [item] else LaneOfRelation(read)(r)
    {
      SelectNext(r, read, item);
    }
    LaneMapNext(FirstSeen(read), LaneOfRelation(read), LaneOfRelation(read + [item]), item.relation, item, indexes, lanes);
  }
}
