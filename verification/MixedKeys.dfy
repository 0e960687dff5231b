/** Where lane order can go wrong: `ReplayChangeKey` gives an update it cannot shard, such as one
    that moves a primary key, the table key, while other changes of the same relation get row keys
    (internal/cdc/replay_plan.go:554-561), and only equal keys join a component
    (internal/cdc/replay_plan.go:293-305). Lanes keep every conflict of an epoch in source order
    exactly when such changes are joined anyway, and a concrete epoch shows what happens otherwise. */
module MixedKeys {
  import opened Wrappers
  import opened Model
  import opened Catalog
  import opened Target
  import opened Dependence
  import opened LaneRewrite
  import opened Components
  import opened Planner
  import opened PlanShape
  import opened Serializability
  import opened Execution

  /** Dependent changes of different transactions run in one lane, hence in source order. */
  ghost predicate LanesKeepConflicts(batch: seq<Transaction>, hashes: Hashes, lo: nat, hi: nat, laneCount: nat)
    requires lo <= hi <= |batch| && laneCount > 0
  {
    forall i, j, a, b ::
      lo <= i < hi && lo <= j < hi && a in ItemsOf(i, batch[i]) && b in ItemsOf(j, batch[j]) && !Independent(a, b) ==>
        LaneOf(EpochOf(batch, hashes, lo, hi), laneCount, hashes.component, i - lo) ==
        LaneOf(EpochOf(batch, hashes, lo, hi), laneCount, hashes.component, j - lo)
  }

  lemma {:induction false} EpochIgnoresComponent(batch: seq<Transaction>, hashes: Hashes, other: Hashes, lo: nat, hi: nat)
    requires lo <= hi <= |batch| && hashes.key == other.key
    ensures EpochOf(batch, hashes, lo, hi) == EpochOf(batch, other, lo, hi)
    decreases hi
  {
    hide Planned;
    if lo < hi {
      EpochIgnoresComponent(batch, hashes, other, lo, hi - 1);
      PlannedIgnoresComponent(hashes, other, hi - 1, batch[hi - 1]);
    }
  }

  lemma PlannedIgnoresComponent(hashes: Hashes, other: Hashes, index: nat, t: Transaction)
    requires hashes.key == other.key
    ensures Planned(hashes, index, t) == Planned(other, index, t)
  {
    hide KeyAt, ItemsOf;
    assert DigestsUpTo(hashes, t, |t.changes|) == DigestsUpTo(other, t, |t.changes|);
  }

  lemma ConflictSharesLane(
    batch: seq<Transaction>, hashes: Hashes, lo: nat, hi: nat, laneCount: nat, i: nat, a: Item, j: nat, b: Item)
    requires lo <= i < hi <= |batch| && lo <= j < hi && laneCount > 0
    requires a in ItemsOf(i, batch[i]) && b in ItemsOf(j, batch[j]) && !Independent(a, b)
    requires EpochOk(batch, lo, hi) && SourceOk(batch) && OverlapsJoined(batch, hashes, lo, hi)
    ensures LaneOf(EpochOf(batch, hashes, lo, hi), laneCount, hashes.component, i - lo) ==
      LaneOf(EpochOf(batch, hashes, lo, hi), laneCount, hashes.component, j - lo)
  {
    hide EpochOk, SourceOk, OverlapsJoined, Independent, ItemsOf, LaneOf, EpochOf, Connected;
    var epoch := EpochOf(batch, hashes, lo, hi);
    if Connected(epoch, i - lo, j - lo) {
      ConnectedSameLane(epoch, laneCount, hashes.component, i - lo, j - lo);
    } else {
      UnconnectedIndependent(batch, hashes, lo, hi, i, a, j, b);
    }
  }

  lemma JoinedKeepsConflicts(batch: seq<Transaction>, hashes: Hashes, lo: nat, hi: nat, laneCount: nat)
    requires EpochOk(batch, lo, hi) && laneCount > 0 && SourceOk(batch) && OverlapsJoined(batch, hashes, lo, hi)
    ensures LanesKeepConflicts(batch, hashes, lo, hi, laneCount)
  {
    assert lo < hi <= |batch|;
    hide EpochOk, SourceOk, OverlapsJoined, Independent, ItemsOf, LaneOf, EpochOf;
    forall i, j, a, b | lo <= i < hi && lo <= j < hi && a in ItemsOf(i, batch[i]) && b in ItemsOf(j, batch[j])
                        && !Independent(a, b)
      ensures LaneOf(EpochOf(batch, hashes, lo, hi), laneCount, hashes.component, i - lo) ==
        LaneOf(EpochOf(batch, hashes, lo, hi), laneCount, hashes.component, j - lo)
    {
      ConflictSharesLane(batch, hashes, lo, hi, laneCount, i, a, j, b);
    }
  }

  /** Different components have different digests of keys. */
  lemma ComponentsDiffer(epoch: seq<PlanTransaction>, i: nat, j: nat)
    requires i < |epoch| && j < |epoch| && epoch[i].keys != [] && !Connected(epoch, i, j)
    ensures Ascending(ComponentKeys(epoch, i)) != Ascending(ComponentKeys(epoch, j))
  {
    hide Connected, Ascending;
    var k := epoch[i].keys[0];
    ConnectedSelf(epoch, i);
    assert Connected(epoch, i, i) && k in epoch[i].keys && k in ComponentKeys(epoch, i);
    if k in ComponentKeys(epoch, j) {
      var m: nat :| m < |epoch| && Connected(epoch, j, m) && k in epoch[m].keys;
      SharesConnects(epoch, i, m);
      ConnectedSymmetric(epoch, j, m);
      ConnectedTransitive(epoch, i, m, j);
    }
    assert k in Ascending(ComponentKeys(epoch, i)) && k !in Ascending(ComponentKeys(epoch, j));
  }

  /** A component hash that separates transaction `i` from every other component. */
  ghost function Separating(epoch: seq<PlanTransaction>, i: nat): seq<Digest> -> nat {
    keys => if keys == Ascending(ComponentKeys(epoch, i)) then 1 else 0
  }

  lemma SeparatedLanes(epoch: seq<PlanTransaction>, i: nat, j: nat)
    requires i < |epoch| && j < |epoch| && epoch[i].keys != [] && !Connected(epoch, i, j)
    ensures LaneOf(epoch, 2, Separating(epoch, i), i) == 1 && LaneOf(epoch, 2, Separating(epoch, i), j) == 0
  {
    hide ComponentKeys, Connected, Ascending;
    ComponentsDiffer(epoch, i, j);
  }

  lemma UnjoinedBreaksConflicts(
    batch: seq<Transaction>, hashes: Hashes, lo: nat, hi: nat, i: nat, j: nat, a: Item, b: Item)
    returns (component: seq<Digest> -> nat)
    requires lo <= i < hi <= |batch| && lo <= j < hi
    requires a in ItemsOf(i, batch[i]) && b in ItemsOf(j, batch[j]) && MixedOverlap(a, b)
    requires !Connected(EpochOf(batch, hashes, lo, hi), i - lo, j - lo)
    ensures !LanesKeepConflicts(batch, Hashes(hashes.key, component), lo, hi, 2)
  {
    hide ItemsOf, LaneOf, Connected, Planned, Overlap, KeyOf;
    var epoch := EpochOf(batch, hashes, lo, hi);
    component := Separating(epoch, i - lo);
    var other := Hashes(hashes.key, component);
    EpochIgnoresComponent(batch, hashes, other, lo, hi);
    EpochAt(batch, hashes, lo, hi, i - lo);
    PlannedKeys(hashes, i, batch[i]);
    SeparatedLanes(epoch, i - lo, j - lo);
    assert !Independent(a, b);
  }

  lemma PlannedKeys(hashes: Hashes, index: nat, t: Transaction)
    ensures Planned(hashes, index, t).keys != []
  {
  }

  /** Conflict serializability, exactly: whatever the component hash and the lane count, the lanes
      of an epoch keep all conflicts in source order if and only if row-keyed and table-keyed
      changes that meet in a row are joined through other keys. */
  lemma ConflictsOrderedIffJoined(batch: seq<Transaction>, hashes: Hashes, lo: nat, hi: nat)
    requires EpochOk(batch, lo, hi) && SourceOk(batch)
    ensures OverlapsJoined(batch, hashes, lo, hi) <==>
      forall component: seq<Digest> -> nat, laneCount: nat | laneCount > 0 ::
        LanesKeepConflicts(batch, Hashes(hashes.key, component), lo, hi, laneCount)
  {
    hide SourceOk, LanesKeepConflicts, MixedOverlap, ItemsOf, Connected, Keyed, StableDefinitions, EpochOf;
    if OverlapsJoined(batch, hashes, lo, hi) {
      forall component: seq<Digest> -> nat, laneCount: nat | laneCount > 0
        ensures LanesKeepConflicts(batch, Hashes(hashes.key, component), lo, hi, laneCount)
      {
        EpochIgnoresComponent(batch, hashes, Hashes(hashes.key, component), lo, hi);
        JoinedKeepsConflicts(batch, Hashes(hashes.key, component), lo, hi, laneCount);
      }
    } else {
      var i, j, a, b :|
        lo <= i < hi && lo <= j < hi && a in ItemsOf(i, batch[i]) && b in ItemsOf(j, batch[j]) && MixedOverlap(a, b)
        && !Connected(EpochOf(batch, hashes, lo, hi), i - lo, j - lo);
      var component := UnjoinedBreaksConflicts(batch, hashes, lo, hi, i, j, a, b);
    }
  }

  /** No update or delete of a row-sharded relation falls back to the table key. */
  predicate AllShardable(batch: seq<Transaction>, lo: nat, hi: nat)
    requires lo <= hi <= |batch|
  {
    forall i, x :: lo <= i < hi && x in ItemsOf(i, batch[i]) && RowLane(x.relation) ==> !NeedsTableKey(x.relation, x.change)
  }

  /** An epoch that never takes the table-key branch for a row-sharded relation is safe. */
  lemma ShardableIsJoined(batch: seq<Transaction>, hashes: Hashes, lo: nat, hi: nat)
    requires EpochOk(batch, lo, hi) && AllShardable(batch, lo, hi)
    ensures OverlapsJoined(batch, hashes, lo, hi)
  {
    assert lo < hi <= |batch|;
    hide ItemsOf, EpochOf, Connected, NeedsTableKey, KeyOf, MixedOverlap, AllShardable, EpochOk;
    forall i, j, a, b | lo <= i < hi && lo <= j < hi && a in ItemsOf(i, batch[i]) && b in ItemsOf(j, batch[j])
      ensures !MixedOverlap(a, b)
    {
      if MixedOverlap(a, b) {
        MixedSameTable(a, b);
        EpochDefinitions(batch, lo, hi, i, a, j, b);
        MixedNeedsTableKey(a, b);
        NotNeeded(batch, lo, hi, j, b);
        assert false;
      }
    }
  }

  lemma MixedSameTable(a: Item, b: Item)
    requires MixedOverlap(a, b)
    ensures a.relation.source.oid == b.relation.source.oid
  {
  }

  lemma NotNeeded(batch: seq<Transaction>, lo: nat, hi: nat, j: nat, b: Item)
    requires lo <= j < hi <= |batch| && AllShardable(batch, lo, hi)
    requires b in ItemsOf(j, batch[j]) && RowLane(b.relation)
    ensures !NeedsTableKey(b.relation, b.change)
  {
  }

  lemma MixedNeedsTableKey(a: Item, b: Item)
    requires MixedOverlap(a, b) && a.relation == b.relation
    ensures RowLane(b.relation) && NeedsTableKey(b.relation, b.change)
  {
  }

  /** Each relation is keyed either always per row or always per table. */
  predicate KeyedOneWay(batch: seq<Transaction>, lo: nat, hi: nat)
    requires lo <= hi <= |batch|
  {
    forall i, j, a, b ::
      lo <= i < hi && lo <= j < hi && a in ItemsOf(i, batch[i]) && b in ItemsOf(j, batch[j]) ==>
        a.relation.source.oid == b.relation.source.oid ==> !(HasRowKey(a) && HasTableKey(b))
  }

  /** The condition a caller checks on the keys of an epoch. */
  lemma OneWayIsJoined(batch: seq<Transaction>, hashes: Hashes, lo: nat, hi: nat)
    requires lo <= hi <= |batch| && KeyedOneWay(batch, lo, hi)
    ensures OverlapsJoined(batch, hashes, lo, hi)
  {
    hide ItemsOf, EpochOf, Connected, KeyOf;
  }

  /** Parallel replay of a batch in which no relation is keyed both ways is serializable, whatever the
      lane count, the hashes and the commit orders. */
  lemma OneWaySerializable(
    sem: Semantics, db: Database, orders: seq<seq<PlanLane>>, batch: seq<Transaction>, laneCount: nat, hashes: Hashes)
    requires laneCount > 0 && SourceOk(batch) && KeyedOneWay(batch, 0, |batch|)
    requires OrdersOk(PlanOf(batch, laneCount, hashes).steps, orders)
    requires Run(sem, Some(db), BatchItems(batch, 0, |batch|)).Some?
    ensures CommitSteps(sem, Some(db), PlanOf(batch, laneCount, hashes).steps, orders, batch) ==
      Run(sem, Some(db), BatchItems(batch, 0, |batch|))
  {
    hide PlanOf, SourceOk, OverlapsJoined, EpochOf, Connected, KeyOf, ItemsOf, StableDefinitions;
    forall lo, hi | 0 <= lo && EpochOk(batch, lo, hi) ensures OverlapsJoined(batch, hashes, lo, hi) {
      OneWayWithin(batch, lo, hi);
      OneWayIsJoined(batch, hashes, lo, hi);
    }
    BatchSerializable(sem, db, orders, batch, laneCount, hashes);
  }

  lemma OneWayWithin(batch: seq<Transaction>, lo: nat, hi: nat)
    requires lo <= hi <= |batch| && KeyedOneWay(batch, 0, |batch|)
    ensures KeyedOneWay(batch, lo, hi)
  {
    hide ItemsOf, KeyOf;
  }
}
