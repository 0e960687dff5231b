/** Parallel replay is serializable: running the lanes of every step in any commit order leaves the
    target exactly as replaying the source transactions one by one, failures included
    (internal/cdc/replay_plan.go:92-344, internal/cdc/replay_execute.go:66-143). */
module Serializability {
  import opened Wrappers
  import opened Model
  import opened Catalog
  import opened Target
  import opened Dependence
  import opened Components
  import opened Planner
  import opened PlanShape
  import opened LaneRewrite

  /** The changes of transactions `lo..hi` in source order. */
  function BatchItems(batch: seq<Transaction>, lo: nat, hi: nat): seq<Item>
    requires lo <= hi <= |batch|
  {
    if lo == hi then [] else BatchItems(batch, lo, hi - 1) + ItemsOf(hi - 1, batch[hi - 1])
  }

  /** What pgoutput guarantees of every update: old values are replica-identity values. */
  ghost predicate SourceOk(batch: seq<Transaction>) {
    forall i, x :: 0 <= i < |batch| && x in ItemsOf(i, batch[i]) ==> OldTupleIsIdentity(x)
  }

  function KeyOf(item: Item): Result<Option<DependencyKey>, ReplayError> {
    ReplayChangeKey(item.relation, item.change)
  }

  predicate HasRowKey(x: Item) {
    KeyOf(x).Success? && KeyOf(x).value.Some? && KeyOf(x).value.value.RowKey?
  }

  predicate HasTableKey(x: Item) {
    KeyOf(x).Success? && KeyOf(x).value.Some? && KeyOf(x).value.value.TableKey?
  }

  /** A row-keyed change and a table-keyed change of the same relation that meet in some row. */
  predicate MixedOverlap(a: Item, b: Item) {
    HasRowKey(a) && HasTableKey(b) && Overlap(a, b)
  }

  /** Wherever the planner keys one relation both per row and per table inside an epoch, changes
      that meet in a row belong to one component anyway. */
  ghost predicate OverlapsJoined(batch: seq<Transaction>, hashes: Hashes, lo: nat, hi: nat)
    requires lo <= hi <= |batch|
  {
    forall i, j, a, b ::
      lo <= i < hi && lo <= j < hi && a in ItemsOf(i, batch[i]) && b in ItemsOf(j, batch[j]) && MixedOverlap(a, b) ==>
        Connected(EpochOf(batch, hashes, lo, hi), i - lo, j - lo)
  }

  // --- Keys and footprints ---

  lemma RowKeyFootprint(item: Item)
    requires OldTupleIsIdentity(item)
    requires KeyOf(item).Success? && KeyOf(item).value.Some? && KeyOf(item).value.value.RowKey?
    ensures KeyOf(item).value.value.relation == item.relation
    ensures Footprint(item) == Some({KeyOf(item).value.value.key})
  {
    if item.change.kind == Update {
      ShardedFootprint(item);
    }
  }

  /** A change with a dependency key stays inside its relation, and the key names that relation. */
  lemma KeyedIsLocal(item: Item)
    requires KeyOf(item).Success? && KeyOf(item).value.Some?
    ensures RelationLocal(item)
    ensures KeyOf(item).value.value.RowKey? || KeyOf(item).value.value == TableKey(item.relation)
  {
  }

  lemma DifferentKeysCommute(a: Item, b: Item)
    requires OldTupleIsIdentity(a) && OldTupleIsIdentity(b)
    requires KeyOf(a).Success? && KeyOf(a).value.Some? && KeyOf(b).Success? && KeyOf(b).value.Some?
    requires KeyOf(a).value.value != KeyOf(b).value.value
    requires a.relation.source.oid == b.relation.source.oid ==> a.relation == b.relation
    requires !MixedOverlap(a, b) && !MixedOverlap(b, a)
    ensures Independent(a, b)
  {
    KeyedIsLocal(a);
    KeyedIsLocal(b);
    hide KeyOf, Footprint, RelationLocal;
    if KeyOf(a).value.value.RowKey? && KeyOf(b).value.value.RowKey? {
      RowKeyFootprint(a);
      RowKeyFootprint(b);
    }
  }

  lemma ItemOfKeyed(batch: seq<Transaction>, i: nat, x: Item)
    requires i < |batch| && Keyed(batch[i]) && x in ItemsOf(i, batch[i])
    ensures x.transactionIndex == i && x.changeIndex < |batch[i].changes|
    ensures Resolve(batch[i].relations, x.relation.source.oid) == Some(x.relation)
    ensures KeyOf(x) == Success(Some(KeyAt(batch[i], x.changeIndex)))
  {
    hide ReplayChangeKey;
    var c :| 0 <= c < |batch[i].changes| && x == ItemAt(i, batch[i], c);
    LaneSafeMeaning(batch[i], |batch[i].changes|);
    assert ChangeKey(batch[i], batch[i].changes[c]) == Success(Some(KeyAt(batch[i], c)));
  }

  /** A keyed change contributes the digest of its key to its planned transaction. */
  lemma ItemDigest(batch: seq<Transaction>, hashes: Hashes, i: nat, x: Item)
    requires i < |batch| && Keyed(batch[i]) && x in ItemsOf(i, batch[i])
    ensures KeyOf(x).Success? && KeyOf(x).value.Some?
    ensures hashes.key(KeyOf(x).value.value) in Planned(hashes, i, batch[i]).keys
  {
    hide KeyOf, Keyed;
    ItemOfKeyed(batch, i, x);
    var digests := DigestsUpTo(hashes, batch[i], |batch[i].changes|);
    assert digests[x.changeIndex] in digests;
  }

  lemma EpochDefinitions(batch: seq<Transaction>, lo: nat, hi: nat, i: nat, a: Item, j: nat, b: Item)
    requires EpochOk(batch, lo, hi) && lo <= i < hi && lo <= j < hi
    requires a in ItemsOf(i, batch[i]) && b in ItemsOf(j, batch[j])
    requires a.relation.source.oid == b.relation.source.oid
    ensures a.relation == b.relation
  {
    hide Keyed, Resolve, ItemsOf;
    ItemOfKeyed(batch, i, a);
    ItemOfKeyed(batch, j, b);
    var definitions :| DefinitionsKnown(batch, lo, hi, definitions);
  }

  /** Changes with the same dependency key are in one component. */
  lemma SameKeyConnected(
    batch: seq<Transaction>, hashes: Hashes, lo: nat, hi: nat, i: nat, a: Item, j: nat, b: Item)
    requires EpochOk(batch, lo, hi) && lo <= i < hi && lo <= j < hi
    requires a in ItemsOf(i, batch[i]) && b in ItemsOf(j, batch[j]) && KeyOf(a) == KeyOf(b)
    ensures Connected(EpochOf(batch, hashes, lo, hi), i - lo, j - lo)
  {
    hide KeyOf, Keyed, ItemsOf, Planned, EpochOf, StableDefinitions;
    var epoch := EpochOf(batch, hashes, lo, hi);
    EpochAt(batch, hashes, lo, hi, i - lo);
    EpochAt(batch, hashes, lo, hi, j - lo);
    ItemDigest(batch, hashes, i, a);
    ItemDigest(batch, hashes, j, b);
    assert Shares(epoch, i - lo, j - lo);
    SharesConnects(epoch, i - lo, j - lo);
  }

  lemma UnconnectedNotMixed(
    batch: seq<Transaction>, hashes: Hashes, lo: nat, hi: nat, i: nat, a: Item, j: nat, b: Item)
    requires EpochOk(batch, lo, hi) && OverlapsJoined(batch, hashes, lo, hi)
    requires lo <= i < hi && lo <= j < hi && a in ItemsOf(i, batch[i]) && b in ItemsOf(j, batch[j])
    requires !Connected(EpochOf(batch, hashes, lo, hi), i - lo, j - lo)
    ensures !MixedOverlap(a, b) && !MixedOverlap(b, a)
  {
    hide Keyed, ItemsOf, MixedOverlap, EpochOf, StableDefinitions;
    if Connected(EpochOf(batch, hashes, lo, hi), j - lo, i - lo) {
      ConnectedSymmetric(EpochOf(batch, hashes, lo, hi), j - lo, i - lo);
    }
    hide Connected;
  }

  /** Changes of transactions in different components are independent. */
  lemma UnconnectedIndependent(
    batch: seq<Transaction>, hashes: Hashes, lo: nat, hi: nat, i: nat, a: Item, j: nat, b: Item)
    requires EpochOk(batch, lo, hi) && SourceOk(batch) && OverlapsJoined(batch, hashes, lo, hi)
    requires lo <= i < hi && lo <= j < hi && a in ItemsOf(i, batch[i]) && b in ItemsOf(j, batch[j])
    requires !Connected(EpochOf(batch, hashes, lo, hi), i - lo, j - lo)
    ensures Independent(a, b)
  {
    hide KeyOf, Keyed, ItemsOf, MixedOverlap, EpochOf, StableDefinitions, OverlapsJoined, Connected, OldTupleIsIdentity;
    UnconnectedNotMixed(batch, hashes, lo, hi, i, a, j, b);
    ItemDigest(batch, hashes, i, a);
    ItemDigest(batch, hashes, j, b);
    if KeyOf(a) == KeyOf(b) {
      SameKeyConnected(batch, hashes, lo, hi, i, a, j, b);
    } else {
      if a.relation.source.oid == b.relation.source.oid {
        EpochDefinitions(batch, lo, hi, i, a, j, b);
      }
      DifferentKeysCommute(a, b);
    }
  }

  // --- Lanes are selections of the epoch ---

  ghost function LaneLabel(
    epoch: seq<PlanTransaction>, laneCount: nat, digest: seq<Digest> -> nat, lo: nat): Item -> nat
    requires laneCount > 0
  {
    (x: Item) => if lo <= x.transactionIndex < lo + |epoch|
                 then LaneOf(epoch, laneCount, digest, x.transactionIndex - lo) else 0
  }

  lemma ItemsCarryIndex(index: nat, t: Transaction)
    ensures forall x :: x in ItemsOf(index, t) ==> x.transactionIndex == index
  {
  }

  ghost function EpochItems(epoch: seq<PlanTransaction>, n: nat): seq<Item>
    requires n <= |epoch|
  {
    if n == 0 then [] else EpochItems(epoch, n - 1) + epoch[n - 1].items
  }

  /** A lane holds exactly the changes of its transactions, in source order. */
  lemma {:induction false} LaneSelects(
    epoch: seq<PlanTransaction>, laneCount: nat, digest: seq<Digest> -> nat, lo: nat, l: nat, n: nat)
    requires laneCount > 0 && n <= |epoch|
    requires forall j, x :: 0 <= j < |epoch| && x in epoch[j].items ==> x.transactionIndex == lo + j
    ensures LaneUpTo(epoch, laneCount, digest, l, n).items ==
      Select(HasLabel(LaneLabel(epoch, laneCount, digest, lo), l), EpochItems(epoch, n))
    decreases n
  {
    hide LaneOf, LaneUpTo, Select;
    LaneStep(epoch, laneCount, digest, l, n);
    if n == 0 {
      SelectNone(HasLabel(LaneLabel(epoch, laneCount, digest, lo), l), []);
    } else {
      LaneSelects(epoch, laneCount, digest, lo, l, n - 1);
      var p, items := HasLabel(LaneLabel(epoch, laneCount, digest, lo), l), epoch[n - 1].items;
      SelectConcat(p, EpochItems(epoch, n - 1), items);
      if LaneOf(epoch, laneCount, digest, n - 1) == l {
        SelectAll(p, items);
      } else {
        SelectNone(p, items);
      }
    }
  }

  lemma {:induction false} EpochItemsAre(batch: seq<Transaction>, hashes: Hashes, lo: nat, hi: nat, n: nat)
    requires lo <= hi <= |batch| && n <= hi - lo
    ensures EpochItems(EpochOf(batch, hashes, lo, hi), n) == BatchItems(batch, lo, lo + n)
    decreases n
  {
    hide ItemsOf, EpochOf;
    if n > 0 {
      EpochItemsAre(batch, hashes, lo, hi, n - 1);
      EpochAt(batch, hashes, lo, hi, n - 1);
    }
  }

  lemma LaneIsSelection(batch: seq<Transaction>, hashes: Hashes, lo: nat, hi: nat, laneCount: nat, l: nat)
    requires EpochOk(batch, lo, hi) && laneCount > 0
    ensures
      var epoch := EpochOf(batch, hashes, lo, hi);
      LaneUpTo(epoch, laneCount, hashes.component, l, hi - lo).items ==
        Select(HasLabel(LaneLabel(epoch, laneCount, hashes.component, lo), l), BatchItems(batch, lo, hi))
  {
    hide Keyed, ItemsOf, EpochOf, LaneOf, LaneUpTo, StableDefinitions, BatchItems, EpochItems;
    var epoch := EpochOf(batch, hashes, lo, hi);
    forall j, x | 0 <= j < |epoch| && x in epoch[j].items ensures x.transactionIndex == lo + j {
      EpochAt(batch, hashes, lo, hi, j);
      ItemsCarryIndex(lo + j, batch[lo + j]);
    }
    LaneSelects(epoch, laneCount, hashes.component, lo, l, hi - lo);
    EpochItemsAre(batch, hashes, lo, hi, hi - lo);
  }

  lemma {:induction false} ItemInBatch(batch: seq<Transaction>, lo: nat, hi: nat, x: Item)
    requires lo <= hi <= |batch| && x in BatchItems(batch, lo, hi)
    ensures lo <= x.transactionIndex < hi && x in ItemsOf(x.transactionIndex, batch[x.transactionIndex])
    decreases hi
  {
    hide ItemsOf;
    if x in BatchItems(batch, lo, hi - 1) {
      ItemInBatch(batch, lo, hi - 1, x);
    } else {
      ItemsCarryIndex(hi - 1, batch[hi - 1]);
    }
  }

  lemma EpochLanesSeparate(batch: seq<Transaction>, hashes: Hashes, lo: nat, hi: nat, laneCount: nat)
    requires EpochOk(batch, lo, hi) && SourceOk(batch) && OverlapsJoined(batch, hashes, lo, hi) && laneCount > 0
    ensures LabelsSeparate(
      LaneLabel(EpochOf(batch, hashes, lo, hi), laneCount, hashes.component, lo), BatchItems(batch, lo, hi))
  {
    hide LaneOf, Keyed, ItemsOf, EpochOf, Independent;
    var epoch, items := EpochOf(batch, hashes, lo, hi), BatchItems(batch, lo, hi);
    var labelOf := LaneLabel(epoch, laneCount, hashes.component, lo);
    forall p, q | 0 <= p < q < |items| && labelOf(items[p]) != labelOf(items[q])
      ensures Independent(items[p], items[q])
    {
      var a, b := items[p], items[q];
      ItemInBatch(batch, lo, hi, a);
      ItemInBatch(batch, lo, hi, b);
      var i, j := a.transactionIndex, b.transactionIndex;
      if Connected(epoch, i - lo, j - lo) {
        ConnectedSameLane(epoch, laneCount, hashes.component, i - lo, j - lo);
      }
      UnconnectedIndependent(batch, hashes, lo, hi, i, a, j, b);
    }
  }
}
