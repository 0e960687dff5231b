/** What a row key stands for: which captured forms of a value identify it, so that changes to one row always
    get one dependency key and one lane, and which changes get a row key, a table key or none
    (replayChangeKeyWithOrderedLane, canShardUpdateByPrimaryKey and replayKeyDatumSafe,
    internal/cdc/replay_plan.go:495-702). */
module RowKeys {
  import opened Wrappers
  import opened Model
  import opened Catalog
  import opened Components
  import opened Planner
  import opened PlanShape
  import opened Serializability
  import opened LaneRewrite

  // --- Captured forms and the values they stand for ---

  /** Whether two captured datums of a type stand for equal values in the database. */
  type ValueEquality = (Oid, Datum, Datum) -> bool

  /** The types of which equal values have one binary form. */
  const CANONICAL_BINARY: set<Oid> :=
    {BOOL_OID, BYTEA_OID, INT8_OID, INT2_OID, INT4_OID, TEXT_OID, VARCHAR_OID, DATE_OID, TIME_OID, TIMESTAMP_OID,
     TIMESTAMPTZ_OID, UUID_OID}

  /** The types of which equal values have one text form under all settings of a session: a time depends on its
      time zone, a date on its style, bytes on their output format. */
  const CANONICAL_TEXT: set<Oid> := {BOOL_OID, INT8_OID, INT2_OID, INT4_OID, TEXT_OID, VARCHAR_OID, UUID_OID}

  predicate FormCanonical(oid: Oid, kind: DatumKind) {
    (kind == DatumBinary && oid in CANONICAL_BINARY) || (kind == DatumText && oid in CANONICAL_TEXT)
  }

  /** Equal values captured in this form are the same bytes. */
  ghost predicate Identifies(equal: ValueEquality, oid: Oid, kind: DatumKind) {
    forall a: Datum, b: Datum :: a.kind == kind && b.kind == kind && equal(oid, a, b) ==> a == b
  }

  ghost predicate Canonical(equal: ValueEquality) {
    forall oid, kind :: FormCanonical(oid, kind) ==> Identifies(equal, oid, kind)
  }

  function OneClass(oid: Oid, kind: DatumKind): ValueEquality {
    (o: Oid, a: Datum, b: Datum) => a == b || (o == oid && a.kind == kind && b.kind == kind)
  }

  lemma OneClassCanonical(oid: Oid, kind: DatumKind)
    requires !FormCanonical(oid, kind)
    ensures Canonical(OneClass(oid, kind)) && !Identifies(OneClass(oid, kind), oid, kind)
  {
    hide FormCanonical;
    var a, b := Datum(kind, []), Datum(kind, [0]);
    assert OneClass(oid, kind)(oid, a, b);
  }

  /** A form is taken for keys exactly if equal values of the type have one such form, whatever else equality
      of values may be. */
  lemma KeyFormIffIdentifies(oid: Oid, kind: DatumKind)
    ensures ReplayKeyDatumSafe(oid, kind) <==>
      forall equal: ValueEquality :: Canonical(equal) ==> Identifies(equal, oid, kind)
  {
    if !FormCanonical(oid, kind) {
      OneClassCanonical(oid, kind);
    }
  }

  // --- One row, one key, one lane ---

  predicate IsRowKey(r: TargetRelation, c: Change) {
    var key := ReplayChangeKey(r, c);
    key.Success? && key.value.Some? && key.value.value.RowKey?
  }

  function KeyCell(r: TargetRelation, c: Change, i: nat): Datum
    requires i < |r.columns|
  {
    Cell(if KeyTuple(c).Some? then KeyTuple(c).value else [], r.columns[i].sourceIndex)
  }

  ghost predicate SameValues(equal: ValueEquality, r: TargetRelation, c: Change, d: Change) {
    forall i: nat :: i in PrimaryIndexes(r) ==> equal(r.columns[i].oid, KeyCell(r, c, i), KeyCell(r, d, i))
  }

  /** Every key column was captured in the same form. */
  predicate SameForms(r: TargetRelation, c: Change, d: Change) {
    forall i: nat :: i in PrimaryIndexes(r) ==> KeyCell(r, c, i).kind == KeyCell(r, d, i).kind
  }

  lemma RowKeyCells(r: TargetRelation, c: Change)
    requires IsRowKey(r, c)
    ensures KeyTuple(c).Some? && ReplayChangeKey(r, c) == Success(Some(RowKey(r, TupleKey(r, KeyTuple(c).value))))
    ensures forall i: nat :: i in PrimaryIndexes(r) ==> ReplayKeyDatumSafe(r.columns[i].oid, KeyCell(r, c, i).kind)
  {
    hide ReplayKeyDatumSafe, TupleKey, PrimaryIndexes, ReplayLanePayloadSafe, NeedsTableKey;
  }

  lemma TupleKeysEqual(r: TargetRelation, c: Change, d: Change)
    requires KeyTuple(c).Some? && KeyTuple(d).Some?
    ensures TupleKey(r, KeyTuple(c).value) == TupleKey(r, KeyTuple(d).value) <==>
      forall i: nat :: i in PrimaryIndexes(r) ==> KeyCell(r, c, i) == KeyCell(r, d, i)
  {
    var indexes := PrimaryIndexes(r);
    var k, l := TupleKey(r, KeyTuple(c).value), TupleKey(r, KeyTuple(d).value);
    assert forall n :: 0 <= n < |indexes| ==> indexes[n] in indexes;
    forall n | 0 <= n < |indexes|
      ensures k[n] == KeyCell(r, c, indexes[n]) && l[n] == KeyCell(r, d, indexes[n])
    {
    }
    if k == l {
      forall i: nat | i in indexes ensures KeyCell(r, c, i) == KeyCell(r, d, i) {
        var n :| 0 <= n < |indexes| && indexes[n] == i;
        assert k[n] == l[n];
      }
    }
  }

  /** Changes with row keys of one relation whose primary keys hold equal values have the same dependency key
      exactly if every key column was captured in the same form. */
  lemma EqualValuesEqualKeysIff(equal: ValueEquality, r: TargetRelation, c: Change, d: Change)
    requires Canonical(equal) && IsRowKey(r, c) && IsRowKey(r, d) && SameValues(equal, r, c, d)
    ensures ReplayChangeKey(r, c) == ReplayChangeKey(r, d) <==> SameForms(r, c, d)
  {
    RowKeyCells(r, c);
    RowKeyCells(r, d);
    TupleKeysEqual(r, c, d);
    hide ReplayChangeKey, ReplayKeyDatumSafe, PrimaryIndexes, TupleKey, Canonical, Identifies;
    if SameForms(r, c, d) {
      forall i: nat | i in PrimaryIndexes(r) ensures KeyCell(r, c, i) == KeyCell(r, d, i) {
        KeyFormIffIdentifies(r.columns[i].oid, KeyCell(r, c, i).kind);
        IdentifiedBytes(equal, r.columns[i].oid, KeyCell(r, c, i), KeyCell(r, d, i));
      }
    }
  }

  lemma IdentifiedBytes(equal: ValueEquality, oid: Oid, a: Datum, b: Datum)
    requires Identifies(equal, oid, a.kind) && a.kind == b.kind && equal(oid, a, b)
    ensures a == b
  {
  }

  lemma EpochBounds(batch: seq<Transaction>, lo: nat, hi: nat)
    requires EpochOk(batch, lo, hi)
    ensures lo <= hi <= |batch|
  {
  }

  lemma SameKeyOneLane(
    batch: seq<Transaction>, hashes: Hashes, lo: nat, hi: nat, laneCount: nat, i: nat, a: Item, j: nat, b: Item)
    requires laneCount > 0 && EpochOk(batch, lo, hi) && lo <= i < hi && lo <= j < hi
    requires a in ItemsOf(i, batch[i]) && b in ItemsOf(j, batch[j])
    requires ReplayChangeKey(a.relation, a.change) == ReplayChangeKey(b.relation, b.change)
    ensures
      var epoch := EpochOf(batch, hashes, lo, hi);
      LaneOf(epoch, laneCount, hashes.component, i - lo) == LaneOf(epoch, laneCount, hashes.component, j - lo)
  {
    hide EpochOk, EpochOf, ItemsOf, LaneOf, ReplayChangeKey, Connected;
    EpochBounds(batch, lo, hi);
    SameKeyConnected(batch, hashes, lo, hi, i, a, j, b);
    ConnectedSameLane(EpochOf(batch, hashes, lo, hi), laneCount, hashes.component, i - lo, j - lo);
  }

  /** So the changes of an epoch to one row, captured in one form, are in one component and in one lane. */
  lemma EqualValuesOneLane(
    equal: ValueEquality, batch: seq<Transaction>, hashes: Hashes, lo: nat, hi: nat, laneCount: nat,
    i: nat, a: Item, j: nat, b: Item)
    requires Canonical(equal) && laneCount > 0 && EpochOk(batch, lo, hi) && lo <= i < hi && lo <= j < hi
    requires a in ItemsOf(i, batch[i]) && b in ItemsOf(j, batch[j]) && a.relation == b.relation
    requires IsRowKey(a.relation, a.change) && IsRowKey(b.relation, b.change)
    requires SameValues(equal, a.relation, a.change, b.change) && SameForms(a.relation, a.change, b.change)
    ensures
      var epoch := EpochOf(batch, hashes, lo, hi);
      LaneOf(epoch, laneCount, hashes.component, i - lo) == LaneOf(epoch, laneCount, hashes.component, j - lo)
  {
    hide EpochOk, EpochOf, ItemsOf, Canonical, SameValues, SameForms, IsRowKey, KeyOf, LaneOf, ReplayChangeKey, Connected;
    EqualValuesEqualKeysIff(equal, a.relation, a.change, b.change);
    SameKeyOneLane(batch, hashes, lo, hi, laneCount, i, a, j, b);
  }

  // --- Which key a change gets ---

  predicate KeyPresent(r: TargetRelation, tuple: Option<Tuple>) {
    && ValidTuple(r, tuple)
    && forall i: nat :: i in PrimaryIndexes(r) ==>
         0 <= r.columns[i].sourceIndex < |r.source.columns| && PresentDatum(tuple.value[r.columns[i].sourceIndex])
  }

  /** The change is known to begin and end in one row: an insert or delete names it, and an update has the same
      primary key before and after, where without an old tuple the key is part of the replica identity. */
  predicate ConfinedToRow(r: TargetRelation, c: Change) {
    && PrimaryIndexes(r) != []
    && match c.kind
       case Insert => c.newTuple.Some?
       case Update =>
         && KeyPresent(r, c.newTuple)
         && if c.oldTuple.None? then PrimaryKeyDeleteSafe(r)
            else KeyPresent(r, c.oldTuple) && TupleKey(r, c.oldTuple.value) == TupleKey(r, c.newTuple.value)
       case Delete => PrimaryKeyDeleteSafe(r) && c.oldTuple.Some?
       case Truncate => false
  }

  lemma ShardableIff(r: TargetRelation, c: Change)
    requires c.kind == Update
    ensures CanShardUpdateByPrimaryKey(r, c) <==> ConfinedToRow(r, c)
  {
    hide PrimaryKeyDeleteSafe;
    if ValidTuple(r, c.newTuple) && ValidTuple(r, c.oldTuple) {
      var indexes := PrimaryIndexes(r);
      var k, l := TupleKey(r, c.oldTuple.value), TupleKey(r, c.newTuple.value);
      assert forall n :: 0 <= n < |indexes| ==> indexes[n] in indexes;
      if k == l {
        forall i: nat | i in indexes
          ensures Cell(c.oldTuple.value, r.columns[i].sourceIndex) == Cell(c.newTuple.value, r.columns[i].sourceIndex)
        {
          var n :| 0 <= n < |indexes| && indexes[n] == i;
          assert k[n] == l[n];
        }
      }
    }
  }

  /** Coalescing takes a change for one of a row exactly if it is confined to it; a tuple of the wrong length is
      the error. */
  lemma CoalesceKeyIff(item: Item)
    ensures
      var r, c := item.relation, item.change;
      CoalesceKey(item) ==
        if !ConfinedToRow(r, c) then Success(None)
        else if !ValidTuple(r, KeyTuple(c)) then Failure(InvalidTuple)
        else Success(Some((r.source.oid, TupleKey(r, KeyTuple(c).value))))
  {
    hide CanShardUpdateByPrimaryKey, PrimaryKeyDeleteSafe, KeyPresent, TupleKey, PrimaryIndexes;
    if item.change.kind == Update {
      ShardableIff(item.relation, item.change);
      assert ConfinedToRow(item.relation, item.change) ==> item.change.newTuple.Some? by {
        UpdateHasNew(item.relation, item.change);
      }
    }
  }

  lemma UpdateHasNew(r: TargetRelation, c: Change)
    requires c.kind == Update
    ensures ConfinedToRow(r, c) ==> c.newTuple.Some?
  {
  }

  /** The relation may run in lanes with a change of this payload. */
  predicate MayRunInLane(r: TargetRelation, c: Change) {
    r.capabilities.relationOrderedLane && ReplayLanePayloadSafe(r, c) && c.kind != Truncate && ValidTuple(r, KeyTuple(c))
  }

  predicate KeyColumnsSafe(r: TargetRelation) {
    PrimaryIndexes(r) != [] && forall i: nat :: i in PrimaryIndexes(r) ==> r.columns[i].replayKeySafe
  }

  /** Exactly when a change gets a row key, and which. */
  lemma RowKeyIff(r: TargetRelation, c: Change)
    ensures IsRowKey(r, c) <==>
      && MayRunInLane(r, c) && RowLane(r) && KeyColumnsSafe(r) && ConfinedToRow(r, c)
      && forall i: nat :: i in PrimaryIndexes(r) ==>
           KeyDatumSafe(r, i, KeyTuple(c).value) && ParamOk(r, r.columns[i], KeyCell(r, c, i))
    ensures IsRowKey(r, c) ==> ReplayChangeKey(r, c).value.value == RowKey(r, TupleKey(r, KeyTuple(c).value))
  {
    hide CanShardUpdateByPrimaryKey, PrimaryKeyDeleteSafe, KeyPresent, TupleKey, PrimaryIndexes, KeyDatumSafe, ParamOk;
    hide ReplayLanePayloadSafe;
    if c.kind == Update {
      ShardableIff(r, c);
    }
  }

  /** Exactly when it gets the key of its table: the relation is one lane, or the change is not confined to a
      row. */
  lemma TableKeyIff(r: TargetRelation, c: Change)
    ensures ReplayChangeKey(r, c) == Success(Some(TableKey(r))) <==>
      MayRunInLane(r, c) &&
      (!r.capabilities.relationLane || r.capabilities.crossKeyConflicts || (KeyColumnsSafe(r) && !ConfinedToRow(r, c)))
  {
    hide CanShardUpdateByPrimaryKey, PrimaryKeyDeleteSafe, KeyPresent, TupleKey, PrimaryIndexes, KeyDatumSafe, ParamOk;
    hide ReplayLanePayloadSafe, CheckKeyDatums;
    if c.kind == Update {
      ShardableIff(r, c);
    }
  }
}
