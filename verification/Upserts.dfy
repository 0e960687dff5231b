/** Complete updates are sent as upserts on the primary key: when that does what the UPDATE would, and a table
    where it does not (canPrimaryKeyUpsertForPlan, internal/cdc/applier.go:3237-3268). */
module Upserts {
  import opened Wrappers
  import opened Model
  import opened Catalog
  import opened Target

  lemma CompleteRow(r: TargetRelation, c: Change, row: Row)
    requires CanPrimaryKeyUpsert(r, c) && |row| == |r.columns|
    ensures MergedRow(r, row, c.newTuple.value) == RowOf(r, c.newTuple.value)
    ensures RowPrimaryKey(r, RowOf(r, c.newTuple.value)) == TupleKey(r, c.newTuple.value)
  {
    hide CanPrimaryKeyUpsert;
    assert forall i :: 0 <= i < |r.columns| ==>
        Cell(c.newTuple.value, r.columns[i].sourceIndex).kind != DatumUnchangedToast by {
      NoToast(r, c);
    }
  }

  lemma NoToast(r: TargetRelation, c: Change)
    requires CanPrimaryKeyUpsert(r, c)
    ensures c.newTuple.Some?
    ensures forall i :: 0 <= i < |r.columns| ==>
      Cell(c.newTuple.value, r.columns[i].sourceIndex).kind != DatumUnchangedToast
  {
  }

  /** The update bound as an UPDATE can be inserted as well. */
  lemma BoundAsInsert(r: TargetRelation, c: Change)
    requires CanPrimaryKeyUpsert(r, c) && SetClauseOk(r, c.newTuple.value)
    requires ValidTuple(r, c.newTuple) && Storable(r, RowOf(r, c.newTuple.value))
    ensures InsertableTuple(r, c.newTuple)
  {
    NoToast(r, c);
    hide CanPrimaryKeyUpsert, ParamOk, Storable;
  }

  /** Where the UPDATE of a complete update succeeds, its upsert leaves the same table exactly if the row the
      UPDATE finds is the one stored under the new primary key. */
  lemma UpsertIsUpdateIff(r: TargetRelation, c: Change, t: Table)
    requires ValidTable(r, t) && CanPrimaryKeyUpsert(r, c) && SqlUpdate(r, c, t).Some?
    ensures UpdatePredicate(c).Some?
    ensures SqlUpsert(r, c, t) == SqlUpdate(r, c, t) <==>
      Selected(r, t, UpdatePredicate(c).value) == {TupleKey(r, c.newTuple.value)}
  {
    hide PredicateOk, Storable, InsertableTuple, TupleKey, RowOf, RowPrimaryKey, MergedRow, CanPrimaryKeyUpsert, SetClauseOk;
    LookupIsScan(r, t, UpdatePredicate(c).value);
    var selected := Selected(r, t, UpdatePredicate(c).value);
    var k :| k in selected;
    assert selected == {k} by {
      OnlyOne(selected, k);
    }
    hide Selected;
    CompleteRow(r, c, t[k]);
    BoundAsInsert(r, c);
    var key, row := TupleKey(r, c.newTuple.value), RowOf(r, c.newTuple.value);
    assert SqlUpdate(r, c, t) == Some((t - {k})[key := row]) && SqlUpsert(r, c, t) == Some(t[key := row]);
    if k == key {
      assert (t - {k})[key := row] == t[key := row];
    } else {
      assert k in t[key := row] && k !in (t - {k})[key := row];
    }
  }

  lemma OnlyOne(keys: set<Key>, k: Key)
    requires |keys| == 1 && k in keys
    ensures keys == {k}
  {
    assert |keys - {k}| == 0;
  }

  /** It always does if the replica identity contains the primary key. */
  lemma UpsertIsUpdate(r: TargetRelation, c: Change, t: Table)
    requires ValidTable(r, t) && CanPrimaryKeyUpsert(r, c) && SqlUpdate(r, c, t).Some? && IdentityCoversKey(r)
    ensures SqlUpsert(r, c, t) == SqlUpdate(r, c, t)
  {
    UpsertIsUpdateIff(r, c, t);
    SameKeyBefore(r, c);
    hide CanPrimaryKeyUpsert, ValidTable, PredicateOk, Storable, SetClauseOk, SqlUpsert, RowMatches, TupleKey;
  }

  lemma SameKeyBefore(r: TargetRelation, c: Change)
    requires CanPrimaryKeyUpsert(r, c) && ValidTuple(r, UpdatePredicate(c))
    ensures TupleKey(r, UpdatePredicate(c).value) == TupleKey(r, c.newTuple.value)
  {
    var indexes := PrimaryIndexes(r);
    forall n | 0 <= n < |indexes|
      ensures TupleKey(r, UpdatePredicate(c).value)[n] == TupleKey(r, c.newTuple.value)[n]
    {
      assert indexes[n] in indexes;
    }
  }

  // --- A primary key outside the replica identity ---

  /** Accounts with primary key `id`, identified to the subscriber by their unique name. */
  const NAMED: TargetRelation := TargetRelation(
    Relation(1, [], [97], 105, [Column([105], INT4_OID, 0), Column([110], TEXT_OID, 1)]),
    [TargetColumn([105], INT4_OID, false, true, 0, true, true, 0, true, false),
     TargetColumn([110], TEXT_OID, true, false, 0, true, true, 1, true, true)],
    Capabilities(true, true, true, true, false, true))

  function Named(id: Byte): Row {
    [Datum(DatumText, [id]), Datum(DatumText, [97])]
  }

  function IdKey(id: Byte): Key {
    [Datum(DatumText, [id])]
  }

  /** The primary key changes and the name does not, so the source sends no old tuple. */
  function Renumbered(): Change {
    Change(1, Update, None, Some(Named(2)), false, false)
  }

  /** The UPDATE finds the row by name and moves it; the upsert sent instead leaves it and adds a second one. */
  lemma RenumberedTwice()
    ensures CanPrimaryKeyUpsert(NAMED, Renumbered())
    ensures SqlUpdate(NAMED, Renumbered(), map[IdKey(1) := Named(1)]) == Some(map[IdKey(2) := Named(2)])
    ensures SqlStep(NAMED, Renumbered(), map[IdKey(1) := Named(1)]) == Some(map[IdKey(1) := Named(1), IdKey(2) := Named(2)])
  {
    assert PrimaryIndexesUpTo(NAMED.columns, 1) == [0] && PrimaryIndexes(NAMED) == [0];
    var t, c := map[IdKey(1) := Named(1)], Renumbered();
    assert RowOf(NAMED, Named(2)) == Named(2) && TupleKey(NAMED, Named(2)) == IdKey(2);
    assert 0 in PrimaryIndexes(NAMED) && !IdentityColumn(NAMED, 0) && IdentityColumn(NAMED, 1);
    assert RowMatches(NAMED, Named(1), Named(2));
    assert Selected(NAMED, t, Named(2)) == {IdKey(1)};
    assert MergedRow(NAMED, Named(1), Named(2)) == Named(2) && RowPrimaryKey(NAMED, Named(2)) == IdKey(2);
    assert (t - {IdKey(1)})[IdKey(2) := Named(2)] == map[IdKey(2) := Named(2)];
    assert t[IdKey(2) := Named(2)] == map[IdKey(1) := Named(1), IdKey(2) := Named(2)];
  }
}
