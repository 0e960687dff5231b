/** Runs of changes to one relation as set statements: what a multi-row INSERT, an upsert on the primary
    key or a multi-row DELETE does to the table at once, and when this is what its changes do one by one
    (applyInserts, applyPrimaryKeyUpsertChunk, applyDeletes in internal/cdc/applier.go). */
module SetDml {
  import opened Wrappers
  import opened Model
  import opened Catalog
  import opened Target
  import opened TupleKeys

  const CHUNK_ROWS := 8192

  const UPSERT_LEAD: Bytes := [COLON]
  const IDENTITY_LEAD: Bytes := []

  // --- One change at a time ---

  ghost function TableRun(r: TargetRelation, changes: seq<Change>, t: Option<Table>): Option<Table>
    decreases |changes|
  {
    if changes == [] then t
    else
      var before := TableRun(r, changes[..|changes| - 1], t);
      if before.None? then None else SqlStep(r, changes[|changes| - 1], before.value)
  }

  lemma {:induction false} TableRunConcat(r: TargetRelation, a: seq<Change>, b: seq<Change>, t: Option<Table>)
    ensures TableRun(r, a + b, t) == TableRun(r, b, TableRun(r, a, t))
    decreases |b|
  {
    if b == [] {
      assert a + b == a;
    } else {
      var init := b[..|b| - 1];
      assert (a + b)[..|a + b| - 1] == a + init;
      TableRunConcat(r, a, init, t);
    }
  }

  /** Rows stay under their own key and hold what their columns allow. */
  ghost predicate StoredOk(r: TargetRelation, t: Table) {
    ValidTable(r, t) && forall k :: k in t ==> |t[k]| == |r.columns| && Storable(r, t[k])
  }

  lemma StepKeepsStored(r: TargetRelation, c: Change, t: Table)
    requires StoredOk(r, t) && SqlStep(r, c, t).Some?
    ensures StoredOk(r, SqlStep(r, c, t).value)
  {
    SqlStepKeepsTableValid(r, c, t);
  }

  lemma {:induction false} RunKeepsStored(r: TargetRelation, changes: seq<Change>, t: Table)
    requires StoredOk(r, t) && TableRun(r, changes, Some(t)).Some?
    ensures StoredOk(r, TableRun(r, changes, Some(t)).value)
    decreases |changes|
  {
    if changes != [] {
      var init := changes[..|changes| - 1];
      RunKeepsStored(r, init, t);
      StepKeepsStored(r, changes[|changes| - 1], TableRun(r, init, Some(t)).value);
    }
  }

  // --- All rows at once ---

  function NewKey(r: TargetRelation, c: Change): Key {
    if c.newTuple.Some? then TupleKey(r, c.newTuple.value) else []
  }

  function NewRow(r: TargetRelation, c: Change): Row {
    if c.newTuple.Some? then RowOf(r, c.newTuple.value) else []
  }

  predicate AllInsertable(r: TargetRelation, changes: seq<Change>) {
    forall c :: c in changes ==> InsertableTuple(r, c.newTuple)
  }

  predicate KeysDistinct(r: TargetRelation, changes: seq<Change>) {
    forall i, j :: 0 <= i < j < |changes| ==> NewKey(r, changes[i]) != NewKey(r, changes[j])
  }

  function RowsOf(r: TargetRelation, changes: seq<Change>): Table
    decreases |changes|
  {
    if changes == [] then map[]
    else RowsOf(r, changes[..|changes| - 1])[NewKey(r, changes[|changes| - 1]) := NewRow(r, changes[|changes| - 1])]
  }

  /** A multi-row INSERT: no row may be there twice or already. */
  function InsertAtOnce(r: TargetRelation, changes: seq<Change>, t: Table): Option<Table> {
    if AllInsertable(r, changes) && KeysDistinct(r, changes) && RowsOf(r, changes).Keys !! t.Keys
    then Some(t + RowsOf(r, changes)) else None
  }

  /** A multi-row INSERT ... ON CONFLICT DO UPDATE may not touch a row twice. */
  function UpsertAtOnce(r: TargetRelation, changes: seq<Change>, t: Table): Option<Table> {
    if AllInsertable(r, changes) && KeysDistinct(r, changes) then Some(t + RowsOf(r, changes)) else None
  }

  /** The columns a multi-row DELETE joins on. */
  predicate DeleteColumn(r: TargetRelation, i: nat)
    requires i < |r.columns|
  {
    if PrimaryKeyDeleteSafe(r) then r.columns[i].primary else r.columns[i].key
  }

  predicate DeleteOk(r: TargetRelation, c: Change) {
    && ValidTuple(r, c.oldTuple)
    && forall i: nat :: i < |r.columns| && DeleteColumn(r, i) ==>
         var datum := Cell(c.oldTuple.value, r.columns[i].sourceIndex);
         ParamOk(r, r.columns[i], datum) && (r.columns[i].primary ==> datum.kind != DatumNull)
  }

  /** The stored rows a change of a multi-row DELETE is joined with. */
  ghost function Joined(r: TargetRelation, c: Change, t: Table): set<Key> {
    if !ValidTuple(r, c.oldTuple) then {}
    else
      set k | k in t && |t[k]| == |r.columns| &&
              forall i: nat :: i < |r.columns| && DeleteColumn(r, i) ==>
                t[k][i] == Cell(c.oldTuple.value, r.columns[i].sourceIndex)
  }

  ghost function AllJoined(r: TargetRelation, changes: seq<Change>, t: Table): set<Key> {
    set c, k | c in changes && k in Joined(r, c, t) :: k
  }

  predicate AllDeletesOk(r: TargetRelation, changes: seq<Change>) {
    forall c :: c in changes ==> DeleteOk(r, c)
  }

  /** Every change is joined with one row of its own. */
  ghost predicate RowsApart(r: TargetRelation, changes: seq<Change>, t: Table) {
    && (forall i :: 0 <= i < |changes| ==> |Joined(r, changes[i], t)| == 1)
    && (forall i, j :: 0 <= i < j < |changes| ==> Joined(r, changes[i], t) !! Joined(r, changes[j], t))
  }

  /** A multi-row DELETE: every change must match one row of its own, except that deletes by primary key
      may match none. */
  ghost function DeleteAtOnce(r: TargetRelation, changes: seq<Change>, t: Table): Option<Table> {
    if AllDeletesOk(r, changes) && (PrimaryKeyDeleteSafe(r) || RowsApart(r, changes, t))
    then Some(t - AllJoined(r, changes, t)) else None
  }

  // --- At once is one by one ---

  predicate AllOfKind(kind: ChangeKind, changes: seq<Change>) {
    forall c :: c in changes ==> c.kind == kind
  }

  lemma {:induction false} RowsKeys(r: TargetRelation, changes: seq<Change>, k: Key)
    ensures k in RowsOf(r, changes) <==> exists i :: 0 <= i < |changes| && NewKey(r, changes[i]) == k
    decreases |changes|
  {
    if changes != [] {
      RowsKeys(r, changes[..|changes| - 1], k);
    }
  }

  /** Whether one more row fits into a set statement. */
  lemma OneMoreRow(r: TargetRelation, changes: seq<Change>)
    requires changes != []
    ensures var init, last := changes[..|changes| - 1], changes[|changes| - 1];
            && (AllInsertable(r, changes) <==> AllInsertable(r, init) && InsertableTuple(r, last.newTuple))
            && (KeysDistinct(r, changes) <==> KeysDistinct(r, init) && NewKey(r, last) !in RowsOf(r, init))
  {
    var init, last := changes[..|changes| - 1], changes[|changes| - 1];
    assert changes == init + [last];
    RowsKeys(r, init, NewKey(r, last));
    hide RowsOf, NewKey, InsertableTuple;
  }

  /** Inserting rows at once succeeds and fails exactly as inserting them in order. */
  lemma {:induction false} InsertsMatch(r: TargetRelation, changes: seq<Change>, t: Table)
    requires AllOfKind(Insert, changes)
    ensures InsertAtOnce(r, changes, t) == TableRun(r, changes, Some(t))
    decreases |changes|
  {
    if changes == [] {
      assert t + map[] == t;
    } else {
      var init, last := changes[..|changes| - 1], changes[|changes| - 1];
      InsertsMatch(r, init, t);
      OneMoreRow(r, changes);
      hide AllInsertable, KeysDistinct, InsertableTuple;
      assert RowsOf(r, changes) == RowsOf(r, init)[NewKey(r, last) := NewRow(r, last)];
      if InsertAtOnce(r, init, t).Some? && InsertableTuple(r, last.newTuple) {
        AddedRow(t, RowsOf(r, init), NewKey(r, last), NewRow(r, last));
      }
    }
  }

  lemma AddedRow(t: Table, rows: Table, key: Key, row: Row)
    ensures (t + rows)[key := row] == t + rows[key := row]
    ensures rows.Keys !! t.Keys ==> (key in t + rows <==> key in rows || !(rows[key := row].Keys !! t.Keys))
  {
  }

  predicate AllUpserts(r: TargetRelation, changes: seq<Change>) {
    forall c :: c in changes ==> c.kind == Update && CanPrimaryKeyUpsert(r, c)
  }

  lemma {:induction false} UpsertRun(r: TargetRelation, changes: seq<Change>, t: Table)
    requires AllUpserts(r, changes)
    ensures TableRun(r, changes, Some(t)) == if AllInsertable(r, changes) then Some(t + RowsOf(r, changes)) else None
    decreases |changes|
  {
    if changes == [] {
      assert t + map[] == t;
    } else {
      var init, last := changes[..|changes| - 1], changes[|changes| - 1];
      UpsertRun(r, init, t);
      OneMoreRow(r, changes);
      assert last in changes;
      hide AllInsertable, InsertableTuple, CanPrimaryKeyUpsert;
      AddedRow(t, RowsOf(r, init), NewKey(r, last), NewRow(r, last));
    }
  }

  /** Upserting rows at once is upserting them in order exactly if no row comes twice: of two upserts of
      one row the later wins, but one statement with both fails. */
  lemma UpsertsMatchIff(r: TargetRelation, changes: seq<Change>, t: Table)
    requires AllUpserts(r, changes)
    ensures UpsertAtOnce(r, changes, t) == TableRun(r, changes, Some(t))
            <==> KeysDistinct(r, changes) || !AllInsertable(r, changes)
  {
    UpsertRun(r, changes, t);
  }

  // --- Deletes ---

  /** The relations whose deletes are joined (batchUpdateIdentityColumns, primaryKeyDeleteColumns). */
  predicate BatchDeletable(r: TargetRelation) {
    PrimaryKeyDeleteSafe(r) || IdentityBatchable(r)
  }

  /** The relations whose rows a set statement can find by replica identity (batchUpdateIdentityColumns). */
  predicate IdentityBatchable(r: TargetRelation) {
    && r.capabilities.keyedSetDML && r.source.replicaIdentity != REPLICA_IDENTITY_FULL
    && (exists i: nat :: i < |r.columns| && r.columns[i].key)
    && (forall i: nat :: i < |r.columns| && r.columns[i].key ==> r.columns[i].notNull)
  }

  function KeyColumnsUpTo(r: TargetRelation, n: nat): (columns: seq<nat>)
    requires n <= |r.columns|
    ensures forall i: nat :: i in columns <==> i < n && r.columns[i].key
  {
    if n == 0 then [] else KeyColumnsUpTo(r, n - 1) + if r.columns[n - 1].key then [n - 1] else []
  }

  function KeyColumns(r: TargetRelation): (columns: seq<nat>)
    ensures forall i: nat :: i in columns <==> i < |r.columns| && r.columns[i].key
  {
    KeyColumnsUpTo(r, |r.columns|)
  }

  /** Two changes are joined with the same rows or with different ones. */
  lemma JoinedSameOrApart(r: TargetRelation, c: Change, d: Change, t: Table)
    ensures Joined(r, c, t) == Joined(r, d, t) || Joined(r, c, t) !! Joined(r, d, t)
  {
    if k :| k in Joined(r, c, t) && k in Joined(r, d, t) {
      assert forall i: nat :: i < |r.columns| && DeleteColumn(r, i) ==>
          t[k][i] == Cell(c.oldTuple.value, r.columns[i].sourceIndex)
          && t[k][i] == Cell(d.oldTuple.value, r.columns[i].sourceIndex);
      assert Joined(r, c, t) == Joined(r, d, t);
    }
  }

  lemma JoinedAfter(r: TargetRelation, c: Change, t: Table, gone: set<Key>)
    ensures Joined(r, c, t - gone) == Joined(r, c, t) - gone
  {
  }

  lemma JoinedByPrimaryKey(r: TargetRelation, c: Change, t: Table)
    requires ValidTable(r, t) && PrimaryKeyDeleteSafe(r) && ValidTuple(r, c.oldTuple)
    ensures Joined(r, c, t) == if TupleKey(r, c.oldTuple.value) in t then {TupleKey(r, c.oldTuple.value)} else {}
  {
    var key, indexes := TupleKey(r, c.oldTuple.value), PrimaryIndexes(r);
    forall k | k in t ensures k in Joined(r, c, t) <==> k == key {
      if k in Joined(r, c, t) {
        forall i | 0 <= i < |indexes| ensures k[i] == key[i] {
          assert indexes[i] in indexes;
        }
        assert k == key;
      }
      if k == key {
        forall i: nat | i < |r.columns| && DeleteColumn(r, i)
          ensures t[k][i] == Cell(c.oldTuple.value, r.columns[i].sourceIndex)
        {
          assert i in indexes;
          var j :| 0 <= j < |indexes| && indexes[j] == i;
          assert RowPrimaryKey(r, t[k])[j] == key[j];
        }
      }
    }
  }

  lemma DeleteByKeyStep(r: TargetRelation, c: Change, t: Table, gone: set<Key>)
    requires ValidTable(r, t) && PrimaryKeyDeleteSafe(r)
    ensures SqlDelete(r, c, t - gone) == if DeleteOk(r, c) then Some(t - (gone + Joined(r, c, t))) else None
  {
    if ValidTuple(r, c.oldTuple) {
      JoinedByPrimaryKey(r, c, t);
      assert DeleteOk(r, c) <==> forall i: nat :: i in PrimaryIndexes(r) ==>
          var datum := Cell(c.oldTuple.value, r.columns[i].sourceIndex);
          datum.kind != DatumNull && ParamOk(r, r.columns[i], datum);
      var key := TupleKey(r, c.oldTuple.value);
      assert (t - gone) - {key} == t - (gone + Joined(r, c, t));
    }
  }

  lemma NullKeyJoinsNothing(r: TargetRelation, c: Change, t: Table, i: nat)
    requires StoredOk(r, t) && ValidTuple(r, c.oldTuple) && i < |r.columns| && DeleteColumn(r, i) && r.columns[i].primary
    requires Cell(c.oldTuple.value, r.columns[i].sourceIndex).kind == DatumNull
    ensures Joined(r, c, t) == {}
  {
    forall k | k in t ensures k !in Joined(r, c, t) {
      assert Storable(r, t[k]);
    }
  }

  lemma IdentityScan(r: TargetRelation, c: Change, t: Table)
    requires BatchDeletable(r) && !PrimaryKeyDeleteSafe(r) && ValidTuple(r, c.oldTuple)
    ensures Scan(r, t, c.oldTuple.value) == Joined(r, c, t)
  {
    forall k | k in t && |t[k]| == |r.columns|
      ensures RowMatches(r, t[k], c.oldTuple.value)
              <==> forall i: nat :: i < |r.columns| && DeleteColumn(r, i) ==>
                     t[k][i] == Cell(c.oldTuple.value, r.columns[i].sourceIndex)
    {
      assert forall i: nat :: i < |r.columns| ==> (IdentityColumn(r, i) <==> DeleteColumn(r, i));
    }
  }

  lemma OkDeleteHasPredicate(r: TargetRelation, c: Change)
    requires BatchDeletable(r) && !PrimaryKeyDeleteSafe(r) && DeleteOk(r, c)
    ensures PredicateOk(r, c.oldTuple.value)
  {
    hide ParamOk;
    assert forall i: nat :: i < |r.columns| ==> (IdentityColumn(r, i) <==> DeleteColumn(r, i));
    var i: nat :| i < |r.columns| && r.columns[i].key;
    assert IdentityColumn(r, i);
  }

  /** A change a joined DELETE refuses fails on its own too: its predicate cannot be bound or has a NULL
      where no stored row does. */
  lemma BadDeleteJoinsNothing(r: TargetRelation, c: Change, t: Table)
    requires StoredOk(r, t) && BatchDeletable(r) && !PrimaryKeyDeleteSafe(r)
    requires ValidTuple(r, c.oldTuple) && PredicateOk(r, c.oldTuple.value) && !DeleteOk(r, c)
    ensures Joined(r, c, t) == {}
  {
    hide StoredOk, Joined;
    assert forall i: nat :: i < |r.columns| ==> (IdentityColumn(r, i) <==> DeleteColumn(r, i));
    var i: nat :| i < |r.columns| && DeleteColumn(r, i) && r.columns[i].primary &&
      Cell(c.oldTuple.value, r.columns[i].sourceIndex).kind == DatumNull;
    NullKeyJoinsNothing(r, c, t, i);
  }

  lemma DeleteByIdentity(r: TargetRelation, c: Change, t: Table)
    requires ValidTable(r, t) && BatchDeletable(r) && !PrimaryKeyDeleteSafe(r) && ValidTuple(r, c.oldTuple)
    ensures SqlDelete(r, c, t) ==
      if PredicateOk(r, c.oldTuple.value) && |Joined(r, c, t)| == 1 then Some(t - Joined(r, c, t)) else None
  {
    IdentityScan(r, c, t);
    LookupIsScan(r, t, c.oldTuple.value);
    hide Selected, Scan, PredicateOk, Joined, BatchDeletable, PrimaryKeyDeleteSafe;
  }

  lemma WithoutRows(r: TargetRelation, t: Table, gone: set<Key>)
    requires StoredOk(r, t)
    ensures ValidTable(r, t - gone)
  {
  }

  lemma WithoutBoth(t: Table, gone: set<Key>, more: set<Key>)
    ensures (t - gone) - (more - gone) == t - (gone + more)
  {
  }

  lemma DeleteByIdentityStep(r: TargetRelation, c: Change, t: Table, gone: set<Key>)
    requires StoredOk(r, t) && BatchDeletable(r) && !PrimaryKeyDeleteSafe(r)
    ensures SqlDelete(r, c, t - gone)
            == if DeleteOk(r, c) && |Joined(r, c, t) - gone| == 1 then Some(t - (gone + Joined(r, c, t))) else None
  {
    if ValidTuple(r, c.oldTuple) {
      WithoutRows(r, t, gone);
      DeleteByIdentity(r, c, t - gone);
      JoinedAfter(r, c, t, gone);
      hide SqlDelete, PredicateOk, DeleteOk, Joined, StoredOk, ValidTable, BatchDeletable, PrimaryKeyDeleteSafe;
      WithoutBoth(t, gone, Joined(r, c, t));
      if DeleteOk(r, c) {
        OkDeleteHasPredicate(r, c);
      } else if PredicateOk(r, c.oldTuple.value) {
        BadDeleteJoinsNothing(r, c, t);
        assert Joined(r, c, t) - gone == {};
      }
    }
  }

  lemma OneMoreJoined(r: TargetRelation, changes: seq<Change>, t: Table)
    requires changes != []
    ensures AllJoined(r, changes, t)
            == AllJoined(r, changes[..|changes| - 1], t) + Joined(r, changes[|changes| - 1], t)
  {
    assert changes == changes[..|changes| - 1] + [changes[|changes| - 1]];
    hide Joined;
  }

  lemma OneRowTaken(r: TargetRelation, init: seq<Change>, last: Change, t: Table, i: nat)
    requires i < |init| && !(Joined(r, init[i], t) !! Joined(r, last, t))
    ensures Joined(r, last, t) - AllJoined(r, init, t) == {}
  {
    JoinedSameOrApart(r, init[i], last, t);
    hide Joined;
    assert init[i] in init;
  }

  lemma NoRowTaken(r: TargetRelation, init: seq<Change>, last: Change, t: Table)
    requires forall i :: 0 <= i < |init| ==> Joined(r, init[i], t) !! Joined(r, last, t)
    ensures Joined(r, last, t) - AllJoined(r, init, t) == Joined(r, last, t)
  {
    hide Joined;
    assert AllJoined(r, init, t) !! Joined(r, last, t);
  }

  /** A further change has a row of its own exactly if one row is left for it. */
  lemma OneMoreApart(r: TargetRelation, init: seq<Change>, last: Change, t: Table)
    requires RowsApart(r, init, t)
    ensures RowsApart(r, init + [last], t) <==> |Joined(r, last, t) - AllJoined(r, init, t)| == 1
  {
    hide Joined, AllJoined;
    var changes := init + [last];
    if i :| 0 <= i < |init| && !(Joined(r, init[i], t) !! Joined(r, last, t)) {
      OneRowTaken(r, init, last, t, i);
      assert changes[i] == init[i] && changes[|init|] == last;
    } else {
      NoRowTaken(r, init, last, t);
      assert changes[|init|] == last;
    }
  }

  lemma ApartBefore(r: TargetRelation, init: seq<Change>, last: Change, t: Table)
    requires RowsApart(r, init + [last], t)
    ensures RowsApart(r, init, t)
  {
    hide Joined;
    assert forall i :: 0 <= i < |init| ==> (init + [last])[i] == init[i];
  }

  lemma OneMoreDelete(r: TargetRelation, init: seq<Change>, last: Change)
    ensures AllDeletesOk(r, init + [last]) <==> AllDeletesOk(r, init) && DeleteOk(r, last)
  {
    hide DeleteOk;
    assert last in init + [last];
  }

  lemma StoredIsValid(r: TargetRelation, t: Table)
    requires StoredOk(r, t)
    ensures ValidTable(r, t)
  {
  }

  lemma NothingDeleted(r: TargetRelation, t: Table)
    ensures DeleteAtOnce(r, [], t) == Some(t)
  {
    assert AllJoined(r, [], t) == {};
    assert t - {} == t;
  }

  /** One more row to delete at once is one more deletion afterwards. */
  lemma DeleteOneMore(r: TargetRelation, init: seq<Change>, last: Change, t: Table)
    requires StoredOk(r, t) && BatchDeletable(r)
    ensures DeleteAtOnce(r, init + [last], t) ==
      match DeleteAtOnce(r, init, t) case None => None case Some(left) => SqlDelete(r, last, left)
  {
    hide DeleteOk, Joined, AllJoined, AllDeletesOk, RowsApart, SqlDelete, BatchDeletable, PrimaryKeyDeleteSafe, StoredOk;
    assert (init + [last])[..|init|] == init;
    OneMoreJoined(r, init + [last], t);
    OneMoreDelete(r, init, last);
    if DeleteAtOnce(r, init, t).Some? {
      if PrimaryKeyDeleteSafe(r) {
        StoredIsValid(r, t);
        DeleteByKeyStep(r, last, t, AllJoined(r, init, t));
      } else {
        DeleteByIdentityStep(r, last, t, AllJoined(r, init, t));
        OneMoreApart(r, init, last, t);
      }
    } else if RowsApart(r, init + [last], t) {
      ApartBefore(r, init, last, t);
    }
  }

  /** Deleting rows at once succeeds and fails exactly as deleting them in order. */
  lemma {:induction false} DeletesMatch(r: TargetRelation, changes: seq<Change>, t: Table)
    requires StoredOk(r, t) && BatchDeletable(r) && AllOfKind(Delete, changes)
    ensures DeleteAtOnce(r, changes, t) == TableRun(r, changes, Some(t))
    decreases |changes|
  {
    hide DeleteAtOnce, SqlDelete, BatchDeletable, StoredOk;
    if changes == [] {
      NothingDeleted(r, t);
    } else {
      var init, last := changes[..|changes| - 1], changes[|changes| - 1];
      assert changes == init + [last] && last in changes && last.kind == Delete;
      DeletesMatch(r, init, t);
      DeleteOneMore(r, init, last, t);
    }
  }
}
