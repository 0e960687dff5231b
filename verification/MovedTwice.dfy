/** A row moved twice by consecutive updates of one relation. In order both succeed; sent together, behind one
    look at the rows, they fail (applyLegacyUpdates and inspectSelectiveUpdateMasks,
    internal/cdc/applier.go:3582-3651, 3896-4027). */
module MovedTwice {
  import opened Wrappers
  import opened Model
  import opened Catalog
  import opened Target
  import opened Dependence
  import opened SetDml
  import opened UpdateDml
  import opened UpdateRuns
  import opened SelectiveUpdates
  import opened SetStatements
  import opened LegacyUpdates
  import opened KeyMoveDivergence

  /** The accounts with an index that makes updates look at their rows first. */
  const INDEXED: TargetRelation := ACCOUNTS.(capabilities := ACCOUNTS.capabilities.(selectiveUpdates := true))

  function MoveFrom(id: Byte, next: Byte): Change {
    Change(1, Update, Some([Text(id), Datum(DatumNull, [])]), Some(Account(next, 97)), false, false)
  }

  function Moves(): seq<Change> {
    [MoveFrom(1, 2), MoveFrom(2, 3)]
  }

  function FirstAccount(): Table {
    map[Id(1) := Account(1, 97)]
  }

  lemma IndexedKey()
    ensures PrimaryIndexes(INDEXED) == [0] && KeyColumns(INDEXED) == [0]
  {
    assert PrimaryIndexesUpTo(INDEXED.columns, 1) == [0];
    assert KeyColumnsUpTo(INDEXED, 1) == [0];
  }

  lemma MoveEffect(id: Byte, next: Byte)
    requires id != next
    ensures !CanPrimaryKeyUpsert(INDEXED, MoveFrom(id, next))
    ensures SqlStep(INDEXED, MoveFrom(id, next), map[Id(id) := Account(id, 97)]) == Some(map[Id(next) := Account(next, 97)])
  {
    IndexedKey();
    assert 0 in PrimaryIndexes(INDEXED);
    var c, t := MoveFrom(id, next), map[Id(id) := Account(id, 97)];
    var tuple := c.oldTuple.value;
    assert TupleKey(INDEXED, tuple) == Id(id);
    assert RowMatches(INDEXED, t[Id(id)], tuple);
    assert IdentityColumn(INDEXED, 0) && !IdentityColumn(INDEXED, 1);
    assert Selected(INDEXED, t, tuple) == {Id(id)};
    assert MergedRow(INDEXED, t[Id(id)], Account(next, 97)) == Account(next, 97);
    assert RowPrimaryKey(INDEXED, Account(next, 97)) == Id(next);
    assert (t - {Id(id)})[Id(next) := Account(next, 97)] == map[Id(next) := Account(next, 97)];
  }

  lemma MovesInOrder()
    ensures TableRun(INDEXED, Moves(), Some(FirstAccount())) == Some(map[Id(3) := Account(3, 97)])
  {
    hide SqlStep;
    MoveEffect(1, 2);
    MoveEffect(2, 3);
    assert Moves()[..1] == [MoveFrom(1, 2)] && Moves()[..1][..0] == [];
  }

  lemma MoveIdentities(id: Byte, next: Byte)
    requires id != next
    ensures OldIdentity(INDEXED, MoveFrom(id, next)) == Id(id) && NewIdentity(INDEXED, MoveFrom(id, next)) == Id(next)
    ensures SetColumns(INDEXED, MoveFrom(id, next)) == [0, 1]
  {
    IndexedKey();
    var c := MoveFrom(id, next);
    assert IsSet(INDEXED, c, 0) && IsSet(INDEXED, c, 1);
    assert SetColumnsUpTo(INDEXED, c, 0) == [] && SetColumnsUpTo(INDEXED, c, 1) == [0];
  }

  lemma MovesSound()
    ensures StoredOk(INDEXED, FirstAccount()) && Sound(INDEXED, SelectiveRows(Moves()))
  {
    hide SqlStep, OldIdentity, NewIdentity, SetColumns, CanPrimaryKeyUpsert;
    IndexedKey();
    assert RowPrimaryKey(INDEXED, Account(1, 97)) == Id(1);
    assert INDEXED.columns[0].key && IdentityBatchable(INDEXED);
    MoveEffect(1, 2);
    MoveEffect(2, 3);
    MoveIdentities(1, 2);
    MoveIdentities(2, 3);
  }

  /** Replay in source order moves the row; the one statement the two updates are sent as fails. */
  lemma RowMovedTwice()
    ensures StoredOk(INDEXED, FirstAccount()) && Sound(INDEXED, SelectiveRows(Moves()))
    ensures !CutBefore(INDEXED, [Moves()[0]], Moves()[1])
    ensures TableRun(INDEXED, Moves(), Some(FirstAccount())) == Some(map[Id(3) := Account(3, 97)])
    ensures Execute(INDEXED, SelectiveRows(Moves()), FirstAccount()) == None
  {
    hide SqlStep, SelectiveUpdate, TableRun, OldIdentity, NewIdentity, SetColumns, CanPrimaryKeyUpsert, StoredOk;
    MovesSound();
    MoveIdentities(1, 2);
    MoveIdentities(2, 3);
    MovesInOrder();
    assert NewIdentity(INDEXED, Moves()[0]) == OldIdentity(INDEXED, Moves()[1]);
    assert !Unchained(INDEXED, Moves());
    hide Unchained;
    StatementMatchesIff(INDEXED, SelectiveRows(Moves()), FirstAccount());
  }
}
