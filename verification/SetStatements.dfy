/** The statements a run of changes to one relation is sent as, and what each of them does to the table
    (applyInserts, applyUpdates, applyDeletes, internal/cdc/applier.go:2843-2883, 3546-3651, 4818-4866). */
module SetStatements {
  import opened Wrappers
  import opened Model
  import opened Catalog
  import opened Target
  import opened TupleKeys
  import opened SetDml
  import opened UpdateDml
  import opened UpdateRuns
  import opened SelectiveUpdates

  datatype Statement =
    | OneByOne(changes: seq<Change>)
    | InsertRows(changes: seq<Change>)
    | UpsertRows(changes: seq<Change>)
    | DeleteRows(changes: seq<Change>)
    | UpdateRows(columns: seq<nat>, changes: seq<Change>)
    | SelectiveRows(changes: seq<Change>)

  ghost function Execute(r: TargetRelation, s: Statement, t: Table): Option<Table> {
    match s
    case OneByOne(changes) => TableRun(r, changes, Some(t))
    case InsertRows(changes) => InsertAtOnce(r, changes, t)
    case UpsertRows(changes) => UpsertAtOnce(r, changes, t)
    case DeleteRows(changes) => DeleteAtOnce(r, changes, t)
    case UpdateRows(columns, changes) => UpdateAtOnce(r, changes, columns, t)
    case SelectiveRows(changes) => SelectiveUpdate(r, changes, t)
  }

  ghost function ExecuteAll(r: TargetRelation, statements: seq<Statement>, t: Option<Table>): Option<Table>
    decreases |statements|
  {
    if statements == [] then t
    else
      var before := ExecuteAll(r, statements[..|statements| - 1], t);
      if before.None? then None else Execute(r, statements[|statements| - 1], before.value)
  }

  predicate Sound(r: TargetRelation, s: Statement) {
    match s
    case OneByOne(_) => true
    case InsertRows(changes) => AllOfKind(Insert, changes)
    case UpsertRows(changes) => AllUpserts(r, changes) && KeysDistinct(r, changes)
    case DeleteRows(changes) => BatchDeletable(r) && AllOfKind(Delete, changes) && DeleteKeysDistinct(r, changes)
    case UpdateRows(columns, changes) =>
      && IdentityBatchable(r) && AllLegacy(r, changes) && OldsDistinct(r, changes)
      && AllSet(r, changes, columns) && BatchSafe(r, columns)
    case SelectiveRows(changes) =>
      && r.capabilities.selectiveUpdates
      && IdentityBatchable(r) && AllLegacy(r, changes) && OldsDistinct(r, changes)
  }

  /** At most 8192 rows in one statement. */
  predicate Sized(s: Statement) {
    0 < |s.changes| && (!s.OneByOne? ==> |s.changes| <= CHUNK_ROWS)
  }

  predicate AllSound(r: TargetRelation, statements: seq<Statement>) {
    forall s :: s in statements ==> Sound(r, s) && Sized(s)
  }

  function Changes(statements: seq<Statement>): seq<Change> {
    if statements == [] then []
    else Changes(statements[..|statements| - 1]) + statements[|statements| - 1].changes
  }

  lemma OneMoreStatement(r: TargetRelation, statements: seq<Statement>, s: Statement)
    ensures Changes(statements + [s]) == Changes(statements) + s.changes
    ensures AllSound(r, statements + [s]) <==> AllSound(r, statements) && Sound(r, s) && Sized(s)
  {
    hide Sound, Sized;
    assert (statements + [s])[..|statements|] == statements;
    assert s in statements + [s];
  }

  // --- The columns and keys of joined deletes ---

  function DeleteColumns(r: TargetRelation): (columns: seq<nat>)
    ensures forall i: nat :: i in columns <==> i < |r.columns| && DeleteColumn(r, i)
  {
    if PrimaryKeyDeleteSafe(r) then PrimaryIndexes(r) else KeyColumns(r)
  }

  function DeleteDatums(r: TargetRelation, c: Change): (datums: seq<Datum>)
    ensures |datums| == |DeleteColumns(r)|
  {
    var columns := DeleteColumns(r);
    assert forall i :: 0 <= i < |columns| ==> columns[i] in columns;
    seq(|columns|, i requires 0 <= i < |columns| =>
      Cell(if c.oldTuple.Some? then c.oldTuple.value else [], r.columns[columns[i]].sourceIndex))
  }

  predicate DeleteKeysDistinct(r: TargetRelation, changes: seq<Change>) {
    forall i, j :: 0 <= i < j < |changes| ==> DeleteDatums(r, changes[i]) != DeleteDatums(r, changes[j])
  }

  // --- Statements do what their changes do ---

  /** No update of the statement starts from where an earlier one has moved its row. */
  predicate StatementUnchained(r: TargetRelation, s: Statement) {
    s.UpdateRows? || s.SelectiveRows? ==> Unchained(r, s.changes)
  }

  predicate AllUnchained(r: TargetRelation, statements: seq<Statement>) {
    forall s :: s in statements ==> StatementUnchained(r, s)
  }

  /** A statement does what its changes do in order if none of its updates starts from where an earlier one
      has moved its row; if one does and the changes succeed in order, the statement fails. */
  lemma StatementMatchesIff(r: TargetRelation, s: Statement, t: Table)
    requires StoredOk(r, t) && Sound(r, s)
    ensures Agrees(StatementUnchained(r, s), Execute(r, s, t), TableRun(r, s.changes, Some(t)))
  {
    hide StoredOk, TableRun, AllUpserts, KeysDistinct, BatchDeletable, DeleteKeysDistinct, IdentityBatchable, AllLegacy;
    hide OldsDistinct, AllSet, BatchSafe, Unchained;
    match s {
      case OneByOne(_) => {}
      case InsertRows(changes) => {
        InsertsMatch(r, changes, t);
      }
      case UpsertRows(changes) => {
        UpsertsMatchIff(r, changes, t);
      }
      case DeleteRows(changes) => {
        DeletesMatch(r, changes, t);
      }
      case UpdateRows(columns, changes) => {
        UpdatesMatchIff(r, changes, columns, t);
      }
      case SelectiveRows(changes) => {
        SelectiveMatchesIff(r, changes, t);
      }
    }
  }

  /** Executing the statements leaves the table as replaying their changes one by one would, and fails
      exactly when that would, if they are unchained; if the changes succeed in order, only then. */
  lemma {:induction false} StatementsMatchIff(r: TargetRelation, statements: seq<Statement>, t: Table)
    requires StoredOk(r, t) && AllSound(r, statements)
    ensures
      Agrees(AllUnchained(r, statements), ExecuteAll(r, statements, Some(t)), TableRun(r, Changes(statements), Some(t)))
    decreases |statements|
  {
    hide StoredOk, Sound, Sized, StatementUnchained, Execute;
    if statements != [] {
      var init, last := statements[..|statements| - 1], statements[|statements| - 1];
      assert forall s :: s in statements <==> s in init || s == last;
      StatementsMatchIff(r, init, t);
      TableRunConcat(r, Changes(init), last.changes, Some(t));
      hide Changes, TableRun;
      var before := TableRun(r, Changes(init), Some(t));
      if before.Some? {
        RunKeepsStored(r, Changes(init), t);
        StatementMatchesIff(r, last, before.value);
      } else {
        FailedRun(r, last.changes);
      }
    }
  }

  lemma {:induction false} FailedRun(r: TargetRelation, changes: seq<Change>)
    ensures TableRun(r, changes, None) == None
    decreases |changes|
  {
    if changes != [] {
      FailedRun(r, changes[..|changes| - 1]);
    }
  }

  lemma Regrouped(a: seq<Change>, b: seq<Change>, c: seq<Change>)
    ensures (a + b) + c == a + (b + c)
  {
  }

  lemma {:induction false} ChangesConcat(r: TargetRelation, a: seq<Statement>, b: seq<Statement>)
    ensures Changes(a + b) == Changes(a) + Changes(b)
    ensures AllSound(r, a) && AllSound(r, b) ==> AllSound(r, a + b)
    decreases |b|
  {
    if b == [] {
      assert a + b == a;
    } else {
      hide AllSound, Changes;
      var init, last := b[..|b| - 1], b[|b| - 1];
      assert a + b == (a + init) + [last] && b == init + [last];
      ChangesConcat(r, a, init);
      Regrouped(Changes(a), Changes(init), last.changes);
      OneMoreStatement(r, a + init, last);
      OneMoreStatement(r, init, last);
    }
  }

  lemma NoStatements(r: TargetRelation)
    ensures AllSound(r, [])
  {
  }
}
