/** How a run of updates that are no upserts is cut into statements (applyLegacyUpdates and
    batchUpdateIdentityKey, internal/cdc/applier.go:3582-3651, 4185-4215). */
module LegacyUpdates {
  import opened Wrappers
  import opened Model
  import opened Catalog
  import opened Target
  import opened TupleKeys
  import opened SetDml
  import opened UpdateDml
  import opened UpdateRuns
  import opened SelectiveUpdates
  import opened SetStatements

  /** The identity of the update can be looked for. */
  predicate KeyOk(r: TargetRelation, c: Change) {
    ValidTuple(r, c.newTuple) && ValidTuple(r, UpdatePredicate(c)) && PredicateOk(r, UpdatePredicate(c).value)
  }

  predicate AllKeysOk(r: TargetRelation, changes: seq<Change>) {
    forall c :: c in changes ==> KeyOk(r, c)
  }

  lemma KeyOkByColumn(r: TargetRelation, c: Change)
    requires IdentityBatchable(r) && ValidTuple(r, c.newTuple) && ValidTuple(r, UpdatePredicate(c))
    ensures
      var columns := KeyColumns(r);
      && (forall m :: 0 <= m < |columns| ==> columns[m] < |r.columns|)
      && (KeyOk(r, c) <==> forall m :: 0 <= m < |columns| ==> ParamOk(r, r.columns[columns[m]], OldIdentity(r, c)[m]))
  {
    var columns, identity, tuple := KeyColumns(r), OldIdentity(r, c), UpdatePredicate(c).value;
    assert forall m :: 0 <= m < |columns| ==> columns[m] in columns;
    hide ParamOk, KeyColumns;
    assert forall i: nat :: i < |r.columns| ==> (IdentityColumn(r, i) <==> r.columns[i].key);
    forall m | 0 <= m < |columns| ensures identity[m] == Cell(tuple, r.columns[columns[m]].sourceIndex) {
    }
    forall i: nat | i < |r.columns| && r.columns[i].key ensures exists m :: 0 <= m < |columns| && columns[m] == i {
      assert i in columns;
    }
  }

  /** batchUpdateIdentityKey: the key of an update, or the error that stops the run. */
  method UpdateKeyFor(r: TargetRelation, c: Change) returns (key: Result<Bytes, ReplayError>)
    requires IdentityBatchable(r)
    ensures key.Success? <==> KeyOk(r, c)
    ensures key.Success? ==> key.value == UpdateKey(r, c)
  {
    hide KeyColumns, OldIdentity, KeyText, DatumKey, ParamOk, PredicateOk, IdentityBatchable;
    if !ValidTuple(r, c.newTuple) || !ValidTuple(r, UpdatePredicate(c)) {
      return Failure(InvalidTuple);
    }
    KeyOkByColumn(r, c);
    var columns, datums := KeyColumns(r), OldIdentity(r, c);
    var text: Bytes := [];
    assert KeyText(IDENTITY_LEAD, datums[..0]) == [] by {
      EmptyKeyText(IDENTITY_LEAD, datums[..0]);
    }
    for n := 0 to |columns|
      invariant text == KeyText(IDENTITY_LEAD, datums[..n])
      invariant forall m :: 0 <= m < n ==> ParamOk(r, r.columns[columns[m]], datums[m])
    {
      if !ParamOk(r, r.columns[columns[n]], datums[n]) {
        return Failure(InvalidDatum);
      }
      KeyTextNext(IDENTITY_LEAD, datums[..n], datums[n]);
      assert datums[..n + 1] == datums[..n] + [datums[n]];
      text := text + DatumKey(IDENTITY_LEAD, datums[n]);
    }
    assert datums[..|columns|] == datums;
    key := Success(text);
  }

  // --- How many rows a statement takes ---

  const MAX_BIND_PARAMETERS := 65535
  const MAX_SQL_ROWS := 1000

  /** updateChunkRows. */
  function UpdateChunkRows(parametersPerRow: nat): (rows: nat)
    ensures 0 < rows <= MAX_SQL_ROWS
    ensures parametersPerRow <= MAX_BIND_PARAMETERS ==> rows * parametersPerRow <= MAX_BIND_PARAMETERS
  {
    if parametersPerRow == 0 then 1
    else
      var rows := MAX_BIND_PARAMETERS / parametersPerRow;
      if rows > MAX_SQL_ROWS then MAX_SQL_ROWS else if rows < 1 then 1 else rows
  }

  /** The rows of one statement: `limit` is lower if the rows are found by a disjunction of keys. */
  function ChunkLimit(r: TargetRelation, columns: seq<nat>, limit: nat): (rows: nat)
    requires 0 < limit <= CHUNK_ROWS
    ensures 0 < rows <= limit
  {
    var rows := if r.capabilities.selectiveUpdates then UpdateChunkRows(|columns| + |KeyColumns(r)|) else CHUNK_ROWS;
    if rows > limit then limit else rows
  }

  // --- Cutting ---

  lemma OneUpdate(r: TargetRelation, c: Change)
    ensures OldsDistinct(r, [c]) && AllSet(r, [c], SetColumns(r, c))
  {
  }

  lemma AddedUpdate(r: TargetRelation, changes: seq<Change>, columns: seq<nat>, c: Change, seen: set<Bytes>)
    requires OldsDistinct(r, changes) && AllSet(r, changes, columns)
    requires seen == set m | 0 <= m < |changes| :: UpdateKey(r, changes[m])
    requires UpdateKey(r, c) !in seen && SetColumns(r, c) == columns
    ensures OldsDistinct(r, changes + [c]) && AllSet(r, changes + [c], columns)
    ensures seen + {UpdateKey(r, c)} == set m | 0 <= m < |changes + [c]| :: UpdateKey(r, (changes + [c])[m])
  {
    hide OldIdentity, KeyText, SetColumns;
    var more := changes + [c];
    forall i | 0 <= i < |changes| ensures OldIdentity(r, changes[i]) != OldIdentity(r, c) {
      assert UpdateKey(r, changes[i]) in seen;
    }
    forall key ensures key in seen + {UpdateKey(r, c)} <==> exists m :: 0 <= m < |more| && UpdateKey(r, more[m]) == key {
      assert UpdateKey(r, more[|changes|]) == UpdateKey(r, c);
      forall m | 0 <= m < |changes| ensures more[m] == changes[m] {
      }
    }
  }

  lemma SeenBefore(r: TargetRelation, changes: seq<Change>, seen: set<Bytes>, c: Change)
    requires seen == set m | 0 <= m < |changes| :: UpdateKey(r, changes[m])
    requires UpdateKey(r, c) in seen
    ensures exists i :: 0 <= i < |changes| && OldIdentity(r, changes[i]) == OldIdentity(r, c)
  {
    hide OldIdentity, KeyText;
    var i :| 0 <= i < |changes| && UpdateKey(r, changes[i]) == UpdateKey(r, c);
    KeyTextIdentifies(IDENTITY_LEAD, OldIdentity(r, changes[i]), OldIdentity(r, c));
  }

  /** The updates of a run cannot be continued with this one. */
  predicate CutBefore(r: TargetRelation, run: seq<Change>, c: Change)
    requires run != []
  {
    || SetColumns(r, c) != SetColumns(r, run[0])
    || exists i :: 0 <= i < |run| && OldIdentity(r, run[i]) == OldIdentity(r, c)
  }

  /** The longest run of updates of the same columns and pairwise different rows from `start`, within the
      limit, or the error of an update without a key. */
  method UpdateRunEnd(r: TargetRelation, changes: seq<Change>, start: nat, limit: nat)
    returns (end: Result<nat, ReplayError>)
    requires IdentityBatchable(r) && start < |changes| && 0 < limit
    ensures end.Failure? ==> exists i :: start <= i < |changes| && !KeyOk(r, changes[i])
    ensures end.Success? ==>
      && start < end.value <= |changes| && end.value - start <= limit
      && OldsDistinct(r, changes[start..end.value])
      && AllSet(r, changes[start..end.value], SetColumns(r, changes[start]))
      && (forall i :: start <= i < end.value ==> KeyOk(r, changes[i]))
    ensures end.Success? ==>
      || end.value == |changes| || end.value - start == limit
      || CutBefore(r, changes[start..end.value], changes[end.value])
  {
    hide KeyOk, OldIdentity, KeyText, SetColumns, OldsDistinct, AllSet, IdentityBatchable;
    var columns := SetColumns(r, changes[start]);
    var first := UpdateKeyFor(r, changes[start]);
    if first.Failure? {
      return Failure(first.error);
    }
    var seen := {first.value};
    var next := start + 1;
    OneUpdate(r, changes[start]);
    assert changes[start..next] == [changes[start]];
    while next < |changes| && next - start < limit
      invariant start < next <= |changes| && next - start <= limit
      invariant OldsDistinct(r, changes[start..next]) && AllSet(r, changes[start..next], columns)
      invariant seen == set m | 0 <= m < |changes[start..next]| :: UpdateKey(r, changes[start..next][m])
      invariant forall i :: start <= i < next ==> KeyOk(r, changes[i])
    {
      var key := UpdateKeyFor(r, changes[next]);
      if key.Failure? {
        return Failure(key.error);
      }
      if SetColumns(r, changes[next]) != columns || key.value in seen {
        if key.value in seen {
          SeenBefore(r, changes[start..next], seen, changes[next]);
        }
        return Success(next);
      }
      AddedUpdate(r, changes[start..next], columns, changes[next], seen);
      assert changes[start..next] + [changes[next]] == changes[start..next + 1];
      seen := seen + {key.value};
      next := next + 1;
    }
    end := Success(next);
  }

  predicate SentAlone(r: TargetRelation, c: Change) {
    !r.capabilities.selectiveUpdates && !BatchSafe(r, SetColumns(r, c))
  }

  /** The statement of these updates could not have taken in one more: it is full, the update is of other
      columns or of the same row, or updates are sent alone. */
  predicate LegacyApart(r: TargetRelation, run: seq<Change>, c: Change, limit: nat)
    requires run != [] && 0 < limit <= CHUNK_ROWS
  {
    || !IdentityBatchable(r) || SentAlone(r, run[0])
    || |run| == ChunkLimit(r, SetColumns(r, run[0]), limit) || CutBefore(r, run, c)
  }

  predicate LegacyCutAt(r: TargetRelation, statements: seq<Statement>, n: nat, limit: nat)
    requires 0 < n < |statements| && 0 < limit <= CHUNK_ROWS
  {
    statements[n - 1].changes != [] && statements[n].changes != [] &&
    LegacyApart(r, statements[n - 1].changes, statements[n].changes[0], limit)
  }

  predicate LegacyCut(r: TargetRelation, statements: seq<Statement>, limit: nat)
    requires 0 < limit <= CHUNK_ROWS
  {
    forall n :: 0 < n < |statements| ==> LegacyCutAt(r, statements, n, limit)
  }

  predicate LastLegacyApart(r: TargetRelation, statements: seq<Statement>, c: Change, limit: nat)
    requires 0 < limit <= CHUNK_ROWS
  {
    statements != [] ==>
      var run := statements[|statements| - 1].changes;
      run != [] && LegacyApart(r, run, c, limit)
  }

  lemma LegacyCutNext(r: TargetRelation, statements: seq<Statement>, s: Statement, limit: nat)
    requires 0 < limit <= CHUNK_ROWS && LegacyCut(r, statements, limit) && s.changes != []
    requires LastLegacyApart(r, statements, s.changes[0], limit)
    ensures LegacyCut(r, statements + [s], limit)
  {
    hide LegacyApart;
    forall n | 0 < n < |statements + [s]| ensures LegacyCutAt(r, statements + [s], n, limit) {
      if n < |statements| {
        assert LegacyCutAt(r, statements, n, limit);
      }
    }
  }

  lemma NothingLegacyCut(r: TargetRelation, limit: nat)
    requires 0 < limit <= CHUNK_ROWS
    ensures LegacyCut(r, [], limit)
  {
  }

  /** What the next updates are sent as. */
  function UpdateStatement(r: TargetRelation, chunk: seq<Change>): Statement
    requires chunk != []
  {
    if r.capabilities.selectiveUpdates then SelectiveRows(chunk)
    else if |chunk| == 1 then OneByOne(chunk)
    else UpdateRows(SetColumns(r, chunk[0]), chunk)
  }

  predicate LegacyKind(s: Statement) {
    s.OneByOne? || s.UpdateRows? || s.SelectiveRows?
  }

  lemma LegacySound(r: TargetRelation, chunk: seq<Change>)
    requires IdentityBatchable(r) && chunk != [] && AllLegacy(r, chunk) && OldsDistinct(r, chunk)
    requires AllSet(r, chunk, SetColumns(r, chunk[0]))
    requires r.capabilities.selectiveUpdates || |chunk| == 1 || BatchSafe(r, SetColumns(r, chunk[0]))
    ensures Sound(r, UpdateStatement(r, chunk))
  {
    hide IdentityBatchable, AllLegacy, OldsDistinct, AllSet, BatchSafe, SetColumns;
  }

  lemma AllAlike(changes: seq<Change>, r: TargetRelation, start: nat, end: nat)
    requires start <= end <= |changes| && AllLegacy(r, changes)
    ensures AllLegacy(r, changes[start..end])
  {
    hide CanPrimaryKeyUpsert;
    assert forall c :: c in changes[start..end] ==> c in changes;
  }

  /** The statements hold exactly these changes, and are cut as they must be. */
  ghost predicate Sent(r: TargetRelation, statements: seq<Statement>, changes: seq<Change>, limit: nat)
    requires 0 < limit <= CHUNK_ROWS
  {
    && Changes(statements) == changes && AllSound(r, statements) && LegacyCut(r, statements, limit)
    && forall s :: s in statements ==> LegacyKind(s)
  }

  lemma NothingSent(r: TargetRelation, limit: nat)
    requires 0 < limit <= CHUNK_ROWS
    ensures Sent(r, [], [], limit)
  {
    NothingLegacyCut(r, limit);
    NoStatements(r);
  }

  lemma OneMoreSent(
    r: TargetRelation, statements: seq<Statement>, changes: seq<Change>, start: nat, end: nat, s: Statement, limit: nat)
    requires 0 < limit <= CHUNK_ROWS && start < end <= |changes| && Sent(r, statements, changes[..start], limit)
    requires s.changes == changes[start..end] && Sound(r, s) && Sized(s) && LegacyKind(s)
    requires LastLegacyApart(r, statements, changes[start], limit)
    ensures Sent(r, statements + [s], changes[..end], limit)
  {
    hide Sound, Sized, LegacyCut, LastLegacyApart, AllSound, Changes;
    LegacyCutNext(r, statements, s, limit);
    OneMoreStatement(r, statements, s);
    assert changes[..start] + changes[start..end] == changes[..end];
  }

  /** applyLegacyUpdates: one by one if the rows cannot be found by identity, else updates of the same columns
      and different rows together; those that set columns of unique indexes alone, unless the relation
      looks at its rows first. */
  method LegacyStatements(r: TargetRelation, changes: seq<Change>, limit: nat)
    returns (result: Result<seq<Statement>, ReplayError>)
    requires AllLegacy(r, changes) && 0 < limit <= CHUNK_ROWS
    ensures result.Success? <==> |changes| < 2 || !IdentityBatchable(r) || AllKeysOk(r, changes)
    ensures result.Success? ==> Changes(result.value) == changes && AllSound(r, result.value)
    ensures result.Success? ==> forall s :: s in result.value ==> LegacyKind(s)
    ensures result.Success? ==> LegacyCut(r, result.value, limit)
  {
    hide LegacyCut, CutBefore, ChunkLimit, LastLegacyApart, Changes, LegacyKind, Sent;
    hide IdentityBatchable, AllLegacy, OldsDistinct, AllSet, BatchSafe, SetColumns, KeyOk, Sound, Sized, AllSound;
    if |changes| < 2 || !IdentityBatchable(r) {
      var statements := OneEach(r, changes, limit);
      return Success(statements);
    }
    var statements: seq<Statement> := [];
    NothingSent(r, limit);
    var start := 0;
    assert changes[..0] == [];
    FirstApart(r, changes[0], limit);
    while start < |changes|
      invariant 0 <= start <= |changes|
      invariant Sent(r, statements, changes[..start], limit)
      invariant start < |changes| ==> LastLegacyApart(r, statements, changes[start], limit)
      invariant forall i :: 0 <= i < start ==> KeyOk(r, changes[i])
    {
      var columns := SetColumns(r, changes[start]);
      var batched := r.capabilities.selectiveUpdates || BatchSafe(r, columns);
      var end := UpdateRunEnd(r, changes, start, if batched then ChunkLimit(r, columns, limit) else 1);
      if end.Failure? {
        return Failure(end.error);
      }
      var chunk := changes[start..end.value];
      var statement := UpdateStatement(r, chunk);
      AllAlike(changes, r, start, end.value);
      LegacySound(r, chunk);
      StatementSized(r, chunk);
      OneMoreSent(r, statements, changes, start, end.value, statement, limit);
      if end.value < |changes| {
        ChunkApart(r, statements, statement, changes[end.value], limit);
      }
      statements := statements + [statement];
      start := end.value;
    }
    assert changes[..|changes|] == changes;
    SentMeans(r, statements, changes, limit);
    result := Success(statements);
  }

  lemma SentMeans(r: TargetRelation, statements: seq<Statement>, changes: seq<Change>, limit: nat)
    requires 0 < limit <= CHUNK_ROWS && Sent(r, statements, changes, limit)
    ensures Changes(statements) == changes && AllSound(r, statements) && LegacyCut(r, statements, limit)
    ensures forall s :: s in statements ==> LegacyKind(s)
  {
  }

  lemma FirstApart(r: TargetRelation, c: Change, limit: nat)
    requires 0 < limit <= CHUNK_ROWS
    ensures LastLegacyApart(r, [], c, limit)
  {
  }

  lemma ChunkApart(r: TargetRelation, statements: seq<Statement>, s: Statement, c: Change, limit: nat)
    requires 0 < limit <= CHUNK_ROWS && s.changes != []
    requires !IdentityBatchable(r) || SentAlone(r, s.changes[0])
             || |s.changes| == ChunkLimit(r, SetColumns(r, s.changes[0]), limit) || CutBefore(r, s.changes, c)
    ensures LastLegacyApart(r, statements + [s], c, limit)
  {
    hide IdentityBatchable, SentAlone, ChunkLimit, CutBefore;
  }

  method OneEach(r: TargetRelation, changes: seq<Change>, limit: nat) returns (statements: seq<Statement>)
    requires (|changes| < 2 || !IdentityBatchable(r)) && 0 < limit <= CHUNK_ROWS
    ensures Changes(statements) == changes && AllSound(r, statements) && LegacyCut(r, statements, limit)
    ensures forall s :: s in statements ==> LegacyKind(s)
  {
    hide IdentityBatchable, LegacyCut, CutBefore, ChunkLimit, LastLegacyApart, Changes, LegacyKind, Sound, Sized, AllSound, Sent;
    statements := [];
    NothingSent(r, limit);
    assert changes[..0] == [];
    if changes != [] {
      FirstApart(r, changes[0], limit);
    }
    for i := 0 to |changes|
      invariant Sent(r, statements, changes[..i], limit)
      invariant i < |changes| ==> LastLegacyApart(r, statements, changes[i], limit)
    {
      var statement := OneByOne([changes[i]]);
      OneByOneSound(r, [changes[i]]);
      assert changes[i..i + 1] == [changes[i]];
      OneMoreSent(r, statements, changes, i, i + 1, statement, limit);
      if i + 1 < |changes| {
        ChunkApart(r, statements, statement, changes[i + 1], limit);
      }
      statements := statements + [statement];
    }
    assert changes[..|changes|] == changes;
    SentMeans(r, statements, changes, limit);
  }

  lemma OneByOneSound(r: TargetRelation, changes: seq<Change>)
    requires changes != []
    ensures Sound(r, OneByOne(changes)) && Sized(OneByOne(changes)) && LegacyKind(OneByOne(changes))
  {
  }

  lemma StatementSized(r: TargetRelation, chunk: seq<Change>)
    requires 0 < |chunk| <= CHUNK_ROWS
    ensures Sized(UpdateStatement(r, chunk)) && LegacyKind(UpdateStatement(r, chunk))
    ensures UpdateStatement(r, chunk).changes == chunk
  {
  }

  // --- Relations whose rows keep their identity ---

  /** Every identity column is in a unique index, so that updates that set one are sent alone. */
  predicate IdentityKept(r: TargetRelation) {
    !r.capabilities.selectiveUpdates && forall i: nat :: i < |r.columns| && r.columns[i].key ==> Conflicting(r.columns[i])
  }

  /** Then no statement has an update that starts from where an earlier one has moved its row. */
  lemma KeptUnchained(r: TargetRelation, changes: seq<Change>, columns: seq<nat>)
    requires IdentityKept(r) && BatchSafe(r, columns) && AllSet(r, changes, columns) && OldsDistinct(r, changes)
    ensures Unchained(r, changes)
  {
    forall i, j | 0 <= i < j < |changes| ensures NewIdentity(r, changes[i]) != OldIdentity(r, changes[j]) {
      assert changes[i] in changes;
      SameIdentity(r, changes[i], columns);
    }
  }

  lemma SameIdentity(r: TargetRelation, c: Change, columns: seq<nat>)
    requires IdentityKept(r) && BatchSafe(r, columns) && SetColumns(r, c) == columns
    ensures NewIdentity(r, c) == OldIdentity(r, c)
  {
    var keys := KeyColumns(r);
    forall m | 0 <= m < |keys| ensures NewIdentity(r, c)[m] == OldIdentity(r, c)[m] {
      assert keys[m] in keys && keys[m] !in columns;
    }
  }
}
