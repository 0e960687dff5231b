/** How a lane's changes to one relation are cut into statements (queueRelationReplayLane, applyInserts,
    applyUpdates and applyDeletes, internal/cdc/applier.go:1011-1023, 2843-2883, 3546-3580, 4818-4866). */
module Statements {
  import opened Wrappers
  import opened Model
  import opened Catalog
  import opened Target
  import opened TupleKeys
  import opened SetDml
  import opened UpdateDml
  import opened UpdateRuns
  import opened SelectiveUpdates
  import opened SetStatements
  import opened LegacyUpdates

  // --- Where statements end ---

  /** A statement could not have taken in the first change of the next one: it is of another kind, the
      statement is full, it has a change of the same row, or its changes are sent alone. */
  predicate KeptApart(r: TargetRelation, run: seq<Change>, c: Change, chunkRows: nat)
    requires run != [] && 0 < chunkRows <= CHUNK_ROWS
  {
    run[0].kind != c.kind ||
    match c.kind
    case Insert => |run| == CHUNK_ROWS
    case Update =>
      if CanPrimaryKeyUpsert(r, run[0]) != CanPrimaryKeyUpsert(r, c) then true
      else if CanPrimaryKeyUpsert(r, c) then
        |run| == CHUNK_ROWS || exists i :: 0 <= i < |run| && NewKey(r, run[i]) == NewKey(r, c)
      else LegacyApart(r, run, c, chunkRows)
    case Delete =>
      || !BatchDeletable(r) || |run| == chunkRows
      || exists i :: 0 <= i < |run| && DeleteDatums(r, run[i]) == DeleteDatums(r, c)
    case Truncate => true
  }

  predicate CutAt(r: TargetRelation, statements: seq<Statement>, n: nat, chunkRows: nat)
    requires 0 < n < |statements| && 0 < chunkRows <= CHUNK_ROWS
  {
    statements[n - 1].changes != [] && statements[n].changes != [] &&
    KeptApart(r, statements[n - 1].changes, statements[n].changes[0], chunkRows)
  }

  /** No statement could have taken in more. */
  predicate WellCut(r: TargetRelation, statements: seq<Statement>, chunkRows: nat)
    requires 0 < chunkRows <= CHUNK_ROWS
  {
    forall n :: 0 < n < |statements| ==> CutAt(r, statements, n, chunkRows)
  }

  /** The last statement is kept apart from a change that follows. */
  predicate LastKeptApart(r: TargetRelation, statements: seq<Statement>, c: Change, chunkRows: nat)
    requires 0 < chunkRows <= CHUNK_ROWS
  {
    statements != [] ==>
      var run := statements[|statements| - 1].changes;
      run != [] && KeptApart(r, run, c, chunkRows)
  }

  lemma CutConcat(r: TargetRelation, a: seq<Statement>, b: seq<Statement>, chunkRows: nat)
    requires 0 < chunkRows <= CHUNK_ROWS && WellCut(r, a, chunkRows) && WellCut(r, b, chunkRows)
    requires b != [] ==> b[0].changes != [] && LastKeptApart(r, a, b[0].changes[0], chunkRows)
    ensures WellCut(r, a + b, chunkRows)
  {
    hide KeptApart;
    forall n | 0 < n < |a + b| ensures CutAt(r, a + b, n, chunkRows) {
      if n < |a| {
        assert CutAt(r, a, n, chunkRows);
      } else if n > |a| {
        assert CutAt(r, b, n - |a|, chunkRows);
      }
    }
  }

  lemma NothingCut(r: TargetRelation, chunkRows: nat)
    requires 0 < chunkRows <= CHUNK_ROWS
    ensures WellCut(r, [], chunkRows)
  {
  }

  lemma CutNext(r: TargetRelation, statements: seq<Statement>, s: Statement, chunkRows: nat)
    requires 0 < chunkRows <= CHUNK_ROWS && WellCut(r, statements, chunkRows) && s.changes != []
    requires LastKeptApart(r, statements, s.changes[0], chunkRows)
    ensures WellCut(r, statements + [s], chunkRows)
  {
    CutConcat(r, statements, [s], chunkRows);
  }

  /** Statements hold changes of their run alone, the first one its first. */
  lemma {:induction false} HeldChanges(r: TargetRelation, statements: seq<Statement>)
    requires AllSound(r, statements)
    ensures forall s, c :: s in statements && c in s.changes ==> c in Changes(statements)
    ensures statements != [] ==>
      && Changes(statements) != [] && statements[0].changes != []
      && statements[0].changes[0] == Changes(statements)[0] && statements[|statements| - 1].changes != []
    ensures statements == [] ==> Changes(statements) == []
    decreases |statements|
  {
    hide Sound;
    if statements != [] {
      var init, last := statements[..|statements| - 1], statements[|statements| - 1];
      assert forall s :: s in statements <==> s in init || s == last;
      assert last in statements && Sized(last);
      HeldChanges(r, init);
    }
  }

  // --- Cutting a run ---

  method InsertStatements(r: TargetRelation, changes: seq<Change>, ghost chunkRows: nat)
    returns (statements: seq<Statement>)
    requires AllOfKind(Insert, changes) && 0 < chunkRows <= CHUNK_ROWS
    ensures Changes(statements) == changes && AllSound(r, statements) && WellCut(r, statements, chunkRows)
    ensures |statements| == (|changes| + CHUNK_ROWS - 1) / CHUNK_ROWS
  {
    hide WellCut, LastKeptApart, AllSound, Changes;
    statements := [];
    NothingCut(r, chunkRows);
    NoStatements(r);
    var start := 0;
    if changes != [] {
      NothingApart(r, changes[0], chunkRows);
    }
    assert Changes([]) == changes[..0] by {
      NoChanges();
    }
    while start < |changes|
      invariant WellCut(r, statements, chunkRows)
      invariant start < |changes| ==> LastKeptApart(r, statements, changes[start], chunkRows)
      invariant 0 <= start <= |changes| && (start < |changes| ==> start == CHUNK_ROWS * |statements|)
      invariant start == |changes| ==> |statements| == (|changes| + CHUNK_ROWS - 1) / CHUNK_ROWS
      invariant Changes(statements) == changes[..start] && AllSound(r, statements)
    {
      var end := if start + CHUNK_ROWS > |changes| then |changes| else start + CHUNK_ROWS;
      var statement := InsertRows(changes[start..end]);
      OneMoreStatement(r, statements, statement);
      CutNext(r, statements, statement, chunkRows);
      if end < |changes| {
        FullInsertApart(r, statements, statement, changes[end], chunkRows);
      }
      assert changes[..start] + changes[start..end] == changes[..end];
      statements := statements + [statement];
      start := end;
    }
    assert changes[..|changes|] == changes;
  }

  lemma NoChanges()
    ensures Changes([]) == []
  {
  }

  lemma FullInsertApart(r: TargetRelation, statements: seq<Statement>, s: Statement, c: Change, chunkRows: nat)
    requires 0 < chunkRows <= CHUNK_ROWS && |s.changes| == CHUNK_ROWS && s.changes[0].kind == Insert == c.kind
    ensures LastKeptApart(r, statements + [s], c, chunkRows)
  {
  }

  // --- Cutting at a repeated key ---

  function UpsertKey(r: TargetRelation, c: Change): Bytes {
    KeyText(UPSERT_LEAD, NewKey(r, c))
  }

  function DeleteKey(r: TargetRelation, c: Change): Bytes {
    KeyText(IDENTITY_LEAD, DeleteDatums(r, c))
  }

  /** Every key of the run is among those seen. */
  predicate Seen(keyOf: Change -> Bytes, run: seq<Change>, seen: set<Bytes>) {
    && (run == [] ==> seen == {})
    && forall i :: 0 <= i < |run| ==> keyOf(run[i]) in seen
  }

  lemma SeenNext(keyOf: Change -> Bytes, run: seq<Change>, seen: set<Bytes>, c: Change)
    requires Seen(keyOf, run, seen)
    ensures Seen(keyOf, run + [c], seen + {keyOf(c)})
  {
  }

  lemma UpsertRunGrows(r: TargetRelation, run: seq<Change>, seen: set<Bytes>, c: Change)
    requires Seen(x => UpsertKey(r, x), run, seen) && UpsertKey(r, c) !in seen
    requires AllUpserts(r, run) && KeysDistinct(r, run) && c.kind == Update && CanPrimaryKeyUpsert(r, c)
    ensures AllUpserts(r, run + [c]) && KeysDistinct(r, run + [c])
  {
    forall x | x in run + [c] ensures x.kind == Update && CanPrimaryKeyUpsert(r, x) {
      assert x in run || x == c;
    }
    hide CanPrimaryKeyUpsert, KeyText;
    forall i | 0 <= i < |run| ensures NewKey(r, run[i]) != NewKey(r, c) {
      assert UpsertKey(r, run[i]) in seen;
    }
  }

  lemma DeleteRunGrows(r: TargetRelation, run: seq<Change>, seen: set<Bytes>, c: Change)
    requires Seen(x => DeleteKey(r, x), run, seen) && DeleteKey(r, c) !in seen && DeleteKeysDistinct(r, run)
    ensures DeleteKeysDistinct(r, run + [c])
  {
    hide DeleteDatums, KeyText;
    forall i | 0 <= i < |run| ensures DeleteDatums(r, run[i]) != DeleteDatums(r, c) {
      assert DeleteKey(r, run[i]) in seen;
    }
  }

  /** The longest run of upserts of pairwise different rows from `start`, within the limit. */
  method UpsertRunEnd(r: TargetRelation, changes: seq<Change>, start: nat) returns (end: nat)
    requires start < |changes| && AllOfKind(Update, changes) && CanPrimaryKeyUpsert(r, changes[start])
    ensures start < end <= |changes| && end - start <= CHUNK_ROWS
    ensures AllUpserts(r, changes[start..end]) && KeysDistinct(r, changes[start..end])
    ensures end == |changes| || end - start == CHUNK_ROWS || !CanPrimaryKeyUpsert(r, changes[end])
            || exists i :: start <= i < end && NewKey(r, changes[i]) == NewKey(r, changes[end])
  {
    hide CanPrimaryKeyUpsert, KeyText, KeysDistinct, AllUpserts, NewKey;
    var keyOf := x => UpsertKey(r, x);
    var seen: set<Bytes> := {};
    end := start;
    assert changes[start..start] == [];
    EmptyRun(r);
    while end < |changes| && end - start < CHUNK_ROWS && CanPrimaryKeyUpsert(r, changes[end])
      invariant start <= end <= |changes| && end - start <= CHUNK_ROWS
      invariant Seen(keyOf, changes[start..end], seen)
      invariant forall k :: k in seen ==> exists i :: start <= i < end && keyOf(changes[i]) == k
      invariant forall i :: start <= i < end ==> CanPrimaryKeyUpsert(r, changes[i])
      invariant AllUpserts(r, changes[start..end]) && KeysDistinct(r, changes[start..end])
    {
      var key := UpsertKey(r, changes[end]);
      if key in seen {
        var i :| start <= i < end && keyOf(changes[i]) == key;
        SameNewKey(r, changes[i], changes[end]);
        return;
      }
      UpsertRunGrows(r, changes[start..end], seen, changes[end]);
      SeenNext(keyOf, changes[start..end], seen, changes[end]);
      assert changes[start..end] + [changes[end]] == changes[start..end + 1];
      seen := seen + {key};
      end := end + 1;
    }
  }

  lemma EmptyRun(r: TargetRelation)
    ensures AllUpserts(r, []) && KeysDistinct(r, [])
  {
  }

  lemma SameNewKey(r: TargetRelation, a: Change, b: Change)
    requires CanPrimaryKeyUpsert(r, a) && CanPrimaryKeyUpsert(r, b)
    ensures UpsertKey(r, a) == UpsertKey(r, b) <==> NewKey(r, a) == NewKey(r, b)
  {
    KeyTextIdentifies(UPSERT_LEAD, NewKey(r, a), NewKey(r, b));
  }

  predicate AllUpdateKinds(statements: seq<Statement>) {
    forall s :: s in statements ==> LegacyKind(s) || s.UpsertRows?
  }

  /** An update that is no upsert and has no key to look for. */
  predicate BadUpdate(r: TargetRelation, changes: seq<Change>) {
    IdentityBatchable(r) && exists c :: c in changes && !CanPrimaryKeyUpsert(r, c) && !KeyOk(r, c)
  }

  lemma BadInRun(r: TargetRelation, changes: seq<Change>, start: nat, end: nat)
    requires start <= end <= |changes| && IdentityBatchable(r)
    requires AllLegacy(r, changes[start..end]) && !AllKeysOk(r, changes[start..end])
    ensures BadUpdate(r, changes)
  {
    hide CanPrimaryKeyUpsert, KeyOk, IdentityBatchable;
    var c :| c in changes[start..end] && !KeyOk(r, c);
    assert c in changes;
  }

  /** The end of the updates from `start` on that are no upserts. */
  method LegacyRunEnd(r: TargetRelation, changes: seq<Change>, start: nat) returns (end: nat)
    requires start < |changes| && AllOfKind(Update, changes) && !CanPrimaryKeyUpsert(r, changes[start])
    ensures start < end <= |changes| && AllLegacy(r, changes[start..end])
    ensures end < |changes| ==> CanPrimaryKeyUpsert(r, changes[end])
  {
    hide CanPrimaryKeyUpsert;
    end := start + 1;
    while end < |changes| && !CanPrimaryKeyUpsert(r, changes[end])
      invariant start < end <= |changes|
      invariant forall i :: start <= i < end ==> !CanPrimaryKeyUpsert(r, changes[i])
    {
      end := end + 1;
    }
  }

  /** applyUpdates: alternating runs of updates that are no upserts and runs of upserts of different rows. */
  /** The statements of a run of updates that are no upserts are well cut, and kept apart from an upsert. */
  lemma LegacyWellCut(r: TargetRelation, statements: seq<Statement>, limit: nat)
    requires 0 < limit <= CHUNK_ROWS && LegacyCut(r, statements, limit) && AllSound(r, statements)
    requires AllLegacy(r, Changes(statements))
    ensures WellCut(r, statements, limit)
  {
    hide CanPrimaryKeyUpsert, LegacyApart, AllSound, Changes;
    HeldChanges(r, statements);
    forall n | 0 < n < |statements| ensures CutAt(r, statements, n, limit) {
      assert LegacyCutAt(r, statements, n, limit);
      assert statements[n - 1] in statements && statements[n] in statements;
      assert statements[n - 1].changes[0] in statements[n - 1].changes;
      assert statements[n].changes[0] in statements[n].changes;
    }
  }

  lemma ApartFromUpsert(r: TargetRelation, statements: seq<Statement>, c: Change, limit: nat)
    requires 0 < limit <= CHUNK_ROWS && AllSound(r, statements) && AllLegacy(r, Changes(statements))
    requires c.kind == Update && CanPrimaryKeyUpsert(r, c)
    ensures LastKeptApart(r, statements, c, limit)
  {
    hide CanPrimaryKeyUpsert, LegacyApart, AllSound, Changes;
    HeldChanges(r, statements);
    if statements != [] {
      var last := statements[|statements| - 1];
      assert last in statements && last.changes[0] in last.changes;
    }
  }

  lemma UpsertsApart(r: TargetRelation, changes: seq<Change>, start: nat, end: nat, limit: nat)
    requires start < end < |changes| && AllOfKind(Update, changes) && AllUpserts(r, changes[start..end])
    requires 0 < limit <= CHUNK_ROWS
    requires end - start == CHUNK_ROWS || !CanPrimaryKeyUpsert(r, changes[end])
             || exists i :: start <= i < end && NewKey(r, changes[i]) == NewKey(r, changes[end])
    ensures KeptApart(r, changes[start..end], changes[end], limit)
  {
    hide NewKey, CanPrimaryKeyUpsert, LegacyApart;
    assert changes[start..end][0] in changes[start..end] && changes[end] in changes;
    if end - start != CHUNK_ROWS && CanPrimaryKeyUpsert(r, changes[end]) {
      var i :| start <= i < end && NewKey(r, changes[i]) == NewKey(r, changes[end]);
      assert changes[start..end][i - start] == changes[i];
    }
  }

  lemma LastOfConcat(r: TargetRelation, a: seq<Statement>, b: seq<Statement>, c: Change, limit: nat)
    requires 0 < limit <= CHUNK_ROWS && b != [] && LastKeptApart(r, b, c, limit)
    ensures LastKeptApart(r, a + b, c, limit)
  {
    hide KeptApart;
  }

  /** applyUpdates: alternating runs of updates that are no upserts and runs of upserts of different rows. */
  method UpdateStatements(r: TargetRelation, changes: seq<Change>, limit: nat)
    returns (result: Result<seq<Statement>, ReplayError>)
    requires AllOfKind(Update, changes) && 0 < limit <= CHUNK_ROWS
    ensures result.Failure? ==> BadUpdate(r, changes)
    ensures result.Success? ==> Changes(result.value) == changes && AllSound(r, result.value)
    ensures result.Success? ==> AllUpdateKinds(result.value) && WellCut(r, result.value, limit)
  {
    hide CanPrimaryKeyUpsert, Sound, Sized, AllSound, KeysDistinct, AllUpserts, AllLegacy, AllKeysOk, IdentityBatchable;
    hide BadUpdate, WellCut, LastKeptApart, KeptApart, LegacyCut, NewKey;
    var statements: seq<Statement> := [];
    NoStatements(r);
    NothingCut(r, limit);
    if changes != [] {
      NothingApart(r, changes[0], limit);
    }
    var start := 0;
    while start < |changes|
      invariant 0 <= start <= |changes|
      invariant Changes(statements) == changes[..start] && AllSound(r, statements) && AllUpdateKinds(statements)
      invariant WellCut(r, statements, limit)
      invariant start < |changes| ==> LastKeptApart(r, statements, changes[start], limit)
    {
      var end;
      if !CanPrimaryKeyUpsert(r, changes[start]) {
        end := LegacyRunEnd(r, changes, start);
        var legacy := LegacyStatements(r, changes[start..end], limit);
        if legacy.Failure? {
          BadInRun(r, changes, start, end);
          return Failure(legacy.error);
        }
        ChangesConcat(r, statements, legacy.value);
        LegacyWellCut(r, legacy.value, limit);
        HeldChanges(r, legacy.value);
        CutConcat(r, statements, legacy.value, limit);
        if end < |changes| {
          assert changes[end] in changes;
          ApartFromUpsert(r, legacy.value, changes[end], limit);
          LastOfConcat(r, statements, legacy.value, changes[end], limit);
        }
        statements := statements + legacy.value;
      } else {
        end := UpsertRunEnd(r, changes, start);
        var upserts := UpsertRows(changes[start..end]);
        SoundUpserts(r, changes[start..end]);
        OneMoreStatement(r, statements, upserts);
        CutNext(r, statements, upserts, limit);
        if end < |changes| {
          UpsertsApart(r, changes, start, end, limit);
          LastIsApart(r, statements, upserts, changes[end], limit);
        }
        statements := statements + [upserts];
      }
      assert changes[..start] + changes[start..end] == changes[..end];
      start := end;
    }
    assert changes[..|changes|] == changes;
    result := Success(statements);
  }

  lemma NothingApart(r: TargetRelation, c: Change, limit: nat)
    requires 0 < limit <= CHUNK_ROWS
    ensures LastKeptApart(r, [], c, limit)
  {
  }

  lemma LastIsApart(r: TargetRelation, statements: seq<Statement>, s: Statement, c: Change, limit: nat)
    requires 0 < limit <= CHUNK_ROWS && s.changes != [] && KeptApart(r, s.changes, c, limit)
    ensures LastKeptApart(r, statements + [s], c, limit)
  {
    hide KeptApart;
  }

  lemma SoundUpserts(r: TargetRelation, changes: seq<Change>)
    requires AllUpserts(r, changes) && KeysDistinct(r, changes) && 0 < |changes| <= CHUNK_ROWS
    ensures Sound(r, UpsertRows(changes)) && Sized(UpsertRows(changes))
  {
  }

  // --- Deletes ---

  predicate DatumAllowed(r: TargetRelation, i: nat, datum: Datum)
    requires i < |r.columns|
  {
    ParamOk(r, r.columns[i], datum) && (r.columns[i].primary ==> datum.kind != DatumNull)
  }

  lemma DeleteOkByColumn(r: TargetRelation, c: Change)
    requires ValidTuple(r, c.oldTuple)
    ensures var columns := DeleteColumns(r);
            && (forall m :: 0 <= m < |columns| ==> columns[m] < |r.columns|)
            && (DeleteOk(r, c)
                <==> forall m :: 0 <= m < |columns| ==> DatumAllowed(r, columns[m], DeleteDatums(r, c)[m]))
  {
    var columns, datums := DeleteColumns(r), DeleteDatums(r, c);
    assert forall m :: 0 <= m < |columns| ==> columns[m] in columns;
    hide DeleteColumn, ParamOk, DeleteColumns;
    forall i: nat | i < |r.columns| && DeleteColumn(r, i)
      ensures exists m :: 0 <= m < |columns| && columns[m] == i
    {
      assert i in columns;
    }
  }

  method KeyOfDatums(r: TargetRelation, columns: seq<nat>, datums: seq<Datum>)
    returns (key: Result<Bytes, ReplayError>)
    requires |columns| == |datums| && forall m :: 0 <= m < |columns| ==> columns[m] < |r.columns|
    ensures key.Success? <==> forall m :: 0 <= m < |columns| ==> DatumAllowed(r, columns[m], datums[m])
    ensures key.Success? ==> key.value == KeyText(IDENTITY_LEAD, datums)
  {
    var text: Bytes := [];
    hide KeyText, DatumKey, ParamOk;
    assert KeyText(IDENTITY_LEAD, datums[..0]) == [] by {
      EmptyKeyText(IDENTITY_LEAD, datums[..0]);
    }
    for n := 0 to |columns|
      invariant text == KeyText(IDENTITY_LEAD, datums[..n])
      invariant forall m :: 0 <= m < n ==> DatumAllowed(r, columns[m], datums[m])
    {
      var column, datum := r.columns[columns[n]], datums[n];
      if (column.primary && datum.kind == DatumNull) || !ParamOk(r, column, datum) {
        assert !DatumAllowed(r, columns[n], datums[n]);
        return Failure(InvalidDatum);
      }
      KeyTextNext(IDENTITY_LEAD, datums[..n], datum);
      assert datums[..n + 1] == datums[..n] + [datum];
      text := text + DatumKey(IDENTITY_LEAD, datum);
    }
    assert datums[..|columns|] == datums;
    key := Success(text);
  }

  /** batchDeleteIdentityKey: the key of a delete, or the error that stops the batch. */
  method DeleteKeyFor(r: TargetRelation, columns: seq<nat>, c: Change) returns (key: Result<Bytes, ReplayError>)
    requires columns == DeleteColumns(r)
    ensures key.Success? <==> DeleteOk(r, c)
    ensures key.Success? ==> key.value == DeleteKey(r, c)
  {
    hide DeleteColumns, DeleteDatums, KeyText, DatumAllowed;
    if !ValidTuple(r, c.oldTuple) {
      return Failure(InvalidTuple);
    }
    DeleteOkByColumn(r, c);
    key := KeyOfDatums(r, columns, DeleteDatums(r, c));
  }

  /** The longest run of deletes of pairwise different rows from `start`, within the limit, or the error
      of the first delete that has no key. */
  method DeleteRunEnd(r: TargetRelation, changes: seq<Change>, start: nat, chunkRows: nat)
    returns (end: Result<nat, ReplayError>)
    requires start < |changes| && 0 < chunkRows
    ensures end.Failure? ==> exists i :: start <= i < |changes| && !DeleteOk(r, changes[i])
    ensures end.Success? ==>
              && start < end.value <= |changes| && end.value - start <= chunkRows
              && DeleteKeysDistinct(r, changes[start..end.value])
              && (forall i :: start <= i < end.value ==> DeleteOk(r, changes[i]))
    ensures end.Success? ==>
      || end.value == |changes| || end.value - start == chunkRows
      || exists i :: start <= i < end.value && DeleteDatums(r, changes[i]) == DeleteDatums(r, changes[end.value])
  {
    hide DeleteOk, KeyText, DeleteKeysDistinct, DeleteColumns, DeleteDatums;
    var columns := DeleteColumns(r);
    var keyOf := x => DeleteKey(r, x);
    var first := DeleteKeyFor(r, columns, changes[start]);
    if first.Failure? {
      return Failure(first.error);
    }
    var seen := {first.value};
    var next := start + 1;
    assert changes[start..next] == [changes[start]];
    OneDelete(r, changes[start]);
    while next < |changes| && next - start < chunkRows
      invariant start < next <= |changes| && next - start <= chunkRows
      invariant Seen(keyOf, changes[start..next], seen)
      invariant forall k :: k in seen ==> exists i :: start <= i < next && keyOf(changes[i]) == k
      invariant DeleteKeysDistinct(r, changes[start..next])
      invariant forall i :: start <= i < next ==> DeleteOk(r, changes[i])
    {
      var key := DeleteKeyFor(r, columns, changes[next]);
      if key.Failure? {
        return Failure(key.error);
      }
      if key.value in seen {
        var i :| start <= i < next && keyOf(changes[i]) == key.value;
        KeyTextIdentifies(IDENTITY_LEAD, DeleteDatums(r, changes[i]), DeleteDatums(r, changes[next]));
        return Success(next);
      }
      DeleteRunGrows(r, changes[start..next], seen, changes[next]);
      SeenNext(keyOf, changes[start..next], seen, changes[next]);
      assert changes[start..next] + [changes[next]] == changes[start..next + 1];
      seen := seen + {key.value};
      next := next + 1;
    }
    end := Success(next);
  }

  lemma OneDelete(r: TargetRelation, c: Change)
    ensures DeleteKeysDistinct(r, [c])
  {
  }

  /** applyDeletes: one by one if there is no key to join on, else in runs of different rows. */
  method DeleteStatements(r: TargetRelation, changes: seq<Change>, chunkRows: nat)
    returns (result: Result<seq<Statement>, ReplayError>)
    requires AllOfKind(Delete, changes) && 0 < chunkRows <= CHUNK_ROWS
    ensures result.Success? <==> |changes| < 2 || !BatchDeletable(r) || AllDeletesOk(r, changes)
    ensures result.Success? ==> Changes(result.value) == changes && AllSound(r, result.value)
    ensures result.Success? ==> WellCut(r, result.value, chunkRows)
  {
    hide Sound, DeleteKeysDistinct, BatchDeletable, DeleteOk, WellCut, DeleteDatums;
    var statements: seq<Statement> := [];
    NothingCut(r, chunkRows);
    if |changes| < 2 || !BatchDeletable(r) {
      for i := 0 to |changes|
        invariant Changes(statements) == changes[..i] && AllSound(r, statements) && WellCut(r, statements, chunkRows)
        invariant i < |changes| ==> LastKeptApart(r, statements, changes[i], chunkRows)
      {
        CutNext(r, statements, OneByOne([changes[i]]), chunkRows);
        SoundDelete(r, OneByOne([changes[i]]));
        OneMoreStatement(r, statements, OneByOne([changes[i]]));
        assert changes[..i] + [changes[i]] == changes[..i + 1];
        statements := statements + [OneByOne([changes[i]])];
      }
      assert changes[..|changes|] == changes;
      return Success(statements);
    }
    var start := 0;
    while start < |changes|
      invariant 0 <= start <= |changes|
      invariant Changes(statements) == changes[..start] && AllSound(r, statements) && WellCut(r, statements, chunkRows)
      invariant start < |changes| ==> LastKeptApart(r, statements, changes[start], chunkRows)
      invariant forall i :: 0 <= i < start ==> DeleteOk(r, changes[i])
    {
      var end := DeleteRunEnd(r, changes, start, chunkRows);
      if end.Failure? {
        return Failure(end.error);
      }
      var chunk := changes[start..end.value];
      var statement := if |chunk| == 1 then OneByOne(chunk) else DeleteRows(chunk);
      SoundDelete(r, statement);
      CutNext(r, statements, statement, chunkRows);
      if end.value < |changes| {
        DeletesApart(r, changes, start, end.value, chunkRows);
      }
      OneMoreStatement(r, statements, statement);
      assert changes[..start] + chunk == changes[..end.value];
      statements := statements + [statement];
      start := end.value;
    }
    assert changes[..|changes|] == changes;
    result := Success(statements);
  }

  lemma DeletesApart(r: TargetRelation, changes: seq<Change>, start: nat, end: nat, chunkRows: nat)
    requires start < end < |changes| && AllOfKind(Delete, changes) && 0 < chunkRows <= CHUNK_ROWS
    requires end - start == chunkRows ||
             exists i :: start <= i < end && DeleteDatums(r, changes[i]) == DeleteDatums(r, changes[end])
    ensures KeptApart(r, changes[start..end], changes[end], chunkRows)
  {
    hide DeleteDatums, BatchDeletable, CanPrimaryKeyUpsert, LegacyApart;
    assert changes[start] in changes && changes[end] in changes;
    if end - start != chunkRows {
      var i :| start <= i < end && DeleteDatums(r, changes[i]) == DeleteDatums(r, changes[end]);
      assert changes[start..end][i - start] == changes[i];
    }
  }

  lemma SoundDelete(r: TargetRelation, s: Statement)
    requires s.OneByOne? ||
             (s.DeleteRows? && BatchDeletable(r) && AllOfKind(Delete, s.changes) && DeleteKeysDistinct(r, s.changes))
    ensures Sound(r, s)
  {
  }

  // --- A lane of one relation ---

  /** A change that stops its run before anything of it is sent. */
  predicate Refused(r: TargetRelation, run: seq<Change>) {
    || (AllOfKind(Delete, run) && BatchDeletable(r) && !AllDeletesOk(r, run))
    || (AllOfKind(Update, run) && BadUpdate(r, run))
  }

  method RunStatements(r: TargetRelation, changes: seq<Change>, chunkRows: nat)
    returns (result: Result<seq<Statement>, ReplayError>)
    requires changes != [] && AllOfKind(changes[0].kind, changes) && changes[0].kind != Truncate
    requires 0 < chunkRows <= CHUNK_ROWS
    ensures result.Success? ==> Changes(result.value) == changes && AllSound(r, result.value)
    ensures result.Success? ==> WellCut(r, result.value, chunkRows)
    ensures result.Failure? ==> Refused(r, changes)
  {
    hide WellCut, AllSound, BatchDeletable, AllDeletesOk, BadUpdate;
    match changes[0].kind {
      case Insert => {
        var statements := InsertStatements(r, changes, chunkRows);
        result := Success(statements);
      }
      case Update => {
        result := UpdateStatements(r, changes, chunkRows);
      }
      case Delete => {
        result := DeleteStatements(r, changes, chunkRows);
      }
    }
  }

  lemma {:induction false} BadUpdateFails(r: TargetRelation, changes: seq<Change>, t: Table)
    requires AllOfKind(Update, changes) && BadUpdate(r, changes)
    ensures TableRun(r, changes, Some(t)) == None
    decreases |changes|
  {
    hide CanPrimaryKeyUpsert, PredicateOk, IdentityBatchable, SqlUpsert;
    var init, last := changes[..|changes| - 1], changes[|changes| - 1];
    assert forall c :: c in changes <==> c in init || c == last;
    if BadUpdate(r, init) {
      BadUpdateFails(r, init, t);
    }
  }

  /** A refused run makes the changes fail one by one as well. */
  lemma RefusedFails(r: TargetRelation, before: seq<Change>, run: seq<Change>, after: seq<Change>, t: Table)
    requires StoredOk(r, t) && Refused(r, run)
    ensures TableRun(r, before + run + after, Some(t)) == None
  {
    hide StoredOk, BatchDeletable, AllDeletesOk, BadUpdate;
    TableRunConcat(r, before + run, after, Some(t));
    TableRunConcat(r, before, run, Some(t));
    FailedRun(r, run);
    FailedRun(r, after);
    if TableRun(r, before, Some(t)).Some? {
      RunKeepsStored(r, before, t);
      var u := TableRun(r, before, Some(t)).value;
      if AllOfKind(Delete, run) && BatchDeletable(r) && !AllDeletesOk(r, run) {
        DeletesMatch(r, run, u);
      } else {
        BadUpdateFails(r, run, u);
      }
    }
  }

  /** queueRelationReplayLane: runs of the same kind, each as its statements. Executing them is replaying
      the lane change by change if they are unchained; a lane refused before it is executed is one that
      replay would refuse. */
  method LaneStatements(r: TargetRelation, lane: seq<Change>, chunkRows: nat)
    returns (result: Result<seq<Statement>, ReplayError>)
    requires (forall c :: c in lane ==> c.kind != Truncate) && 0 < chunkRows <= CHUNK_ROWS
    ensures result.Success? ==> Changes(result.value) == lane && AllSound(r, result.value)
    ensures result.Success? ==> WellCut(r, result.value, chunkRows)
    ensures result.Success? ==> forall t :: StoredOk(r, t) ==>
      Agrees(AllUnchained(r, result.value), ExecuteAll(r, result.value, Some(t)), TableRun(r, lane, Some(t)))
    ensures result.Failure? ==> forall t :: StoredOk(r, t) ==> TableRun(r, lane, Some(t)) == None
  {
    hide WellCut, LastKeptApart, AllSound, StoredOk, TableRun, ExecuteAll, Refused, AllUnchained;
    var statements: seq<Statement> := [];
    var start := 0;
    NoStatements(r);
    NothingCut(r, chunkRows);
    if lane != [] {
      NothingApart(r, lane[0], chunkRows);
    }
    while start < |lane|
      invariant 0 <= start <= |lane|
      invariant Changes(statements) == lane[..start] && AllSound(r, statements)
      invariant WellCut(r, statements, chunkRows)
      invariant start < |lane| ==> LastKeptApart(r, statements, lane[start], chunkRows)
    {
      var end := start + 1;
      while end < |lane| && lane[end].kind == lane[start].kind
        invariant start < end <= |lane|
        invariant forall i :: start <= i < end ==> lane[i].kind == lane[start].kind
      {
        end := end + 1;
      }
      var run := RunStatements(r, lane[start..end], chunkRows);
      if run.Failure? {
        forall t | StoredOk(r, t) ensures TableRun(r, lane, Some(t)) == None {
          RefusedFails(r, lane[..start], lane[start..end], lane[end..], t);
          assert lane[..start] + lane[start..end] + lane[end..] == lane;
        }
        return run;
      }
      ChangesConcat(r, statements, run.value);
      HeldChanges(r, run.value);
      CutConcat(r, statements, run.value, chunkRows);
      if end < |lane| {
        OtherKindApart(r, run.value, lane[start].kind, lane[end], chunkRows);
        LastOfConcat(r, statements, run.value, lane[end], chunkRows);
      }
      assert lane[..start] + lane[start..end] == lane[..end];
      statements := statements + run.value;
      start := end;
    }
    assert lane[..|lane|] == lane;
    forall t | StoredOk(r, t)
      ensures Agrees(AllUnchained(r, statements), ExecuteAll(r, statements, Some(t)), TableRun(r, lane, Some(t)))
    {
      StatementsMatchIff(r, statements, t);
    }
    result := Success(statements);
  }

  lemma OtherKindApart(r: TargetRelation, statements: seq<Statement>, kind: ChangeKind, c: Change, chunkRows: nat)
    requires 0 < chunkRows <= CHUNK_ROWS && AllSound(r, statements)
    requires AllOfKind(kind, Changes(statements)) && c.kind != kind
    ensures LastKeptApart(r, statements, c, chunkRows)
  {
    hide CanPrimaryKeyUpsert, LegacyApart, AllSound, Changes, DeleteDatums, NewKey, BatchDeletable;
    HeldChanges(r, statements);
    if statements != [] {
      var last := statements[|statements| - 1];
      assert last in statements && last.changes[0] in last.changes;
    }
  }

  /** Where every identity column is in a unique index and rows are not looked at first, all statements are
      unchained. */
  lemma KeptAllUnchained(r: TargetRelation, statements: seq<Statement>)
    requires IdentityKept(r) && AllSound(r, statements)
    ensures AllUnchained(r, statements)
  {
    assert !r.capabilities.selectiveUpdates;
    hide BatchSafe, AllSet, OldsDistinct, Unchained, IdentityKept, AllLegacy, IdentityBatchable, Sized;
    forall s | s in statements ensures StatementUnchained(r, s) {
      if s.UpdateRows? {
        KeptUnchained(r, s.changes, s.columns);
      }
    }
  }
}
