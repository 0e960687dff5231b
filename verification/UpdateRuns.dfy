/** Several updates of a relation in order, and one UPDATE ... FROM for all of them. They agree if no update
    starts from the identity to which an earlier one has moved its row (applyUpdateChunk and
    applyUpdateValueChunk, internal/cdc/applier.go:4403-4433, 4518-4605). */
module UpdateRuns {
  import opened Wrappers
  import opened Model
  import opened Catalog
  import opened Target
  import opened SetDml
  import opened UpdateDml

  /** An update that sets some columns. */
  datatype SetStep = SetStep(change: Change, columns: seq<nat>)

  // --- In order ---

  ghost function StepsRun(r: TargetRelation, steps: seq<SetStep>, t: Option<Table>): Option<Table>
    decreases |steps|
  {
    if steps == [] then t
    else
      var before, last := StepsRun(r, steps[..|steps| - 1], t), steps[|steps| - 1];
      if before.None? then None else UpdateColumns(r, last.change, last.columns, before.value)
  }

  lemma {:induction false} StepsRunConcat(r: TargetRelation, a: seq<SetStep>, b: seq<SetStep>, t: Option<Table>)
    ensures StepsRun(r, a + b, t) == StepsRun(r, b, StepsRun(r, a, t))
    decreases |b|
  {
    hide UpdateColumns;
    if b == [] {
      assert a + b == a;
    } else {
      var init := b[..|b| - 1];
      assert (a + b)[..|a + b| - 1] == a + init;
      StepsRunConcat(r, a, init, t);
    }
  }

  lemma {:induction false} StepsFailed(r: TargetRelation, steps: seq<SetStep>)
    ensures StepsRun(r, steps, None) == None
    decreases |steps|
  {
    hide UpdateColumns;
    if steps != [] {
      StepsFailed(r, steps[..|steps| - 1]);
    }
  }

  lemma OneStep(r: TargetRelation, s: SetStep, t: Option<Table>)
    ensures StepsRun(r, [s], t) == if t.None? then None else UpdateColumns(r, s.change, s.columns, t.value)
  {
    hide UpdateColumns;
    assert [s][..0] == [];
    assert StepsRun(r, [], t) == t;
  }

  lemma UpdateKeepsStored(r: TargetRelation, s: SetStep, t: Table)
    requires StoredOk(r, t) && UpdateColumns(r, s.change, s.columns, t).Some?
    ensures StoredOk(r, UpdateColumns(r, s.change, s.columns, t).value)
  {
    hide UpdateOk, Targets, Assigned, Storable, RowPrimaryKey;
    RowFound(r, s.change, t, Only(Targets(r, s.change, t)));
  }

  lemma {:induction false} StepsKeepStored(r: TargetRelation, steps: seq<SetStep>, t: Table)
    requires StoredOk(r, t) && StepsRun(r, steps, Some(t)).Some?
    ensures StoredOk(r, StepsRun(r, steps, Some(t)).value)
    decreases |steps|
  {
    hide UpdateColumns, StoredOk;
    if steps != [] {
      var init := steps[..|steps| - 1];
      StepsKeepStored(r, init, t);
      UpdateKeepsStored(r, steps[|steps| - 1], StepsRun(r, init, Some(t)).value);
    }
  }

  // --- Whole changes ---

  predicate AllLegacy(r: TargetRelation, changes: seq<Change>) {
    forall c :: c in changes ==> c.kind == Update && !CanPrimaryKeyUpsert(r, c)
  }

  function FullSteps(r: TargetRelation, changes: seq<Change>): (steps: seq<SetStep>)
    ensures |steps| == |changes|
    ensures forall i :: 0 <= i < |steps| ==> steps[i] == SetStep(changes[i], SetColumns(r, changes[i]))
  {
    seq(|changes|, i requires 0 <= i < |changes| => SetStep(changes[i], SetColumns(r, changes[i])))
  }

  lemma FullStepsInit(r: TargetRelation, changes: seq<Change>)
    requires changes != []
    ensures
      var steps := FullSteps(r, changes);
      steps[..|steps| - 1] == FullSteps(r, changes[..|changes| - 1])
  {
    hide SetColumns;
  }

  /** Updates in order are the changes in order. */
  lemma {:induction false} FullStepsRun(r: TargetRelation, changes: seq<Change>, t: Table)
    requires IdentityBatchable(r) && StoredOk(r, t) && AllLegacy(r, changes)
    ensures StepsRun(r, FullSteps(r, changes), Some(t)) == TableRun(r, changes, Some(t))
    decreases |changes|
  {
    hide IdentityBatchable, CanPrimaryKeyUpsert, SetColumns, UpdateColumns, SqlUpdate;
    if changes != [] {
      var init, last := changes[..|changes| - 1], changes[|changes| - 1];
      assert last in changes && forall c :: c in init ==> c in changes;
      FullStepsInit(r, changes);
      FullStepsRun(r, init, t);
      var before := TableRun(r, init, Some(t));
      if before.Some? {
        RunKeepsStored(r, init, t);
        SetColumnsSuffice(r, last, before.value);
      }
    }
  }

  // --- What one update does to the rows of other identities ---

  /** The columns are ones the change sets, among them every identity column it sets. */
  predicate StepExact(r: TargetRelation, s: SetStep) {
    && (forall i :: i in s.columns ==> i < |r.columns| && IsSet(r, s.change, i))
    && (forall i: nat :: i < |r.columns| && r.columns[i].key && IsSet(r, s.change, i) ==> i in s.columns)
  }

  lemma AssignedIdentity(r: TargetRelation, s: SetStep, row: Row)
    requires StepExact(r, s) && |row| == |r.columns| && RowIdentity(r, row) == OldIdentity(r, s.change)
    ensures RowIdentity(r, Assigned(r, row, s.change, s.columns)) == NewIdentity(r, s.change)
  {
    var columns := KeyColumns(r);
    forall j | 0 <= j < |columns|
      ensures RowIdentity(r, Assigned(r, row, s.change, s.columns))[j] == NewIdentity(r, s.change)[j]
    {
      assert columns[j] in columns;
      assert RowIdentity(r, row)[j] == OldIdentity(r, s.change)[j];
    }
  }

  /** An update takes its row to its new identity and leaves the rows of all other identities alone. */
  lemma StepHolding(r: TargetRelation, s: SetStep, t: Table, id: seq<Datum>) returns (moved: Key)
    requires ValidTable(r, t) && StepExact(r, s) && id != OldIdentity(r, s.change)
    requires UpdateColumns(r, s.change, s.columns, t).Some?
    ensures
      var u := UpdateColumns(r, s.change, s.columns, t).value;
      && moved !in Holding(r, t, id)
      && Holding(r, u, id) == Holding(r, t, id) + (if id == NewIdentity(r, s.change) then {moved} else {})
      && forall k :: k in Holding(r, t, id) ==> u[k] == t[k]
  {
    hide UpdateOk, Storable, RowIdentity, OldIdentity, NewIdentity, StepExact, Assigned, RowPrimaryKey;
    var k := Only(Targets(r, s.change, t));
    RowFound(r, s.change, t, k);
    AssignedIdentity(r, s, t[k]);
    moved := RowPrimaryKey(r, Assigned(r, t[k], s.change, s.columns));
  }

  /** The first `n` updates of a run. */
  ghost function After(r: TargetRelation, steps: seq<SetStep>, n: nat, t: Table): Option<Table>
    requires n <= |steps|
  {
    StepsRun(r, steps[..n], Some(t))
  }

  lemma AfterNext(r: TargetRelation, steps: seq<SetStep>, n: nat, t: Table)
    requires n < |steps|
    ensures After(r, steps, n + 1, t) ==
      var before := After(r, steps, n, t);
      if before.None? then None else UpdateColumns(r, steps[n].change, steps[n].columns, before.value)
  {
    hide UpdateColumns;
    assert steps[..n + 1][..n] == steps[..n];
  }

  lemma AfterAll(r: TargetRelation, steps: seq<SetStep>, t: Table)
    ensures After(r, steps, |steps|, t) == StepsRun(r, steps, Some(t))
  {
    assert steps[..|steps|] == steps;
  }

  predicate AllExact(r: TargetRelation, steps: seq<SetStep>) {
    forall s :: s in steps ==> StepExact(r, s)
  }

  predicate OldsDistinct(r: TargetRelation, changes: seq<Change>) {
    forall i, j :: 0 <= i < j < |changes| ==> OldIdentity(r, changes[i]) != OldIdentity(r, changes[j])
  }

  /** No change starts from the identity to which an earlier one has moved its row. */
  predicate Unchained(r: TargetRelation, changes: seq<Change>) {
    forall i, j :: 0 <= i < j < |changes| ==> NewIdentity(r, changes[i]) != OldIdentity(r, changes[j])
  }

  function ChangesOf(steps: seq<SetStep>): (changes: seq<Change>)
    ensures |changes| == |steps| && forall i :: 0 <= i < |steps| ==> changes[i] == steps[i].change
  {
    seq(|steps|, i requires 0 <= i < |steps| => steps[i].change)
  }

  predicate Fresh(r: TargetRelation, steps: seq<SetStep>, n: nat, id: seq<Datum>)
    requires n <= |steps|
  {
    forall m :: 0 <= m < n ==> OldIdentity(r, steps[m].change) != id && NewIdentity(r, steps[m].change) != id
  }

  /** Rows of an identity no update starts from or arrives at stay as they are. */
  lemma {:induction false} FreshRowsStay(r: TargetRelation, steps: seq<SetStep>, n: nat, t: Table, id: seq<Datum>)
    requires StoredOk(r, t) && AllExact(r, steps) && n <= |steps| && Fresh(r, steps, n, id)
    requires After(r, steps, n, t).Some?
    ensures
      var u := After(r, steps, n, t).value;
      StoredOk(r, u) && Holding(r, u, id) == Holding(r, t, id) && forall k :: k in Holding(r, t, id) ==> u[k] == t[k]
    decreases n
  {
    hide After, StoredOk, UpdateColumns, StepExact, OldIdentity, NewIdentity;
    if n == 0 {
      assert After(r, steps, 0, t) == Some(t) by {
        AfterNone(r, steps, t);
      }
    } else {
      AfterNext(r, steps, n - 1, t);
      FreshRowsStay(r, steps, n - 1, t, id);
      var u := After(r, steps, n - 1, t).value;
      assert ValidTable(r, u) by {
        StoredIsValid(r, u);
      }
      assert steps[n - 1] in steps;
      hide Holding;
      var moved := StepHolding(r, steps[n - 1], u, id);
      UpdateKeepsStored(r, steps[n - 1], u);
    }
  }

  lemma AfterNone(r: TargetRelation, steps: seq<SetStep>, t: Table)
    ensures After(r, steps, 0, t) == Some(t)
  {
  }

  /** The rows of a change are the same in both tables. */
  ghost predicate SameRows(r: TargetRelation, c: Change, t: Table, u: Table) {
    forall k :: k in Targets(r, c, t) ==> k in u && u[k] == t[k]
  }

  /** Before its turn the row of an update is the one it had at the start. */
  lemma RowsStay(r: TargetRelation, steps: seq<SetStep>, n: nat, t: Table)
    requires StoredOk(r, t) && AllExact(r, steps) && n < |steps|
    requires OldsDistinct(r, ChangesOf(steps)) && Unchained(r, ChangesOf(steps)) && After(r, steps, n, t).Some?
    ensures
      var c, u := steps[n].change, After(r, steps, n, t).value;
      StoredOk(r, u) && Targets(r, c, u) == Targets(r, c, t) && SameRows(r, c, t, u)
  {
    hide After, StoredOk, StepExact, OldIdentity, NewIdentity, Holding;
    var changes := ChangesOf(steps);
    forall m | 0 <= m < n
      ensures OldIdentity(r, steps[m].change) != OldIdentity(r, steps[n].change)
      ensures NewIdentity(r, steps[m].change) != OldIdentity(r, steps[n].change)
    {
      assert changes[m] == steps[m].change && changes[n] == steps[n].change;
    }
    FreshRowsStay(r, steps, n, t, OldIdentity(r, steps[n].change));
    forall k | k in Targets(r, steps[n].change, t) ensures k in After(r, steps, n, t).value {
      RowFound(r, steps[n].change, After(r, steps, n, t).value, k);
    }
  }

  // --- Chains ---

  /** Rows of an identity no update starts from stay, even if others arrive. */
  lemma {:induction false} RowsOnlyArrive(r: TargetRelation, steps: seq<SetStep>, n: nat, t: Table, id: seq<Datum>)
    requires StoredOk(r, t) && AllExact(r, steps) && n <= |steps| && After(r, steps, n, t).Some?
    requires forall m :: 0 <= m < n ==> OldIdentity(r, steps[m].change) != id
    ensures
      var u := After(r, steps, n, t).value;
      StoredOk(r, u) && Holding(r, t, id) <= Holding(r, u, id)
    ensures forall m {:trigger steps[m]} :: 0 <= m < n && NewIdentity(r, steps[m].change) == id && Holding(r, t, id) != {} ==>
      |Holding(r, After(r, steps, n, t).value, id)| > 1
    decreases n
  {
    hide After, StoredOk, UpdateColumns, StepExact, OldIdentity, NewIdentity, Holding;
    if n == 0 {
      AfterNone(r, steps, t);
    } else {
      AfterNext(r, steps, n - 1, t);
      RowsOnlyArrive(r, steps, n - 1, t, id);
      var u := After(r, steps, n - 1, t).value;
      assert ValidTable(r, u) by {
        StoredIsValid(r, u);
      }
      assert steps[n - 1] in steps;
      var moved := StepHolding(r, steps[n - 1], u, id);
      UpdateKeepsStored(r, steps[n - 1], u);
      Arrivals(Holding(r, t, id), Holding(r, u, id), moved);
    }
  }

  lemma Arrivals(before: set<Key>, now: set<Key>, moved: Key)
    requires before <= now && moved !in now
    ensures |now + {moved}| == |now| + 1
    ensures before != {} ==> |now| > 0
  {
  }

  /** If the updates succeed in order although one starts where an earlier one arrived, then it had no row of
      its own at the start. */
  lemma ChainedHasNoRow(r: TargetRelation, steps: seq<SetStep>, i: nat, j: nat, t: Table)
    requires StoredOk(r, t) && AllExact(r, steps) && i < j < |steps| && OldsDistinct(r, ChangesOf(steps))
    requires NewIdentity(r, steps[i].change) == OldIdentity(r, steps[j].change) && StepsRun(r, steps, Some(t)).Some?
    ensures Targets(r, steps[j].change, t) == {}
  {
    hide StepExact, OldIdentity, NewIdentity, Holding, UpdateOk, Assigned, Storable, RowPrimaryKey, StoredOk;
    var changes, id := ChangesOf(steps), OldIdentity(r, steps[j].change);
    forall m | 0 <= m < j ensures OldIdentity(r, steps[m].change) != id {
      assert changes[m] == steps[m].change && changes[j] == steps[j].change;
    }
    PrefixSucceeds(r, steps, j, t);
    PrefixSucceeds(r, steps, j + 1, t);
    AfterNext(r, steps, j, t);
    hide After, StepsRun;
    RowsOnlyArrive(r, steps, j, t, id);
    assert steps[i] == steps[i];
  }

  lemma {:induction false} PrefixSucceeds(r: TargetRelation, steps: seq<SetStep>, n: nat, t: Table)
    requires n <= |steps| && StepsRun(r, steps, Some(t)).Some?
    ensures After(r, steps, n, t).Some?
  {
    hide UpdateColumns;
    assert steps == steps[..n] + steps[n..];
    StepsRunConcat(r, steps[..n], steps[n..], Some(t));
    if After(r, steps, n, t).None? {
      StepsFailed(r, steps[n..]);
    }
  }

  // --- At once ---

  ghost predicate RowsThere(r: TargetRelation, changes: seq<Change>, t: Table) {
    forall c :: c in changes ==> |Targets(r, c, t)| == 1
  }

  ghost predicate TargetsApart(r: TargetRelation, changes: seq<Change>, t: Table) {
    forall i, j :: 0 <= i < j < |changes| ==> Targets(r, changes[i], t) !! Targets(r, changes[j], t)
  }

  ghost function NewRow(r: TargetRelation, c: Change, columns: seq<nat>, t: Table): (row: Row)
    requires |Targets(r, c, t)| == 1
    ensures |row| == |r.columns|
  {
    RowFound(r, c, t, Only(Targets(r, c, t)));
    Assigned(r, t[Only(Targets(r, c, t))], c, columns)
  }

  ghost function NewRows(r: TargetRelation, changes: seq<Change>, columns: seq<nat>, t: Table): Table
    requires RowsThere(r, changes, t)
    decreases |changes|
  {
    if changes == [] then map[]
    else
      var init, last := changes[..|changes| - 1], changes[|changes| - 1];
      assert forall c :: c in init ==> c in changes;
      NewRows(r, init, columns, t)[Only(Targets(r, last, t)) := NewRow(r, last, columns, t)]
  }

  ghost predicate AllStorable(r: TargetRelation, changes: seq<Change>, columns: seq<nat>, t: Table)
    requires RowsThere(r, changes, t)
  {
    forall c :: c in changes ==> Storable(r, NewRow(r, c, columns, t))
  }

  predicate AllUpdatesOk(r: TargetRelation, changes: seq<Change>, columns: seq<nat>) {
    forall c :: c in changes ==> UpdateOk(r, c, columns)
  }

  /** UPDATE ... FROM a list of rows, setting columns outside unique indexes: every change must be joined with
      one row of its own, and all rows are found before any is changed. */
  ghost function UpdateAtOnce(r: TargetRelation, changes: seq<Change>, columns: seq<nat>, t: Table): Option<Table> {
    if AllUpdatesOk(r, changes, columns) && RowsThere(r, changes, t) && TargetsApart(r, changes, t)
       && AllStorable(r, changes, columns, t)
    then Some(t + NewRows(r, changes, columns, t)) else None
  }

  function StepsWith(changes: seq<Change>, columns: seq<nat>): (steps: seq<SetStep>)
    ensures |steps| == |changes| && forall i :: 0 <= i < |steps| ==> steps[i] == SetStep(changes[i], columns)
  {
    seq(|changes|, i requires 0 <= i < |changes| => SetStep(changes[i], columns))
  }

  lemma StepsWithChanges(changes: seq<Change>, columns: seq<nat>)
    ensures ChangesOf(StepsWith(changes, columns)) == changes
    ensures changes != [] ==>
      StepsWith(changes, columns)[..|changes| - 1] == StepsWith(changes[..|changes| - 1], columns)
  {
  }

  lemma {:induction false} NewRowsKeys(r: TargetRelation, changes: seq<Change>, columns: seq<nat>, t: Table)
    requires RowsThere(r, changes, t)
    ensures forall k :: k in NewRows(r, changes, columns, t) <==> exists c :: c in changes && k in Targets(r, c, t)
    decreases |changes|
  {
    hide Targets, NewRow;
    if changes != [] {
      var init, last := changes[..|changes| - 1], changes[|changes| - 1];
      assert forall c :: c in changes <==> c in init || c == last;
      NewRowsKeys(r, init, columns, t);
    }
  }

  lemma OneMoreUpdate(r: TargetRelation, changes: seq<Change>, columns: seq<nat>, t: Table)
    requires changes != []
    ensures
      var init, last := changes[..|changes| - 1], changes[|changes| - 1];
      && (AllUpdatesOk(r, changes, columns) <==> AllUpdatesOk(r, init, columns) && UpdateOk(r, last, columns))
      && (RowsThere(r, changes, t) <==> RowsThere(r, init, t) && |Targets(r, last, t)| == 1)
      && (RowsThere(r, changes, t) ==>
            (AllStorable(r, changes, columns, t)
             <==> AllStorable(r, init, columns, t) && Storable(r, NewRow(r, last, columns, t))))
  {
    hide UpdateOk, Targets, NewRow, Storable;
    var init, last := changes[..|changes| - 1], changes[|changes| - 1];
    assert forall c :: c in changes <==> c in init || c == last;
  }

  lemma DistinctApart(r: TargetRelation, changes: seq<Change>, t: Table)
    requires OldsDistinct(r, changes)
    ensures TargetsApart(r, changes, t)
  {
    hide OldIdentity, RowIdentity;
  }

  /** Outside unique indexes no row changes its primary key. */
  lemma KeyKept(r: TargetRelation, c: Change, columns: seq<nat>, row: Row)
    requires BatchSafe(r, columns) && |row| == |r.columns|
    ensures RowPrimaryKey(r, Assigned(r, row, c, columns)) == RowPrimaryKey(r, row)
  {
    var indexes := PrimaryIndexes(r);
    forall i | 0 <= i < |indexes|
      ensures RowPrimaryKey(r, Assigned(r, row, c, columns))[i] == RowPrimaryKey(r, row)[i]
    {
      assert indexes[i] in indexes;
    }
  }

  /** One more update, where its row is still the one of the start. */
  lemma LastUpdate(r: TargetRelation, c: Change, columns: seq<nat>, t: Table, u: Table)
    requires StoredOk(r, t) && BatchSafe(r, columns)
    requires Targets(r, c, u) == Targets(r, c, t) && SameRows(r, c, t, u)
    ensures UpdateColumns(r, c, columns, u)
            == if UpdateOk(r, c, columns) && |Targets(r, c, t)| == 1 && Storable(r, NewRow(r, c, columns, t))
               then Some(u[Only(Targets(r, c, t)) := NewRow(r, c, columns, t)]) else None
  {
    hide UpdateOk, Storable, Targets, Assigned, RowPrimaryKey;
    if |Targets(r, c, t)| == 1 {
      var k := Only(Targets(r, c, t));
      RowFound(r, c, t, k);
      KeyKept(r, c, columns, t[k]);
      assert (u - {k})[k := NewRow(r, c, columns, t)] == u[k := NewRow(r, c, columns, t)];
    }
  }

  lemma StepsWithExact(r: TargetRelation, changes: seq<Change>, columns: seq<nat>)
    requires AllExact(r, StepsWith(changes, columns)) && changes != []
    ensures AllExact(r, StepsWith(changes[..|changes| - 1], columns))
  {
    hide StepExact;
    StepsWithChanges(changes, columns);
    var steps := StepsWith(changes, columns);
    assert forall s :: s in steps[..|steps| - 1] ==> s in steps;
  }

  lemma ShorterUnchained(r: TargetRelation, changes: seq<Change>)
    requires changes != [] && OldsDistinct(r, changes) && Unchained(r, changes)
    ensures OldsDistinct(r, changes[..|changes| - 1]) && Unchained(r, changes[..|changes| - 1])
  {
    hide OldIdentity, NewIdentity;
  }

  /** One more update in one statement. */
  lemma AtOnceNext(r: TargetRelation, changes: seq<Change>, columns: seq<nat>, t: Table)
    requires changes != [] && OldsDistinct(r, changes)
    ensures
      var init, last := changes[..|changes| - 1], changes[|changes| - 1];
      var before := UpdateAtOnce(r, init, columns, t);
      UpdateAtOnce(r, changes, columns, t)
      == if before.Some? && UpdateOk(r, last, columns) && |Targets(r, last, t)| == 1
            && Storable(r, NewRow(r, last, columns, t))
         then Some(before.value[Only(Targets(r, last, t)) := NewRow(r, last, columns, t)]) else None
  {
    hide UpdateOk, Targets, Storable, NewRow, OldsDistinct, TargetsApart, AllStorable, AllUpdatesOk, RowsThere;
    var init, last := changes[..|changes| - 1], changes[|changes| - 1];
    OneMoreUpdate(r, changes, columns, t);
    ShorterDistinct(r, changes);
    DistinctApart(r, init, t);
    DistinctApart(r, changes, t);
    if RowsThere(r, changes, t) {
      AddedNewRow(t, NewRows(r, init, columns, t), Only(Targets(r, last, t)), NewRow(r, last, columns, t));
    }
  }

  lemma AddedNewRow(t: Table, rows: Table, k: Key, row: Row)
    ensures (t + rows)[k := row] == t + rows[k := row]
  {
  }

  lemma ShorterDistinct(r: TargetRelation, changes: seq<Change>)
    requires changes != [] && OldsDistinct(r, changes)
    ensures OldsDistinct(r, changes[..|changes| - 1])
  {
    hide OldIdentity;
  }

  lemma NothingAtOnce(r: TargetRelation, columns: seq<nat>, t: Table)
    ensures UpdateAtOnce(r, [], columns, t) == Some(t)
  {
    assert t + map[] == t;
  }

  /** Unchained updates of columns outside unique indexes do the same at once as in order. */
  lemma {:induction false} AtOnceInOrder(r: TargetRelation, changes: seq<Change>, columns: seq<nat>, t: Table)
    requires StoredOk(r, t) && BatchSafe(r, columns) && AllExact(r, StepsWith(changes, columns))
    requires OldsDistinct(r, changes) && Unchained(r, changes)
    ensures UpdateAtOnce(r, changes, columns, t) == StepsRun(r, StepsWith(changes, columns), Some(t))
    decreases |changes|
  {
    hide StoredOk, UpdateColumns, UpdateOk, Targets, Storable, BatchSafe, NewRow, UpdateAtOnce;
    hide AllExact, OldsDistinct, Unchained, SameRows;
    if changes == [] {
      NothingAtOnce(r, columns, t);
    } else {
      var n := |changes| - 1;
      var init, last, steps := changes[..n], changes[n], StepsWith(changes, columns);
      StepsWithChanges(changes, columns);
      StepsWithExact(r, changes, columns);
      ShorterUnchained(r, changes);
      AtOnceInOrder(r, init, columns, t);
      AtOnceNext(r, changes, columns, t);
      if UpdateAtOnce(r, init, columns, t).Some? {
        RowsStay(r, steps, n, t);
        LastUpdate(r, last, columns, t, UpdateAtOnce(r, init, columns, t).value);
      }
    }
  }
}
