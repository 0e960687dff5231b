/** Updates that first look at all their rows and then set only the columns that differ, and the exact
    condition under which they, and plain UPDATE ... FROM, do what the updates do one by one
    (applySelectiveUpdateChunk, applyUpdateChunk, internal/cdc/applier.go:3658-3716, 4403-4433). */
module SelectiveUpdates {
  import opened Wrappers
  import opened Model
  import opened Catalog
  import opened Target
  import opened SetDml
  import opened UpdateDml
  import opened UpdateRuns
  import opened TupleKeys

  // --- One statement for all ---

  lemma FullStepsExact(r: TargetRelation, changes: seq<Change>)
    ensures AllExact(r, FullSteps(r, changes))
    ensures ChangesOf(FullSteps(r, changes)) == changes
  {
    hide SetColumns, IsSet;
  }

  predicate AllSet(r: TargetRelation, changes: seq<Change>, columns: seq<nat>) {
    forall c :: c in changes ==> SetColumns(r, c) == columns
  }

  lemma AllSetSteps(r: TargetRelation, changes: seq<Change>, columns: seq<nat>)
    requires AllSet(r, changes, columns)
    ensures FullSteps(r, changes) == StepsWith(changes, columns)
  {
    hide SetColumns;
  }

  lemma NoRowNotThere(r: TargetRelation, changes: seq<Change>, j: nat, t: Table)
    requires j < |changes| && Targets(r, changes[j], t) == {}
    ensures !RowsThere(r, changes, t)
  {
    hide Targets;
    assert changes[j] in changes;
  }

  /** Updates that succeed in order, one starting where an earlier one arrived, do not all have rows at the
      start. */
  lemma ChainedNotThere(r: TargetRelation, changes: seq<Change>, t: Table)
    requires StoredOk(r, t) && OldsDistinct(r, changes) && !Unchained(r, changes)
    requires StepsRun(r, FullSteps(r, changes), Some(t)).Some?
    ensures !RowsThere(r, changes, t)
  {
    hide StoredOk, OldsDistinct, StepsRun, Targets, OldIdentity, NewIdentity, RowsThere, AllExact;
    var i: nat, j: nat :| i < j < |changes| && NewIdentity(r, changes[i]) == OldIdentity(r, changes[j]);
    FullStepsExact(r, changes);
    ChainedHasNoRow(r, FullSteps(r, changes), i, j, t);
    NoRowNotThere(r, changes, j, t);
  }

  /** One UPDATE ... FROM does what its changes do in order if none starts from where an earlier one has
      moved its row; if one does and the changes succeed in order, the statement fails. */
  lemma UpdatesMatchIff(r: TargetRelation, changes: seq<Change>, columns: seq<nat>, t: Table)
    requires IdentityBatchable(r) && StoredOk(r, t) && AllLegacy(r, changes)
    requires OldsDistinct(r, changes) && AllSet(r, changes, columns) && BatchSafe(r, columns)
    ensures Agrees(Unchained(r, changes), UpdateAtOnce(r, changes, columns, t), TableRun(r, changes, Some(t)))
  {
    hide IdentityBatchable, StoredOk, AllLegacy, OldsDistinct, AllSet, BatchSafe, Unchained, TableRun, StepsRun, RowsThere;
    hide AllExact;
    FullStepsRun(r, changes, t);
    FullStepsExact(r, changes);
    AllSetSteps(r, changes, columns);
    if Unchained(r, changes) {
      AtOnceInOrder(r, changes, columns, t);
    } else if TableRun(r, changes, Some(t)).Some? {
      ChainedNotThere(r, changes, t);
    }
  }

  // --- Looking first ---

  /** The columns to set in which the row differs. */
  function Differing(r: TargetRelation, c: Change, row: Row, columns: seq<nat>): (mask: seq<nat>)
    requires |row| == |r.columns| && forall i :: i in columns ==> i < |r.columns|
    ensures forall i :: i in mask <==> i in columns && row[i] != NewCell(r, c, i)
  {
    if columns == [] then []
    else
      assert columns[0] in columns && forall i :: i in columns[1..] ==> i in columns;
      (if row[columns[0]] != NewCell(r, c, columns[0]) then [columns[0]] else []) + Differing(r, c, row, columns[1..])
  }

  ghost function MaskStep(r: TargetRelation, c: Change, t: Table): SetStep
    requires |Targets(r, c, t)| == 1
  {
    RowFound(r, c, t, Only(Targets(r, c, t)));
    SetStep(c, Differing(r, c, t[Only(Targets(r, c, t))], SetColumns(r, c)))
  }

  /** Every change with the columns in which its stored row differs. */
  ghost function MaskSteps(r: TargetRelation, changes: seq<Change>, t: Table): (steps: seq<SetStep>)
    requires RowsThere(r, changes, t)
    ensures |steps| == |changes| && forall i :: 0 <= i < |steps| ==> steps[i] == MaskStep(r, changes[i], t)
  {
    seq(|changes|, i requires 0 <= i < |changes| => MaskStep(r, changes[i], t))
  }

  predicate AllBound(r: TargetRelation, changes: seq<Change>) {
    forall c :: c in changes ==> UpdateOk(r, c, SetColumns(r, c))
  }

  // --- Groups of equal columns ---

  /** Updates of the same columns, sent together. */
  datatype Group = Group(columns: seq<nat>, changes: seq<Change>)

  predicate NewIn(r: TargetRelation, steps: seq<SetStep>, n: nat)
    requires n < |steps|
  {
    forall m :: 0 <= m < n ==> OldIdentity(r, steps[m].change) != OldIdentity(r, steps[n].change)
  }

  /** How far a group that has `n` updates goes. */
  function GroupFrom(r: TargetRelation, steps: seq<SetStep>, n: nat): (end: nat)
    requires 0 < n <= |steps|
    ensures n <= end <= |steps| && forall m :: n <= m < end ==> steps[m].columns == steps[0].columns
    decreases |steps| - n
  {
    if n < |steps| && n < CHUNK_ROWS && steps[n].columns == steps[0].columns && NewIn(r, steps, n)
    then GroupFrom(r, steps, n + 1) else n
  }

  function GroupLength(r: TargetRelation, steps: seq<SetStep>): (n: nat)
    requires steps != []
    ensures 0 < n <= |steps| && forall m :: 0 <= m < n ==> steps[m].columns == steps[0].columns
    ensures n > 1 ==> BatchSafe(r, steps[0].columns)
  {
    if !BatchSafe(r, steps[0].columns) then 1 else GroupFrom(r, steps, 1)
  }

  /** The next update cannot join the first `n`. */
  predicate GroupEnds(r: TargetRelation, steps: seq<SetStep>, n: nat)
    requires 0 < n <= |steps|
  {
    n == |steps| || n == CHUNK_ROWS || steps[n].columns != steps[0].columns || !NewIn(r, steps, n)
  }

  lemma {:induction false} GroupFromEnds(r: TargetRelation, steps: seq<SetStep>, n: nat)
    requires 0 < n <= |steps| && n <= CHUNK_ROWS
    ensures GroupFrom(r, steps, n) <= CHUNK_ROWS && GroupEnds(r, steps, GroupFrom(r, steps, n))
    ensures forall m :: n <= m < GroupFrom(r, steps, n) ==> NewIn(r, steps, m)
    decreases |steps| - n
  {
    hide NewIn;
    if n < |steps| && n < CHUNK_ROWS && steps[n].columns == steps[0].columns && NewIn(r, steps, n) {
      GroupFromEnds(r, steps, n + 1);
    }
  }

  /** A group is as long as it can be: updates of the same columns and pairwise different rows, within the limit
      of a statement; an update that sets a column of a unique index is a group of its own. */
  lemma GroupLongest(r: TargetRelation, steps: seq<SetStep>)
    requires steps != []
    ensures
      var n := GroupLength(r, steps);
      && n <= CHUNK_ROWS && (forall m :: 0 < m < n ==> steps[m].columns == steps[0].columns && NewIn(r, steps, m))
      && if BatchSafe(r, steps[0].columns) then GroupEnds(r, steps, n) else n == 1
  {
    hide NewIn, GroupFrom, GroupEnds, BatchSafe;
    GroupFromEnds(r, steps, 1);
  }

  /** Updates that change nothing are skipped, the others grouped by their columns. */
  function Groups(r: TargetRelation, steps: seq<SetStep>): seq<Group>
    decreases |steps|
  {
    if steps == [] then []
    else if steps[0].columns == [] then Groups(r, steps[1..])
    else
      var n := GroupLength(r, steps);
      [Group(steps[0].columns, ChangesOf(steps[..n]))] + Groups(r, steps[n..])
  }

  function UpdateKey(r: TargetRelation, c: Change): Bytes {
    KeyText(IDENTITY_LEAD, OldIdentity(r, c))
  }

  lemma NewKeys(r: TargetRelation, steps: seq<SetStep>, n: nat, seen: set<Bytes>)
    requires n < |steps| && seen == set m | 0 <= m < n :: UpdateKey(r, steps[m].change)
    ensures NewIn(r, steps, n) <==> UpdateKey(r, steps[n].change) !in seen
  {
    hide KeyText, OldIdentity;
    forall m | 0 <= m < n
      ensures OldIdentity(r, steps[m].change) == OldIdentity(r, steps[n].change)
              <==> UpdateKey(r, steps[m].change) == UpdateKey(r, steps[n].change)
    {
      KeyTextIdentifies(IDENTITY_LEAD, OldIdentity(r, steps[m].change), OldIdentity(r, steps[n].change));
    }
  }

  /** Where the group that begins at `start` ends. */
  method GroupEnd(r: TargetRelation, steps: seq<SetStep>, start: nat) returns (end: nat)
    requires start < |steps|
    ensures start < end <= |steps| && end - start == GroupLength(r, steps[start..])
  {
    hide KeyText, OldIdentity, NewIn;
    var columns := steps[start].columns;
    ghost var rest := steps[start..];
    end := start + 1;
    if !BatchSafe(r, columns) {
      return;
    }
    var seen := {UpdateKey(r, steps[start].change)};
    assert rest[0] == steps[start];
    while end < |steps| && end - start < CHUNK_ROWS && steps[end].columns == columns
      invariant start < end <= |steps|
      invariant seen == set m | 0 <= m < end - start :: UpdateKey(r, rest[m].change)
      invariant GroupFrom(r, rest, end - start) == GroupLength(r, rest)
    {
      var key := UpdateKey(r, steps[end].change);
      assert rest[end - start] == steps[end];
      NewKeys(r, rest, end - start, seen);
      if key in seen {
        return;
      }
      seen := seen + {key};
      end := end + 1;
    }
  }

  lemma FirstGroup(r: TargetRelation, steps: seq<SetStep>, start: nat)
    requires start < |steps|
    ensures
      var n := GroupLength(r, steps[start..]);
      Groups(r, steps[start..]) ==
        if steps[start].columns == [] then Groups(r, steps[start + 1..])
        else [Group(steps[start].columns, ChangesOf(steps[start..start + n]))] + Groups(r, steps[start + n..])
  {
    hide GroupLength;
    var rest, n := steps[start..], GroupLength(r, steps[start..]);
    assert rest[..n] == steps[start..start + n] && rest[n..] == steps[start + n..] && rest[1..] == steps[start + 1..];
  }

  lemma NoGroups(r: TargetRelation)
    ensures Groups(r, []) == []
  {
  }

  /** applySelectiveUpdateChunk, once the differing columns are known. */
  method CutGroups(r: TargetRelation, steps: seq<SetStep>) returns (groups: seq<Group>)
    ensures groups == Groups(r, steps)
  {
    hide GroupLength, Groups;
    groups := [];
    var start := 0;
    assert steps[0..] == steps;
    while start < |steps|
      invariant start <= |steps| && groups + Groups(r, steps[start..]) == Groups(r, steps)
    {
      var end := start + 1;
      FirstGroup(r, steps, start);
      if steps[start].columns != [] {
        end := GroupEnd(r, steps, start);
        groups := groups + [Group(steps[start].columns, ChangesOf(steps[start..end]))];
      }
      start := end;
    }
    assert Groups(r, []) == [] && steps[|steps|..] == [] by {
      NoGroups(r);
    }
  }

  ghost function RunGroup(r: TargetRelation, g: Group, t: Table): Option<Table> {
    if |g.changes| == 1 then UpdateColumns(r, g.changes[0], g.columns, t) else UpdateAtOnce(r, g.changes, g.columns, t)
  }

  ghost function RunGroups(r: TargetRelation, groups: seq<Group>, t: Option<Table>): Option<Table>
    decreases |groups|
  {
    if t.None? || groups == [] then t else RunGroups(r, groups[1..], RunGroup(r, groups[0], t.value))
  }

  /** All changes are looked up, and only then the columns that differ are set, group by group. */
  ghost function SelectiveUpdate(r: TargetRelation, changes: seq<Change>, t: Table): Option<Table> {
    if AllBound(r, changes) && RowsThere(r, changes, t)
    then RunGroups(r, Groups(r, MaskSteps(r, changes, t)), Some(t)) else None
  }

  // --- Groups are their updates in order ---

  /** Every update can be bound and has its row. */
  ghost predicate Ready(r: TargetRelation, steps: seq<SetStep>, t: Table) {
    forall s :: s in steps ==> UpdateOk(r, s.change, s.columns) && |Targets(r, s.change, t)| == 1
  }

  predicate Independent(r: TargetRelation, steps: seq<SetStep>) {
    AllExact(r, steps) && OldsDistinct(r, ChangesOf(steps)) && Unchained(r, ChangesOf(steps))
  }

  lemma IndependentSplit(r: TargetRelation, steps: seq<SetStep>, n: nat)
    requires Independent(r, steps) && n <= |steps|
    ensures Independent(r, steps[..n]) && Independent(r, steps[n..])
  {
    hide StepExact, OldIdentity, NewIdentity;
    assert forall s :: s in steps[..n] || s in steps[n..] ==> s in steps;
    var all, front, back := ChangesOf(steps), ChangesOf(steps[..n]), ChangesOf(steps[n..]);
    assert front == all[..n] && back == all[n..];
  }

  lemma StillReady(r: TargetRelation, steps: seq<SetStep>, n: nat, t: Table)
    requires StoredOk(r, t) && Independent(r, steps) && n <= |steps| && Ready(r, steps, t)
    requires StepsRun(r, steps[..n], Some(t)).Some?
    ensures
      var u := StepsRun(r, steps[..n], Some(t)).value;
      StoredOk(r, u) && Ready(r, steps[n..], u)
  {
    hide StoredOk, UpdateOk, StepExact, OldIdentity, NewIdentity, Holding, StepsRun;
    var u := After(r, steps, n, t).value;
    StepsKeepStored(r, steps[..n], t);
    forall s | s in steps[n..] ensures UpdateOk(r, s.change, s.columns) && |Targets(r, s.change, u)| == 1 {
      var m :| 0 <= m < |steps[n..]| && steps[n..][m] == s;
      assert steps[n + m] == s && s in steps;
      LaterFresh(r, steps, n, n + m);
      FreshRowsStay(r, steps, n, t, OldIdentity(r, s.change));
    }
  }

  lemma LaterFresh(r: TargetRelation, steps: seq<SetStep>, n: nat, m: nat)
    requires Independent(r, steps) && n <= m < |steps|
    ensures Fresh(r, steps, n, OldIdentity(r, steps[m].change))
  {
    hide StepExact, OldIdentity, NewIdentity;
    var changes := ChangesOf(steps);
    forall i | 0 <= i < n
      ensures OldIdentity(r, steps[i].change) != OldIdentity(r, steps[m].change)
      ensures NewIdentity(r, steps[i].change) != OldIdentity(r, steps[m].change)
    {
      assert changes[i] == steps[i].change && changes[m] == steps[m].change;
    }
  }

  /** An update that sets nothing changes nothing. */
  lemma NothingSet(r: TargetRelation, c: Change, t: Table)
    requires StoredOk(r, t) && UpdateOk(r, c, []) && |Targets(r, c, t)| == 1
    ensures UpdateColumns(r, c, [], t) == Some(t)
  {
    hide UpdateOk;
    var k := Only(Targets(r, c, t));
    RowFound(r, c, t, k);
    assert Assigned(r, t[k], c, []) == t[k];
    assert (t - {k})[k := t[k]] == t;
  }

  lemma GroupInOrder(r: TargetRelation, steps: seq<SetStep>, n: nat, t: Table)
    requires StoredOk(r, t) && Independent(r, steps) && steps != [] && n == GroupLength(r, steps)
    ensures RunGroup(r, Group(steps[0].columns, ChangesOf(steps[..n])), t) == StepsRun(r, steps[..n], Some(t))
  {
    hide StoredOk, UpdateColumns, UpdateAtOnce, StepExact, StepsRun, OldIdentity, NewIdentity, BatchSafe, GroupLength;
    var group, columns := steps[..n], steps[0].columns;
    IndependentSplit(r, steps, n);
    if n == 1 {
      assert group == [steps[0]];
      OneStep(r, steps[0], Some(t));
    } else {
      assert StepsWith(ChangesOf(group), columns) == group;
      AtOnceInOrder(r, ChangesOf(group), columns, t);
    }
  }

  lemma {:induction false} GroupsInOrder(r: TargetRelation, steps: seq<SetStep>, t: Table)
    requires StoredOk(r, t) && Independent(r, steps) && Ready(r, steps, t)
    ensures RunGroups(r, Groups(r, steps), Some(t)) == StepsRun(r, steps, Some(t))
    decreases |steps|
  {
    hide StoredOk, Independent, Ready, RunGroup, UpdateColumns, GroupLength, StepsRun;
    if steps == [] {
      assert StepsRun(r, steps, Some(t)) == Some(t) by {
        NoSteps(r, t);
      }
    } else {
      var n := if steps[0].columns == [] then 1 else GroupLength(r, steps);
      assert steps == steps[..n] + steps[n..];
      StepsRunConcat(r, steps[..n], steps[n..], Some(t));
      IndependentSplit(r, steps, n);
      if steps[0].columns == [] {
        assert steps[..1] == [steps[0]];
        FirstReady(r, steps, t);
        OneStep(r, steps[0], Some(t));
        NothingSet(r, steps[0].change, t);
      } else {
        GroupInOrder(r, steps, n, t);
      }
      var u := StepsRun(r, steps[..n], Some(t));
      if u.Some? {
        StillReady(r, steps, n, t);
        GroupsInOrder(r, steps[n..], u.value);
      } else {
        StepsFailed(r, steps[n..]);
      }
    }
  }

  lemma NoSteps(r: TargetRelation, t: Table)
    ensures StepsRun(r, [], Some(t)) == Some(t)
  {
  }

  lemma FirstReady(r: TargetRelation, steps: seq<SetStep>, t: Table)
    requires Ready(r, steps, t) && steps != []
    ensures UpdateOk(r, steps[0].change, steps[0].columns) && |Targets(r, steps[0].change, t)| == 1
  {
    hide UpdateOk, Targets;
    assert steps[0] in steps;
  }

  // --- Setting what differs is setting everything ---

  lemma DifferingSuffices(r: TargetRelation, c: Change, row: Row)
    requires |row| == |r.columns|
    ensures
      Assigned(r, row, c, Differing(r, c, row, SetColumns(r, c))) == Assigned(r, row, c, SetColumns(r, c))
  {
    hide SetColumns;
  }

  lemma MaskBound(r: TargetRelation, c: Change, t: Table)
    requires |Targets(r, c, t)| == 1 && UpdateOk(r, c, SetColumns(r, c))
    ensures UpdateOk(r, c, MaskStep(r, c, t).columns)
  {
    hide SetColumns, PredicateOk;
  }

  /** A change whose row agrees in an identity column it sets does not set that column. */
  lemma MaskExact(r: TargetRelation, c: Change, t: Table)
    requires |Targets(r, c, t)| == 1
    ensures StepExact(r, MaskStep(r, c, t))
  {
    var k := Only(Targets(r, c, t));
    RowFound(r, c, t, k);
    var columns := KeyColumns(r);
    forall i: nat | i < |r.columns| && r.columns[i].key ensures t[k][i] == OldCell(r, c, i) {
      assert i in columns;
      var j :| 0 <= j < |columns| && columns[j] == i;
      assert RowIdentity(r, t[k])[j] == OldIdentity(r, c)[j];
    }
  }

  lemma MaskStepAlike(r: TargetRelation, c: Change, t: Table, u: Table)
    requires |Targets(r, c, t)| == 1 && UpdateOk(r, c, SetColumns(r, c))
    requires Targets(r, c, u) == Targets(r, c, t) && SameRows(r, c, t, u)
    ensures UpdateColumns(r, c, MaskStep(r, c, t).columns, u) == UpdateColumns(r, c, SetColumns(r, c), u)
  {
    MaskBound(r, c, t);
    hide UpdateOk, Storable, Targets, Assigned, RowPrimaryKey, SetColumns;
    var k := Only(Targets(r, c, t));
    RowFound(r, c, t, k);
    DifferingSuffices(r, c, t[k]);
  }

  lemma MaskStepsOk(r: TargetRelation, changes: seq<Change>, t: Table)
    requires RowsThere(r, changes, t) && AllBound(r, changes) && OldsDistinct(r, changes) && Unchained(r, changes)
    ensures
      var steps := MaskSteps(r, changes, t);
      ChangesOf(steps) == changes && Independent(r, steps) && Ready(r, steps, t)
  {
    hide StepExact, OldsDistinct, Unchained, SetColumns, UpdateOk, Targets, Differing;
    var steps := MaskSteps(r, changes, t);
    assert ChangesOf(steps) == changes;
    forall s | s in steps ensures StepExact(r, s) && UpdateOk(r, s.change, s.columns) && |Targets(r, s.change, t)| == 1 {
      var i :| 0 <= i < |steps| && steps[i] == s;
      assert changes[i] in changes;
      MaskExact(r, changes[i], t);
      MaskBound(r, changes[i], t);
    }
  }

  lemma {:induction false} MasksInOrder(r: TargetRelation, changes: seq<Change>, t: Table, n: nat)
    requires StoredOk(r, t) && RowsThere(r, changes, t) && AllBound(r, changes)
    requires OldsDistinct(r, changes) && Unchained(r, changes) && n <= |changes|
    ensures After(r, MaskSteps(r, changes, t), n, t) == After(r, FullSteps(r, changes), n, t)
    decreases n
  {
    hide StoredOk, AllBound, OldsDistinct, Unchained, After, UpdateColumns, UpdateOk, Targets, SetColumns, AllExact, SameRows;
    var masked, full := MaskSteps(r, changes, t), FullSteps(r, changes);
    if n == 0 {
      AfterNone(r, masked, t);
      AfterNone(r, full, t);
    } else {
      MasksInOrder(r, changes, t, n - 1);
      AfterNext(r, masked, n - 1, t);
      AfterNext(r, full, n - 1, t);
      FullStepsExact(r, changes);
      var u := After(r, full, n - 1, t);
      if u.Some? {
        RowsStay(r, full, n - 1, t);
        BoundAt(r, changes, n - 1);
        MaskStepAlike(r, changes[n - 1], t, u.value);
      }
    }
  }

  lemma BoundAt(r: TargetRelation, changes: seq<Change>, n: nat)
    requires AllBound(r, changes) && n < |changes|
    ensures UpdateOk(r, changes[n], SetColumns(r, changes[n]))
  {
    hide UpdateOk, SetColumns;
  }

  /** Unchained updates that succeed in order can all be bound and have rows at the start. */
  lemma SucceedingAreThere(r: TargetRelation, changes: seq<Change>, t: Table)
    requires StoredOk(r, t) && OldsDistinct(r, changes) && Unchained(r, changes)
    requires StepsRun(r, FullSteps(r, changes), Some(t)).Some?
    ensures AllBound(r, changes) && RowsThere(r, changes, t)
  {
    hide StoredOk, OldsDistinct, Unchained, StepsRun, UpdateOk, Targets, SetColumns, AllExact, After, SameRows, Storable;
    hide Assigned, RowPrimaryKey;
    var steps := FullSteps(r, changes);
    FullStepsExact(r, changes);
    forall c | c in changes ensures UpdateOk(r, c, SetColumns(r, c)) && |Targets(r, c, t)| == 1 {
      var n :| 0 <= n < |changes| && changes[n] == c;
      PrefixSucceeds(r, steps, n, t);
      PrefixSucceeds(r, steps, n + 1, t);
      AfterNext(r, steps, n, t);
      RowsStay(r, steps, n, t);
    }
  }

  /** Looking first and setting what differs does what the changes do in order if none starts from where an
      earlier one has moved its row; if one does and the changes succeed in order, the look fails. */
  lemma SelectiveMatchesIff(r: TargetRelation, changes: seq<Change>, t: Table)
    requires IdentityBatchable(r) && StoredOk(r, t) && AllLegacy(r, changes) && OldsDistinct(r, changes)
    ensures Agrees(Unchained(r, changes), SelectiveUpdate(r, changes, t), TableRun(r, changes, Some(t)))
  {
    hide IdentityBatchable, StoredOk, AllLegacy, OldsDistinct, Unchained, TableRun, StepsRun, RowsThere, AllBound;
    hide RunGroups, Groups, Independent, Ready;
    FullStepsRun(r, changes, t);
    if !Unchained(r, changes) {
      if TableRun(r, changes, Some(t)).Some? {
        ChainedNotThere(r, changes, t);
      }
    } else if AllBound(r, changes) && RowsThere(r, changes, t) {
      MaskStepsOk(r, changes, t);
      GroupsInOrder(r, MaskSteps(r, changes, t), t);
      MasksInOrder(r, changes, t, |changes|);
      AfterAll(r, MaskSteps(r, changes, t), t);
      AfterAll(r, FullSteps(r, changes), t);
    } else if TableRun(r, changes, Some(t)).Some? {
      SucceedingAreThere(r, changes, t);
    }
  }
}
