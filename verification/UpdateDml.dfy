/** Updates that are no upserts: the identity an update starts from and arrives at, the columns it sets, and
    what setting some columns of the row with its identity does (updateSetColumnIndexes,
    updateSetColumnsBatchSafe and applyUpdate, internal/cdc/applier.go:4217-4250, 4723-4774). */
module UpdateDml {
  import opened Wrappers
  import opened Model
  import opened Catalog
  import opened Target
  import opened SetDml

  /** A column of a unique or exclusion index. */
  predicate Conflicting(column: TargetColumn) {
    column.primary || column.uniqueIndexed
  }

  function NewCell(r: TargetRelation, c: Change, i: nat): Datum
    requires i < |r.columns|
  {
    Cell(if c.newTuple.Some? then c.newTuple.value else [], r.columns[i].sourceIndex)
  }

  function OldCell(r: TargetRelation, c: Change, i: nat): Datum
    requires i < |r.columns|
  {
    Cell(if UpdatePredicate(c).Some? then UpdatePredicate(c).value else [], r.columns[i].sourceIndex)
  }

  // --- The columns an update sets ---

  /** Not an unchanged TOAST value, and not an unchanged value of the replica identity. */
  predicate IsSet(r: TargetRelation, c: Change, i: nat)
    requires i < |r.columns|
  {
    NewCell(r, c, i).kind != DatumUnchangedToast && !(r.columns[i].key && NewCell(r, c, i) == OldCell(r, c, i))
  }

  function SetColumnsUpTo(r: TargetRelation, c: Change, n: nat): (columns: seq<nat>)
    requires n <= |r.columns|
    ensures forall i: nat :: i in columns <==> i < n && IsSet(r, c, i)
  {
    if n == 0 then [] else SetColumnsUpTo(r, c, n - 1) + if IsSet(r, c, n - 1) then [n - 1] else []
  }

  function SetColumns(r: TargetRelation, c: Change): (columns: seq<nat>)
    ensures forall i: nat :: i in columns <==> i < |r.columns| && IsSet(r, c, i)
  {
    SetColumnsUpTo(r, c, |r.columns|)
  }

  predicate BatchSafe(r: TargetRelation, columns: seq<nat>) {
    forall i :: i in columns ==> i < |r.columns| && !Conflicting(r.columns[i])
  }

  function Assigned(r: TargetRelation, row: Row, c: Change, columns: seq<nat>): (after: Row)
    requires |row| == |r.columns|
    ensures |after| == |row|
  {
    seq(|row|, i requires 0 <= i < |row| => if i in columns then NewCell(r, c, i) else row[i])
  }

  // --- Rows by replica identity ---

  function OldIdentity(r: TargetRelation, c: Change): (identity: seq<Datum>)
    ensures |identity| == |KeyColumns(r)|
  {
    var columns := KeyColumns(r);
    assert forall i :: 0 <= i < |columns| ==> columns[i] in columns;
    seq(|columns|, i requires 0 <= i < |columns| => OldCell(r, c, columns[i]))
  }

  /** The identity a row has once the update is applied to it. */
  function NewIdentity(r: TargetRelation, c: Change): (identity: seq<Datum>)
    ensures |identity| == |KeyColumns(r)|
  {
    var columns := KeyColumns(r);
    assert forall i :: 0 <= i < |columns| ==> columns[i] in columns;
    seq(|columns|, i requires 0 <= i < |columns| =>
      if NewCell(r, c, columns[i]).kind == DatumUnchangedToast then OldCell(r, c, columns[i])
      else NewCell(r, c, columns[i]))
  }

  function RowIdentity(r: TargetRelation, row: Row): (identity: seq<Datum>)
    requires |row| == |r.columns|
    ensures |identity| == |KeyColumns(r)|
  {
    var columns := KeyColumns(r);
    assert forall i :: 0 <= i < |columns| ==> columns[i] in columns;
    seq(|columns|, i requires 0 <= i < |columns| => row[columns[i]])
  }

  ghost function Holding(r: TargetRelation, t: Table, identity: seq<Datum>): set<Key> {
    set k | k in t && |t[k]| == |r.columns| && RowIdentity(r, t[k]) == identity
  }

  ghost function Targets(r: TargetRelation, c: Change, t: Table): set<Key> {
    Holding(r, t, OldIdentity(r, c))
  }

  ghost function Only(keys: set<Key>): (k: Key)
    requires |keys| == 1
    ensures keys == {k}
  {
    var k :| k in keys;
    OnlyOne(keys, k);
    k
  }

  lemma OnlyOne(keys: set<Key>, k: Key)
    requires |keys| == 1 && k in keys
    ensures keys == {k}
  {
    assert |keys - {k}| == 0;
  }

  // --- One update of some columns ---

  /** The values to set and the identity to look for can be bound. */
  predicate UpdateOk(r: TargetRelation, c: Change, columns: seq<nat>) {
    && ValidTuple(r, c.newTuple) && ValidTuple(r, UpdatePredicate(c)) && PredicateOk(r, UpdatePredicate(c).value)
    && forall i: nat :: i in columns && i < |r.columns| ==> ParamOk(r, r.columns[i], NewCell(r, c, i))
  }

  /** UPDATE ... SET columns WHERE identity: exactly one row must be affected. */
  ghost function UpdateColumns(r: TargetRelation, c: Change, columns: seq<nat>, t: Table): Option<Table> {
    if !UpdateOk(r, c, columns) || |Targets(r, c, t)| != 1 then None
    else
      var k := Only(Targets(r, c, t));
      var row := Assigned(r, t[k], c, columns);
      var moved := RowPrimaryKey(r, row);
      if !Storable(r, row) || (moved != k && moved in t) then None else Some((t - {k})[moved := row])
  }

  lemma RowMatchesIdentity(r: TargetRelation, c: Change, row: Row)
    requires IdentityBatchable(r) && |row| == |r.columns| && UpdatePredicate(c).Some?
    ensures RowMatches(r, row, UpdatePredicate(c).value) <==> RowIdentity(r, row) == OldIdentity(r, c)
  {
    var columns := KeyColumns(r);
    if RowIdentity(r, row) == OldIdentity(r, c) {
      forall i: nat | i < |row| && IdentityColumn(r, i) ensures row[i] == OldCell(r, c, i) {
        assert i in columns;
        var j :| 0 <= j < |columns| && columns[j] == i;
        assert RowIdentity(r, row)[j] == OldIdentity(r, c)[j];
      }
    }
    if RowMatches(r, row, UpdatePredicate(c).value) {
      forall j | 0 <= j < |columns| ensures RowIdentity(r, row)[j] == OldIdentity(r, c)[j] {
        assert columns[j] in columns && IdentityColumn(r, columns[j]);
      }
    }
  }

  lemma SelectedAreRows(r: TargetRelation, c: Change, t: Table)
    requires IdentityBatchable(r) && ValidTable(r, t) && UpdatePredicate(c).Some?
    ensures Selected(r, t, UpdatePredicate(c).value) == Targets(r, c, t)
  {
    LookupIsScan(r, t, UpdatePredicate(c).value);
    forall k | k in t ensures k in Scan(r, t, UpdatePredicate(c).value) <==> k in Targets(r, c, t) {
      RowMatchesIdentity(r, c, t[k]);
    }
  }

  /** On a row it matches, an update sets exactly the values of its new tuple. */
  lemma AssignedIsMerged(r: TargetRelation, c: Change, row: Row)
    requires IdentityBatchable(r) && |row| == |r.columns| && c.newTuple.Some?
    requires RowIdentity(r, row) == OldIdentity(r, c)
    ensures Assigned(r, row, c, SetColumns(r, c)) == MergedRow(r, row, c.newTuple.value)
  {
    RowMatchesIdentity(r, c, row);
    forall i: nat | i < |row|
      ensures Assigned(r, row, c, SetColumns(r, c))[i] == MergedRow(r, row, c.newTuple.value)[i]
    {
      assert i in SetColumns(r, c) <==> IsSet(r, c, i);
    }
  }

  lemma BoundAlike(r: TargetRelation, c: Change)
    requires IdentityBatchable(r)
    ensures UpdateOk(r, c, SetColumns(r, c))
            <==> && ValidTuple(r, c.newTuple) && ValidTuple(r, UpdatePredicate(c))
                 && PredicateOk(r, UpdatePredicate(c).value) && SetClauseOk(r, c.newTuple.value)
  {
    hide SetColumns;
    if ValidTuple(r, c.newTuple) && ValidTuple(r, UpdatePredicate(c)) && PredicateOk(r, UpdatePredicate(c).value) {
      forall i: nat | i < |r.columns|
        ensures NewCell(r, c, i).kind == DatumUnchangedToast || ParamOk(r, r.columns[i], NewCell(r, c, i))
                <==> (i in SetColumns(r, c) ==> ParamOk(r, r.columns[i], NewCell(r, c, i)))
      {
        assert r.columns[i].key ==> IdentityColumn(r, i);
      }
    }
  }

  /** Setting exactly the columns that change is the column-wise UPDATE of the change. */
  lemma SetColumnsSuffice(r: TargetRelation, c: Change, t: Table)
    requires IdentityBatchable(r) && ValidTable(r, t)
    ensures UpdateColumns(r, c, SetColumns(r, c), t) == SqlUpdate(r, c, t)
  {
    BoundAlike(r, c);
    hide UpdateOk, PredicateOk, SetClauseOk, SetColumns, Targets, Selected, Storable;
    if UpdateOk(r, c, SetColumns(r, c)) {
      SelectedAreRows(r, c, t);
      if |Targets(r, c, t)| == 1 {
        var k := Only(Targets(r, c, t));
        RowFound(r, c, t, k);
        AssignedIsMerged(r, c, t[k]);
      }
    }
  }

  lemma RowFound(r: TargetRelation, c: Change, t: Table, k: Key)
    requires k in Targets(r, c, t)
    ensures k in t && |t[k]| == |r.columns| && RowIdentity(r, t[k]) == OldIdentity(r, c)
  {
  }
}
