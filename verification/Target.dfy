/** The target database: what one replayed change does to it. Relations the planner shards by
    row have the exact row semantics of the statements the applier issues for them; the effect of
    a change on any other relation is a parameter, so results about replay hold whatever that
    relation's constraints, triggers or missing primary key make of it. */
module Target {
  import opened Wrappers
  import opened Model
  import opened Catalog

  /** The stored values of the target columns, in target-column order. */
  type Row = seq<Datum>
  type Table = map<Key, Row>
  type Database = map<Oid, Table>

  /** `heap` is the effect of a change on a table that is only ever written by one lane at a
      time; `whole` is the effect of a change that may reach other tables. */
  datatype Semantics = Semantics(
    heap: (TargetRelation, Change, Table) -> Option<Table>,
    whole: (TargetRelation, Change, Database) -> Option<Database>)

  function TableOf(db: Database, oid: Oid): Table {
    if oid in db then db[oid] else map[]
  }

  function RowOf(r: TargetRelation, tuple: Tuple): Row {
    seq(|r.columns|, i requires 0 <= i < |r.columns| => Cell(tuple, r.columns[i].sourceIndex))
  }

  function RowPrimaryKey(r: TargetRelation, row: Row): Key
    requires |row| == |r.columns|
  {
    var indexes := PrimaryIndexes(r);
    assert forall i :: 0 <= i < |indexes| ==> indexes[i] in indexes;
    seq(|indexes|, i requires 0 <= i < |indexes| => row[indexes[i]])
  }

  /** NOT NULL and primary-key columns hold values, and no cell is a placeholder. */
  predicate Storable(r: TargetRelation, row: Row)
    requires |row| == |r.columns|
  {
    forall i :: 0 <= i < |row| ==>
      && row[i].kind != DatumUnchangedToast
      && (r.columns[i].notNull || r.columns[i].primary ==> row[i].kind != DatumNull)
  }

  predicate AllParamsOk(r: TargetRelation, tuple: Tuple) {
    forall i :: 0 <= i < |r.columns| ==> ParamOk(r, r.columns[i], Cell(tuple, r.columns[i].sourceIndex))
  }

  predicate InsertableTuple(r: TargetRelation, tuple: Option<Tuple>) {
    ValidTuple(r, tuple) && AllParamsOk(r, tuple.value) && Storable(r, RowOf(r, tuple.value))
  }

  /** INSERT: a duplicate primary key is an error. */
  function SqlInsert(r: TargetRelation, c: Change, t: Table): Option<Table> {
    if !InsertableTuple(r, c.newTuple) || TupleKey(r, c.newTuple.value) in t then None
    else Some(t[TupleKey(r, c.newTuple.value) := RowOf(r, c.newTuple.value)])
  }

  /** INSERT ... ON CONFLICT (primary key) DO UPDATE. */
  function SqlUpsert(r: TargetRelation, c: Change, t: Table): Option<Table> {
    if !InsertableTuple(r, c.newTuple) then None
    else Some(t[TupleKey(r, c.newTuple.value) := RowOf(r, c.newTuple.value)])
  }

  predicate IdentityColumn(r: TargetRelation, i: nat)
    requires i < |r.columns|
  {
    r.source.replicaIdentity == REPLICA_IDENTITY_FULL || r.columns[i].key
  }

  /** The WHERE clause of a single-row UPDATE or DELETE (appendPredicate). */
  predicate RowMatches(r: TargetRelation, row: Row, tuple: Tuple)
    requires |row| == |r.columns|
  {
    forall i: nat :: i < |row| && IdentityColumn(r, i) ==> row[i] == Cell(tuple, r.columns[i].sourceIndex)
  }

  predicate PredicateOk(r: TargetRelation, tuple: Tuple) {
    && (exists i: nat :: i < |r.columns| && IdentityColumn(r, i))
    && (forall i: nat :: i < |r.columns| && IdentityColumn(r, i) ==>
          ParamOk(r, r.columns[i], Cell(tuple, r.columns[i].sourceIndex)))
  }

  /** The replica identity covers the primary key. */
  predicate IdentityCoversKey(r: TargetRelation) {
    forall i: nat :: i in PrimaryIndexes(r) ==> IdentityColumn(r, i)
  }

  /** The keys of the rows a WHERE clause selects. When it fixes the whole primary key this is an
      index lookup; `LookupIsScan` below shows the lookup and the scan agree. */
  ghost function Selected(r: TargetRelation, t: Table, tuple: Tuple): set<Key> {
    if IdentityCoversKey(r) then
      var k := TupleKey(r, tuple);
      if k in t && |t[k]| == |r.columns| && RowMatches(r, t[k], tuple) then {k} else {}
    else
      Scan(r, t, tuple)
  }

  ghost function Scan(r: TargetRelation, t: Table, tuple: Tuple): set<Key> {
    set k | k in t && |t[k]| == |r.columns| && RowMatches(r, t[k], tuple)
  }

  /** The new row of a column-wise UPDATE: unchanged TOAST values keep what is stored. */
  function MergedRow(r: TargetRelation, row: Row, tuple: Tuple): (m: Row)
    requires |row| == |r.columns|
    ensures |m| == |r.columns|
  {
    seq(|row|, i requires 0 <= i < |row| =>
      var datum := Cell(tuple, r.columns[i].sourceIndex);
      if datum.kind == DatumUnchangedToast then row[i] else datum)
  }

  predicate SetClauseOk(r: TargetRelation, tuple: Tuple) {
    forall i :: 0 <= i < |r.columns| ==>
      var datum := Cell(tuple, r.columns[i].sourceIndex);
      datum.kind == DatumUnchangedToast || ParamOk(r, r.columns[i], datum)
  }

  function UpdatePredicate(c: Change): Option<Tuple> {
    if c.oldTuple.Some? then c.oldTuple else c.newTuple
  }

  /** UPDATE ... WHERE identity: exactly one row must be affected (applyUpdate). */
  ghost function SqlUpdate(r: TargetRelation, c: Change, t: Table): Option<Table> {
    if !ValidTuple(r, c.newTuple) || !ValidTuple(r, UpdatePredicate(c)) then None
    else if !PredicateOk(r, UpdatePredicate(c).value) || !SetClauseOk(r, c.newTuple.value) then None
    else
      var selected := Selected(r, t, UpdatePredicate(c).value);
      if |selected| != 1 then None
      else
        var k :| k in selected;
        var row := MergedRow(r, t[k], c.newTuple.value);
        var moved := RowPrimaryKey(r, row);
        if !Storable(r, row) || (moved != k && moved in t) then None
        else Some((t - {k})[moved := row])
  }

  /** DELETE: by primary key a missing row is allowed; otherwise exactly one row must match
      (applyDelete). */
  ghost function SqlDelete(r: TargetRelation, c: Change, t: Table): Option<Table> {
    if !ValidTuple(r, c.oldTuple) then None
    else if PrimaryKeyDeleteSafe(r) then
      if forall i: nat :: i in PrimaryIndexes(r) ==>
           var datum := Cell(c.oldTuple.value, r.columns[i].sourceIndex);
           datum.kind != DatumNull && ParamOk(r, r.columns[i], datum)
      then Some(t - {TupleKey(r, c.oldTuple.value)})
      else None
    else if !PredicateOk(r, c.oldTuple.value) then None
    else
      var selected := Selected(r, t, c.oldTuple.value);
      if |selected| != 1 then None else Some(t - selected)
  }

  ghost function SqlStep(r: TargetRelation, c: Change, t: Table): Option<Table> {
    match c.kind
    case Insert => SqlInsert(r, c, t)
    case Update => if CanPrimaryKeyUpsert(r, c) then SqlUpsert(r, c, t) else SqlUpdate(r, c, t)
    case Delete => SqlDelete(r, c, t)
    case Truncate => None
  }

  /** The change stays inside its own relation, whatever lane it runs in. */
  predicate RelationLocal(item: Item) {
    item.relation.capabilities.relationOrderedLane && item.change.kind != Truncate
  }

  /** The effect of a relation-local change on its own table. */
  ghost function TableStep(sem: Semantics, item: Item, t: Table): Option<Table> {
    if RowLane(item.relation) then SqlStep(item.relation, item.change, t)
    else sem.heap(item.relation, item.change, t)
  }

  /** Runs a step on one table of the database. */
  ghost function OnTable(db: Database, oid: Oid, step: Table -> Option<Table>): Option<Database> {
    match step(TableOf(db, oid))
    case None => None
    case Some(t) => Some(db[oid := t])
  }

  /** The effect of one change. `None` is the divergence that stops replay. */
  ghost function Apply(sem: Semantics, db: Database, item: Item): Option<Database> {
    if !RelationLocal(item) then sem.whole(item.relation, item.change, db)
    else OnTable(db, item.relation.source.oid, t => TableStep(sem, item, t))
  }

  /** Source-order replay of a sequence of changes. */
  ghost function Run(sem: Semantics, db: Option<Database>, items: seq<Item>): Option<Database>
    decreases |items|
  {
    if db.None? || items == [] then db
    else Run(sem, Apply(sem, db.value, items[0]), items[1..])
  }

  lemma {:induction false} RunConcat(sem: Semantics, db: Option<Database>, xs: seq<Item>, ys: seq<Item>)
    ensures Run(sem, db, xs + ys) == Run(sem, Run(sem, db, xs), ys)
    decreases |xs|
  {
    if xs == [] {
      assert xs + ys == ys;
    } else if db.Some? {
      assert (xs + ys)[1..] == xs[1..] + ys;
      RunConcat(sem, Apply(sem, db.value, xs[0]), xs[1..], ys);
    }
  }

  // --- Stored rows stay under their own primary key ---

  ghost predicate ValidTable(r: TargetRelation, t: Table) {
    forall k :: k in t ==> |t[k]| == |r.columns| && RowPrimaryKey(r, t[k]) == k
  }

  lemma RowKeyIsTupleKey(r: TargetRelation, tuple: Tuple)
    ensures RowPrimaryKey(r, RowOf(r, tuple)) == TupleKey(r, tuple)
  {
    var indexes := PrimaryIndexes(r);
    forall i | 0 <= i < |indexes| ensures RowPrimaryKey(r, RowOf(r, tuple))[i] == TupleKey(r, tuple)[i] {
      assert indexes[i] in indexes;
    }
  }

  lemma SqlStepKeepsTableValid(r: TargetRelation, c: Change, t: Table)
    requires ValidTable(r, t) && SqlStep(r, c, t).Some?
    ensures ValidTable(r, SqlStep(r, c, t).value)
  {
    if c.newTuple.Some? {
      RowKeyIsTupleKey(r, c.newTuple.value);
    }
  }

  /** On a valid table the primary-key lookup selects what a scan of every row would. */
  lemma LookupIsScan(r: TargetRelation, t: Table, tuple: Tuple)
    requires ValidTable(r, t)
    ensures Selected(r, t, tuple) == Scan(r, t, tuple)
  {
    if IdentityCoversKey(r) {
      forall k | k in Scan(r, t, tuple) ensures k == TupleKey(r, tuple) {
        var indexes := PrimaryIndexes(r);
        forall i | 0 <= i < |indexes| ensures k[i] == TupleKey(r, tuple)[i] {
          assert indexes[i] in indexes;
        }
        assert |k| == |indexes|;
      }
    }
  }
}
