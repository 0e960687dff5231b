/** The catalog decisions the applier takes per relation and change: which columns form the
    target primary key, when an update is a complete-row upsert, when it may be sharded by its
    primary key, and which dependency key the planner gives a change
    (internal/cdc/applier.go and internal/cdc/replay_plan.go). */
module Catalog {
  import opened Wrappers
  import opened Model

  type Key = seq<Datum>

  /** Places column `index` among already ordered primary-key positions. */
  function InsertByPosition(columns: seq<TargetColumn>, sorted: seq<nat>, index: nat): (r: seq<nat>)
    requires index < |columns| && forall i: nat :: i in sorted ==> i < |columns|
    ensures forall i: nat :: i in r <==> i == index || i in sorted
    ensures |r| == |sorted| + 1
  {
    if sorted == [] then [index]
    else
      assert sorted[0] in sorted;
      assert forall i: nat :: i in sorted <==> i == sorted[0] || i in sorted[1..];
      if columns[index].primaryPos < columns[sorted[0]].primaryPos then [index] + sorted
      else [sorted[0]] + InsertByPosition(columns, sorted[1..], index)
  }

  function PrimaryIndexesUpTo(columns: seq<TargetColumn>, n: nat): (r: seq<nat>)
    requires n <= |columns|
    ensures forall i: nat :: i in r <==> i < n && columns[i].primary
  {
    if n == 0 then []
    else
      var rest := PrimaryIndexesUpTo(columns, n - 1);
      if columns[n - 1].primary then InsertByPosition(columns, rest, n - 1) else rest
  }

  /** The positions of the primary-key columns, in primary-key order (primaryKeyColumns). */
  function PrimaryIndexes(r: TargetRelation): (s: seq<nat>)
    ensures forall i: nat :: i in s <==> i < |r.columns| && r.columns[i].primary
  {
    PrimaryIndexesUpTo(r.columns, |r.columns|)
  }

  function PositionOf(columns: seq<TargetColumn>, i: nat): int {
    if i < |columns| then columns[i].primaryPos else 0
  }

  predicate InKeyOrder(columns: seq<TargetColumn>, indexes: seq<nat>) {
    forall m, n :: 0 <= m < n < |indexes| ==> PositionOf(columns, indexes[m]) <= PositionOf(columns, indexes[n])
  }

  lemma HeadIsFirst(columns: seq<TargetColumn>, indexes: seq<nat>)
    requires indexes != [] && InKeyOrder(columns, indexes)
    ensures forall i :: i in indexes ==> PositionOf(columns, indexes[0]) <= PositionOf(columns, i)
    ensures InKeyOrder(columns, indexes[1..])
  {
    hide PositionOf;
  }

  lemma FirstAhead(columns: seq<TargetColumn>, first: nat, rest: seq<nat>)
    requires InKeyOrder(columns, rest) && forall i :: i in rest ==> PositionOf(columns, first) <= PositionOf(columns, i)
    ensures InKeyOrder(columns, [first] + rest)
  {
    hide PositionOf;
    forall n: nat | n < |rest| ensures PositionOf(columns, first) <= PositionOf(columns, rest[n]) {
      assert rest[n] in rest;
    }
  }

  lemma {:induction false} InsertedInOrder(columns: seq<TargetColumn>, sorted: seq<nat>, index: nat)
    requires index < |columns| && (forall i: nat :: i in sorted ==> i < |columns|) && InKeyOrder(columns, sorted)
    ensures InKeyOrder(columns, InsertByPosition(columns, sorted, index))
    decreases |sorted|
  {
    hide InKeyOrder;
    if sorted == [] {
      NothingToOrder(columns);
      FirstAhead(columns, index, []);
      assert [index] + [] == [index];
    } else {
      HeadIsFirst(columns, sorted);
      assert sorted[0] in sorted && forall i: nat :: i in sorted <==> i == sorted[0] || i in sorted[1..];
      if columns[index].primaryPos < columns[sorted[0]].primaryPos {
        FirstAhead(columns, index, sorted);
      } else {
        InsertedInOrder(columns, sorted[1..], index);
        FirstAhead(columns, sorted[0], InsertByPosition(columns, sorted[1..], index));
      }
    }
  }

  lemma NothingToOrder(columns: seq<TargetColumn>)
    ensures InKeyOrder(columns, [])
  {
  }

  lemma {:induction false} IndexesInOrder(columns: seq<TargetColumn>, n: nat)
    requires n <= |columns|
    ensures InKeyOrder(columns, PrimaryIndexesUpTo(columns, n))
    decreases n
  {
    hide InKeyOrder, InsertByPosition;
    if n == 0 {
      assert InKeyOrder(columns, []) by {
        NothingToOrder(columns);
      }
    } else {
      IndexesInOrder(columns, n - 1);
      if columns[n - 1].primary {
        InsertedInOrder(columns, PrimaryIndexesUpTo(columns, n - 1), n - 1);
      }
    }
  }

  /** The columns of a primary key are in the order of the key. */
  lemma PrimaryKeyInOrder(r: TargetRelation)
    ensures InKeyOrder(r.columns, PrimaryIndexes(r))
  {
    IndexesInOrder(r.columns, |r.columns|);
  }

  /** The primary key a tuple carries, in primary-key order. */
  function TupleKey(r: TargetRelation, tuple: Tuple): (key: Key)
    ensures |key| == |PrimaryIndexes(r)|
  {
    var indexes := PrimaryIndexes(r);
    assert forall i :: 0 <= i < |indexes| ==> indexes[i] in indexes;
    seq(|indexes|, i requires 0 <= i < |indexes| => Cell(tuple, r.columns[indexes[i]].sourceIndex))
  }

  predicate ValidTuple(r: TargetRelation, tuple: Option<Tuple>) {
    tuple.Some? && |tuple.value| == |r.source.columns|
  }

  /** Whether a datum can be bound to a column (datumParamForColumn). */
  predicate ParamOk(r: TargetRelation, column: TargetColumn, datum: Datum) {
    match datum.kind
    case DatumNull => true
    case DatumText => true
    case DatumBinary =>
      0 <= column.sourceIndex < |r.source.columns| &&
      r.source.columns[column.sourceIndex].typeOid == column.oid
    case DatumUnchangedToast => false
  }

  predicate PresentDatum(datum: Datum) {
    datum.kind != DatumNull && datum.kind != DatumUnchangedToast
  }

  /** Every primary-key column exists and is part of the replica identity, so an old tuple
      carries the whole key (primaryKeyDeleteColumns, second result). */
  predicate PrimaryKeyDeleteSafe(r: TargetRelation) {
    r.capabilities.keyedSetDML && PrimaryIndexes(r) != [] &&
    forall i: nat :: i in PrimaryIndexes(r) ==> r.columns[i].key && r.columns[i].sourceIndex >= 0
  }

  /** canPrimaryKeyUpsertForPlan with requireImmediateArbiter set. */
  predicate CanPrimaryKeyUpsert(r: TargetRelation, c: Change) {
    && ValidTuple(r, c.newTuple)
    && r.columns != []
    && r.capabilities.keyedSetDML
    && r.capabilities.primaryKeyArbiter
    && PrimaryIndexes(r) != []
    && (forall i :: 0 <= i < |r.columns| ==>
          Cell(c.newTuple.value, r.columns[i].sourceIndex).kind != DatumUnchangedToast)
    && (ValidTuple(r, c.oldTuple) ==>
          forall i: nat :: i in PrimaryIndexes(r) ==>
            var before := Cell(c.oldTuple.value, r.columns[i].sourceIndex);
            before.kind != DatumUnchangedToast &&
            before == Cell(c.newTuple.value, r.columns[i].sourceIndex))
  }

  predicate CanShardUpdateByPrimaryKey(r: TargetRelation, c: Change) {
    && ValidTuple(r, c.newTuple)
    && PrimaryIndexes(r) != []
    && (forall i: nat :: i in PrimaryIndexes(r) ==>
          && 0 <= r.columns[i].sourceIndex < |c.newTuple.value|
          && PresentDatum(c.newTuple.value[r.columns[i].sourceIndex]))
    && if c.oldTuple.None? then
         PrimaryKeyDeleteSafe(r)
       else
         && ValidTuple(r, c.oldTuple)
         && (forall i: nat :: i in PrimaryIndexes(r) ==>
               && PresentDatum(c.oldTuple.value[r.columns[i].sourceIndex])
               && c.oldTuple.value[r.columns[i].sourceIndex] == c.newTuple.value[r.columns[i].sourceIndex])
  }

  predicate ReplayLanePayloadSafe(r: TargetRelation, c: Change) {
    c.kind == Delete ||
    (c.newTuple.Some? &&
     forall i :: 0 <= i < |r.columns| && r.columns[i].lanePayloadTextOnly ==>
       && 0 <= r.columns[i].sourceIndex < |c.newTuple.value|
       && match c.newTuple.value[r.columns[i].sourceIndex].kind
          case DatumText => true
          case DatumNull => true
          case DatumUnchangedToast => c.kind == Update
          case DatumBinary => false)
  }

  const BOOL_OID: Oid := 16
  const BYTEA_OID: Oid := 17
  const INT8_OID: Oid := 20
  const INT2_OID: Oid := 21
  const INT4_OID: Oid := 23
  const TEXT_OID: Oid := 25
  const VARCHAR_OID: Oid := 1043
  const DATE_OID: Oid := 1082
  const TIME_OID: Oid := 1083
  const TIMESTAMP_OID: Oid := 1114
  const TIMESTAMPTZ_OID: Oid := 1184
  const UUID_OID: Oid := 2950

  predicate ReplayKeyDatumSafe(oid: Oid, kind: DatumKind) {
    && oid in {BOOL_OID, BYTEA_OID, INT2_OID, INT4_OID, INT8_OID, TEXT_OID, VARCHAR_OID, DATE_OID,
               TIME_OID, TIMESTAMP_OID, TIMESTAMPTZ_OID, UUID_OID}
    && (kind == DatumBinary ||
        (kind == DatumText &&
         oid in {BOOL_OID, INT2_OID, INT4_OID, INT8_OID, TEXT_OID, VARCHAR_OID, UUID_OID}))
  }

  /** The preimage of a dependency digest: what the planner hashes with SHA-256. */
  datatype DependencyKey =
    | RowKey(relation: TargetRelation, key: Key)
    | TableKey(relation: TargetRelation)
    | EmptyTransactionKey(endLsn: Lsn)

  /** Rows of this relation are sharded by primary key rather than kept in one table lane. */
  predicate RowLane(r: TargetRelation) {
    r.capabilities.relationLane && !r.capabilities.crossKeyConflicts && PrimaryIndexes(r) != []
  }

  /** The tuple whose primary key identifies the row a change is keyed by. */
  function KeyTuple(c: Change): Option<Tuple> {
    match c.kind
    case Insert => c.newTuple
    case Update => c.newTuple
    case Delete => c.oldTuple
    case Truncate => None
  }

  /** The branch of replayChangeKeyWithOrderedLane that falls back to the table key although the
      relation is sharded by row. */
  predicate NeedsTableKey(r: TargetRelation, c: Change) {
    (c.kind == Update && !CanShardUpdateByPrimaryKey(r, c)) ||
    (c.kind == Delete && !PrimaryKeyDeleteSafe(r))
  }

  datatype ReplayError = InvalidTuple | InvalidDatum

  /** The captured bytes of a datum are a canonical representative of PostgreSQL equality. */
  predicate KeyDatumSafe(r: TargetRelation, index: nat, tuple: Tuple)
    requires index < |r.columns|
  {
    var column := r.columns[index];
    && 0 <= column.sourceIndex < |tuple|
    && PresentDatum(tuple[column.sourceIndex])
    && ReplayKeyDatumSafe(column.oid, tuple[column.sourceIndex].kind)
  }

  /** The loop over the primary-key columns: the first unsafe datum gives `false`, the first one
      that cannot be bound gives an error, in key order. */
  function CheckKeyDatums(r: TargetRelation, indexes: seq<nat>, tuple: Tuple): (result: Result<bool, ReplayError>)
    requires forall i: nat :: i in indexes ==> i < |r.columns|
    ensures result == Success(true) <==> forall i: nat :: i in indexes ==>
      KeyDatumSafe(r, i, tuple) && ParamOk(r, r.columns[i], Cell(tuple, r.columns[i].sourceIndex))
  {
    if indexes == [] then Success(true)
    else
      assert indexes[0] in indexes;
      assert forall i: nat :: i in indexes <==> i == indexes[0] || i in indexes[1..];
      if !KeyDatumSafe(r, indexes[0], tuple) then Success(false)
      else if !ParamOk(r, r.columns[indexes[0]], Cell(tuple, r.columns[indexes[0]].sourceIndex)) then
        Failure(InvalidDatum)
      else CheckKeyDatums(r, indexes[1..], tuple)
  }

  /** replayChangeKeyWithOrderedLane: an error, `None` for a change that must become a serial
      barrier, or the dependency key of a change that may run in a lane. */
  function ReplayChangeKey(r: TargetRelation, c: Change): Result<Option<DependencyKey>, ReplayError> {
    if !r.capabilities.relationOrderedLane || !ReplayLanePayloadSafe(r, c) || c.kind == Truncate then
      Success(None)
    else if !ValidTuple(r, KeyTuple(c)) then
      Failure(InvalidTuple)
    else if !r.capabilities.relationLane || r.capabilities.crossKeyConflicts then
      Success(Some(TableKey(r)))
    else if PrimaryIndexes(r) == [] || exists i: nat :: i in PrimaryIndexes(r) && !r.columns[i].replayKeySafe then
      Success(None)
    else if NeedsTableKey(r, c) then
      Success(Some(TableKey(r)))
    else
      match CheckKeyDatums(r, PrimaryIndexes(r), KeyTuple(c).value)
      case Failure(error) => Failure(error)
      case Success(false) => Success(None)
      case Success(true) => Success(Some(RowKey(r, TupleKey(r, KeyTuple(c).value))))
  }
}
