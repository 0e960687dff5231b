/** The logical-replication model (internal/cdc/model.go) and the catalog facts the applier
    keeps about a target relation (targetRelation, targetColumn and targetRelationCapabilities
    in internal/cdc/applier.go). */
module Model {
  import opened Wrappers

  type Byte = b: int | 0 <= b < 256
  type Bytes = seq<Byte>
  type Oid = nat
  type Lsn = nat

  datatype DatumKind = DatumNull | DatumText | DatumBinary | DatumUnchangedToast

  datatype Datum = Datum(kind: DatumKind, data: Bytes)

  type Tuple = seq<Datum>

  datatype ChangeKind = Insert | Update | Delete | Truncate

  datatype Change = Change(
    relationOid: Oid,
    kind: ChangeKind,
    oldTuple: Option<Tuple>,
    newTuple: Option<Tuple>,
    truncateCascade: bool,
    truncateRestartIdentity: bool)

  datatype Column = Column(name: Bytes, typeOid: Oid, flags: Byte)

  datatype Relation = Relation(
    oid: Oid,
    namespace: Bytes,
    name: Bytes,
    replicaIdentity: Byte,
    columns: seq<Column>)

  const REPLICA_IDENTITY_FULL: Byte := 102  // 'f'

  datatype TargetColumn = TargetColumn(
    name: Bytes,
    oid: Oid,
    key: bool,
    primary: bool,
    primaryPos: int,
    replayKeySafe: bool,
    lanePayloadTextOnly: bool,
    sourceIndex: int,
    notNull: bool,
    uniqueIndexed: bool)

  datatype Capabilities = Capabilities(
    relationLane: bool,
    relationOrderedLane: bool,
    primaryKeyArbiter: bool,
    keyedSetDML: bool,
    selectiveUpdates: bool,
    crossKeyConflicts: bool)

  datatype TargetRelation = TargetRelation(
    source: Relation,
    columns: seq<TargetColumn>,
    capabilities: Capabilities)

  /** A source transaction whose relations have been resolved against the target catalog:
      `targets[i]` is the target relation of `changes[i]`. */
  datatype Transaction = Transaction(
    endLsn: Lsn,
    relations: seq<TargetRelation>,
    changes: seq<Change>,
    spilled: bool)

  /** One source change together with its position and its target relation
      (relationBatchedChange). */
  datatype Item = Item(
    transactionIndex: nat,
    changeIndex: nat,
    change: Change,
    relation: TargetRelation)

  /** The datum a tuple carries for a column. Catalog loading gives every target column a
      source index inside the tuple; outside it the datum reads as NULL. */
  function Cell(tuple: Tuple, index: int): Datum {
    if 0 <= index < |tuple| then tuple[index] else Datum(DatumNull, [])
  }
}
