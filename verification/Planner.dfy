/** The parallel replay planner: an ordered batch of source transactions is cut into epochs of
    independent lanes separated by serial barriers (buildReplayPlanForGenerationVersion,
    internal/cdc/replay_plan.go:92-254). SHA-256 is an arbitrary function of what is hashed; work
    and claim digests are represented by their preimage. */
module Planner {
  import opened Wrappers
  import opened Model
  import opened Catalog
  import opened DisjointSets
  import opened Components

  datatype Hashes = Hashes(key: DependencyKey -> Digest, component: seq<Digest> -> nat)

  datatype WorkKind = ParallelLane | SerialTransaction

  datatype WorkDigest =
    | LaneDigest(step: nat, lane: nat, content: seq<(nat, Transaction)>)
    | SerialDigest(step: nat, transactionIndex: nat, transaction: Transaction)

  datatype Work = Work(
    step: nat,
    work: nat,
    kind: WorkKind,
    lane: int,
    digest: WorkDigest,
    expectedTransactions: nat,
    expectedChanges: nat)

  datatype PlanLane = PlanLane(lane: Lane, work: Work)

  /** `serialTransaction` is -1 for a parallel step. */
  datatype Step = Step(index: nat, lanes: seq<PlanLane>, serialTransaction: int)

  datatype Plan = Plan(steps: seq<Step>, works: seq<Work>, hasParallel: bool)

  // --- One transaction ---

  /** The target relation a transaction resolves an OID to; a later entry replaces an earlier one. */
  function Resolve(relations: seq<TargetRelation>, oid: Oid): (r: Option<TargetRelation>)
    ensures r.Some? ==> r.value in relations && r.value.source.oid == oid
    ensures r.None? ==> forall x :: x in relations ==> x.source.oid != oid
  {
    if relations == [] then None
    else
      var last := relations[|relations| - 1];
      assert forall x :: x in relations <==> x == last || x in relations[..|relations| - 1];
      if last.source.oid == oid then Some(last) else Resolve(relations[..|relations| - 1], oid)
  }

  /** Stands in for absent relation metadata; it admits no lane. */
  function MissingRelation(oid: Oid): TargetRelation {
    TargetRelation(Relation(oid, [], [], 0, []), [], Capabilities(false, false, false, false, false, false))
  }

  function ItemAt(index: nat, t: Transaction, i: nat): (item: Item)
    requires i < |t.changes|
    ensures item.relation.source.oid == t.changes[i].relationOid
  {
    var relation := match Resolve(t.relations, t.changes[i].relationOid)
                    case Some(r) => r
                    case None => MissingRelation(t.changes[i].relationOid);
    Item(index, i, t.changes[i], relation)
  }

  function ItemsUpTo(index: nat, t: Transaction, n: nat): (items: seq<Item>)
    requires n <= |t.changes|
    ensures |items| == n && forall i :: 0 <= i < n ==> items[i] == ItemAt(index, t, i)
  {
    if n == 0 then [] else ItemsUpTo(index, t, n - 1) + [ItemAt(index, t, n - 1)]
  }

  /** All changes of a source transaction, in source order. */
  function ItemsOf(index: nat, t: Transaction): seq<Item> {
    ItemsUpTo(index, t, |t.changes|)
  }

  function ChangeKey(t: Transaction, c: Change): Result<Option<DependencyKey>, ReplayError> {
    match Resolve(t.relations, c.relationOid)
    case None => Success(None)
    case Some(r) => ReplayChangeKey(r, c)
  }

  /** Whether every change has a dependency key; the first change without one decides. */
  function LaneSafeUpTo(t: Transaction, n: nat): Result<bool, ReplayError>
    requires n <= |t.changes|
  {
    if n == 0 then Success(true)
    else
      match LaneSafeUpTo(t, n - 1)
      case Failure(error) => Failure(error)
      case Success(false) => Success(false)
      case Success(true) =>
        match ChangeKey(t, t.changes[n - 1])
        case Failure(error) => Failure(error)
        case Success(None) => Success(false)
        case Success(Some(_)) => Success(true)
  }

  lemma {:induction false} LaneSafeMeaning(t: Transaction, n: nat)
    requires n <= |t.changes|
    ensures LaneSafeUpTo(t, n) == Success(true) <==>
      forall i :: 0 <= i < n ==> ChangeKey(t, t.changes[i]).Success? && ChangeKey(t, t.changes[i]).value.Some?
    decreases n
  {
    if n > 0 {
      LaneSafeMeaning(t, n - 1);
    }
  }

  predicate Keyed(t: Transaction) {
    LaneSafeUpTo(t, |t.changes|) == Success(true)
  }

  /** The dependency key of one change of a keyed transaction. */
  function KeyAt(t: Transaction, i: nat): DependencyKey
    requires i < |t.changes|
  {
    match ChangeKey(t, t.changes[i])
    case Success(Some(key)) => key
    case _ => EmptyTransactionKey(t.endLsn)
  }

  function DigestsUpTo(hashes: Hashes, t: Transaction, n: nat): (keys: seq<Digest>)
    requires n <= |t.changes|
    ensures |keys| == n && forall i :: 0 <= i < n ==> keys[i] == hashes.key(KeyAt(t, i))
  {
    if n == 0 then [] else DigestsUpTo(hashes, t, n - 1) + [hashes.key(KeyAt(t, n - 1))]
  }

  /** An empty transaction gets a dependency key of its own. */
  function Planned(hashes: Hashes, index: nat, t: Transaction): PlanTransaction {
    var keys := DigestsUpTo(hashes, t, |t.changes|);
    PlanTransaction(
      index, if keys == [] then [hashes.key(EmptyTransactionKey(t.endLsn))] else keys, ItemsOf(index, t))
  }

  /** The relation a transaction resolves an OID to is not the one recorded last. */
  predicate Redefined(definitions: map<Oid, TargetRelation>, relations: seq<TargetRelation>, oid: Oid) {
    oid in definitions && Resolve(relations, oid) != Some(definitions[oid])
  }

  predicate DefinitionChanged(definitions: map<Oid, TargetRelation>, relations: seq<TargetRelation>) {
    exists r :: r in relations && Redefined(definitions, relations, r.source.oid)
  }

  function Record(definitions: map<Oid, TargetRelation>, relations: seq<TargetRelation>): map<Oid, TargetRelation> {
    if relations == [] then definitions
    else Record(definitions, relations[..|relations| - 1])[relations[|relations| - 1].source.oid := relations[|relations| - 1]]
  }

  lemma {:induction false} RecordMeaning(definitions: map<Oid, TargetRelation>, relations: seq<TargetRelation>, oid: Oid)
    ensures
      var recorded := Record(definitions, relations);
      match Resolve(relations, oid)
      case Some(r) => oid in recorded && recorded[oid] == r
      case None => oid in recorded <==> oid in definitions
    ensures Resolve(relations, oid).None? && oid in definitions ==> Record(definitions, relations)[oid] == definitions[oid]
    decreases |relations|
  {
    if relations != [] {
      RecordMeaning(definitions, relations[..|relations| - 1], oid);
    }
  }

  // --- The planner as a fold over the batch ---

  datatype PlannerState = PlannerState(
    plan: Plan,
    epoch: seq<PlanTransaction>,
    definitions: map<Oid, TargetRelation>)

  predicate InBatch(indexes: seq<nat>, batch: seq<Transaction>) {
    forall a :: 0 <= a < |indexes| ==> indexes[a] < |batch|
  }

  function LaneContent(indexes: seq<nat>, batch: seq<Transaction>): seq<(nat, Transaction)>
    requires InBatch(indexes, batch)
  {
    seq(|indexes|, i requires 0 <= i < |indexes| => (indexes[i], batch[indexes[i]]))
  }

  function ChangesIn(indexes: seq<nat>, batch: seq<Transaction>): nat
    requires InBatch(indexes, batch)
  {
    if indexes == [] then 0
    else ChangesIn(indexes[..|indexes| - 1], batch) + |batch[indexes[|indexes| - 1]].changes|
  }

  function LaneWork(step: nat, lane: Lane, batch: seq<Transaction>): Work
    requires InBatch(lane.transactionIndexes, batch)
  {
    Work(step, lane.lane, ParallelLane, lane.lane,
         LaneDigest(step, lane.lane, LaneContent(lane.transactionIndexes, batch)),
         |lane.transactionIndexes|, ChangesIn(lane.transactionIndexes, batch))
  }

  function SerialWork(step: nat, index: nat, t: Transaction): Work {
    Work(step, 0, SerialTransaction, -1, SerialDigest(step, index, t), 1, |t.changes|)
  }

  predicate LanesInBatch(lanes: seq<Lane>, batch: seq<Transaction>) {
    forall l :: 0 <= l < |lanes| ==> InBatch(lanes[l].transactionIndexes, batch)
  }

  /** The non-empty lanes with their work manifests, in lane order. */
  function UsedLanes(step: nat, lanes: seq<Lane>, batch: seq<Transaction>): (used: seq<PlanLane>)
    requires LanesInBatch(lanes, batch)
  {
    if lanes == [] then []
    else
      var last := lanes[|lanes| - 1];
      var rest := UsedLanes(step, lanes[..|lanes| - 1], batch);
      if last.transactionIndexes == [] then rest else rest + [PlanLane(last, LaneWork(step, last, batch))]
  }

  function WorksOf(lanes: seq<PlanLane>): (works: seq<Work>)
    ensures |works| == |lanes| && forall i :: 0 <= i < |lanes| ==> works[i] == lanes[i].work
  {
    seq(|lanes|, i requires 0 <= i < |lanes| => lanes[i].work)
  }

  ghost predicate EpochInBatch(epoch: seq<PlanTransaction>, batch: seq<Transaction>) {
    forall i :: 0 <= i < |epoch| ==> epoch[i].index < |batch|
  }

  lemma {:induction false} LaneIndexesInBatch(
    epoch: seq<PlanTransaction>, batch: seq<Transaction>, laneCount: nat, digest: seq<Digest> -> nat, l: nat, n: nat)
    requires EpochInBatch(epoch, batch) && laneCount > 0 && n <= |epoch|
    ensures InBatch(LaneUpTo(epoch, laneCount, digest, l, n).transactionIndexes, batch)
    decreases n
  {
    hide LaneOf;
    if n > 0 {
      LaneIndexesInBatch(epoch, batch, laneCount, digest, l, n - 1);
    }
  }

  ghost function FlushedLanes(
    step: nat, epoch: seq<PlanTransaction>, batch: seq<Transaction>, laneCount: nat, hashes: Hashes): seq<PlanLane>
    requires EpochInBatch(epoch, batch) && laneCount > 0
  {
    forall l: nat | l < laneCount
      ensures InBatch(EpochLanes(epoch, laneCount, hashes.component)[l].transactionIndexes, batch)
    {
      LaneIndexesInBatch(epoch, batch, laneCount, hashes.component, l, |epoch|);
    }
    UsedLanes(step, EpochLanes(epoch, laneCount, hashes.component), batch)
  }

  ghost function Flush(plan: Plan, epoch: seq<PlanTransaction>, batch: seq<Transaction>, laneCount: nat, hashes: Hashes): Plan
    requires EpochInBatch(epoch, batch) && laneCount > 0
  {
    if epoch == [] then plan
    else
      var lanes := FlushedLanes(|plan.steps|, epoch, batch, laneCount, hashes);
      Plan(plan.steps + [Step(|plan.steps|, lanes, -1)], plan.works + WorksOf(lanes),
           plan.hasParallel || |lanes| > 1)
  }

  predicate ParallelSafe(definitions: map<Oid, TargetRelation>, t: Transaction) {
    !t.spilled && !DefinitionChanged(definitions, t.relations) && Keyed(t)
  }

  /** Planning one more transaction. */
  ghost function Advance(
    state: PlannerState, batch: seq<Transaction>, index: nat, laneCount: nat, hashes: Hashes): PlannerState
    requires EpochInBatch(state.epoch, batch) && laneCount > 0 && index < |batch|
  {
    var t := batch[index];
    var definitions := Record(state.definitions, t.relations);
    if ParallelSafe(state.definitions, t) then
      state.(epoch := state.epoch + [Planned(hashes, index, t)], definitions := definitions)
    else
      var plan := Flush(state.plan, state.epoch, batch, laneCount, hashes);
      PlannerState(
        Plan(plan.steps + [Step(|plan.steps|, [], index)],
             plan.works + [SerialWork(|plan.steps|, index, t)], plan.hasParallel),
        [], definitions)
  }

  ghost function PlanUpTo(batch: seq<Transaction>, n: nat, laneCount: nat, hashes: Hashes): (state: PlannerState)
    requires laneCount > 0 && n <= |batch|
    ensures EpochInBatch(state.epoch, batch)
  {
    if n == 0 then PlannerState(Plan([], [], false), [], map[])
    else Advance(PlanUpTo(batch, n - 1, laneCount, hashes), batch, n - 1, laneCount, hashes)
  }

  /** The plan of a batch. It depends on nothing but the transactions, the lane count and the hash. */
  ghost function PlanOf(batch: seq<Transaction>, laneCount: nat, hashes: Hashes): Plan
    requires laneCount > 0
  {
    var state := PlanUpTo(batch, |batch|, laneCount, hashes);
    Flush(state.plan, state.epoch, batch, laneCount, hashes)
  }

  /** A change whose key cannot be computed stops planning. */
  predicate PlannerFails(definitions: map<Oid, TargetRelation>, t: Transaction) {
    !t.spilled && !DefinitionChanged(definitions, t.relations) && LaneSafeUpTo(t, |t.changes|).Failure?
  }

  ghost predicate Plannable(batch: seq<Transaction>, laneCount: nat, hashes: Hashes)
    requires laneCount > 0
  {
    forall n: nat :: n < |batch| ==> !PlannerFails(PlanUpTo(batch, n, laneCount, hashes).definitions, batch[n])
  }
}
