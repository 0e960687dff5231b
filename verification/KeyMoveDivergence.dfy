/** A concrete epoch in which lane order diverges from source order: one transaction rewrites row 2,
    the next moves it to key 3. The first is keyed by row, the second by table, so they run in
    different lanes. Both commit orders succeed, but committing the move first leaves row 2 behind. */
module KeyMoveDivergence {
  import opened Wrappers
  import opened Model
  import opened Catalog
  import opened Target
  import opened Dependence
  import opened LaneRewrite
  import opened Components
  import opened Planner
  import opened PlanShape
  import opened Serializability
  import opened Execution
  import opened MixedKeys

  const ACCOUNTS: TargetRelation := TargetRelation(
    Relation(1, [], [97], 100, [Column([105], INT4_OID, 1), Column([118], TEXT_OID, 0)]),
    [TargetColumn([105], INT4_OID, true, true, 0, true, true, 0, true, false),
     TargetColumn([118], TEXT_OID, false, false, 0, true, true, 1, false, false)],
    Capabilities(true, true, true, true, false, false))

  function Text(b: Byte): Datum {
    Datum(DatumText, [b])
  }

  function Id(id: Byte): Key {
    [Text(id)]
  }

  function Account(id: Byte, value: Byte): Tuple {
    [Text(id), Text(value)]
  }

  function Rewrite(): Change {
    Change(1, Update, None, Some(Account(2, 98)), false, false)
  }

  function Move(): Change {
    Change(1, Update, Some([Text(2), Datum(DatumNull, [])]), Some(Account(3, 98)), false, false)
  }

  function History(): seq<Transaction> {
    [Transaction(10, [ACCOUNTS], [Rewrite()], false), Transaction(20, [ACCOUNTS], [Move()], false)]
  }

  function Before(): Database {
    map[1 := map[Id(2) := Account(2, 97)]]
  }

  lemma AccountsKey()
    ensures PrimaryIndexes(ACCOUNTS) == [0]
  {
    assert PrimaryIndexesUpTo(ACCOUNTS.columns, 1) == [0];
  }

  lemma RewriteKeys()
    ensures RowLane(ACCOUNTS)
    ensures CanPrimaryKeyUpsert(ACCOUNTS, Rewrite())
    ensures ReplayChangeKey(ACCOUNTS, Rewrite()) == Success(Some(RowKey(ACCOUNTS, Id(2))))
  {
    AccountsKey();
    assert CanShardUpdateByPrimaryKey(ACCOUNTS, Rewrite());
    assert TupleKey(ACCOUNTS, Account(2, 98)) == Id(2);
  }

  lemma MoveKeys()
    ensures !CanPrimaryKeyUpsert(ACCOUNTS, Move())
    ensures ReplayChangeKey(ACCOUNTS, Move()) == Success(Some(TableKey(ACCOUNTS)))
  {
    AccountsKey();
    assert 0 in PrimaryIndexes(ACCOUNTS);
  }

  lemma RewriteEffect(t: Table)
    ensures SqlStep(ACCOUNTS, Rewrite(), t) == Some(t[Id(2) := Account(2, 98)])
  {
    AccountsKey();
    RewriteKeys();
    assert RowOf(ACCOUNTS, Account(2, 98)) == Account(2, 98);
    assert TupleKey(ACCOUNTS, Account(2, 98)) == Id(2);
  }

  lemma MoveEffect(t: Table, value: Byte)
    requires Id(2) in t && t[Id(2)] == Account(2, value) && Id(3) !in t
    ensures SqlStep(ACCOUNTS, Move(), t) == Some((t - {Id(2)})[Id(3) := Account(3, 98)])
  {
    AccountsKey();
    MoveKeys();
    var tuple := Move().oldTuple.value;
    assert TupleKey(ACCOUNTS, tuple) == Id(2);
    assert RowMatches(ACCOUNTS, t[Id(2)], tuple);
    assert IdentityColumn(ACCOUNTS, 0) && !IdentityColumn(ACCOUNTS, 1);
    assert Selected(ACCOUNTS, t, tuple) == {Id(2)};
    assert MergedRow(ACCOUNTS, t[Id(2)], Account(3, 98)) == Account(3, 98);
    assert RowPrimaryKey(ACCOUNTS, Account(3, 98)) == Id(3);
  }

  lemma HistoryItems()
    ensures ItemsOf(0, History()[0]) == [Item(0, 0, Rewrite(), ACCOUNTS)]
    ensures ItemsOf(1, History()[1]) == [Item(1, 0, Move(), ACCOUNTS)]
    ensures BatchItems(History(), 0, 2) == [Item(0, 0, Rewrite(), ACCOUNTS), Item(1, 0, Move(), ACCOUNTS)]
  {
    hide ReplayChangeKey;
    assert ItemsOf(0, History()[0]) == [ItemAt(0, History()[0], 0)];
    assert ItemsOf(1, History()[1]) == [ItemAt(1, History()[1], 0)];
    assert BatchItems(History(), 0, 0) == [];
    assert BatchItems(History(), 0, 1) == ItemsOf(0, History()[0]);
  }

  lemma RunOne(sem: Semantics, db: Database, item: Item)
    ensures Run(sem, Some(db), [item]) == Apply(sem, db, item)
  {
    assert [item][1..] == [];
  }

  lemma ApplyToAccounts(sem: Semantics, t: Table, item: Item)
    requires item.relation == ACCOUNTS && item.change.kind == Update && SqlStep(ACCOUNTS, item.change, t).Some?
    ensures Run(sem, Some(map[1 := t]), [item]) == Some(map[1 := SqlStep(ACCOUNTS, item.change, t).value])
  {
    hide SqlStep;
    RewriteKeys();
    var db: Database := map[1 := t];
    RunOne(sem, db, item);
    assert TableStep(sem, item, t) == SqlStep(ACCOUNTS, item.change, t);
    assert db[1 := SqlStep(ACCOUNTS, item.change, t).value] == map[1 := SqlStep(ACCOUNTS, item.change, t).value];
  }

  lemma SourceOrderOutcome(sem: Semantics)
    ensures Run(sem, Some(Before()), BatchItems(History(), 0, 2)) == Some(map[1 := map[Id(3) := Account(3, 98)]])
  {
    hide SqlStep, BatchItems, Run;
    HistoryItems();
    var rewrite, move := Item(0, 0, Rewrite(), ACCOUNTS), Item(1, 0, Move(), ACCOUNTS);
    RewriteEffect(Before()[1]);
    MoveEffect(map[Id(2) := Account(2, 98)], 98);
    assert Before()[1][Id(2) := Account(2, 98)] == map[Id(2) := Account(2, 98)];
    assert (map[Id(2) := Account(2, 98)] - {Id(2)})[Id(3) := Account(3, 98)] == map[Id(3) := Account(3, 98)];
    assert [rewrite, move] == [rewrite] + [move];
    RunConcat(sem, Some(Before()), [rewrite], [move]);
    ApplyToAccounts(sem, Before()[1], rewrite);
    ApplyToAccounts(sem, map[Id(2) := Account(2, 98)], move);
  }

  lemma MoveFirstOutcome(sem: Semantics)
    ensures Run(sem, Run(sem, Some(Before()), [Item(1, 0, Move(), ACCOUNTS)]), [Item(0, 0, Rewrite(), ACCOUNTS)]) ==
      Some(map[1 := map[Id(3) := Account(3, 98), Id(2) := Account(2, 98)]])
  {
    hide SqlStep, Run;
    var rewrite, move := Item(0, 0, Rewrite(), ACCOUNTS), Item(1, 0, Move(), ACCOUNTS);
    MoveEffect(Before()[1], 97);
    RewriteEffect(map[Id(3) := Account(3, 98)]);
    assert (Before()[1] - {Id(2)})[Id(3) := Account(3, 98)] == map[Id(3) := Account(3, 98)];
    assert map[Id(3) := Account(3, 98)][Id(2) := Account(2, 98)] == map[Id(3) := Account(3, 98), Id(2) := Account(2, 98)];
    ApplyToAccounts(sem, Before()[1], move);
    ApplyToAccounts(sem, map[Id(3) := Account(3, 98)], rewrite);
  }

  // --- The planner puts the two transactions in different lanes ---

  lemma OneChangeKeyed(t: Transaction)
    requires t == History()[0] || t == History()[1]
    ensures Keyed(t) && KeyAt(t, 0) == if t == History()[0] then RowKey(ACCOUNTS, Id(2)) else TableKey(ACCOUNTS)
  {
    hide ReplayChangeKey;
    RewriteKeys();
    MoveKeys();
    assert Resolve(t.relations, 1) == Some(ACCOUNTS);
    assert LaneSafeUpTo(t, 0) == Success(true);
  }

  lemma HistoryIsEpoch()
    ensures EpochOk(History(), 0, 2) && SourceOk(History())
  {
    hide ReplayChangeKey, Keyed, ItemsOf;
    OneChangeKeyed(History()[0]);
    OneChangeKeyed(History()[1]);
    forall i, oid | 0 <= i < 2 && Resolve(History()[i].relations, oid).Some?
      ensures oid == 1 && Resolve(History()[i].relations, oid).value == ACCOUNTS
    {
      assert History()[i].relations[..0] == [];
    }
    assert DefinitionsKnown(History(), 0, 2, map[1 := ACCOUNTS]);
    HistoryItems();
    AccountsKey();
    assert OldTupleIsIdentity(Item(1, 0, Move(), ACCOUNTS));
  }

  lemma HistoryUnconnected(hashes: Hashes)
    requires hashes.key(RowKey(ACCOUNTS, Id(2))) != hashes.key(TableKey(ACCOUNTS))
    ensures |EpochOf(History(), hashes, 0, 2)| == 2 && EpochOf(History(), hashes, 0, 2)[0].keys != []
    ensures !Connected(EpochOf(History(), hashes, 0, 2), 0, 1)
  {
    hide Keyed, ItemsOf, KeyAt, EpochOf, Planned, Shares, Connected;
    var epoch := EpochOf(History(), hashes, 0, 2);
    EpochAt(History(), hashes, 0, 2, 0);
    EpochAt(History(), hashes, 0, 2, 1);
    OneKeyPlanned(hashes, 0, History()[0]);
    OneKeyPlanned(hashes, 1, History()[1]);
    DisjointKeysUnconnected(epoch);
  }

  lemma OneKeyPlanned(hashes: Hashes, index: nat, t: Transaction)
    requires t == History()[0] || t == History()[1]
    ensures Planned(hashes, index, t).keys ==
      [hashes.key(if t == History()[0] then RowKey(ACCOUNTS, Id(2)) else TableKey(ACCOUNTS))]
  {
    hide Keyed, ItemsOf, KeyAt;
    OneChangeKeyed(t);
  }

  lemma DisjointKeysUnconnected(epoch: seq<PlanTransaction>)
    requires |epoch| == 2 && |epoch[0].keys| == 1 && |epoch[1].keys| == 1 && epoch[0].keys[0] != epoch[1].keys[0]
    ensures !Connected(epoch, 0, 1)
  {
    if path :| Chain(epoch, path) && path[0] == 0 && path[|path| - 1] == 1 {
      AlongChain(epoch, [0, 1], path);
    }
  }

  /** A flushed lane has a number below the lane count. */
  lemma FlushedLaneNumbers(step: nat, batch: seq<Transaction>, hashes: Hashes, lo: nat, hi: nat, laneCount: nat)
    requires lo <= hi <= |batch| && laneCount > 0
    ensures forall x :: x in FlushedLanes(step, EpochOf(batch, hashes, lo, hi), batch, laneCount, hashes) ==>
      x.lane.lane < laneCount
  {
    hide EpochOf, LaneUpTo, FlushedLanes;
    var epoch := EpochOf(batch, hashes, lo, hi);
    forall x | x in FlushedLanes(step, epoch, batch, laneCount, hashes) ensures x.lane.lane < laneCount {
      FlushedLane(step, epoch, batch, laneCount, hashes, x);
    }
  }

  lemma SelectEach(labelOf: Item -> nat, x: Item, y: Item)
    requires labelOf(x) == 0 && labelOf(y) == 1
    ensures Select(HasLabel(labelOf, 0), [y] + [x]) == [x] && Select(HasLabel(labelOf, 1), [y] + [x]) == [y]
  {
    SelectConcat(HasLabel(labelOf, 0), [y], [x]);
    SelectConcat(HasLabel(labelOf, 1), [y], [x]);
  }

  lemma LaneOrder(hashes: Hashes) returns (order: seq<PlanLane>)
    requires LaneOf(EpochOf(History(), hashes, 0, 2), 2, hashes.component, 0) == 1
    requires LaneOf(EpochOf(History(), hashes, 0, 2), 2, hashes.component, 1) == 0
    ensures CommitOrder(order, FlushedLanes(0, EpochOf(History(), hashes, 0, 2), History(), 2, hashes))
    ensures |order| == 2 && order[0].lane.items == [Item(1, 0, Move(), ACCOUNTS)]
    ensures order[1].lane.items == [Item(0, 0, Rewrite(), ACCOUNTS)]
  {
    hide EpochOf, FlushedLanes, LaneOf, ItemsOf, BatchItems, Select, HasLabel;
    HistoryIsEpoch();
    HistoryItems();
    hide EpochOk, SourceOk;
    var epoch, batch := EpochOf(History(), hashes, 0, 2), History();
    var lanes := FlushedLanes(0, epoch, batch, 2, hashes);
    var labelOf := LaneLabel(epoch, 2, hashes.component, 0);
    StepLanes(0, batch, hashes, 0, 2, 2);
    FlushedLaneNumbers(0, batch, hashes, 0, 2, 2);
    var rewrite, move := Item(0, 0, Rewrite(), ACCOUNTS), Item(1, 0, Move(), ACCOUNTS);
    assert BatchItems(batch, 0, 2) == [rewrite] + [move];
    assert rewrite in BatchItems(batch, 0, 2) && move in BatchItems(batch, 0, 2);
    var first :| first in lanes && first.lane.lane == labelOf(move);
    var second :| second in lanes && second.lane.lane == labelOf(rewrite);
    assert labelOf(move) == LaneOf(epoch, 2, hashes.component, 1);
    assert labelOf(rewrite) == LaneOf(epoch, 2, hashes.component, 0);
    SelectEach(labelOf, move, rewrite);
    order := [first, second];
  }

  lemma CommitTwo(sem: Semantics, db: Option<Database>, first: PlanLane, second: PlanLane)
    ensures CommitLanes(sem, db, [first, second]) ==
      Run(sem, Run(sem, db, Rewritten(first.lane.items)), Rewritten(second.lane.items))
  {
    hide Run, Rewritten;
    var middle := Run(sem, db, Rewritten(first.lane.items));
    assert [first, second][1..] == [second] && [second][1..] == [];
    assert CommitLanes(sem, middle, [second]) == Run(sem, middle, Rewritten(second.lane.items));
  }

  /** For every key hash that tells the two keys apart there is a component hash for which both
      commit orders of the planned step succeed and the targets differ: the hypothesis of
      `ReplaySerializable` cannot be dropped. */
  lemma MixedKeysDiverge(sem: Semantics, hashes: Hashes) returns (component: seq<Digest> -> nat, order: seq<PlanLane>)
    requires hashes.key(RowKey(ACCOUNTS, Id(2))) != hashes.key(TableKey(ACCOUNTS))
    ensures EpochOk(History(), 0, 2) && SourceOk(History())
    ensures
      var chosen := Hashes(hashes.key, component);
      CommitOrder(order, FlushedLanes(0, EpochOf(History(), chosen, 0, 2), History(), 2, chosen))
    ensures CommitLanes(sem, Some(Before()), order).Some?
    ensures Run(sem, Some(Before()), BatchItems(History(), 0, 2)).Some?
    ensures CommitLanes(sem, Some(Before()), order) != Run(sem, Some(Before()), BatchItems(History(), 0, 2))
  {
    hide EpochOf, EpochOk, SourceOk, FlushedLanes, LaneOf, Rewritten, BatchItems, Run, Connected;
    HistoryIsEpoch();
    HistoryUnconnected(hashes);
    var epoch := EpochOf(History(), hashes, 0, 2);
    component := Separating(epoch, 0);
    SeparatedLanes(epoch, 0, 1);
    EpochIgnoresComponent(History(), hashes, Hashes(hashes.key, component), 0, 2);
    order := LaneOrder(Hashes(hashes.key, component));
    RewrittenOne(Item(0, 0, Rewrite(), ACCOUNTS));
    RewrittenOne(Item(1, 0, Move(), ACCOUNTS));
    CommitTwo(sem, Some(Before()), order[0], order[1]);
    assert order == [order[0], order[1]];
    MoveFirstOutcome(sem);
    SourceOrderOutcome(sem);
    var left, right := map[Id(3) := Account(3, 98), Id(2) := Account(2, 98)], map[Id(3) := Account(3, 98)];
    assert Id(2) in left && Id(2) !in right;
    assert map[1 := left][1] == left && map[1 := right][1] == right;
  }
}
