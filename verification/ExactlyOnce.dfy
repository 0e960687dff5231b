/** The replay protocol as a state machine. Any number of appliers, current or stale, submit target
    transactions with whatever claim, work, generation or position they remember; a crash only
    forgets applier memory, which the store does not contain. In every reachable state the target
    data is the source prefix up to the progress LSN plus exactly the works with receipts. */
module ExactlyOnce {
  import opened Wrappers
  import opened Model
  import opened Target
  import opened Dependence
  import opened Components
  import opened Planner
  import opened PlanShape
  import opened PlanTotals
  import opened LaneRewrite
  import opened Serializability
  import opened Execution
  import opened Schedule
  import opened Claims

  /** What does not change while the stream is replayed. */
  datatype System = System(
    sem: Semantics,
    initial: Database,
    name: Bytes,
    source: seq<Transaction>,
    hashes: Hashes)

  function LsnAt(source: seq<Transaction>, n: nat): Lsn
    requires n <= |source|
  {
    if n == 0 then 0 else source[n - 1].endLsn
  }

  /** The target after source-order replay of the first `n` source transactions. */
  ghost function Replayed(sys: System, n: nat): Option<Database>
    requires n <= |sys.source|
  {
    Run(sys.sem, Some(sys.initial), BatchItems(sys.source, 0, n))
  }

  /** No epoch of any batch separates a row-keyed from a table-keyed change of one row. */
  ghost predicate UniformlyKeyed(source: seq<Transaction>, hashes: Hashes) {
    forall lo, hi, k, l {:trigger EpochOk(source[lo..hi], k, l)} |
      0 <= lo <= hi <= |source| && EpochOk(source[lo..hi], k, l) :: OverlapsJoined(source[lo..hi], hashes, k, l)
  }

  ghost predicate SystemOk(sys: System) {
    && (forall i, j :: 0 <= i < j < |sys.source| ==> sys.source[i].endLsn < sys.source[j].endLsn)
    && (forall i :: 0 <= i < |sys.source| ==> 0 < sys.source[i].endLsn)
    && SourceOk(sys.source)
    && UniformlyKeyed(sys.source, sys.hashes)
    && (forall n :: 0 <= n <= |sys.source| ==> Replayed(sys, n).Some?)
  }

  /** The claim a planner builds for source transactions `lo..hi` under `generation`. */
  ghost function BuildClaim(sys: System, generation: Generation, lo: nat, hi: nat, laneCount: nat): Claim
    requires lo < hi <= |sys.source| && laneCount > 0
  {
    var batch := sys.source[lo..hi];
    Claim(sys.name, generation, LsnAt(sys.source, lo), LsnAt(sys.source, hi), laneCount, batch,
          PlanOf(batch, laneCount, sys.hashes).works, |batch|, BatchChanges(batch, |batch|))
  }

  /** One target transaction submitted by some applier. */
  datatype Op =
    | EnsureIdentity(freshSetup: bool, copied: bool)
    | EnsureClaim(generation: Generation, lo: nat, hi: nat, laneCount: nat)
    | CommitWork(claim: Claim, work: Work)
    | CommitSerialGroup(claim: Claim, works: seq<Work>)
    | Finalize(claim: Claim)
    | Standalone(generation: Generation, lo: nat, hi: nat)

  /** Appliers read complete source transactions in order. */
  predicate OpOk(sys: System, op: Op) {
    match op
    case EnsureClaim(_, lo, hi, laneCount) => lo < hi <= |sys.source| && laneCount > 0
    case Standalone(_, lo, hi) => lo < hi <= |sys.source|
    case _ => true
  }

  ghost function Submit(sys: System, s: Store, op: Op): Option<Store>
    requires OpOk(sys, op)
  {
    match op
    case EnsureIdentity(freshSetup, copied) => EnsureIdentityStep(s, sys.name, freshSetup, copied)
    case EnsureClaim(generation, lo, hi, laneCount) => EnsureClaimStep(s, BuildClaim(sys, generation, lo, hi, laneCount))
    case CommitWork(c, w) => CommitWorkStep(sys.sem, s, c, w)
    case CommitSerialGroup(c, works) => CommitSerialGroupStep(sys.sem, s, c, works)
    case Finalize(c) => FinalizeStep(s, c)
    case Standalone(generation, lo, hi) =>
      StandaloneStep(sys.sem, s, generation, LsnAt(sys.source, lo), LsnAt(sys.source, hi),
                     BatchItems(sys.source, lo, hi), hi - lo,
                     BatchChanges(sys.source[lo..hi], hi - lo))
  }

  /** A rejected transaction leaves the store as it was. */
  ghost function Next(sys: System, s: Store, op: Op): Store
    requires OpOk(sys, op)
  {
    match Submit(sys, s, op)
    case None => s
    case Some(next) => next
  }

  ghost function Execute(sys: System, ops: seq<Op>): Store
    requires forall i :: 0 <= i < |ops| ==> OpOk(sys, ops[i])
  {
    if ops == [] then InitialStore(sys.initial)
    else Next(sys, Execute(sys, ops[..|ops| - 1]), ops[|ops| - 1])
  }

  // --- The invariant ---

  /** Generations are ordered by where the claim that fenced them starts. */
  function Rank(g: Generation): int {
    match g
    case Configured(_) => -1
    case Fenced(_, c) => c.startLsn
  }

  /** The change belongs to a work whose receipt is committed. */
  ghost function DoneBy(receipts: set<Work>): Item -> bool {
    (x: Item) => exists w :: w in receipts && Covers(w, x.transactionIndex)
  }

  /** Receipts of a step come after all receipts of earlier steps. */
  ghost predicate Closed(works: set<Work>, receipts: set<Work>) {
    forall v, w :: w in receipts && v in works && v.step < w.step ==> v in receipts
  }

  function WorkSet(c: Claim): set<Work> {
    set w | w in c.works
  }

  /** No claim is active: the data is exactly the replayed prefix. */
  ghost predicate Idle(sys: System, s: Store, n: nat)
    requires n <= |sys.source|
  {
    && s.claim.None? && s.receipts == {}
    && Some(s.data) == Replayed(sys, n)
    && (s.identity.Some? ==>
          && Rank(s.identity.value.effective) < LsnAt(sys.source, n)
          && (s.progress.Some? ==> s.progress.value.generation == s.identity.value.effective))
  }

  /** A claim of source transactions `n..hi` is active: the data is the replayed prefix plus
      exactly the works with receipts. */
  ghost predicate Active(sys: System, s: Store, n: nat, c: Claim, hi: nat) {
    && n < hi <= |sys.source| && c.laneCount > 0
    && c == BuildClaim(sys, c.startGeneration, n, hi, c.laneCount)
    && HoldsFence(s, c)
    && s.progress.Some? && s.progress.value.generation == c.startGeneration
    && Rank(c.startGeneration) < c.startLsn
    && s.receipts <= WorkSet(c)
    && Closed(WorkSet(c), s.receipts)
    && Some(s.data) == Run(sys.sem, Replayed(sys, n), Select(DoneBy(s.receipts), ClaimItems(c)))
  }

  ghost predicate Invariant(sys: System, s: Store, n: nat) {
    && n <= |sys.source|
    && (s.identity.None? ==> s.progress.None? && s.claim.None?)
    && (s.identity.Some? ==> s.identity.value.base == sys.name)
    && (s.progress.None? ==> n == 0 && s.claim.None?)
    && (s.progress.Some? ==>
          && s.progress.value.lsn == LsnAt(sys.source, n)
          && s.progress.value.transactions == n
          && s.progress.value.rows == BatchChanges(sys.source, n))
    && match s.claim
       case None => Idle(sys, s, n)
       case Some(c) => exists hi :: Active(sys, s, n, c, hi)
  }

  // --- Replaying a batch is replaying its part of the source ---

  /** The same changes, perhaps at other positions. */
  predicate Alike(xs: seq<Item>, ys: seq<Item>) {
    |xs| == |ys| && forall i :: 0 <= i < |xs| ==> xs[i].change == ys[i].change && xs[i].relation == ys[i].relation
  }

  lemma AlikeConcat(xs: seq<Item>, ys: seq<Item>, vs: seq<Item>, ws: seq<Item>)
    requires Alike(xs, ys) && Alike(vs, ws)
    ensures Alike(xs + vs, ys + ws)
  {
  }

  /** Replay depends only on the changes and their relations, not on their positions. */
  lemma {:induction false} RunIgnoresPositions(sem: Semantics, db: Option<Database>, xs: seq<Item>, ys: seq<Item>)
    requires Alike(xs, ys)
    ensures Run(sem, db, xs) == Run(sem, db, ys)
    decreases |xs|
  {
    if xs != [] && db.Some? {
      SameEffect(sem, db.value, xs[0], ys[0]);
      RunIgnoresPositions(sem, Apply(sem, db.value, xs[0]), xs[1..], ys[1..]);
    }
  }

  lemma SameEffect(sem: Semantics, db: Database, x: Item, y: Item)
    requires x.change == y.change && x.relation == y.relation
    ensures Apply(sem, db, x) == Apply(sem, db, y)
  {
    hide SqlStep;
  }

  /** The items of a transaction differ by its position alone. */
  lemma SameContent(i: nat, j: nat, t: Transaction)
    ensures Alike(ItemsOf(i, t), ItemsOf(j, t))
  {
  }

  lemma {:induction false} SliceItems(source: seq<Transaction>, lo: nat, hi: nat, m: nat)
    requires lo <= hi <= |source| && m <= hi - lo
    ensures Alike(BatchItems(source[lo..hi], 0, m), BatchItems(source, lo, lo + m))
    decreases m
  {
    hide ItemsOf, Alike;
    if m == 0 {
      assert Alike(BatchItems(source[lo..hi], 0, 0), BatchItems(source, lo, lo)) by {
        NothingAlike();
      }
    } else {
      SliceItems(source, lo, hi, m - 1);
      var t := source[lo + m - 1];
      assert source[lo..hi][m - 1] == t;
      SameContent(m - 1, lo + m - 1, t);
      AlikeConcat(BatchItems(source[lo..hi], 0, m - 1), BatchItems(source, lo, lo + (m - 1)),
                  ItemsOf(m - 1, t), ItemsOf(lo + m - 1, t));
    }
  }

  lemma NothingAlike()
    ensures Alike([], [])
  {
  }

  lemma {:induction false} SliceChanges(source: seq<Transaction>, lo: nat, hi: nat, m: nat)
    requires lo <= hi <= |source| && m <= hi - lo
    ensures BatchChanges(source, lo) + BatchChanges(source[lo..hi], m) == BatchChanges(source, lo + m)
    decreases m
  {
    if m > 0 {
      SliceChanges(source, lo, hi, m - 1);
      assert source[lo..hi][m - 1] == source[lo + m - 1];
    }
  }

  /** Replaying the whole batch of a claim extends the replayed prefix to its end. */
  lemma BatchExtendsPrefix(sys: System, lo: nat, hi: nat)
    requires lo <= hi <= |sys.source|
    ensures Run(sys.sem, Replayed(sys, lo), BatchItems(sys.source, lo, hi)) == Replayed(sys, hi)
    ensures
      var batch := sys.source[lo..hi];
      Run(sys.sem, Replayed(sys, lo), BatchItems(batch, 0, |batch|)) == Replayed(sys, hi)
  {
    hide BatchItems, BatchChanges, Run, Alike;
    BatchItemsConcat(sys.source, 0, lo, hi);
    assert |sys.source[lo..hi]| == hi - lo;
    RunConcat(sys.sem, Some(sys.initial), BatchItems(sys.source, 0, lo), BatchItems(sys.source, lo, hi));
    SliceItems(sys.source, lo, hi, hi - lo);
    RunIgnoresPositions(
      sys.sem, Replayed(sys, lo), BatchItems(sys.source[lo..hi], 0, hi - lo), BatchItems(sys.source, lo, hi));
  }

  // --- Committing works of a schedule ---

  lemma DoneSeparable(items: seq<Item>, works: set<Work>, receipts: set<Work>)
    requires ScheduleOk(items, works) && receipts <= works && Closed(works, receipts)
    ensures Separable(DoneBy(receipts), (x: Item) => !DoneBy(receipts)(x), items)
  {
    hide Independent, Covers;
    var done, rest := DoneBy(receipts), (x: Item) => !DoneBy(receipts)(x);
    forall p, q | 0 <= p < q < |items| && rest(items[p]) && done(items[q])
      ensures Independent(items[p], items[q])
    {
      assert items[p] in items;
      var u :| u in works && Covers(u, items[p].transactionIndex);
      var v :| v in receipts && Covers(v, items[q].transactionIndex);
      assert u !in receipts;
      assert v.step <= u.step;
      assert InOrder(items, v, u);
    }
  }

  lemma NextSeparable(items: seq<Item>, works: set<Work>, receipts: set<Work>, w: Work)
    requires ScheduleOk(items, works) && receipts <= works && Closed(works, receipts)
    requires w in works && w !in receipts
    ensures Separable(DoneBy(receipts), CoveredBy(w), items)
    ensures forall x :: x in items ==> !(DoneBy(receipts)(x) && CoveredBy(w)(x))
  {
    hide Independent, Covers;
    forall p, q | 0 <= p < q < |items| && CoveredBy(w)(items[p]) && DoneBy(receipts)(items[q])
      ensures Independent(items[p], items[q])
    {
      var v :| v in receipts && Covers(v, items[q].transactionIndex);
      assert v.step <= w.step;
      assert InOrder(items, v, w);
    }
  }

  lemma {:induction false} RunFailed(sem: Semantics, items: seq<Item>)
    ensures Run(sem, None, items).None?
  {
  }

  /** The committed works of a schedule replay without failure whenever the whole batch does. */
  lemma DoneReplays(sem: Semantics, base: Option<Database>, items: seq<Item>, works: set<Work>, receipts: set<Work>)
    requires ScheduleOk(items, works) && receipts <= works && Closed(works, receipts)
    requires Run(sem, base, items).Some?
    ensures Run(sem, base, Select(DoneBy(receipts), items)).Some?
    ensures receipts == works ==> Run(sem, base, Select(DoneBy(receipts), items)) == Run(sem, base, items)
  {
    hide Run, InOrder, LaneItems;
    var done, rest := DoneBy(receipts), (x: Item) => !DoneBy(receipts)(x);
    DoneSeparable(items, works, receipts);
    Merge(sem, base, done, rest, items);
    SelectAll(x => done(x) || rest(x), items);
    RunFailed(sem, Select(rest, items));
    if receipts == works {
      SelectAll(done, items);
    }
  }

  /** Committing one more work adds exactly its changes to what has been replayed. */
  lemma CommitAddsWork(
    sem: Semantics, base: Option<Database>, items: seq<Item>, works: set<Work>, receipts: set<Work>, w: Work)
    requires ScheduleOk(items, works) && receipts <= works
    requires Closed(works, receipts) && Closed(works, receipts + {w}) && w in works && w !in receipts
    requires Run(sem, base, items).Some?
    ensures
      var before := Run(sem, base, Select(DoneBy(receipts), items));
      var mine := Select(CoveredBy(w), items);
      && before.Some?
      && Run(sem, before, mine) == Run(sem, base, Select(DoneBy(receipts + {w}), items))
      && Run(sem, before, mine).Some?
      && (w.kind.ParallelLane? ==> Run(sem, before, Rewritten(mine)) == Run(sem, before, mine))
  {
    hide Run, InOrder, LaneItems, Rewritten, Covers;
    var done, mine := DoneBy(receipts), CoveredBy(w);
    DoneReplays(sem, base, items, works, receipts);
    DoneReplays(sem, base, items, works, receipts + {w});
    NextSeparable(items, works, receipts, w);
    Merge(sem, base, done, mine, items);
    SelectAgree(x => done(x) || mine(x), DoneBy(receipts + {w}), items);
    if w.kind.ParallelLane? {
      RewritingPreservesRun(sem, Run(sem, base, Select(done, items)).value, Select(mine, items));
    }
  }
}
