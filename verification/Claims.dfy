/** Replay claims, receipts and the generation fence: the durable rows on the target and what each
    target transaction does to them (internal/cdc/replay_claim.go, internal/cdc/progress_identity.go
    and internal/cdc/applier.go:705-925). Digests and the fence string are injective encodings, so
    a claim stands for its own digest and a fence for the claim it names. A step that returns
    `None` is a rejected or rolled-back target transaction. */
module Claims {
  import opened Wrappers
  import opened Model
  import opened Target
  import opened Dependence
  import opened Planner
  import opened PlanTotals
  import opened LaneRewrite
  import opened Serializability
  import opened Schedule

  /** The effective generation of a stream: the configured one, or the fence of a claim. */
  datatype Generation = Configured(name: Bytes) | Fenced(name: Bytes, claim: Claim)

  datatype Claim = Claim(
    generation: Bytes,
    startGeneration: Generation,
    startLsn: Lsn,
    endLsn: Lsn,
    laneCount: nat,
    batch: seq<Transaction>,
    works: seq<Work>,
    transactions: nat,
    changes: nat)

  function FenceOf(c: Claim): Generation {
    Fenced(c.generation, c)
  }

  datatype Identity = Identity(base: Bytes, effective: Generation, started: bool)

  datatype Progress = Progress(lsn: Lsn, generation: Generation, transactions: nat, rows: nat)

  /** The durable target rows of one stream, and the replayed data. `receipts` are the works of the
      active claim whose completion is committed. */
  datatype Store = Store(
    identity: Option<Identity>,
    progress: Option<Progress>,
    claim: Option<Claim>,
    receipts: set<Work>,
    data: Database)

  function InitialStore(data: Database): Store {
    Store(None, None, None, {}, data)
  }

  // --- The work manifest ---

  predicate WorkRowOk(w: Work) {
    w.expectedTransactions > 0 &&
    match w.kind
    case ParallelLane => w.lane >= 0 && w.work == w.lane
    case SerialTransaction => w.lane == -1 && w.work == 0 && w.expectedTransactions == 1
  }

  predicate RowBefore(v: Work, w: Work) {
    v.step < w.step || (v.step == w.step && v.work < w.work)
  }

  /** validateReplayClaimManifest. */
  predicate ManifestValid(c: Claim) {
    && FenceOf(c) != c.startGeneration
    && (forall i :: 0 <= i < |c.works| ==> WorkRowOk(c.works[i]))
    && (forall i :: 0 < i < |c.works| ==> RowBefore(c.works[i - 1], c.works[i]))
    && WorkTransactions(c.works) == c.transactions
    && WorkChanges(c.works) == c.changes
  }

  // --- The target transactions ---

  /** ensureReplayClaim: an existing claim must be the rebuilt one; a new claim starts at the
      committed progress and fences the effective generation it was built under. */
  function EnsureClaimStep(s: Store, c: Claim): Option<Store> {
    if s.identity.None? || s.identity.value.base != c.generation then None
    else if s.claim.Some? then
      if s.identity.value.effective != FenceOf(s.claim.value) || s.claim.value != c || !ManifestValid(c) then None
      else Some(s)
    else if FenceOf(c) == s.identity.value.effective || c.startGeneration != s.identity.value.effective
            || !ManifestValid(c) then None
    else if s.progress.None? && c.startLsn != 0 then None
    else
      var progress := if s.progress.None? then Progress(0, c.startGeneration, 0, 0) else s.progress.value;
      if progress.lsn != c.startLsn || progress.generation != c.startGeneration then None
      else Some(Store(Some(Identity(s.identity.value.base, FenceOf(c), true)), Some(progress), Some(c), {}, s.data))
  }

  /** The claim is active and its fence is the effective generation. */
  predicate HoldsFence(s: Store, c: Claim) {
    && s.claim == Some(c)
    && s.identity.Some?
    && s.identity.value.base == c.generation
    && s.identity.value.effective == FenceOf(c)
  }

  /** Every work of an earlier step has its receipt. */
  predicate PriorDone(s: Store, c: Claim, step: nat) {
    forall v :: v in c.works && v.step < step ==> v in s.receipts
  }

  function ClaimItems(c: Claim): seq<Item> {
    BatchItems(c.batch, 0, |c.batch|)
  }

  /** The DML of one work: a lane is rewritten, a serial transaction is not. */
  ghost function WorkEffect(sem: Semantics, c: Claim, w: Work, data: Database): Option<Database> {
    var items := Select(CoveredBy(w), ClaimItems(c));
    Run(sem, Some(data), if w.kind.ParallelLane? then Rewritten(items) else items)
  }

  /** DML and receipt of one work, committed together (replayWorkCompletionSQL). */
  ghost function CompleteWork(sem: Semantics, s: Store, c: Claim, w: Work): Option<Store> {
    if !HoldsFence(s, c) || w !in c.works || w in s.receipts then None
    else
      match WorkEffect(sem, c, w, s.data)
      case None => None
      case Some(data) => Some(s.(receipts := s.receipts + {w}, data := data))
  }

  /** beginReplayClaimWork and executeReplayWork: a committed work is skipped. */
  ghost function CommitWorkStep(sem: Semantics, s: Store, c: Claim, w: Work): Option<Store> {
    if !HoldsFence(s, c) || w !in c.works || !PriorDone(s, c, w.step) then None
    else if w in s.receipts then Some(s)
    else CompleteWork(sem, s, c, w)
  }

  /** A contiguous run of serial works whose receipts form a committed prefix
      (beginSerialReplayWorkGroup). */
  predicate SerialGroup(s: Store, c: Claim, works: seq<Work>) {
    && works != []
    && (forall i :: 0 <= i < |works| ==> works[i] in c.works && works[i].kind.SerialTransaction?)
    && (forall i :: 0 < i < |works| ==> works[i].step == works[i - 1].step + 1)
    && PriorDone(s, c, works[0].step)
    && (forall i, j :: 0 <= i < j < |works| && works[j] in s.receipts ==> works[i] in s.receipts)
  }

  ghost function CompleteWorks(sem: Semantics, s: Store, c: Claim, works: seq<Work>): Option<Store>
    decreases |works|
  {
    if works == [] then Some(s)
    else if works[0] in s.receipts then CompleteWorks(sem, s, c, works[1..])
    else
      match CompleteWork(sem, s, c, works[0])
      case None => None
      case Some(next) => CompleteWorks(sem, next, c, works[1..])
  }

  /** The group commits all of its missing works or none (executeSerialReplayWorkGroup). */
  ghost function CommitSerialGroupStep(sem: Semantics, s: Store, c: Claim, works: seq<Work>): Option<Store> {
    if !HoldsFence(s, c) || !SerialGroup(s, c, works) then None
    else CompleteWorks(sem, s, c, works)
  }

  /** finalizeReplayClaim: progress moves to EndLSN once every receipt exists. */
  function FinalizeStep(s: Store, c: Claim): Option<Store> {
    if !HoldsFence(s, c) || !ManifestValid(c) || (exists w :: w in c.works && w !in s.receipts) then None
    else if s.progress.None? || s.progress.value.lsn != c.startLsn
            || s.progress.value.generation != c.startGeneration then None
    else
      var p := s.progress.value;
      Some(Store(s.identity,
                 Some(Progress(c.endLsn, FenceOf(c), p.transactions + c.transactions, p.rows + c.changes)),
                 None, {}, s.data))
  }

  /** streamProgressSQL: compare-and-set of the progress row under the effective generation. */
  function StreamProgress(
    s: Store, generation: Generation, expected: Lsn, remote: Lsn, transactions: nat, rows: nat): Option<Store>
  {
    if s.identity.None? || s.identity.value.effective != generation then None
    else
      var identity := Some(s.identity.value.(started := true));
      match s.progress
      case None =>
        if expected != 0 then None
        else Some(s.(identity := identity, progress := Some(Progress(remote, generation, transactions, rows))))
      case Some(p) =>
        if p.generation != generation || p.lsn != expected || remote <= p.lsn then None
        else Some(s.(identity := identity,
                     progress := Some(Progress(remote, generation, p.transactions + transactions, p.rows + rows))))
  }

  /** A standalone batch: its DML and its progress commit together (applyTransactionBatch). */
  ghost function StandaloneStep(
    sem: Semantics, s: Store, generation: Generation, expected: Lsn, remote: Lsn,
    items: seq<Item>, transactions: nat, rows: nat): Option<Store>
  {
    match Run(sem, Some(s.data), items)
    case None => None
    case Some(data) => StreamProgress(s.(data := data), generation, expected, remote, transactions, rows)
  }

  /** EnsureStreamProgressIdentity for a stream with the given configured generation. */
  function EnsureIdentityStep(s: Store, name: Bytes, freshSetup: bool, copied: bool): Option<Store> {
    if s.identity.Some? && s.identity.value.base != name then None
    else if s.identity.None? && s.progress.Some? && s.progress.value.generation != Configured(name) then None
    else if s.identity.None? && copied && !freshSetup then None
    else
      var identity := if s.identity.Some? then s.identity.value
                      else Identity(name, Configured(name), s.progress.Some?);
      if s.claim.Some? && (s.claim.value.generation != identity.base || FenceOf(s.claim.value) != identity.effective)
      then None
      else
        var expected := if s.claim.Some? then s.claim.value.startGeneration else identity.effective;
        if s.progress.Some? then
          if s.progress.value.generation != expected then None
          else Some(s.(identity := Some(identity.(started := true))))
        else if s.claim.Some? || ((identity.started || copied) && !freshSetup) then None
        else Some(s.(identity := Some(identity)))
  }
}
