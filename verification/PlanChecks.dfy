/** The executor's own checks of a plan before it sends anything (validateReplayPlanLane and
    validateReplayPlanExecution, internal/cdc/replay_execute.go:254-343), what passing them means,
    and that every built plan passes. */
module PlanChecks {
  import opened Wrappers
  import opened Model
  import opened Target
  import opened Dependence
  import opened Components
  import opened Planner
  import opened PlanShape
  import opened PlanTotals
  import opened LaneRewrite
  import opened Serializability
  import opened Execution
  import opened Schedule

  // --- One lane ---

  /** The changes of the listed transactions, in order. */
  function ItemsOfAll(indexes: seq<nat>, batch: seq<Transaction>): seq<Item>
    requires InBatch(indexes, batch)
  {
    if indexes == [] then []
    else
      var init := indexes[..|indexes| - 1];
      ItemsOfAll(init, batch) + ItemsOf(indexes[|indexes| - 1], batch[indexes[|indexes| - 1]])
  }

  /** A lane lists its transactions in source order, none spilled, carries exactly their changes in
      source order, and its receipt counts them. */
  predicate LaneValid(lane: PlanLane, batch: seq<Transaction>) {
    var indexes := lane.lane.transactionIndexes;
    && InBatch(indexes, batch)
    && (forall a, b :: 0 <= a < b < |indexes| ==> indexes[a] < indexes[b])
    && (forall a :: 0 <= a < |indexes| ==> !batch[indexes[a]].spilled)
    && lane.lane.items == ItemsOfAll(indexes, batch)
    && lane.work.expectedTransactions == |indexes|
    && lane.work.expectedChanges == ChangesIn(indexes, batch)
  }

  lemma {:induction false} ItemsOfAllPrefix(indexes: seq<nat>, n: nat, batch: seq<Transaction>)
    requires InBatch(indexes, batch) && n <= |indexes|
    ensures InBatch(indexes[..n], batch)
    ensures |ItemsOfAll(indexes[..n], batch)| <= |ItemsOfAll(indexes, batch)|
    ensures ItemsOfAll(indexes[..n], batch) == ItemsOfAll(indexes, batch)[..|ItemsOfAll(indexes[..n], batch)|]
    decreases |indexes|
  {
    hide ItemsOf;
    if n == |indexes| {
      assert indexes[..n] == indexes;
    } else {
      ItemsOfAllPrefix(indexes[..|indexes| - 1], n, batch);
      assert indexes[..|indexes| - 1][..n] == indexes[..n];
    }
  }

  /** The changes of one transaction occupy the next positions of the lane. */
  method CheckTransaction(items: seq<Item>, start: nat, index: nat, t: Transaction) returns (ok: bool)
    requires start <= |items|
    ensures ok <==> start + |t.changes| <= |items| && items[start..start + |t.changes|] == ItemsOf(index, t)
  {
    for c := 0 to |t.changes|
      invariant start + c <= |items| && items[start..start + c] == ItemsUpTo(index, t, c)
    {
      if start + c >= |items| {
        return false;
      }
      if items[start + c] != ItemAt(index, t, c) {
        assert start + |t.changes| <= |items| ==> items[start..start + |t.changes|][c] == items[start + c];
        assert ItemsOf(index, t)[c] == ItemAt(index, t, c);
        return false;
      }
      assert items[start..start + c + 1] == items[start..start + c] + [items[start + c]];
    }
    ok := true;
  }

  lemma ExtendItems(indexes: seq<nat>, i: nat, batch: seq<Transaction>)
    requires InBatch(indexes, batch) && i < |indexes|
    ensures InBatch(indexes[..i], batch) && InBatch(indexes[..i + 1], batch)
    ensures ItemsOfAll(indexes[..i + 1], batch) == ItemsOfAll(indexes[..i], batch) + ItemsOf(indexes[i], batch[indexes[i]])
    ensures ChangesIn(indexes[..i + 1], batch) == ChangesIn(indexes[..i], batch) + |batch[indexes[i]].changes|
  {
    hide ItemsOf;
    assert indexes[..i + 1][..i] == indexes[..i];
  }

  lemma NextListed(indexes: seq<nat>, i: nat, batch: seq<Transaction>)
    requires i < |indexes| && InBatch(indexes[..i], batch) && indexes[i] < |batch|
    ensures InBatch(indexes[..i + 1], batch)
    ensures ItemsOfAll(indexes[..i + 1], batch) == ItemsOfAll(indexes[..i], batch) + ItemsOf(indexes[i], batch[indexes[i]])
    ensures ChangesIn(indexes[..i + 1], batch) == ChangesIn(indexes[..i], batch) + |batch[indexes[i]].changes|
  {
    hide ItemsOf;
    assert indexes[..i + 1] == indexes[..i] + [indexes[i]];
    assert indexes[..i + 1][..i] == indexes[..i];
    assert indexes[..i + 1][..i + 1] == indexes[..i + 1];
    ExtendItems(indexes[..i + 1], i, batch);
  }

  /** A lane that does not continue with the changes of its next transaction is not valid. */
  lemma MissingTransaction(lane: PlanLane, batch: seq<Transaction>, i: nat, itemIndex: nat)
    requires
      var indexes, items := lane.lane.transactionIndexes, lane.lane.items;
      && i < |indexes| && InBatch(indexes[..i], batch) && indexes[i] < |batch| && itemIndex <= |items|
      && items[..itemIndex] == ItemsOfAll(indexes[..i], batch)
      && var t := batch[indexes[i]];
         !(itemIndex + |t.changes| <= |items| && items[itemIndex..itemIndex + |t.changes|] == ItemsOf(indexes[i], t))
    ensures !LaneValid(lane, batch)
  {
    hide ItemsOfAll, ChangesIn;
    var indexes := lane.lane.transactionIndexes;
    if InBatch(indexes, batch) {
      NextListed(indexes, i, batch);
      ItemsOfAllPrefix(indexes, i + 1, batch);
      NextTransaction(
        ItemsOfAll(indexes[..i], batch), ItemsOf(indexes[i], batch[indexes[i]]), ItemsOfAll(indexes, batch));
    }
  }

  method ValidateReplayPlanLane(lane: PlanLane, batch: seq<Transaction>) returns (ok: bool)
    ensures ok <==> LaneValid(lane, batch)
  {
    hide ItemsUpTo, ItemsOfAll, ChangesIn, ItemsOf;
    var indexes, items := lane.lane.transactionIndexes, lane.lane.items;
    var itemIndex: nat, expectedChanges: nat, previous: int := 0, 0, -1;
    assert ItemsOfAll([], batch) == [] && ChangesIn([], batch) == 0 by {
      NothingListed(batch);
    }
    for i := 0 to |indexes|
      invariant InBatch(indexes[..i], batch) && itemIndex <= |items|
      invariant previous == if i == 0 then -1 else indexes[i - 1]
      invariant forall a, b :: 0 <= a < b < i ==> indexes[a] < indexes[b]
      invariant forall a :: 0 <= a < i ==> !batch[indexes[..i][a]].spilled
      invariant items[..itemIndex] == ItemsOfAll(indexes[..i], batch)
      invariant expectedChanges == ChangesIn(indexes[..i], batch)
    {
      var index := indexes[i];
      if index <= previous || index >= |batch| {
        assert i > 0 && index <= previous ==> indexes[i - 1] >= indexes[i];
        return false;
      }
      NextListed(indexes, i, batch);
      var t := batch[index];
      if t.spilled {
        return false;
      }
      var present := CheckTransaction(items, itemIndex, index, t);
      if !present {
        assert !LaneValid(lane, batch) by {
          MissingTransaction(lane, batch, i, itemIndex);
        }
        return false;
      }
      assert items[..itemIndex + |t.changes|] == items[..itemIndex] + items[itemIndex..itemIndex + |t.changes|];
      expectedChanges := expectedChanges + |t.changes|;
      itemIndex := itemIndex + |t.changes|;
      previous := index;
    }
    assert indexes[..|indexes|] == indexes;
    assert items[..|items|] == items;
    ok := itemIndex == |items| && lane.work.expectedTransactions == |indexes|
          && lane.work.expectedChanges == expectedChanges;
  }

  lemma NothingListed(batch: seq<Transaction>)
    ensures ItemsOfAll([], batch) == [] && ChangesIn([], batch) == 0
  {
  }

  lemma NextTransaction(before: seq<Item>, mine: seq<Item>, all: seq<Item>)
    requires |before| + |mine| <= |all| && before + mine == all[..|before| + |mine|]
    ensures all[|before|..|before| + |mine|] == mine
  {
    assert (before + mine)[|before|..] == mine;
  }

  // --- A whole plan ---

  /** replayPlanWork: the first work of the manifest with this step and work number. */
  function FindWork(works: seq<Work>, step: nat, work: nat): (found: Option<Work>)
    ensures found.Some? ==> found.value in works && found.value.step == step && found.value.work == work
    ensures found.None? ==> forall w :: w in works ==> w.step != step || w.work != work
  {
    if works == [] then None
    else if works[0].step == step && works[0].work == work then Some(works[0])
    else FindWork(works[1..], step, work)
  }

  /** The transactions the first `n` lanes list, lane after lane. */
  function Listed(lanes: seq<PlanLane>): seq<nat> {
    if lanes == [] then [] else Listed(lanes[..|lanes| - 1]) + lanes[|lanes| - 1].lane.transactionIndexes
  }

  ghost predicate Interval(indexes: seq<nat>, lo: nat, hi: nat) {
    forall i: nat :: i in indexes <==> lo <= i < hi
  }

  /** The step binds the transactions `lo..hi`, each exactly once. */
  ghost predicate StepValid(step: Step, k: nat, lo: nat, hi: nat, works: seq<Work>, batch: seq<Transaction>) {
    && step.index == k
    && lo <= hi <= |batch|
    && if step.serialTransaction >= 0 then
         && step.lanes == [] && step.serialTransaction == lo && hi == lo + 1
         && SerialCounted(works, k, |batch[lo].changes|)
       else
         step.lanes != [] && Distinct(Listed(step.lanes)) && Interval(Listed(step.lanes), lo, hi)
  }

  predicate SerialCounted(works: seq<Work>, k: nat, changes: nat) {
    var work := FindWork(works, k, 0);
    work.Some? && work.value.expectedTransactions == 1 && work.value.expectedChanges == changes
  }

  ghost predicate StepsValid(steps: seq<Step>, bounds: seq<nat>, works: seq<Work>, batch: seq<Transaction>) {
    && |bounds| == |steps| + 1 && bounds[0] == 0 && bounds[|steps|] == |batch|
    && forall k :: 0 <= k < |steps| ==> StepValid(steps[k], k, bounds[k], bounds[k + 1], works, batch)
  }

  /** The listed transactions are fresh ones, each listed once. */
  predicate Fresh(listed: seq<nat>, next: nat, limit: nat) {
    Distinct(listed) && forall i :: i in listed ==> next <= i < limit
  }

  predicate Marked(seen: seq<bool>, listed: seq<nat>, next: nat) {
    forall i :: 0 <= i < |seen| ==> (seen[i] <==> i < next || i in listed)
  }

  lemma AppendFresh(listed: seq<nat>, index: nat, next: nat, limit: nat)
    ensures Fresh(listed + [index], next, limit) <==>
      Fresh(listed, next, limit) && next <= index < limit && index !in listed
  {
    var more := listed + [index];
    assert forall i :: i in more <==> i in listed || i == index;
    if Fresh(more, next, limit) {
      FreshPrefix(listed, [index], next, limit);
      assert forall i :: 0 <= i < |listed| ==> more[i] == listed[i] && more[i] != more[|listed|];
    }
  }

  lemma FreshPrefix(listed: seq<nat>, more: seq<nat>, next: nat, limit: nat)
    requires Fresh(listed + more, next, limit)
    ensures Fresh(listed, next, limit)
  {
    forall i, j | 0 <= i < j < |listed| ensures listed[i] != listed[j] {
      assert (listed + more)[i] == listed[i] && (listed + more)[j] == listed[j];
    }
    assert forall i :: i in listed ==> i in listed + more;
  }

  lemma {:induction false} ListedPrefix(lanes: seq<PlanLane>, n: nat) returns (more: seq<nat>)
    requires n <= |lanes|
    ensures Listed(lanes) == Listed(lanes[..n]) + more
    decreases |lanes|
  {
    if n == |lanes| {
      assert lanes[..n] == lanes;
      more := [];
    } else {
      var rest := ListedPrefix(lanes[..|lanes| - 1], n);
      assert lanes[..|lanes| - 1][..n] == lanes[..n];
      more := rest + lanes[|lanes| - 1].lane.transactionIndexes;
    }
  }

  method ScanLanes(lanes: seq<PlanLane>, seen: array<bool>, next: nat) returns (ok: bool, covered: set<nat>)
    requires next <= seen.Length && Marked(seen[..], [], next)
    modifies seen
    ensures ok <==> Fresh(Listed(lanes), next, seen.Length)
    ensures ok ==> Marked(seen[..], Listed(lanes), next) && covered == set i | i in Listed(lanes)
  {
    hide Listed, Fresh, Distinct;
    covered := {};
    assert Listed([]) == [] && Fresh([], next, seen.Length) by {
      NothingFresh(next, seen.Length);
    }
    for l := 0 to |lanes|
      invariant Fresh(Listed(lanes[..l]), next, seen.Length) && Marked(seen[..], Listed(lanes[..l]), next)
      invariant covered == set i | i in Listed(lanes[..l])
    {
      var indexes := lanes[l].lane.transactionIndexes;
      ghost var before := Listed(lanes[..l]);
      ListedNext(lanes, l);
      assert before + indexes[..0] == before;
      for a := 0 to |indexes|
        invariant Fresh(before + indexes[..a], next, seen.Length) && Marked(seen[..], before + indexes[..a], next)
        invariant covered == set i | i in before + indexes[..a]
      {
        var index := indexes[a];
        ghost var listed := before + indexes[..a];
        assert before + indexes[..a + 1] == listed + [index];
        AppendFresh(listed, index, next, seen.Length);
        if index >= seen.Length || seen[index] {
          NotFresh(lanes, l, a, next, seen.Length);
          return false, covered;
        }
        seen[index] := true;
        covered := covered + {index};
      }
      assert indexes[..|indexes|] == indexes;
    }
    assert lanes[..|lanes|] == lanes;
    ok := true;
  }

  lemma NothingFresh(next: nat, limit: nat)
    ensures Listed([]) == [] && Fresh([], next, limit)
  {
  }

  lemma ListedNext(lanes: seq<PlanLane>, l: nat)
    requires l < |lanes|
    ensures Listed(lanes[..l + 1]) == Listed(lanes[..l]) + lanes[l].lane.transactionIndexes
  {
    assert lanes[..l + 1][..l] == lanes[..l];
  }

  lemma NotFresh(lanes: seq<PlanLane>, l: nat, a: nat, next: nat, limit: nat)
    requires l < |lanes| && a < |lanes[l].lane.transactionIndexes|
    requires !Fresh(Listed(lanes[..l]) + lanes[l].lane.transactionIndexes[..a + 1], next, limit)
    ensures !Fresh(Listed(lanes), next, limit)
  {
    hide Fresh;
    var indexes := lanes[l].lane.transactionIndexes;
    ListedNext(lanes, l);
    var more := ListedPrefix(lanes, l + 1);
    assert Listed(lanes) == (Listed(lanes[..l]) + indexes[..a + 1]) + (indexes[a + 1..] + more);
    if Fresh(Listed(lanes), next, limit) {
      FreshPrefix(Listed(lanes[..l]) + indexes[..a + 1], indexes[a + 1..] + more, next, limit);
    }
  }

  /** A set of `n` numbers that contains `lo..lo + n` is that interval. */
  lemma {:induction false} FullInterval(s: set<nat>, lo: nat, n: nat)
    requires |s| == n && forall i :: lo <= i < lo + n ==> i in s
    ensures forall i :: i in s ==> lo <= i < lo + n
    decreases n
  {
    if n == 0 {
      assert s == {};
    } else {
      FullInterval(s - {lo + n - 1}, lo, n - 1);
      assert forall i :: i in s ==> i == lo + n - 1 || i in s - {lo + n - 1};
    }
  }

  lemma {:induction false} IntervalSize(s: set<nat>, lo: nat, hi: nat)
    requires lo <= hi && forall i :: i in s <==> lo <= i < hi
    ensures |s| == hi - lo
    decreases hi
  {
    if lo == hi {
      assert s == {};
    } else {
      IntervalSize(s - {hi - 1}, lo, hi - 1);
    }
  }

  /** The transactions of a parallel step must continue the source order without a gap. */
  method CheckParallel(step: Step, seen: array<bool>, next: nat) returns (ok: bool, end: nat)
    requires next <= seen.Length && Marked(seen[..], [], next)
    modifies seen
    ensures ok ==> next <= end <= seen.Length && Marked(seen[..], [], end)
    ensures ok ==> step.lanes != [] && Distinct(Listed(step.lanes)) && Interval(Listed(step.lanes), next, end)
    ensures step.lanes != [] && Distinct(Listed(step.lanes)) ==>
      forall hi :: next <= hi <= seen.Length && Interval(Listed(step.lanes), next, hi) ==> ok && end == hi
  {
    hide Listed, Distinct;
    end := next;
    if step.lanes == [] {
      return false, end;
    }
    var once, covered := ScanLanes(step.lanes, seen, next);
    ghost var listed := Listed(step.lanes);
    if !once {
      return false, end;
    }
    forall hi | next <= hi <= seen.Length && Interval(listed, next, hi) ensures |covered| == hi - next {
      IntervalSize(covered, next, hi);
    }
    for offset := 0 to |covered|
      invariant forall i :: next <= i < next + offset ==> i in covered
    {
      if next + offset !in covered {
        return false, end;
      }
    }
    FullInterval(covered, next, |covered|);
    end := next + |covered|;
    assert covered != {} ==> end - 1 in covered;
    forall i | 0 <= i < seen.Length ensures seen[..][i] <==> i < end {
      assert i in listed <==> i in covered;
    }
    ok := true;
  }

  /** Passing means that the steps bind every source transaction exactly once, in source order up to
      order inside a parallel step, and that the receipts count the whole batch. */
  method ValidateReplayPlanExecution(plan: Plan, batch: seq<Transaction>, transactions: nat, changes: nat)
    returns (ok: bool, ghost bounds: seq<nat>)
    ensures ok ==> StepsValid(plan.steps, bounds, plan.works, batch)
    ensures ok ==> WorkTransactions(plan.works) == transactions && WorkChanges(plan.works) == changes
    ensures ok <== (exists b :: StepsValid(plan.steps, b, plan.works, batch))
      && WorkTransactions(plan.works) == transactions && WorkChanges(plan.works) == changes
  {
    hide Listed, Distinct, Interval, SerialCounted;
    var seen := new bool[|batch|](_ => false);
    var next := 0;
    bounds := [0];
    for k := 0 to |plan.steps|
      invariant |bounds| == k + 1 && bounds[0] == 0 && bounds[k] == next <= |batch|
      invariant Marked(seen[..], [], next)
      invariant forall j :: 0 <= j < k ==> StepValid(plan.steps[j], j, bounds[j], bounds[j + 1], plan.works, batch)
      invariant forall b :: StepsValid(plan.steps, b, plan.works, batch) ==> b[k] == next
    {
      var step := plan.steps[k];
      forall b | StepsValid(plan.steps, b, plan.works, batch)
        ensures StepValid(step, k, next, b[k + 1], plan.works, batch)
      {
        assert b[k] == next;
      }
      if step.index != k {
        return false, bounds;
      }
      if step.serialTransaction >= 0 {
        if step.lanes != [] || step.serialTransaction >= |batch| || seen[step.serialTransaction]
           || step.serialTransaction != next || !SerialCounted(plan.works, k, |batch[next].changes|) {
          return false, bounds;
        }
        seen[next] := true;
        next := next + 1;
      } else {
        var covers, end := CheckParallel(step, seen, next);
        if !covers {
          return false, bounds;
        }
        next := end;
      }
      bounds := bounds + [next];
    }
    for i := 0 to |batch|
      invariant i <= next
    {
      if !seen[i] {
        return false, bounds;
      }
    }
    ok := WorkTransactions(plan.works) == transactions && WorkChanges(plan.works) == changes;
  }
}
