/** Connected components of an epoch and their lanes: transactions that share a dependency key,
    directly or through a chain, run in one lane in source order
    (replayTransactionComponentLanes, internal/cdc/replay_plan.go:261-344). */
module Components {
  import opened Wrappers
  import opened Model
  import opened DisjointSets

  /** A SHA-256 digest read as a big-endian number, so byte order is numeric order. */
  type Digest = nat

  datatype PlanTransaction = PlanTransaction(index: nat, keys: seq<Digest>, items: seq<Item>)

  datatype Lane = Lane(lane: nat, transactionIndexes: seq<nat>, items: seq<Item>)

  predicate Shares(epoch: seq<PlanTransaction>, i: nat, j: nat)
    requires i < |epoch| && j < |epoch|
  {
    exists k :: k in epoch[i].keys && k in epoch[j].keys
  }

  ghost predicate Chain(epoch: seq<PlanTransaction>, path: seq<nat>) {
    && path != []
    && (forall a :: 0 <= a < |path| ==> path[a] < |epoch|)
    && (forall a :: 0 <= a < |path| - 1 ==> Shares(epoch, path[a], path[a + 1]))
  }

  /** A chain of transactions, each sharing a key with the next, leads from `i` to `j`. */
  ghost predicate Connected(epoch: seq<PlanTransaction>, i: nat, j: nat) {
    exists path :: Chain(epoch, path) && path[0] == i && path[|path| - 1] == j
  }

  lemma ConnectedSelf(epoch: seq<PlanTransaction>, i: nat)
    requires i < |epoch|
    ensures Connected(epoch, i, i)
  {
    assert Chain(epoch, [i]);
  }

  lemma SharesConnects(epoch: seq<PlanTransaction>, i: nat, j: nat)
    requires i < |epoch| && j < |epoch| && Shares(epoch, i, j)
    ensures Connected(epoch, i, j)
  {
    assert Chain(epoch, [i, j]);
  }

  lemma ConnectedSymmetric(epoch: seq<PlanTransaction>, i: nat, j: nat)
    requires Connected(epoch, i, j)
    ensures Connected(epoch, j, i)
  {
    var path :| Chain(epoch, path) && path[0] == i && path[|path| - 1] == j;
    var n := |path|;
    var back := seq(n, a requires 0 <= a < n => path[n - 1 - a]);
    forall a | 0 <= a < n - 1 ensures Shares(epoch, back[a], back[a + 1]) {
      assert Shares(epoch, path[n - 2 - a], path[n - 2 - a + 1]);
    }
    assert Chain(epoch, back);
  }

  lemma ConnectedTransitive(epoch: seq<PlanTransaction>, i: nat, j: nat, k: nat)
    requires Connected(epoch, i, j) && Connected(epoch, j, k)
    ensures Connected(epoch, i, k)
  {
    var p :| Chain(epoch, p) && p[0] == i && p[|p| - 1] == j;
    var q :| Chain(epoch, q) && q[0] == j && q[|q| - 1] == k;
    var path := p + q[1..];
    forall a | 0 <= a < |path| - 1 ensures Shares(epoch, path[a], path[a + 1]) {
      if a < |p| - 1 {
        assert Shares(epoch, p[a], p[a + 1]);
      } else {
        assert path[a] == q[a - |p| + 1];
        assert Shares(epoch, q[a - |p| + 1], q[a - |p| + 2]);
      }
    }
    assert Chain(epoch, path);
    assert path[|path| - 1] == k;
  }

  /** Anything that holds along shared keys holds across a whole component. */
  lemma {:induction false} AlongChain(epoch: seq<PlanTransaction>, root: seq<nat>, path: seq<nat>)
    requires Chain(epoch, path) && |root| == |epoch|
    requires forall i: nat, j: nat :: i < |epoch| && j < |epoch| && Shares(epoch, i, j) ==> root[i] == root[j]
    ensures root[path[0]] == root[path[|path| - 1]]
    decreases |path|
  {
    if |path| > 1 {
      var rest := path[1..];
      forall a | 0 <= a < |rest| - 1 ensures Shares(epoch, rest[a], rest[a + 1]) {
        assert Shares(epoch, path[a + 1], path[a + 1 + 1]);
      }
      AlongChain(epoch, root, rest);
      assert Shares(epoch, path[0], path[0 + 1]);
    }
  }

  // --- The digest of a component ---

  predicate Increasing(s: seq<Digest>) {
    forall i, j :: 0 <= i < j < |s| ==> s[i] < s[j]
  }

  lemma HasElement(s: seq<Digest>)
    requires s != []
    ensures exists k :: k in s
  {
    assert s[0] in s;
  }

  /** A strictly increasing sequence is determined by its set of elements. */
  lemma {:induction false} IncreasingUnique(s: seq<Digest>, t: seq<Digest>)
    requires Increasing(s) && Increasing(t)
    requires forall k :: k in s <==> k in t
    ensures s == t
    decreases |s|
  {
    if s == [] {
      if t != [] { HasElement(t); }
    } else if t == [] {
      HasElement(s);
    } else {
      assert s[0] in s && t[0] in t;
      var i :| 0 <= i < |s| && s[i] == t[0];
      var j :| 0 <= j < |t| && t[j] == s[0];
      forall k ensures k in s[1..] <==> k in t[1..] {
        assert k in s <==> k == s[0] || k in s[1..];
        assert k in t <==> k == t[0] || k in t[1..];
        assert s[0] !in s[1..] && t[0] !in t[1..];
      }
      IncreasingUnique(s[1..], t[1..]);
    }
  }

  /** The elements of a set in increasing order. */
  ghost function Ascending(s: set<Digest>): (r: seq<Digest>)
    ensures Increasing(r) && forall k :: k in r <==> k in s
  {
    if s == {} then []
    else
      var m := Least(s);
      [m] + Ascending(s - {m})
  }

  ghost function Least(s: set<Digest>): (m: Digest)
    requires s != {}
    ensures m in s && forall k :: k in s ==> m <= k
  {
    var x :| x in s;
    if s - {x} == {} then
      assert s == {x};
      x
    else
      var y := Least(s - {x});
      assert forall k :: k in s ==> k == x || k in s - {x};
      if x < y then x else y
  }

  ghost function ComponentKeys(epoch: seq<PlanTransaction>, i: nat): set<Digest> {
    set j: nat, k | j < |epoch| && Connected(epoch, i, j) && k in epoch[j].keys :: k
  }

  /** The lane of transaction `i`: the component digest modulo the lane count. */
  ghost function LaneOf(epoch: seq<PlanTransaction>, laneCount: nat, digest: seq<Digest> -> nat, i: nat): (l: nat)
    requires laneCount > 0
    ensures l < laneCount
  {
    digest(Ascending(ComponentKeys(epoch, i))) % laneCount
  }

  /** The lane of a component depends on its set of keys and on nothing else. */
  lemma LaneDependsOnlyOnKeys(
    epoch: seq<PlanTransaction>, other: seq<PlanTransaction>, laneCount: nat, digest: seq<Digest> -> nat,
    i: nat, j: nat)
    requires laneCount > 0 && i < |epoch| && j < |other|
    requires forall k :: k in ComponentKeys(epoch, i) <==> k in ComponentKeys(other, j)
    ensures LaneOf(epoch, laneCount, digest, i) == LaneOf(other, laneCount, digest, j)
  {
    IncreasingUnique(Ascending(ComponentKeys(epoch, i)), Ascending(ComponentKeys(other, j)));
  }

  lemma ConnectedSameLane(
    epoch: seq<PlanTransaction>, laneCount: nat, digest: seq<Digest> -> nat, i: nat, j: nat)
    requires laneCount > 0 && i < |epoch| && j < |epoch| && Connected(epoch, i, j)
    ensures ComponentKeys(epoch, i) == ComponentKeys(epoch, j)
    ensures LaneOf(epoch, laneCount, digest, i) == LaneOf(epoch, laneCount, digest, j)
  {
    ConnectedSymmetric(epoch, i, j);
    forall m: nat ensures Connected(epoch, i, m) <==> Connected(epoch, j, m) {
      if Connected(epoch, i, m) { ConnectedTransitive(epoch, j, i, m); }
      if Connected(epoch, j, m) { ConnectedTransitive(epoch, i, j, m); }
    }
  }

  /** The lane `l` after the first `n` transactions of the epoch have been distributed. */
  ghost function LaneUpTo(
    epoch: seq<PlanTransaction>, laneCount: nat, digest: seq<Digest> -> nat, l: nat, n: nat): Lane
    requires laneCount > 0 && n <= |epoch|
  {
    if n == 0 then Lane(l, [], [])
    else
      var lane := LaneUpTo(epoch, laneCount, digest, l, n - 1);
      if LaneOf(epoch, laneCount, digest, n - 1) == l then
        Lane(l, lane.transactionIndexes + [epoch[n - 1].index], lane.items + epoch[n - 1].items)
      else lane
  }

  lemma LaneStep(epoch: seq<PlanTransaction>, laneCount: nat, digest: seq<Digest> -> nat, l: nat, n: nat)
    requires laneCount > 0 && n <= |epoch|
    ensures LaneUpTo(epoch, laneCount, digest, l, n) ==
      if n == 0 then Lane(l, [], [])
      else
        var lane := LaneUpTo(epoch, laneCount, digest, l, n - 1);
        if LaneOf(epoch, laneCount, digest, n - 1) == l then
          Lane(l, lane.transactionIndexes + [epoch[n - 1].index], lane.items + epoch[n - 1].items)
        else lane
  {
    hide LaneOf;
  }

  ghost function EpochLanes(epoch: seq<PlanTransaction>, laneCount: nat, digest: seq<Digest> -> nat): seq<Lane>
    requires laneCount > 0
  {
    seq(laneCount, l requires 0 <= l < laneCount => LaneUpTo(epoch, laneCount, digest, l, |epoch|))
  }

  // --- The imperative scheduler ---

  predicate Ordered(s: seq<Digest>) {
    forall i, j :: 0 <= i < j < |s| ==> s[i] <= s[j]
  }

  function InsertDigest(k: Digest, sorted: seq<Digest>): (r: seq<Digest>)
    requires Ordered(sorted)
    ensures Ordered(r) && forall x :: x in r <==> x == k || x in sorted
  {
    if sorted == [] || k <= sorted[0] then [k] + sorted
    else
      var rest := InsertDigest(k, sorted[1..]);
      assert forall x :: x in sorted[1..] ==> sorted[0] <= x;
      assert forall i :: 0 <= i < |rest| ==> rest[i] in rest;
      [sorted[0]] + rest
  }

  /** slices.SortFunc on digests. */
  function SortDigests(keys: seq<Digest>): (sorted: seq<Digest>)
    ensures Ordered(sorted) && forall x :: x in sorted <==> x in keys
  {
    if keys == [] then [] else InsertDigest(keys[0], SortDigests(keys[1..]))
  }

  /** Writes every distinct key of a component to the hasher in ascending order. */
  method ComponentPreimage(keys: seq<Digest>) returns (written: seq<Digest>)
    ensures Increasing(written) && forall k :: k in written <==> k in keys
  {
    var sorted := SortDigests(keys);
    written := [];
    var previous := 0;
    for index := 0 to |sorted|
      invariant Increasing(written)
      invariant forall k :: k in written <==> k in sorted[..index]
      invariant index == 0 ==> written == []
      invariant index != 0 ==> previous == sorted[index - 1] && written != [] && written[|written| - 1] == previous
    {
      var key := sorted[index];
      assert sorted[..index + 1] == sorted[..index] + [key];
      if index != 0 && key == previous {
        continue;
      }
      assert index != 0 ==> sorted[index - 1] <= sorted[index];
      written := written + [key];
      previous := key;
    }
    assert sorted[..|sorted|] == sorted;
  }

  ghost predicate Sound(epoch: seq<PlanTransaction>, root: seq<nat>) {
    |root| == |epoch| &&
    forall i: nat, j: nat {:trigger root[i], root[j]} ::
      i < |epoch| && j < |epoch| && root[i] == root[j] ==> Connected(epoch, i, j)
  }

  lemma JoinSound(epoch: seq<PlanTransaction>, root: seq<nat>, joined: seq<nat>, left: nat, right: nat)
    requires Sound(epoch, root) && |joined| == |epoch|
    requires left < |epoch| && right < |epoch| && Shares(epoch, left, right)
    requires JoinsOnly(root, joined, left, right)
    ensures Sound(epoch, joined)
  {
    forall i: nat, j: nat | i < |epoch| && j < |epoch| && joined[i] == joined[j] ensures Connected(epoch, i, j) {
      if root[i] != root[j] {
        SharesConnects(epoch, left, right);
        ConnectedSymmetric(epoch, left, right);
        if root[i] == root[left] {
          ConnectedTransitive(epoch, i, left, right);
          ConnectedTransitive(epoch, i, right, j);
        } else {
          ConnectedTransitive(epoch, i, right, left);
          ConnectedTransitive(epoch, i, left, j);
        }
      }
    }
  }

  /** Key `k` of transaction `t` has been recorded, and `t` joined to the key's first user. */
  ghost predicate Recorded(
    epoch: seq<PlanTransaction>, root: seq<nat>, firstByKey: map<Digest, nat>, t: nat, k: Digest)
    requires |root| == |epoch| && t < |epoch|
  {
    k in firstByKey && firstByKey[k] < |epoch| && root[firstByKey[k]] == root[t]
  }

  /** The first transaction seen with each key has it. */
  predicate FirstHave(epoch: seq<PlanTransaction>, firstByKey: map<Digest, nat>) {
    forall k :: k in firstByKey ==> firstByKey[k] < |epoch| && k in epoch[firstByKey[k]].keys
  }

  /** The first `n` transactions are joined with the first one seen with each of their keys. */
  ghost predicate AllRecorded(epoch: seq<PlanTransaction>, root: seq<nat>, firstByKey: map<Digest, nat>, n: nat)
    requires |root| == |epoch| && n <= |epoch|
  {
    forall u: nat, k {:trigger Recorded(epoch, root, firstByKey, u, k)} ::
      u < n && k in epoch[u].keys ==> Recorded(epoch, root, firstByKey, u, k)
  }

  ghost predicate KeysRecorded(
    epoch: seq<PlanTransaction>, root: seq<nat>, firstByKey: map<Digest, nat>, t: nat, keys: seq<Digest>)
    requires |root| == |epoch| && t < |epoch|
  {
    forall k :: k in keys ==> Recorded(epoch, root, firstByKey, t, k)
  }

  /** Joining classes or recording a first transaction keeps what is recorded. */
  lemma RecordedGrows(
    epoch: seq<PlanTransaction>, root: seq<nat>, joined: seq<nat>, seen: map<Digest, nat>, more: map<Digest, nat>)
    requires |root| == |joined| == |epoch|
    requires forall i, j :: 0 <= i < |root| && 0 <= j < |root| && root[i] == root[j] ==> joined[i] == joined[j]
    requires forall k :: k in seen ==> k in more && more[k] == seen[k]
    ensures forall u: nat, k {:trigger Recorded(epoch, joined, more, u, k)} ::
      u < |epoch| && Recorded(epoch, root, seen, u, k) ==> Recorded(epoch, joined, more, u, k)
  {
  }

  lemma JoinGrows(root: seq<nat>, joined: seq<nat>, left: nat, right: nat)
    requires left < |root| && right < |root| && JoinsOnly(root, joined, left, right)
    ensures forall i, j :: 0 <= i < |root| && 0 <= j < |root| && root[i] == root[j] ==> joined[i] == joined[j]
    ensures |joined| == |root| && joined[left] == joined[right]
  {
  }

  /** One key of transaction `t`: join it with the first transaction that has the key. */
  method JoinKey(
    epoch: seq<PlanTransaction>, parents: array<nat>, ranks: array<Byte>, ghost root: seq<nat>,
    firstByKey: map<Digest, nat>, t: nat, key: Digest)
    returns (ghost joined: seq<nat>, more: map<Digest, nat>)
    requires parents as object != ranks && parents.Length == ranks.Length == |epoch| < Pow2(63)
    requires Forest(parents[..], ranks[..], root) && Sound(epoch, root) && FirstHave(epoch, firstByKey)
    requires t < |epoch| && key in epoch[t].keys
    modifies parents, ranks
    ensures Forest(parents[..], ranks[..], joined) && Sound(epoch, joined) && FirstHave(epoch, more)
    ensures Recorded(epoch, joined, more, t, key)
    ensures forall u: nat, k {:trigger Recorded(epoch, joined, more, u, k)} ::
      u < |epoch| && Recorded(epoch, root, firstByKey, u, k) ==> Recorded(epoch, joined, more, u, k)
  {
    hide Forest, Sound, JoinsOnly, Pow2;
    SoundSize(epoch, root);
    joined, more := root, firstByKey;
    if key in firstByKey {
      assert Shares(epoch, firstByKey[key], t);
      joined := Union(parents, ranks, root, firstByKey[key], t);
      JoinGrows(root, joined, firstByKey[key], t);
      JoinSound(epoch, root, joined, firstByKey[key], t);
    } else {
      more := firstByKey[key := t];
    }
    RecordedGrows(epoch, root, joined, firstByKey, more);
  }

  lemma SoundSize(epoch: seq<PlanTransaction>, root: seq<nat>)
    requires Sound(epoch, root)
    ensures |root| == |epoch|
  {
  }

  lemma RootsConnect(epoch: seq<PlanTransaction>, root: seq<nat>, firstByKey: map<Digest, nat>)
    requires Sound(epoch, root) && AllRecorded(epoch, root, firstByKey, |epoch|)
    ensures forall i: nat, j: nat :: i < |epoch| && j < |epoch| ==> (root[i] == root[j] <==> Connected(epoch, i, j))
  {
    forall i: nat, j: nat | i < |epoch| && j < |epoch| && Shares(epoch, i, j) ensures root[i] == root[j] {
      var k :| k in epoch[i].keys && k in epoch[j].keys;
      assert Recorded(epoch, root, firstByKey, i, k) && Recorded(epoch, root, firstByKey, j, k);
    }
    forall i: nat, j: nat | i < |epoch| && j < |epoch| && Connected(epoch, i, j) ensures root[i] == root[j] {
      var path :| Chain(epoch, path) && path[0] == i && path[|path| - 1] == j;
      AlongChain(epoch, root, path);
    }
  }

  method UnionSharedKeys(epoch: seq<PlanTransaction>, parents: array<nat>, ranks: array<Byte>)
    returns (ghost root: seq<nat>)
    requires parents as object != ranks && parents.Length == ranks.Length == |epoch|
    requires |epoch| < Pow2(63)  // a Go slice length
    modifies parents, ranks
    ensures Forest(parents[..], ranks[..], root) && |root| == |epoch|
    ensures forall i: nat, j: nat :: i < |epoch| && j < |epoch| ==> (root[i] == root[j] <==> Connected(epoch, i, j))
  {
    hide Forest, Recorded, Connected, Pow2;
    for i := 0 to |epoch|
      invariant forall j :: 0 <= j < i ==> parents[j] == j && ranks[j] == 0
    {
      parents[i] := i;
      ranks[i] := 0;
    }
    root := seq(|epoch|, i requires 0 <= i < |epoch| => i);
    Singletons(epoch, parents[..], ranks[..], root);
    hide Sound;
    var firstByKey: map<Digest, nat> := map[];
    for t := 0 to |epoch|
      invariant Forest(parents[..], ranks[..], root) && Sound(epoch, root) && FirstHave(epoch, firstByKey)
      invariant |root| == |epoch| && AllRecorded(epoch, root, firstByKey, t)
    {
      for m := 0 to |epoch[t].keys|
        invariant Forest(parents[..], ranks[..], root) && Sound(epoch, root) && FirstHave(epoch, firstByKey)
        invariant |root| == |epoch| && AllRecorded(epoch, root, firstByKey, t)
        invariant KeysRecorded(epoch, root, firstByKey, t, epoch[t].keys[..m])
      {
        var key := epoch[t].keys[m];
        assert epoch[t].keys[..m + 1] == epoch[t].keys[..m] + [key];
        ghost var before := root;
        root, firstByKey := JoinKey(epoch, parents, ranks, root, firstByKey, t, key);
        SoundSize(epoch, root);
      }
      assert epoch[t].keys[..|epoch[t].keys|] == epoch[t].keys;
    }
    RootsConnect(epoch, root, firstByKey);
  }

  lemma Singletons(epoch: seq<PlanTransaction>, parents: seq<nat>, ranks: seq<Byte>, root: seq<nat>)
    requires |parents| == |ranks| == |root| == |epoch|
    requires forall i :: 0 <= i < |epoch| ==> parents[i] == i && ranks[i] == 0 && root[i] == i
    ensures Forest(parents, ranks, root) && Sound(epoch, root)
  {
    forall i: nat | i < |root| ensures Node(parents, ranks, root, i) && Heavy(ranks, root, i) {
      assert Class(root, i) == {i};
    }
    forall i: nat | i < |epoch| ensures Connected(epoch, i, i) {
      ConnectedSelf(epoch, i);
    }
  }

  /** Finds every transaction's root and the lane of every root, then distributes whole
      transactions over the lanes in source order. */
  method ComponentLanes(epoch: seq<PlanTransaction>, laneCount: nat, digest: seq<Digest> -> nat)
    returns (result: Option<seq<Lane>>)
    requires |epoch| < Pow2(63)  // a Go slice length
    ensures result.None? <==>
      epoch == [] || laneCount == 0 || exists i :: 0 <= i < |epoch| && epoch[i].keys == []
    ensures result.Some? ==> result.value == EpochLanes(epoch, laneCount, digest)
  {
    if epoch == [] || laneCount < 1 {
      return None;
    }
    hide LaneOf, EpochLanes, Forest, Connected, Pow2, KeysOf;
    for checked := 0 to |epoch|
      invariant forall i :: 0 <= i < checked ==> epoch[i].keys != []
    {
      if epoch[checked].keys == [] {
        return None;
      }
    }
    var lanes := LanesOfComponents(epoch, laneCount, digest);
    result := Some(lanes);
  }

  method LanesOfComponents(epoch: seq<PlanTransaction>, laneCount: nat, digest: seq<Digest> -> nat)
    returns (lanes: seq<Lane>)
    requires laneCount > 0 && |epoch| < Pow2(63)
    ensures lanes == EpochLanes(epoch, laneCount, digest)
  {
    hide LaneOf, EpochLanes, Forest, Connected, Pow2, KeysOf;
    var parents, ranks := new nat[|epoch|], new Byte[|epoch|];
    ghost var root := UnionSharedKeys(epoch, parents, ranks);
    var componentKeys := CollectKeys(epoch, parents, ranks, root);
    var componentLanes := AssignLanes(epoch, laneCount, digest, root, componentKeys);
    lanes := Distribute(epoch, laneCount, digest, parents, ranks, root, componentLanes);
  }

  /** The keys recorded under root `r` after the first `t` transactions. */
  ghost predicate KeysOf(epoch: seq<PlanTransaction>, root: seq<nat>, keys: seq<Digest>, r: nat, t: nat)
    requires |root| == |epoch| && t <= |epoch|
  {
    forall k :: k in keys <==> exists u: nat :: u < t && root[u] == r && k in epoch[u].keys
  }

  method CollectKeys(epoch: seq<PlanTransaction>, parents: array<nat>, ranks: array<Byte>, ghost root: seq<nat>)
    returns (componentKeys: map<nat, seq<Digest>>)
    requires parents as object != ranks
    requires Forest(parents[..], ranks[..], root) && |root| == |epoch|
    modifies parents
    ensures Forest(parents[..], ranks[..], root)
    ensures forall u: nat :: u < |epoch| ==> root[u] in componentKeys
    ensures forall r :: r in componentKeys ==> KeysOf(epoch, root, componentKeys[r], r, |epoch|)
  {
    componentKeys := map[];
    for t := 0 to |epoch|
      invariant Forest(parents[..], ranks[..], root)
      invariant forall u: nat :: u < t ==> root[u] in componentKeys
      invariant forall r :: r in componentKeys ==> KeysOf(epoch, root, componentKeys[r], r, t)
    {
      var r := Find(parents, ranks[..], root, t);
      var known := if r in componentKeys then componentKeys[r] else [];
      assert KeysOf(epoch, root, known, r, t);
      assert KeysOf(epoch, root, known + epoch[t].keys, r, t + 1);
      forall q | q in componentKeys && q != r ensures KeysOf(epoch, root, componentKeys[q], q, t + 1) {
        assert KeysOf(epoch, root, componentKeys[q], q, t);
      }
      componentKeys := componentKeys[r := known + epoch[t].keys];
    }
  }

  /** Iterates transactions, not components, so lanes keep source order. */
  method Distribute(
    epoch: seq<PlanTransaction>, laneCount: nat, digest: seq<Digest> -> nat,
    parents: array<nat>, ranks: array<Byte>, ghost root: seq<nat>, componentLanes: map<nat, nat>)
    returns (lanes: seq<Lane>)
    requires parents as object != ranks
    requires Forest(parents[..], ranks[..], root) && |root| == |epoch| && laneCount > 0
    requires forall t: nat :: t < |epoch| ==>
      root[t] in componentLanes && componentLanes[root[t]] == LaneOf(epoch, laneCount, digest, t)
    modifies parents
    ensures lanes == EpochLanes(epoch, laneCount, digest)
  {
    hide LaneOf, Forest, LaneUpTo, EpochLanes, DistributedUpTo, Node, Heavy;
    assert parents.Length == |epoch| by {
      ForestSize(parents[..], ranks[..], root);
    }
    lanes := seq(laneCount, l requires 0 <= l < laneCount => Lane(l, [], []));
    NoLanesYet(epoch, laneCount, digest, lanes);
    for t := 0 to |epoch|
      invariant Forest(parents[..], ranks[..], root)
      invariant |lanes| == laneCount && DistributedUpTo(epoch, laneCount, digest, lanes, t)
    {
      var l := LaneAt(parents, ranks, root, t, componentLanes);
      LanesNext(epoch, laneCount, digest, lanes, t, l);
      lanes := lanes[l := Lane(l, lanes[l].transactionIndexes + [epoch[t].index], lanes[l].items + epoch[t].items)];
    }
    AllDistributed(epoch, laneCount, digest, lanes);
  }

  method LaneAt(
    parents: array<nat>, ranks: array<Byte>, ghost root: seq<nat>, t: nat, componentLanes: map<nat, nat>)
    returns (lane: nat)
    requires parents as object != ranks && Forest(parents[..], ranks[..], root) && t < parents.Length
    requires t < |root| && root[t] in componentLanes
    modifies parents
    ensures Forest(parents[..], ranks[..], root) && lane == componentLanes[root[t]]
  {
    hide Forest;
    var r := Find(parents, ranks[..], root, t);
    lane := componentLanes[r];
  }

  ghost predicate DistributedUpTo(
    epoch: seq<PlanTransaction>, laneCount: nat, digest: seq<Digest> -> nat, lanes: seq<Lane>, n: nat)
    requires laneCount > 0 && n <= |epoch|
  {
    |lanes| == laneCount && forall l: nat :: l < laneCount ==> lanes[l] == LaneUpTo(epoch, laneCount, digest, l, n)
  }

  lemma NoLanesYet(epoch: seq<PlanTransaction>, laneCount: nat, digest: seq<Digest> -> nat, lanes: seq<Lane>)
    requires laneCount > 0 && |lanes| == laneCount && forall l: nat :: l < laneCount ==> lanes[l] == Lane(l, [], [])
    ensures DistributedUpTo(epoch, laneCount, digest, lanes, 0)
  {
    hide LaneUpTo, LaneOf;
    forall l: nat | l < laneCount ensures lanes[l] == LaneUpTo(epoch, laneCount, digest, l, 0) {
      LaneStep(epoch, laneCount, digest, l, 0);
    }
  }

  lemma LanesNext(
    epoch: seq<PlanTransaction>, laneCount: nat, digest: seq<Digest> -> nat, lanes: seq<Lane>, t: nat, l: nat)
    requires laneCount > 0 && t < |epoch| && DistributedUpTo(epoch, laneCount, digest, lanes, t)
    requires l == LaneOf(epoch, laneCount, digest, t)
    ensures l < laneCount
    ensures DistributedUpTo(epoch, laneCount, digest,
              lanes[l := Lane(l, lanes[l].transactionIndexes + [epoch[t].index], lanes[l].items + epoch[t].items)], t + 1)
  {
    LaneBound(epoch, laneCount, digest, t);
    hide LaneUpTo, LaneOf;
    var after := lanes[l := Lane(l, lanes[l].transactionIndexes + [epoch[t].index], lanes[l].items + epoch[t].items)];
    forall m: nat | m < laneCount ensures after[m] == LaneUpTo(epoch, laneCount, digest, m, t + 1) {
      LaneStep(epoch, laneCount, digest, m, t + 1);
    }
  }

  lemma LaneBound(epoch: seq<PlanTransaction>, laneCount: nat, digest: seq<Digest> -> nat, t: nat)
    requires laneCount > 0 && t < |epoch|
    ensures LaneOf(epoch, laneCount, digest, t) < laneCount
  {
  }

  lemma AllDistributed(epoch: seq<PlanTransaction>, laneCount: nat, digest: seq<Digest> -> nat, lanes: seq<Lane>)
    requires laneCount > 0 && DistributedUpTo(epoch, laneCount, digest, lanes, |epoch|)
    ensures lanes == EpochLanes(epoch, laneCount, digest)
  {
    hide LaneUpTo;
  }

  /** Hashes the components in whatever order the map yields them. */
  method AssignLanes(
    epoch: seq<PlanTransaction>, laneCount: nat, digest: seq<Digest> -> nat,
    ghost root: seq<nat>, componentKeys: map<nat, seq<Digest>>)
    returns (componentLanes: map<nat, nat>)
    requires laneCount > 0 && |root| == |epoch|
    requires forall i: nat, j: nat :: i < |epoch| && j < |epoch| ==> (root[i] == root[j] <==> Connected(epoch, i, j))
    requires forall u: nat :: u < |epoch| ==> root[u] in componentKeys
    requires forall r :: r in componentKeys ==> KeysOf(epoch, root, componentKeys[r], r, |epoch|)
    ensures forall t: nat :: t < |epoch| ==>
      root[t] in componentLanes && componentLanes[root[t]] == LaneOf(epoch, laneCount, digest, t)
  {
    componentLanes := map[];
    var remaining := componentKeys.Keys;
    while remaining != {}
      invariant remaining <= componentKeys.Keys
      invariant forall t: nat :: t < |epoch| && root[t] !in remaining ==>
        root[t] in componentLanes && componentLanes[root[t]] == LaneOf(epoch, laneCount, digest, t)
      decreases remaining
    {
      var r :| r in remaining;
      var written := ComponentPreimage(componentKeys[r]);
      assert KeysOf(epoch, root, componentKeys[r], r, |epoch|);
      forall t: nat | t < |epoch| && root[t] == r ensures written == Ascending(ComponentKeys(epoch, t)) {
        IncreasingUnique(written, Ascending(ComponentKeys(epoch, t)));
      }
      componentLanes := componentLanes[r := digest(written) % laneCount];
      remaining := remaining - {r};
    }
  }
}
