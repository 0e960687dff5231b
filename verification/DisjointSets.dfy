/** The union-find structure of replayTransactionComponentLanes: parents and byte-sized ranks in
    two arrays, path-compressing `find`, union by rank (internal/cdc/replay_plan.go:261-292). */
module DisjointSets {
  import opened Model

  /** 2^e */
  function Pow2(e: nat): (p: nat)
    ensures p > 0
  {
    if e == 0 then 1 else 2 * Pow2(e - 1)
  }

  lemma {:induction false} Pow2Monotone(a: nat, b: nat)
    requires a <= b
    ensures Pow2(a) <= Pow2(b)
    decreases b
  {
    if a < b {
      Pow2Monotone(a, b - 1);
    }
  }

  /** The members of the class represented by `r`. */
  ghost function Class(root: seq<nat>, r: nat): set<nat> {
    set i: nat | i < |root| && root[i] == r
  }

  /** One step along `parents` stays in the class and climbs in rank until the representative. */
  ghost predicate Node(parents: seq<nat>, ranks: seq<Byte>, root: seq<nat>, i: nat)
    requires |parents| == |ranks| == |root| && i < |root|
  {
    var p, r := parents[i], root[i];
    && p < |root| && r < |root|
    && root[r] == r
    && root[p] == r
    && (p == i <==> r == i)
    && (p != i ==> ranks[i] < ranks[p])
  }

  /** A class of rank k has at least 2^k members. */
  ghost predicate Heavy(ranks: seq<Byte>, root: seq<nat>, r: nat)
    requires |ranks| == |root| && r < |root|
  {
    root[r] == r ==> Pow2(ranks[r]) <= |Class(root, r)|
  }

  /** `root` maps every element to the representative of its class and `parents` leads there. */
  ghost predicate Forest(parents: seq<nat>, ranks: seq<Byte>, root: seq<nat>) {
    && |parents| == |ranks| == |root|
    && (forall i: nat {:trigger Node(parents, ranks, root, i)} :: i < |root| ==> Node(parents, ranks, root, i))
    && (forall r: nat {:trigger Heavy(ranks, root, r)} :: r < |root| ==> Heavy(ranks, root, r))
  }

  method Find(parents: array<nat>, ghost ranks: seq<Byte>, ghost root: seq<nat>, value: nat) returns (r: nat)
    requires Forest(parents[..], ranks, root) && value < parents.Length
    modifies parents
    ensures Forest(parents[..], ranks, root)
    ensures r == root[value] && r < |root|
    ensures parents[value] == r && ranks[value] <= ranks[r]
    decreases 256 - ranks[value] as int
  {
    assert Node(parents[..], ranks, root, value);
    if parents[value] != value {
      var parent := parents[value];
      var top := Find(parents, ranks, root, parent);
      ghost var before := parents[..];
      parents[value] := top;
      assert parents[..] == before[value := top];
      assert Node(before, ranks, root, top) && Node(before, ranks, root, parent) && Node(before, ranks, root, value);
      forall i: nat | i < |root| ensures Node(parents[..], ranks, root, i) {
        assert Node(before, ranks, root, i);
      }
    }
    r := parents[value];
  }

  ghost function Joined(root: seq<nat>, from: nat, to: nat): (joined: seq<nat>)
    ensures |joined| == |root|
  {
    seq(|root|, i requires 0 <= i < |root| => if root[i] == from then to else root[i])
  }

  lemma {:induction false} ClassSize(n: nat, s: set<nat>)
    requires forall i :: i in s ==> i < n
    ensures |s| <= n
    decreases n
  {
    if n == 0 {
      assert s == {};
    } else {
      ClassSize(n - 1, s - {n - 1});
    }
  }

  lemma JoinClasses(root: seq<nat>, from: nat, to: nat)
    requires from != to
    ensures Class(Joined(root, from, to), to) == Class(root, from) + Class(root, to)
    ensures |Class(Joined(root, from, to), to)| == |Class(root, from)| + |Class(root, to)|
    ensures forall r: nat :: r != from && r != to ==> Class(Joined(root, from, to), r) == Class(root, r)
  {
    assert Class(root, from) !! Class(root, to);
    assert Class(Joined(root, from, to), to) == Class(root, from) + Class(root, to);
  }

  /** A rank always fits its byte: 2^rank elements would have to exist. */
  lemma RankFitsByte(parents: seq<nat>, ranks: seq<Byte>, root: seq<nat>, r: nat)
    requires Forest(parents, ranks, root) && r < |root| && root[r] == r
    requires |root| < Pow2(63)
    ensures ranks[r] < 63
  {
    ClassSize(|root|, Class(root, r));
    assert Heavy(ranks, root, r);
    if ranks[r] >= 63 {
      Pow2Monotone(63, ranks[r]);
    }
  }

  /** Hanging root `r` under root `l` of no smaller rank keeps the forest well formed. */
  lemma LinkKeepsForest(parents: seq<nat>, ranks: seq<Byte>, root: seq<nat>, l: nat, r: nat, rank: Byte)
    requires Forest(parents, ranks, root)
    requires l < |root| && r < |root| && l != r && root[l] == l && root[r] == r
    requires ranks[r] <= ranks[l]
    requires rank as int == if ranks[l] == ranks[r] then ranks[l] as int + 1 else ranks[l] as int
    ensures Forest(parents[r := l], ranks[l := rank], Joined(root, r, l))
  {
    var joined := Joined(root, r, l);
    var parents', ranks' := parents[r := l], ranks[l := rank];
    forall i: nat | i < |joined| ensures Node(parents', ranks', joined, i) {
      assert Node(parents, ranks, root, i) && Node(parents, ranks, root, r) && Node(parents, ranks, root, l);
      assert Node(parents, ranks, root, parents[i]) && Node(parents, ranks, root, root[i]);
    }
    JoinClasses(root, r, l);
    forall q: nat | q < |joined| ensures Heavy(ranks', joined, q) {
      assert Heavy(ranks, root, q) && Heavy(ranks, root, l) && Heavy(ranks, root, r);
    }
  }

  lemma ForestSize(parents: seq<nat>, ranks: seq<Byte>, root: seq<nat>)
    requires Forest(parents, ranks, root)
    ensures |parents| == |ranks| == |root|
  {
  }

  lemma RootIsFixed(parents: seq<nat>, ranks: seq<Byte>, root: seq<nat>, i: nat)
    requires Forest(parents, ranks, root) && i < |parents|
    ensures |parents| == |ranks| == |root| && root[i] < |root| && root[root[i]] == root[i]
  {
    assert Node(parents, ranks, root, i);
  }

  /** The classes of `left` and `right` are one in `joined`; all others are as they were. */
  ghost predicate JoinsOnly(root: seq<nat>, joined: seq<nat>, left: nat, right: nat)
    requires left < |root| && right < |root|
  {
    && |joined| == |root| && joined[left] == joined[right]
    && forall i, j :: 0 <= i < |root| && 0 <= j < |root| ==>
         (joined[i] == joined[j] <==>
           root[i] == root[j] || (root[i] in {root[left], root[right]} && root[j] in {root[left], root[right]}))
  }

  lemma JoinedMeaning(root: seq<nat>, left: nat, right: nat, from: nat, to: nat)
    requires left < |root| && right < |root| && {from, to} == {root[left], root[right]}
    ensures JoinsOnly(root, Joined(root, from, to), left, right)
  {
  }

  method Union(parents: array<nat>, ranks: array<Byte>, ghost root: seq<nat>, left: nat, right: nat)
    returns (ghost joined: seq<nat>)
    requires parents as object != ranks
    requires Forest(parents[..], ranks[..], root) && left < parents.Length && right < parents.Length
    requires |root| < Pow2(63)  // a Go slice length
    modifies parents, ranks
    ensures Forest(parents[..], ranks[..], joined)
    ensures left < |root| && right < |root| && JoinsOnly(root, joined, left, right)
  {
    hide Forest, JoinsOnly, Joined, Pow2;
    RootIsFixed(parents[..], ranks[..], root, left);
    RootIsFixed(parents[..], ranks[..], root, right);
    var l := Find(parents, ranks[..], root, left);
    var r := Find(parents, ranks[..], root, right);
    RootIsFixed(parents[..], ranks[..], root, right);
    joined := root;
    if l == r {
      SameClass(root, left, right);
      return;
    }
    if ranks[l] < ranks[r] {
      l, r := r, l;
    }
    RankFitsByte(parents[..], ranks[..], root, l);
    ghost var rank: Byte := if ranks[l] == ranks[r] then ranks[l] + 1 else ranks[l];
    LinkKeepsForest(parents[..], ranks[..], root, l, r, rank);
    JoinedMeaning(root, left, right, r, l);
    joined := Joined(root, r, l);
    ghost var parentsBefore, ranksBefore := parents[..], ranks[..];
    parents[r] := l;
    if ranks[l] == ranks[r] {
      ranks[l] := ranks[l] + 1;
    }
    assert parents[..] == parentsBefore[r := l];
    assert ranks[..] == ranksBefore[l := rank];
  }

  lemma SameClass(root: seq<nat>, left: nat, right: nat)
    requires left < |root| && right < |root| && root[left] == root[right]
    ensures JoinsOnly(root, root, left, right)
  {
  }
}
