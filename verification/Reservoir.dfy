/** Algorithm R as the sampler of applied changes runs it: the first `capacity` changes of a relation
    fill the slots, every later one draws a number below the count of changes seen and replaces the slot
    it names, if there is one (Observe, internal/app/cdcsampler.go:122-148). All draws are equally
    likely, so chances are counted over the set of all draws. */
module Reservoir {

  // --- Counting ---

  lemma {:induction false} ImageSize<T(!new), U(!new)>(xs: set<T>, f: T -> U)
    requires forall x, y :: x in xs && y in xs && x != y ==> f(x) != f(y)
    ensures |set x | x in xs :: f(x)| == |xs|
    decreases |xs|
  {
    if x :| x in xs {
      ImageSize(xs - {x}, f);
      assert (set y | y in xs :: f(y)) == {f(x)} + set y | y in xs - {x} :: f(y);
    }
  }

  function Union<T(!new), U(!new)>(xs: set<T>, f: T -> set<U>): set<U> {
    set x, u | x in xs && u in f(x) :: u
  }

  lemma UnionOneMore<T(!new), U(!new)>(xs: set<T>, x: T, f: T -> set<U>)
    requires x in xs && forall y :: y in xs && x != y ==> f(x) !! f(y)
    ensures Union(xs, f) == f(x) + Union(xs - {x}, f) && f(x) !! Union(xs - {x}, f)
  {
  }

  lemma OneMoreTimes(m: nat, n: nat)
    ensures (m + 1) * n == m * n + n
  {
  }

  /** Disjoint sets of the same size. */
  lemma {:induction false} UnionSize<T(!new), U(!new)>(xs: set<T>, f: T -> set<U>, n: nat)
    requires forall x :: x in xs ==> |f(x)| == n
    requires forall x, y :: x in xs && y in xs && x != y ==> f(x) !! f(y)
    ensures |Union(xs, f)| == |xs| * n
    decreases |xs|
  {
    if x :| x in xs {
      UnionSize(xs - {x}, f, n);
      UnionOneMore(xs, x, f);
      hide Union;
      assert |xs| == |xs - {x}| + 1;
      OneMoreTimes(|xs - {x}|, n);
    }
  }

  function Below(n: nat): (r: set<nat>)
    ensures |r| == n && forall i :: i in r <==> 0 <= i < n
  {
    if n == 0 then {} else Below(n - 1) + {n - 1}
  }

  lemma SubsetSize<T>(small: set<T>, large: set<T>)
    requires small <= large
    ensures |large - small| == |large| - |small|
    ensures |small| == |large| ==> small == large
  {
    assert large == small + (large - small);
  }

  // --- The reservoir ---

  function Draws(capacity: nat, n: nat): nat {
    if n <= capacity then 0 else n - capacity
  }

  /** The change in every slot after `n` changes. */
  function Places(capacity: nat, n: nat, draws: seq<nat>): (places: seq<nat>)
    requires |draws| == Draws(capacity, n)
    ensures |places| == if n <= capacity then n else capacity
    ensures forall s :: 0 <= s < |places| ==> places[s] < n
    ensures forall s, t :: 0 <= s < t < |places| ==> places[s] != places[t]
  {
    if n <= capacity then seq(n, i requires 0 <= i => i)
    else Replaced(Places(capacity, n - 1, draws[..|draws| - 1]), draws[|draws| - 1], n - 1)
  }

  function Replaced(places: seq<nat>, draw: nat, change: nat): seq<nat> {
    if draw < |places| then places[draw := change] else places
  }

  function Kept(places: seq<nat>): set<nat> {
    set c | c in places
  }

  /** Every sequence of draws: the draw for the `n`-th change is any number below `n`. */
  function AllDraws(capacity: nat, n: nat): (all: set<seq<nat>>)
    ensures forall d :: d in all ==> |d| == Draws(capacity, n)
  {
    if n <= capacity then {[]}
    else set d, c | d in AllDraws(capacity, n - 1) && c in Below(n) :: d + [c]
  }

  function Keeping(capacity: nat, n: nat, kept: set<nat>): set<seq<nat>> {
    set d | d in AllDraws(capacity, n) && Kept(Places(capacity, n, d)) == kept
  }

  function Retaining(capacity: nat, n: nat, change: nat): set<seq<nat>> {
    set d | d in AllDraws(capacity, n) && change in Places(capacity, n, d)
  }

  function Factorial(n: nat): nat {
    if n == 0 then 1 else n * Factorial(n - 1)
  }

  function Append(d: seq<nat>, cs: set<nat>): set<seq<nat>> {
    set c | c in cs :: d + [c]
  }

  lemma {:induction false} AppendSize(d: seq<nat>, cs: set<nat>)
    ensures |Append(d, cs)| == |cs|
    decreases |cs|
  {
    if c :| c in cs {
      AppendSize(d, cs - {c});
      forall e | e in cs - {c} ensures d + [e] != d + [c] {
        assert (d + [e])[|d|] == e && (d + [c])[|d|] == c;
      }
      assert Append(d, cs) == Append(d, cs - {c}) + {d + [c]};
    }
  }

  /** The extensions of some draws by one more. */
  function Extended(draws: set<seq<nat>>, last: seq<nat> -> set<nat>): set<seq<nat>> {
    set d, c | d in draws && c in last(d) :: d + [c]
  }

  lemma Extend(draws: set<seq<nat>>, last: seq<nat> -> set<nat>, d: seq<nat>, c: nat)
    requires d in draws && c in last(d)
    ensures d + [c] in Extended(draws, last)
  {
  }

  lemma Shorten(draws: set<seq<nat>>, last: seq<nat> -> set<nat>, d: seq<nat>) returns (e: seq<nat>, c: nat)
    requires d in Extended(draws, last)
    ensures e in draws && c in last(e) && d == e + [c]
  {
    e, c :| e in draws && c in last(e) && d == e + [c];
  }

  lemma AppendsApart(d: seq<nat>, e: seq<nat>, cs: set<nat>, ds: set<nat>)
    requires d != e
    ensures Append(d, cs) !! Append(e, ds)
  {
    forall u | u in Append(d, cs) ensures u !in Append(e, ds) {
      assert u[..|u| - 1] == d;
      assert forall c: nat :: (e + [c])[..|e + [c]| - 1] == e;
    }
  }

  lemma ExtendedSize(draws: set<seq<nat>>, last: seq<nat> -> set<nat>, n: nat)
    requires forall d :: d in draws ==> |last(d)| == n
    ensures |Extended(draws, last)| == |draws| * n
  {
    var f := d => Append(d, last(d));
    forall d | d in draws ensures |f(d)| == n {
      AppendSize(d, last(d));
    }
    forall d, e | d in draws && e in draws && d != e ensures f(d) !! f(e) {
      AppendsApart(d, e, last(d), last(e));
    }
    UnionSize(draws, f, n);
    forall u ensures u in Extended(draws, last) <==> u in Union(draws, f) {
      if u in Union(draws, f) {
        var d :| d in draws && u in f(d);
      }
      if u in Extended(draws, last) {
        var d, c :| d in draws && c in last(d) && u == d + [c];
        assert u in f(d);
      }
    }
    assert Extended(draws, last) == Union(draws, f);
  }

  /** How many draws there are. */
  lemma AllDrawsStep(capacity: nat, n: nat)
    requires n > capacity
    ensures |AllDraws(capacity, n)| == |AllDraws(capacity, n - 1)| * n
  {
    ExtendedSize(AllDraws(capacity, n - 1), d => Below(n), n);
    assert AllDraws(capacity, n) == Extended(AllDraws(capacity, n - 1), d => Below(n));
  }

  // --- Every change is kept equally often ---

  lemma SplitDraws(capacity: nat, n: nat, d: seq<nat>)
    requires n > capacity && d in AllDraws(capacity, n)
    ensures d[..|d| - 1] in AllDraws(capacity, n - 1) && d[|d| - 1] < n && d == d[..|d| - 1] + [d[|d| - 1]]
  {
    hide Places, Replaced;
    var e, c :| e in AllDraws(capacity, n - 1) && c in Below(n) && d == e + [c];
    assert d[..|d| - 1] == e && d[|d| - 1] == c;
  }

  lemma JoinDraws(capacity: nat, n: nat, d: seq<nat>, c: nat)
    requires n > capacity && d in AllDraws(capacity, n - 1) && c < n
    ensures d + [c] in AllDraws(capacity, n)
    ensures Places(capacity, n, d + [c]) == Replaced(Places(capacity, n - 1, d), c, n - 1)
  {
    assert (d + [c])[..|d + [c]| - 1] == d;
  }

  function SlotOf(places: seq<nat>, change: nat): (s: nat)
    requires change in places
    ensures s < |places| && places[s] == change
  {
    if places[0] == change then 0 else 1 + SlotOf(places[1..], change)
  }

  lemma ReplacedKeeps(places: seq<nat>, draw: nat, change: nat, earlier: nat)
    requires forall s, t :: 0 <= s < t < |places| ==> places[s] != places[t]
    requires earlier != change
    ensures earlier in Replaced(places, draw, change) <==>
              earlier in places && draw != SlotOf(places, earlier)
  {
    if earlier in places {
      var s := SlotOf(places, earlier);
      if draw != s {
        assert Replaced(places, draw, change)[s] == earlier;
      }
    }
  }

  /** The last draws that leave `change` where it is. */
  function Sparing(capacity: nat, n: nat, change: nat, d: seq<nat>): set<nat> {
    if n > 0 && |d| == Draws(capacity, n - 1) && change in Places(capacity, n - 1, d)
    then Below(n) - {SlotOf(Places(capacity, n - 1, d), change)}
    else {}
  }

  lemma EarlierRetained(capacity: nat, n: nat, change: nat)
    requires capacity < n && change < n - 1
    ensures Retaining(capacity, n, change)
            == Extended(Retaining(capacity, n - 1, change), d => Sparing(capacity, n, change, d))
  {
    hide Places, Replaced, SlotOf, AllDraws, Extended;
    var before, last := Retaining(capacity, n - 1, change), d => Sparing(capacity, n, change, d);
    forall d | d in Retaining(capacity, n, change) ensures d in Extended(before, last) {
      SplitDraws(capacity, n, d);
      var e, c := d[..|d| - 1], d[|d| - 1];
      JoinDraws(capacity, n, e, c);
      ReplacedKeeps(Places(capacity, n - 1, e), c, n - 1, change);
      Extend(before, last, e, c);
    }
    forall d | d in Extended(before, last) ensures d in Retaining(capacity, n, change) {
      var e, c := Shorten(before, last, d);
      JoinDraws(capacity, n, e, c);
      ReplacedKeeps(Places(capacity, n - 1, e), c, n - 1, change);
    }
  }

  lemma LatestRetained(capacity: nat, n: nat)
    requires capacity < n
    ensures Retaining(capacity, n, n - 1) == Extended(AllDraws(capacity, n - 1), d => Below(capacity))
  {
    hide Places, AllDraws;
    var here, there := Retaining(capacity, n, n - 1), Extended(AllDraws(capacity, n - 1), d => Below(capacity));
    forall d | d in here ensures d in there {
      SplitDraws(capacity, n, d);
      JoinDraws(capacity, n, d[..|d| - 1], d[|d| - 1]);
    }
    forall d | d in there ensures d in here {
      var e, c :| e in AllDraws(capacity, n - 1) && c in Below(capacity) && d == e + [c];
      JoinDraws(capacity, n, e, c);
      assert Replaced(Places(capacity, n - 1, e), c, n - 1)[c] == n - 1;
    }
  }

  /** Of all draws for `n` changes, exactly `capacity` in `n` keep any one change, the first as much as
      the last. */
  lemma {:induction false} EveryChangeEquallyLikely(capacity: nat, n: nat, change: nat)
    requires capacity <= n && change < n
    ensures |Retaining(capacity, n, change)| * n == |AllDraws(capacity, n)| * capacity
    decreases n
  {
    hide Places, AllDraws, Retaining;
    if n == capacity {
      AllRetained(n, change);
    } else {
      AllDrawsStep(capacity, n);
      if change == n - 1 {
        LatestRetainedSize(capacity, n);
      } else {
        EveryChangeEquallyLikely(capacity, n - 1, change);
        EarlierRetainedSize(capacity, n, change);
      }
      Scale(|Retaining(capacity, n, change)|, |AllDraws(capacity, n)|, |AllDraws(capacity, n - 1)|, capacity, n);
    }
  }

  lemma AllRetained(n: nat, change: nat)
    requires change < n
    ensures |Retaining(n, n, change)| == 1 == |AllDraws(n, n)|
  {
    assert Places(n, n, [])[change] == change;
    assert Retaining(n, n, change) == {[]};
  }

  lemma LatestRetainedSize(capacity: nat, n: nat)
    requires capacity < n
    ensures |Retaining(capacity, n, n - 1)| == |AllDraws(capacity, n - 1)| * capacity
  {
    LatestRetained(capacity, n);
    hide AllDraws, Extended, Below, Retaining;
    ExtendedSize(AllDraws(capacity, n - 1), d => Below(capacity), capacity);
  }

  lemma EarlierRetainedSize(capacity: nat, n: nat, change: nat)
    requires capacity < n && change < n - 1
    ensures |Retaining(capacity, n, change)| == |Retaining(capacity, n - 1, change)| * (n - 1)
  {
    EarlierRetained(capacity, n, change);
    hide AllDraws, Extended, Below;
    ExtendedSize(Retaining(capacity, n - 1, change), d => Sparing(capacity, n, change, d), n - 1);
  }

  lemma Scale(retaining: nat, all: nat, before: nat, capacity: nat, n: nat)
    requires retaining == before * capacity && all == before * n
    ensures retaining * n == all * capacity
  {
    assert before * capacity * n == before * n * capacity;
  }

  // --- Every set of changes is kept equally often ---

  lemma ReplacedKept(places: seq<nat>, draw: nat, change: nat)
    requires forall s, t :: 0 <= s < t < |places| ==> places[s] != places[t]
    ensures Kept(Replaced(places, draw, change))
            == if draw < |places| then Kept(places) - {places[draw]} + {change} else Kept(places)
  {
    if draw < |places| {
      var after := Replaced(places, draw, change);
      forall c | c in Kept(places) - {places[draw]} + {change} ensures c in after {
        if c == change {
          assert after[draw] == c;
        } else {
          var s :| 0 <= s < |places| && places[s] == c;
          assert after[s] == c;
        }
      }
    }
  }

  lemma LatestNotKept(capacity: nat, n: nat, kept: set<nat>)
    requires capacity < n && n - 1 !in kept
    ensures Keeping(capacity, n, kept)
            == Extended(Keeping(capacity, n - 1, kept), d => Below(n) - Below(capacity))
  {
    hide Places, AllDraws, Replaced, Extended;
    var last := d => Below(n) - Below(capacity);
    var there := Extended(Keeping(capacity, n - 1, kept), last);
    forall d | d in Keeping(capacity, n, kept) ensures d in there {
      SplitDraws(capacity, n, d);
      var e, c := d[..|d| - 1], d[|d| - 1];
      LatestSpared(capacity, n, kept, e, c);
      Extend(Keeping(capacity, n - 1, kept), last, e, c);
    }
    forall d | d in there ensures d in Keeping(capacity, n, kept) {
      var e, c := Shorten(Keeping(capacity, n - 1, kept), last, d);
      LatestSpared(capacity, n, kept, e, c);
    }
  }

  lemma LatestSpared(capacity: nat, n: nat, kept: set<nat>, e: seq<nat>, c: nat)
    requires capacity < n && n - 1 !in kept && e in AllDraws(capacity, n - 1) && c < n
    ensures e + [c] in Keeping(capacity, n, kept) <==> e in Keeping(capacity, n - 1, kept) && c >= capacity
  {
    hide Places, AllDraws, Replaced;
    JoinDraws(capacity, n, e, c);
    ReplacedKept(Places(capacity, n - 1, e), c, n - 1);
  }

  /** The one last draw that replaces `change`. */
  function Replacing(capacity: nat, n: nat, change: nat, d: seq<nat>): set<nat> {
    if n > 0 && |d| == Draws(capacity, n - 1) && change in Places(capacity, n - 1, d)
    then {SlotOf(Places(capacity, n - 1, d), change)}
    else {}
  }

  /** The draws by which the latest change replaces `change` and leaves `kept`. */
  function Making(capacity: nat, n: nat, kept: set<nat>, change: nat): set<seq<nat>> {
    if n == 0 then {}
    else Extended(Keeping(capacity, n - 1, kept - {n - 1} + {change}), d => Replacing(capacity, n, change, d))
  }

  lemma MakingSize(capacity: nat, n: nat, kept: set<nat>, change: nat)
    requires n > 0
    ensures |Making(capacity, n, kept, change)| == |Keeping(capacity, n - 1, kept - {n - 1} + {change})|
  {
    hide Places, AllDraws;
    ExtendedSize(Keeping(capacity, n - 1, kept - {n - 1} + {change}), d => Replacing(capacity, n, change, d), 1);
  }

  lemma MakingApart(capacity: nat, n: nat, kept: set<nat>, a: nat, b: nat)
    requires n > 0 && a != b && a !in kept && b !in kept
    ensures Making(capacity, n, kept, a) !! Making(capacity, n, kept, b)
  {
    hide Places, AllDraws, Replacing;
    forall d | d in Making(capacity, n, kept, a) ensures d !in Making(capacity, n, kept, b) {
      var e := d[..|d| - 1];
      assert Kept(Places(capacity, n - 1, e)) == kept - {n - 1} + {a};
      assert a in kept - {n - 1} + {a} && a !in kept - {n - 1} + {b};
    }
  }

  lemma MadeKeeps(capacity: nat, n: nat, kept: set<nat>, change: nat, d: seq<nat>)
    requires capacity < n && n - 1 in kept && change !in kept && d in Making(capacity, n, kept, change)
    ensures d in Keeping(capacity, n, kept)
  {
    hide Places, AllDraws, Replaced, Making;
    var before := kept - {n - 1} + {change};
    var e, c := MadeFrom(capacity, n, kept, change, d);
    JoinDraws(capacity, n, e, c);
    ReplacedKept(Places(capacity, n - 1, e), c, n - 1);
    assert before - {change} + {n - 1} == kept;
  }

  lemma MadeFrom(capacity: nat, n: nat, kept: set<nat>, change: nat, d: seq<nat>) returns (e: seq<nat>, c: nat)
    requires n > 0 && d in Making(capacity, n, kept, change)
    ensures e in Keeping(capacity, n - 1, kept - {n - 1} + {change}) && c in Replacing(capacity, n, change, e)
    ensures d == e + [c]
  {
    hide Keeping, Replacing;
    e, c :| e in Keeping(capacity, n - 1, kept - {n - 1} + {change}) && c in Replacing(capacity, n, change, e)
            && d == e + [c];
  }

  lemma KeptIsMade(capacity: nat, n: nat, kept: set<nat>, d: seq<nat>) returns (change: nat)
    requires capacity < n && n - 1 in kept && d in Keeping(capacity, n, kept)
    ensures change in Below(n - 1) - kept && d in Making(capacity, n, kept, change)
  {
    assert d in AllDraws(capacity, n);
    hide Places, AllDraws, Replaced, Extended, Keeping, Replacing;
    SplitDraws(capacity, n, d);
    var e, c := d[..|d| - 1], d[|d| - 1];
    change := WhatWasReplaced(capacity, n, kept, e, c);
    Extend(Keeping(capacity, n - 1, kept - {n - 1} + {change}), x => Replacing(capacity, n, change, x), e, c);
  }

  lemma WhatWasReplaced(capacity: nat, n: nat, kept: set<nat>, e: seq<nat>, c: nat) returns (change: nat)
    requires capacity < n && n - 1 in kept && e in AllDraws(capacity, n - 1) && c < n
    requires e + [c] in Keeping(capacity, n, kept)
    ensures change in Below(n - 1) - kept && e in Keeping(capacity, n - 1, kept - {n - 1} + {change})
    ensures c in Replacing(capacity, n, change, e)
  {
    hide AllDraws, Replaced, Places, Replacing, SlotOf;
    JoinDraws(capacity, n, e, c);
    var places := Places(capacity, n - 1, e);
    ReplacedKept(places, c, n - 1);
    assert n - 1 !in Kept(places);
    assert c < |places|;
    change := places[c];
    assert change in Kept(places);
    assert Kept(places) == kept - {n - 1} + {change};
    ReplacingSlot(capacity, n, e, c);
  }

  lemma ReplacingSlot(capacity: nat, n: nat, e: seq<nat>, c: nat)
    requires n > 0 && |e| == Draws(capacity, n - 1) && c < |Places(capacity, n - 1, e)|
    ensures c in Replacing(capacity, n, Places(capacity, n - 1, e)[c], e)
  {
    hide Places;
  }

  lemma FactorialStep(m: nat)
    requires m > 0
    ensures Factorial(m) == Factorial(m - 1) * m == m * Factorial(m - 1)
  {
  }

  /** Every set of `capacity` changes out of `n` is what the reservoir holds under equally many draws,
      (n - capacity)! of them. */
  lemma {:induction false} EverySetEquallyLikely(capacity: nat, n: nat, kept: set<nat>)
    requires capacity <= n && |kept| == capacity && kept <= Below(n)
    ensures |Keeping(capacity, n, kept)| == Factorial(n - capacity)
    decreases n
  {
    hide Places, AllDraws, Keeping, Extended, Below;
    if n == capacity {
      OneSetKept(capacity, kept);
    } else if n - 1 !in kept {
      SubsetOfEarlier(kept, n);
      EverySetEquallyLikely(capacity, n - 1, kept);
      LatestNotKept(capacity, n, kept);
      SubsetSize(Below(capacity), Below(n));
      ExtendedSize(Keeping(capacity, n - 1, kept), d => Below(n) - Below(capacity), n - capacity);
      FactorialStep(n - capacity);
    } else {
      LatestKeptSize(capacity, n, kept);
    }
  }

  lemma SubsetOfEarlier(kept: set<nat>, n: nat)
    requires n > 0 && kept <= Below(n) && n - 1 !in kept
    ensures kept <= Below(n - 1)
  {
  }

  lemma OneSetKept(n: nat, kept: set<nat>)
    requires |kept| == n && kept <= Below(n)
    ensures Keeping(n, n, kept) == {[]}
  {
    SubsetSize(kept, Below(n));
    FilledKept(n);
    hide Places, Kept;
  }

  /** Until the reservoir is full it holds everything seen. */
  lemma FilledKept(n: nat)
    ensures Kept(Places(n, n, [])) == Below(n)
  {
    var places := Places(n, n, []);
    assert forall c :: c in Below(n) ==> c < |places| && places[c] == c;
  }

  lemma {:induction false} LatestKeptSize(capacity: nat, n: nat, kept: set<nat>)
    requires capacity < n && |kept| == capacity && kept <= Below(n) && n - 1 in kept
    ensures |Keeping(capacity, n, kept)| == Factorial(n - capacity)
    decreases n, 0
  {
    hide Places, AllDraws, Keeping, Extended, Below, Making;
    var others, making := Below(n - 1) - kept, change => Making(capacity, n, kept, change);
    forall change | change in others ensures |making(change)| == Factorial(n - 1 - capacity) {
      EverySetEquallyLikely(capacity, n - 1, kept - {n - 1} + {change});
      MakingSize(capacity, n, kept, change);
    }
    forall a, b | a in others && b in others && a != b ensures making(a) !! making(b) {
      MakingApart(capacity, n, kept, a, b);
    }
    UnionSize(others, making, Factorial(n - 1 - capacity));
    FactorialStep(n - capacity);
    forall d ensures d in Keeping(capacity, n, kept) <==> d in Union(others, making) {
      if d in Keeping(capacity, n, kept) {
        var change := KeptIsMade(capacity, n, kept, d);
        assert d in making(change);
      }
      if d in Union(others, making) {
        var change :| change in others && d in making(change);
        MadeKeeps(capacity, n, kept, change, d);
      }
    }
    assert Keeping(capacity, n, kept) == Union(others, making);
    assert others == Below(n - 1) - (kept - {n - 1});
    SubsetSize(kept - {n - 1}, Below(n - 1));
  }
}
