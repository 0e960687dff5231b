/** How the initial COPY of a table is cut into parts (Plan, internal/copy/copy.go:239-309), and how a
    plan of an older release is recovered from the number of its saved parts (recoverCopyPlan,
    internal/app/clone_resume.go:75-157). */
module CopyPlan {
  import opened Wrappers

  const MIN_INT64 := -0x8000_0000_0000_0000
  const MAX_INT64 := 0x7FFF_FFFF_FFFF_FFFF

  datatype Table = Table(
    bytes: int, empty: bool, integerKey: bool, keyMin: int, keyMax: int, hasKeyBounds: bool, heapBlocks: int)

  /** The whole table, the rows with a key in an interval, or the rows in a run of heap blocks. */
  datatype Part =
    | All
    | KeyRange(index: nat, start: int, end: int, inclusive: bool)
    | BlockRange(index: nat, start: int, end: int)

  // --- Rounding up ---

  function CeilDiv(a: int, b: int): int
    requires b > 0
  {
    (a + b - 1) / b
  }

  lemma CeilBounds(a: int, b: int)
    requires b > 0
    ensures (CeilDiv(a, b) - 1) * b < a <= CeilDiv(a, b) * b
  {
    var q := (a + b - 1) / b;
    assert a + b - 1 == q * b + (a + b - 1) % b;
  }

  lemma CeilLeast(a: int, b: int, m: int)
    requires b > 0 && a <= m * b
    ensures CeilDiv(a, b) <= m
  {
    CeilBounds(a, b);
    MultiplyLess(CeilDiv(a, b) - 1, m, b);
  }

  lemma CeilGreatest(a: int, b: int, m: int)
    requires b > 0 && m * b < a
    ensures m < CeilDiv(a, b)
  {
    CeilBounds(a, b);
    MultiplyLess(m, CeilDiv(a, b), b);
  }

  lemma MultiplyLess(x: int, y: int, b: int)
    requires b > 0 && x * b < y * b
    ensures x < y
  {
  }

  lemma MultiplyMonotone(x: int, y: int, b: int)
    requires b >= 0 && x <= y
    ensures x * b <= y * b
  {
  }

  /** Splitting `s` by the number of pieces a first split produced gives the first split again. */
  lemma CeilThrice(s: int, c: int)
    requires s > 0 && c > 0
    ensures CeilDiv(s, c) > 0 && 0 < CeilDiv(s, CeilDiv(s, c)) <= c
    ensures CeilDiv(s, CeilDiv(s, CeilDiv(s, c))) == CeilDiv(s, c)
  {
    var w := CeilDiv(s, c);
    CeilBounds(s, c);
    CeilGreatest(s, c, 0);
    var k := CeilDiv(s, w);
    CeilBounds(s, w);
    CeilGreatest(s, w, 0);
    CeilLeast(s, w, c);
    var again := CeilDiv(s, k);
    CeilLeast(s, k, w);
    CeilBounds(s, k);
    MultiplyMonotone(k, c, again);
    CeilLeast(s, c, again);
  }

  // --- The parts of a plan ---

  function PartCount(t: Table, desiredBytes: int, cap: int): int
    requires desiredBytes > 0
  {
    var byBytes := if t.bytes > 0 then (t.bytes - 1) / desiredBytes + 1 else 1;
    var capped := if byBytes > cap then cap else byBytes;
    if capped < 2 then 2 else capped
  }

  predicate Unsplit(t: Table, desiredBytes: int, cap: int) {
    cap <= 1 || desiredBytes <= 0 || t.bytes <= desiredBytes || t.empty
  }

  predicate SplitsByKey(t: Table) {
    t.integerKey && (t.hasKeyBounds || t.keyMin != 0 || t.keyMax != 0) && t.keyMin <= t.keyMax
  }

  /** The key ranges from the `i`-th on. */
  function KeyRanges(t: Table, width: int, i: nat): seq<Part>
    requires width > 0
    decreases t.keyMax - (t.keyMin + width * i)
  {
    var start := t.keyMin + width * i;
    if start > t.keyMax then []
    else
      NextStart(t, width, i);
      var next := start + width;
      if next > t.keyMax then [KeyRange(i, start, t.keyMax, true)]
      else [KeyRange(i, start, next, false)] + KeyRanges(t, width, i + 1)
  }

  lemma NextStart(t: Table, width: int, i: nat)
    ensures t.keyMin + width * (i + 1) == t.keyMin + width * i + width
  {
  }

  function BlockRanges(blocks: int, width: int, i: nat): seq<Part>
    requires width > 0
    decreases blocks - width * i
  {
    var start := width * i;
    if start >= blocks then []
    else
      NextBlock(width, i);
      [BlockRange(i, start, if start + width > blocks then blocks else start + width)] + BlockRanges(blocks, width, i + 1)
  }

  lemma NextBlock(width: int, i: nat)
    ensures width * (i + 1) == width * i + width
  {
  }

  function PartsOf(t: Table, desiredBytes: int, cap: int): seq<Part> {
    if Unsplit(t, desiredBytes, cap) then [All]
    else
      var count := PartCount(t, desiredBytes, cap);
      if SplitsByKey(t) then
        CeilGreatest(t.keyMax - t.keyMin + 1, count, 0);
        KeyRanges(t, CeilDiv(t.keyMax - t.keyMin + 1, count), 0)
      else if t.heapBlocks < 2 then [All]
      else
        CeilGreatest(t.heapBlocks, count, 0);
        BlockRanges(t.heapBlocks, CeilDiv(t.heapBlocks, count), 0)
  }

  // --- Every key and every block in exactly one part ---

  predicate HasKey(p: Part, key: int) {
    p.KeyRange? && p.start <= key && if p.inclusive then key <= p.end else key < p.end
  }

  predicate HasBlock(p: Part, block: int) {
    p.BlockRange? && p.start <= block < p.end
  }

  /** The shape of the `p`-th range counted from the `i`-th. */
  lemma {:induction false} KeyRangeAt(t: Table, width: int, i: nat, p: nat)
    requires width > 0 && p < |KeyRanges(t, width, i)|
    ensures
      var parts := KeyRanges(t, width, i);
      && parts[p].KeyRange? && parts[p].index == i + p
      && parts[p].start == t.keyMin + width * (i + p) <= t.keyMax
      && parts[p].inclusive == (p == |parts| - 1)
      && parts[p].end == (if parts[p].inclusive then t.keyMax else t.keyMin + width * (i + p + 1)) <= t.keyMax
    decreases p
  {
    NextStart(t, width, i);
    if p > 0 {
      KeyRangeAt(t, width, i + 1, p - 1);
    }
  }

  lemma {:induction false} FindKey(t: Table, width: int, i: nat, key: int) returns (p: nat)
    requires width > 0 && t.keyMin + width * i <= key <= t.keyMax
    ensures p < |KeyRanges(t, width, i)| && HasKey(KeyRanges(t, width, i)[p], key)
    decreases t.keyMax - (t.keyMin + width * i)
  {
    NextStart(t, width, i);
    if t.keyMin + width * i + width <= key {
      p := FindKey(t, width, i + 1, key);
      p := p + 1;
    } else {
      p := 0;
    }
  }

  /** The parts hold a key of the table exactly once, and no other key. */
  predicate KeyOnce(parts: seq<Part>, lo: int, hi: int, key: int) {
    && (lo <= key <= hi <==> exists p :: 0 <= p < |parts| && HasKey(parts[p], key))
    && (forall p, q :: 0 <= p < q < |parts| && HasKey(parts[p], key) ==> !HasKey(parts[q], key))
  }

  lemma RangesApart(t: Table, width: int, p: nat, q: nat, key: int)
    requires width > 0 && p < q < |KeyRanges(t, width, 0)| && HasKey(KeyRanges(t, width, 0)[p], key)
    ensures !HasKey(KeyRanges(t, width, 0)[q], key)
  {
    hide KeyRanges;
    KeyRangeAt(t, width, 0, p);
    KeyRangeAt(t, width, 0, q);
    MultiplyMonotone(p + 1, q, width);
  }

  lemma KeyInOneRange(t: Table, width: int, key: int)
    requires width > 0
    ensures KeyOnce(KeyRanges(t, width, 0), t.keyMin, t.keyMax, key)
  {
    var parts := KeyRanges(t, width, 0);
    if t.keyMin <= key <= t.keyMax {
      var p := FindKey(t, width, 0, key);
    }
    hide KeyRanges;
    forall p: nat | p < |parts| ensures HasKey(parts[p], key) ==> t.keyMin <= key <= t.keyMax {
      BoundsInside(t, width, p);
    }
    forall p: nat, q: nat | p < q < |parts| && HasKey(parts[p], key) ensures !HasKey(parts[q], key) {
      RangesApart(t, width, p, q, key);
    }
  }

  lemma {:induction false} BlockRangeAt(blocks: int, width: int, i: nat, p: nat)
    requires width > 0 && p < |BlockRanges(blocks, width, i)|
    ensures
      var parts := BlockRanges(blocks, width, i);
      && parts[p].BlockRange? && parts[p].index == i + p && parts[p].start == width * (i + p) < blocks
      && parts[p].end == if width * (i + p + 1) > blocks then blocks else width * (i + p + 1)
    decreases p
  {
    NextBlock(width, i);
    if p > 0 {
      BlockRangeAt(blocks, width, i + 1, p - 1);
    }
  }

  lemma {:induction false} FindBlock(blocks: int, width: int, i: nat, block: int) returns (p: nat)
    requires width > 0 && width * i <= block < blocks
    ensures p < |BlockRanges(blocks, width, i)| && HasBlock(BlockRanges(blocks, width, i)[p], block)
    decreases blocks - width * i
  {
    NextBlock(width, i);
    if width * i + width <= block {
      p := FindBlock(blocks, width, i + 1, block);
      p := p + 1;
    } else {
      p := 0;
    }
  }

  predicate BlockOnce(parts: seq<Part>, blocks: int, block: int) {
    && (0 <= block < blocks <==> exists p :: 0 <= p < |parts| && HasBlock(parts[p], block))
    && (forall p, q :: 0 <= p < q < |parts| && HasBlock(parts[p], block) ==> !HasBlock(parts[q], block))
  }

  lemma BlocksApart(blocks: int, width: int, p: nat, q: nat, block: int)
    requires width > 0 && p < q < |BlockRanges(blocks, width, 0)| && HasBlock(BlockRanges(blocks, width, 0)[p], block)
    ensures !HasBlock(BlockRanges(blocks, width, 0)[q], block)
  {
    hide BlockRanges;
    BlockRangeAt(blocks, width, 0, p);
    BlockRangeAt(blocks, width, 0, q);
    MultiplyMonotone(p + 1, q, width);
  }

  lemma BlockInOneRange(blocks: int, width: int, block: int)
    requires width > 0
    ensures BlockOnce(BlockRanges(blocks, width, 0), blocks, block)
  {
    var parts := BlockRanges(blocks, width, 0);
    if 0 <= block < blocks {
      var p := FindBlock(blocks, width, 0, block);
    }
    hide BlockRanges;
    forall p: nat | p < |parts| ensures HasBlock(parts[p], block) ==> 0 <= block < blocks {
      BlockRangeAt(blocks, width, 0, p);
      MultiplyMonotone(0, p, width);
    }
    forall p: nat, q: nat | p < q < |parts| && HasBlock(parts[p], block) ensures !HasBlock(parts[q], block) {
      BlocksApart(blocks, width, p, q, block);
    }
  }

  // --- How many parts ---

  lemma UniqueQuotient(a: int, width: int, q: int, r: int)
    requires width > 0 && a == q * width + r && 0 <= r < width
    ensures a / width == q
  {
    var p, s := a / width, a % width;
    assert p * width + s == q * width + r;
    assert p * width < (q + 1) * width && q * width < (p + 1) * width;
    MultiplyLess(p, q + 1, width);
    MultiplyLess(q, p + 1, width);
  }

  lemma CeilStep(left: int, width: int)
    requires width > 0 && left > 0
    ensures CeilDiv(left, width) == if left <= width then 1 else 1 + CeilDiv(left - width, width)
  {
    if left <= width {
      UniqueQuotient(left + width - 1, width, 1, left - 1);
    } else {
      var q, r := (left - 1) / width, (left - 1) % width;
      assert left - 1 == q * width + r;
      UniqueQuotient(left + width - 1, width, q + 1, r);
    }
  }

  lemma {:induction false} KeyRangesLength(t: Table, width: int, i: nat)
    requires width > 0
    ensures |KeyRanges(t, width, i)| ==
      if t.keyMin + width * i > t.keyMax then 0 else CeilDiv(t.keyMax - t.keyMin + 1 - width * i, width)
    decreases t.keyMax - (t.keyMin + width * i)
  {
    var left := t.keyMax - t.keyMin + 1 - width * i;
    NextStart(t, width, i);
    if left > 0 {
      CeilStep(left, width);
      if left > width {
        KeyRangesLength(t, width, i + 1);
      }
    }
  }

  lemma {:induction false} BlockRangesLength(blocks: int, width: int, i: nat)
    requires width > 0
    ensures |BlockRanges(blocks, width, i)| == if width * i >= blocks then 0 else CeilDiv(blocks - width * i, width)
    decreases blocks - width * i
  {
    var left := blocks - width * i;
    NextBlock(width, i);
    if left > 0 {
      CeilStep(left, width);
      BlockRangesLength(blocks, width, i + 1);
    }
  }

  // --- The plan ---

  /** A plan has at least one part and at most as many as allowed. Split by key it puts every key of
      the table in exactly one part, split by block every heap block, and all bounds stay inside the
      bounds of the table, so they fit 64 bits whenever those do. */
  lemma PlanCovers(t: Table, desiredBytes: int, cap: int)
    ensures
      var parts := PartsOf(t, desiredBytes, cap);
      && 1 <= |parts| && (cap >= 1 ==> |parts| <= cap)
      && (parts != [All] && SplitsByKey(t) ==> forall key :: KeyOnce(parts, t.keyMin, t.keyMax, key))
      && (parts != [All] && !SplitsByKey(t) ==> forall block :: BlockOnce(parts, t.heapBlocks, block))
      && (forall p :: 0 <= p < |parts| && parts[p].KeyRange? ==> t.keyMin <= parts[p].start <= parts[p].end <= t.keyMax)
  {
    hide KeyRanges, BlockRanges, CeilDiv, KeyOnce, BlockOnce;
    if !Unsplit(t, desiredBytes, cap) {
      var count := PartCount(t, desiredBytes, cap);
      if SplitsByKey(t) {
        var span := t.keyMax - t.keyMin + 1;
        var width := CeilDiv(span, count);
        CeilThrice(span, count);
        KeyRangesLength(t, width, 0);
        forall key ensures KeyOnce(KeyRanges(t, width, 0), t.keyMin, t.keyMax, key) {
          KeyInOneRange(t, width, key);
        }
        forall p: nat | p < |KeyRanges(t, width, 0)|
          ensures
            var part := KeyRanges(t, width, 0)[p];
            part.KeyRange? && t.keyMin <= part.start <= part.end <= t.keyMax
        {
          BoundsInside(t, width, p);
        }
      } else if t.heapBlocks >= 2 {
        var width := CeilDiv(t.heapBlocks, count);
        CeilThrice(t.heapBlocks, count);
        BlockRangesLength(t.heapBlocks, width, 0);
        forall block ensures BlockOnce(BlockRanges(t.heapBlocks, width, 0), t.heapBlocks, block) {
          BlockInOneRange(t.heapBlocks, width, block);
        }
        forall p: nat | p < |BlockRanges(t.heapBlocks, width, 0)|
          ensures BlockRanges(t.heapBlocks, width, 0)[p].BlockRange?
        {
          BlockRangeAt(t.heapBlocks, width, 0, p);
        }
      }
    }
  }

  lemma BoundsInside(t: Table, width: int, p: nat)
    requires width > 0 && p < |KeyRanges(t, width, 0)|
    ensures
      var part := KeyRanges(t, width, 0)[p];
      part.KeyRange? && t.keyMin <= part.start <= part.end <= t.keyMax
  {
    KeyRangeAt(t, width, 0, p);
    MultiplyMonotone(0, p, width);
    MultiplyMonotone(p, p + 1, width);
  }

  /** How many keys or heap blocks a part holds. */
  function Held(p: Part): int {
    match p
    case All => 0
    case KeyRange(_, start, end, inclusive) => end - start + if inclusive then 1 else 0
    case BlockRange(_, start, end) => end - start
  }

  /** Every part but the last holds `width`, the last no more. */
  predicate EvenlyCut(parts: seq<Part>, width: int) {
    forall p :: 0 <= p < |parts| ==>
      1 <= Held(parts[p]) <= width && (p < |parts| - 1 ==> Held(parts[p]) == width)
  }

  /** `width` is `total` divided by `n`, rounded up. */
  predicate RoundedUp(total: int, n: int, width: int) {
    (width - 1) * n < total <= width * n
  }

  /** One part per `desiredBytes` begun, within the limit. */
  predicate CountFits(bytes: int, desiredBytes: int, cap: int, n: int) {
    2 <= n <= cap && (n - 1) * desiredBytes < bytes && (n == cap || bytes <= n * desiredBytes)
  }

  lemma CountFollowsSize(t: Table, desiredBytes: int, cap: int)
    requires 1 < cap && 0 < desiredBytes < t.bytes
    ensures CountFits(t.bytes, desiredBytes, cap, PartCount(t, desiredBytes, cap))
  {
    var q, r := (t.bytes - 1) / desiredBytes, (t.bytes - 1) % desiredBytes;
    assert t.bytes - 1 == q * desiredBytes + r;
    var n := PartCount(t, desiredBytes, cap);
    if q < 1 {
      MultiplyMonotone(q, 0, desiredBytes);
    }
    MultiplyMonotone(n - 1, q, desiredBytes);
    assert (q + 1) * desiredBytes == q * desiredBytes + desiredBytes;
  }

  lemma KeyRangesEven(t: Table, width: int)
    requires width > 0 && t.keyMin <= t.keyMax
    ensures EvenlyCut(KeyRanges(t, width, 0), width)
  {
    hide KeyRanges;
    var parts := KeyRanges(t, width, 0);
    forall p: nat | p < |parts|
      ensures 1 <= Held(parts[p]) <= width && (p < |parts| - 1 ==> Held(parts[p]) == width)
    {
      KeyRangeAt(t, width, 0, p);
      NextStart(t, width, p);
      if p == |parts| - 1 {
        LastKeyRange(t, width);
      }
    }
  }

  lemma LastKeyRange(t: Table, width: int)
    requires width > 0 && t.keyMin <= t.keyMax
    ensures
      var n := |KeyRanges(t, width, 0)|;
      n > 0 && t.keyMax < t.keyMin + width * n
  {
    var span := t.keyMax - t.keyMin + 1;
    KeyRangesLength(t, width, 0);
    CeilBounds(span, width);
    CeilGreatest(span, width, 0);
  }

  lemma BlockRangesEven(blocks: int, width: int)
    requires width > 0
    ensures EvenlyCut(BlockRanges(blocks, width, 0), width)
  {
    hide BlockRanges;
    var parts := BlockRanges(blocks, width, 0);
    forall p: nat | p < |parts|
      ensures 1 <= Held(parts[p]) <= width && (p < |parts| - 1 ==> Held(parts[p]) == width)
    {
      BlockRangeAt(blocks, width, 0, p);
      NextBlock(width, p);
      if p < |parts| - 1 {
        BlockRangeAt(blocks, width, 0, p + 1);
      }
    }
  }

  /** What the inventory says of a table (integerPrimaryKey): key bounds go with an integer key, and a
      table with such a key is either empty or has bounds. */
  predicate InventoryOk(t: Table) {
    if !t.integerKey then !t.hasKeyBounds && t.keyMin == 0 && t.keyMax == 0 && !t.empty
    else if t.empty then !t.hasKeyBounds && t.keyMin == 0 && t.keyMax == 0
    else t.hasKeyBounds && t.keyMin <= t.keyMax
  }

  /** A table within the desired size, empty, or without keys and blocks to cut at is one part. Any other has
      one part for every `desiredBytes` it begins, within the limit, by key if it has known integer keys and
      by heap block otherwise; its parts hold equally many keys or blocks, the last perhaps fewer. */
  lemma PartsFollowSize(t: Table, desiredBytes: int, cap: int) returns (n: int, width: int)
    requires InventoryOk(t)
    ensures
      var parts := PartsOf(t, desiredBytes, cap);
      if cap <= 1 || desiredBytes <= 0 || t.bytes <= desiredBytes || t.empty || (!t.integerKey && t.heapBlocks < 2)
      then parts == [All]
      else
        && CountFits(t.bytes, desiredBytes, cap, n) && EvenlyCut(parts, width)
        && RoundedUp(if t.integerKey then t.keyMax - t.keyMin + 1 else t.heapBlocks, n, width)
        && forall part :: part in parts ==> if t.integerKey then part.KeyRange? else part.BlockRange?
  {
    n, width := 0, 0;
    if !Unsplit(t, desiredBytes, cap) && (t.integerKey || t.heapBlocks >= 2) {
      n := PartCount(t, desiredBytes, cap);
      CountFollowsSize(t, desiredBytes, cap);
      hide PartCount, KeyRanges, BlockRanges, EvenlyCut, CountFits;
      var total := if t.integerKey then t.keyMax - t.keyMin + 1 else t.heapBlocks;
      width := CeilDiv(total, n);
      CeilBounds(total, n);
      CeilGreatest(total, n, 0);
      if t.integerKey {
        KeyRangesEven(t, width);
        forall part | part in KeyRanges(t, width, 0) ensures part.KeyRange? {
          var p: nat :| p < |KeyRanges(t, width, 0)| && KeyRanges(t, width, 0)[p] == part;
          KeyRangeAt(t, width, 0, p);
        }
      } else {
        BlockRangesEven(t.heapBlocks, width);
        forall part | part in BlockRanges(t.heapBlocks, width, 0) ensures part.BlockRange? {
          var p: nat :| p < |BlockRanges(t.heapBlocks, width, 0)| && BlockRanges(t.heapBlocks, width, 0)[p] == part;
          BlockRangeAt(t.heapBlocks, width, 0, p);
        }
      }
    }
  }

  // --- Recovery of an older plan ---

  /** A plan of more than one part replans to itself from its number of parts alone. `bytes` is what
      the table measures when it is replanned. */
  lemma ReplanIdentity(t: Table, desiredBytes: int, cap: int, bytes: int)
    requires |PartsOf(t, desiredBytes, cap)| >= 2 && bytes >= |PartsOf(t, desiredBytes, cap)|
    ensures PartsOf(t.(bytes := bytes), 1, |PartsOf(t, desiredBytes, cap)|) == PartsOf(t, desiredBytes, cap)
  {
    hide KeyRanges, BlockRanges, CeilDiv;
    var count := PartCount(t, desiredBytes, cap);
    var again := t.(bytes := bytes);
    if SplitsByKey(t) {
      var span := t.keyMax - t.keyMin + 1;
      CeilThrice(span, count);
      KeyRangesLength(t, CeilDiv(span, count), 0);
      SameKeyRanges(t, again, CeilDiv(span, count), 0);
    } else {
      CeilThrice(t.heapBlocks, count);
      BlockRangesLength(t.heapBlocks, CeilDiv(t.heapBlocks, count), 0);
    }
  }

  lemma {:induction false} SameKeyRanges(t: Table, u: Table, width: int, i: nat)
    requires width > 0 && t.keyMin == u.keyMin && t.keyMax == u.keyMax
    ensures KeyRanges(t, width, i) == KeyRanges(u, width, i)
    decreases t.keyMax - (t.keyMin + width * i)
  {
    NextStart(t, width, i);
    NextStart(u, width, i);
    if t.keyMin + width * i + width <= t.keyMax {
      SameKeyRanges(t, u, width, i + 1);
    }
  }

  /** Replanning with the number of saved parts gives the saved plan back exactly when the saved plan is
      not a single key range: a table with one key is saved as one range and replanned as a whole. */
  lemma RecoveryIff(t: Table, desiredBytes: int, cap: int)
    ensures
      var saved := PartsOf(t, desiredBytes, cap);
      PartsOf(t, 1, |saved|) == saved <==> !(|saved| == 1 && saved[0].KeyRange?)
  {
    hide KeyRanges, BlockRanges, CeilDiv;
    var saved := PartsOf(t, desiredBytes, cap);
    PlanCovers(t, desiredBytes, cap);
    if |saved| >= 2 {
      EnoughBytes(t, desiredBytes, cap);
      ReplanIdentity(t, desiredBytes, cap, t.bytes);
      assert t.(bytes := t.bytes) == t;
    } else {
      assert PartsOf(t, 1, 1) == [All];
      if saved != [All] {
        SinglePartIsKeyRange(t, desiredBytes, cap);
      }
    }
  }

  /** The same condition on the table alone: the saved plan comes back unless a table that is to be split
      by key has a single key. */
  lemma RecoveryIffKeysDiffer(t: Table, desiredBytes: int, cap: int)
    ensures
      var saved := PartsOf(t, desiredBytes, cap);
      PartsOf(t, 1, |saved|) == saved
      <==> !(!Unsplit(t, desiredBytes, cap) && SplitsByKey(t) && t.keyMin == t.keyMax)
  {
    hide KeyRanges, BlockRanges, CeilDiv;
    var saved := PartsOf(t, desiredBytes, cap);
    RecoveryIff(t, desiredBytes, cap);
    if !Unsplit(t, desiredBytes, cap) {
      var count := PartCount(t, desiredBytes, cap);
      if SplitsByKey(t) {
        var span := t.keyMax - t.keyMin + 1;
        var width := CeilDiv(span, count);
        CeilThrice(span, count);
        KeyRangesLength(t, width, 0);
        KeyRangeAt(t, width, 0, 0);
        OneRangeIff(span, count);
      } else if t.heapBlocks >= 2 {
        CeilThrice(t.heapBlocks, count);
        BlockRangesLength(t.heapBlocks, CeilDiv(t.heapBlocks, count), 0);
        BlockRangeAt(t.heapBlocks, CeilDiv(t.heapBlocks, count), 0, 0);
      }
    }
  }

  lemma OneRangeIff(span: int, count: int)
    requires span >= 1 && count >= 2
    ensures CeilDiv(span, count) > 0 && (CeilDiv(span, CeilDiv(span, count)) == 1 <==> span == 1)
  {
    CeilThrice(span, count);
    if span >= 2 {
      SplitInTwo(span, count);
    } else {
      CeilLeast(span, count, 1);
      CeilLeast(span, CeilDiv(span, count), 1);
    }
  }

  /** A table with the one key 5, cut by key, is saved as one range and replanned as a whole. */
  lemma SingleKeyIsNotRecovered()
    ensures
      var t := Table(100, false, true, 5, 5, true, 10);
      && InventoryOk(t)
      && PartsOf(t, 10, 4) == [KeyRange(0, 5, 5, true)]
      && PartsOf(t, 1, 1) == [All]
  {
    var t := Table(100, false, true, 5, 5, true, 10);
    assert CeilDiv(1, PartCount(t, 10, 4)) == 1;
    assert KeyRanges(t, 1, 0) == [KeyRange(0, 5, 5, true)];
  }

  /** Bounds of 64 bits make ranges of 64-bit bounds, at the extremes too. */
  lemma BoundsFit64(t: Table, desiredBytes: int, cap: int, p: nat)
    requires MIN_INT64 <= t.keyMin && t.keyMax <= MAX_INT64
    requires p < |PartsOf(t, desiredBytes, cap)| && PartsOf(t, desiredBytes, cap)[p].KeyRange?
    ensures
      var part := PartsOf(t, desiredBytes, cap)[p];
      MIN_INT64 <= part.start <= part.end <= MAX_INT64
  {
    hide PartsOf, KeyOnce, BlockOnce;
    PlanCovers(t, desiredBytes, cap);
  }

  /** A table is never cut into more parts than it has bytes. */
  lemma EnoughBytes(t: Table, desiredBytes: int, cap: int)
    requires |PartsOf(t, desiredBytes, cap)| >= 2
    ensures t.bytes >= |PartsOf(t, desiredBytes, cap)|
  {
    hide KeyRanges, BlockRanges, CeilDiv;
    var count := PartCount(t, desiredBytes, cap);
    CountBelowBytes(t, desiredBytes, cap);
    if SplitsByKey(t) {
      var span := t.keyMax - t.keyMin + 1;
      CeilThrice(span, count);
      KeyRangesLength(t, CeilDiv(span, count), 0);
    } else {
      CeilThrice(t.heapBlocks, count);
      BlockRangesLength(t.heapBlocks, CeilDiv(t.heapBlocks, count), 0);
    }
  }

  lemma CountBelowBytes(t: Table, desiredBytes: int, cap: int)
    requires !Unsplit(t, desiredBytes, cap)
    ensures PartCount(t, desiredBytes, cap) <= t.bytes
  {
    var q, r := (t.bytes - 1) / desiredBytes, (t.bytes - 1) % desiredBytes;
    assert t.bytes - 1 == q * desiredBytes + r;
    MultiplyMonotone(1, desiredBytes, q);
  }

  lemma SinglePartIsKeyRange(t: Table, desiredBytes: int, cap: int)
    requires |PartsOf(t, desiredBytes, cap)| == 1 && PartsOf(t, desiredBytes, cap) != [All]
    ensures PartsOf(t, desiredBytes, cap)[0].KeyRange?
  {
    hide KeyRanges, BlockRanges, CeilDiv;
    var count := PartCount(t, desiredBytes, cap);
    if SplitsByKey(t) {
      CeilThrice(t.keyMax - t.keyMin + 1, count);
      KeyRangeAt(t, CeilDiv(t.keyMax - t.keyMin + 1, count), 0, 0);
    } else {
      var blocks := t.heapBlocks;
      CeilThrice(blocks, count);
      BlockRangesLength(blocks, CeilDiv(blocks, count), 0);
      MultiplyMonotone(2, count, blocks);
      SplitInTwo(blocks, count);
    }
  }

  /** Two blocks or more never fit one part. */
  lemma SplitInTwo(blocks: int, count: int)
    requires blocks >= 2 && count >= 2
    ensures CeilDiv(blocks, count) > 0 && CeilDiv(blocks, CeilDiv(blocks, count)) >= 2
  {
    CeilGreatest(blocks, count, 0);
    MultiplyMonotone(2, count, blocks - 1);
    CeilLeast(blocks, count, blocks - 1);
    CeilGreatest(blocks, CeilDiv(blocks, count), 1);
  }

  // --- Planning and recovery as they run ---

  method Plan(t: Table, desiredBytes: int, limit: int) returns (parts: seq<Part>)
    ensures parts == PartsOf(t, desiredBytes, if limit < 1 then 1 else limit)
  {
    hide KeyRanges, BlockRanges, CeilDiv;
    var cap := limit;
    if cap < 1 {
      cap := 1;
    }
    if cap == 1 || desiredBytes <= 0 || t.bytes <= desiredBytes || t.empty {
      return [All];
    }
    var count := 1;
    if t.bytes > 0 {
      count := (t.bytes - 1) / desiredBytes + 1;
    }
    if count > cap {
      count := cap;
    }
    if count < 2 {
      count := 2;
    }
    var hasBounds := t.hasKeyBounds || (t.integerKey && (t.keyMin != 0 || t.keyMax != 0));
    if t.integerKey && hasBounds && t.keyMax >= t.keyMin {
      CeilThrice(t.keyMax - t.keyMin + 1, count);
      parts := SplitKeys(t, count);
      return;
    }
    if t.heapBlocks < 2 {
      return [All];
    }
    CeilThrice(t.heapBlocks, count);
    parts := SplitBlocks(t.heapBlocks, count);
  }

  method SplitKeys(t: Table, count: int) returns (parts: seq<Part>)
    requires count >= 2 && t.keyMin <= t.keyMax
    requires CeilDiv(t.keyMax - t.keyMin + 1, count) > 0
    ensures parts == KeyRanges(t, CeilDiv(t.keyMax - t.keyMin + 1, count), 0)
  {
    var span := t.keyMax - t.keyMin + 1;
    var width := (span + (count - 1)) / count;
    CeilBounds(span, count);
    assert width == CeilDiv(span, count);
    parts := [];
    for i := 0 to count
      invariant parts + KeyRanges(t, width, i) == KeyRanges(t, width, 0)
    {
      var start := t.keyMin + width * i;
      if start > t.keyMax {
        return;
      }
      NextStart(t, width, i);
      var next := start + width;
      var last := i == count - 1 || next > t.keyMax;
      if last {
        parts := parts + [KeyRange(i, start, t.keyMax, true)];
        return;
      }
      ghost var rest := KeyRanges(t, width, i + 1);
      parts := parts + [KeyRange(i, start, next, false)];
    }
  }

  method SplitBlocks(blocks: int, count: int) returns (parts: seq<Part>)
    requires count >= 2 && blocks >= 2 && CeilDiv(blocks, count) > 0
    ensures parts == BlockRanges(blocks, CeilDiv(blocks, count), 0)
  {
    var width := (blocks + count - 1) / count;
    CeilBounds(blocks, count);
    var start, i := 0, 0;
    parts := [];
    while start < blocks && i < count
      invariant 0 <= i <= count && start == width * i
      invariant parts + BlockRanges(blocks, width, i) == BlockRanges(blocks, width, 0)
    {
      NextBlock(width, i);
      var end := start + width;
      if end > blocks {
        end := blocks;
      }
      ghost var rest := BlockRanges(blocks, width, i + 1);
      parts := parts + [BlockRange(i, start, end)];
      start, i := start + width, i + 1;
    }
    if i == count {
      MultiplyMonotone(width, width, count);
    }
  }

  predicate SameBounds(p: Part, q: Part) {
    (p.All? && q.All?) || (!p.All? && !q.All? && p.start == q.start && p.end == q.end && p.KeyRange? == q.KeyRange?)
  }

  function Id(p: Part): (nat, nat) {
    match p
    case All => (0, 0)
    case KeyRange(i, _, _, _) => (1, i)
    case BlockRange(i, _, _) => (2, i)
  }

  predicate MatchesSaved(stored: Part, p: Part) {
    Id(stored) == Id(p) && SameBounds(stored, p)
  }

  /** Some saved part has the name and the bounds of `p`. */
  predicate WasSaved(saved: seq<Part>, p: Part) {
    exists j :: 0 <= j < |saved| && MatchesSaved(saved[j], p)
  }

  method FindSaved(saved: seq<Part>, p: Part) returns (found: bool)
    ensures found == WasSaved(saved, p)
  {
    hide MatchesSaved;
    for j := 0 to |saved|
      invariant forall k :: 0 <= k < j ==> !MatchesSaved(saved[k], p)
    {
      if MatchesSaved(saved[j], p) {
        return true;
      }
    }
    found := false;
  }

  /** recoverCopyPlan for one table: the plan is taken up only if it has the same parts, by name and by
      bounds, as were saved. */
  method RecoverTable(t: Table, saved: seq<Part>) returns (plan: Option<seq<Part>>)
    ensures plan.Some? ==> plan.value == PartsOf(t, 1, |saved|) && |plan.value| == |saved|
    ensures plan.Some? ==> forall i :: 0 <= i < |plan.value| ==> WasSaved(saved, plan.value[i])
    ensures saved != [] && PartsOf(t, 1, |saved|) == saved ==> plan == Some(saved)
  {
    hide PartsOf;
    if |saved| == 0 {
      return None;
    }
    var planned := Plan(t, 1, |saved|);
    if |planned| != |saved| {
      return None;
    }
    for i := 0 to |planned|
      invariant forall k :: 0 <= k < i ==> WasSaved(saved, planned[k])
    {
      var found := FindSaved(saved, planned[i]);
      if !found {
        assert planned == saved ==> MatchesSaved(saved[i], planned[i]);
        return None;
      }
    }
    plan := Some(planned);
  }

  // --- Clearing a range before copying it again ---

  /** The rows a retried part deletes first: those whose key lies in its bounds (clearCopiedRange). */
  predicate Clears(t: Table, p: Part, key: int) {
    t.integerKey && match p
                    case All => false
                    case KeyRange(_, start, end, inclusive) => start <= key && if inclusive then key <= end else key < end
                    case BlockRange(_, start, end) => start <= key < end
  }

  predicate SplitsByBlock(t: Table, desiredBytes: int, cap: int) {
    !Unsplit(t, desiredBytes, cap) && !SplitsByKey(t) && t.heapBlocks >= 2
  }

  /** Every part of the plan clears exactly the keys it copies again. */
  ghost predicate ClearsExactly(t: Table, parts: seq<Part>) {
    forall i, key :: 0 <= i < |parts| ==> (Clears(t, parts[i], key) <==> HasKey(parts[i], key))
  }

  lemma ClearsWhatItCopies(t: Table, desiredBytes: int, cap: int, i: nat, key: int)
    requires i < |PartsOf(t, desiredBytes, cap)|
    requires !(t.integerKey && SplitsByBlock(t, desiredBytes, cap))
    ensures
      var p := PartsOf(t, desiredBytes, cap)[i];
      Clears(t, p, key) <==> HasKey(p, key)
  {
    hide KeyRanges, BlockRanges, CeilDiv;
    if !Unsplit(t, desiredBytes, cap) {
      var count := PartCount(t, desiredBytes, cap);
      if SplitsByKey(t) {
        CeilThrice(t.keyMax - t.keyMin + 1, count);
        KeyRangeAt(t, CeilDiv(t.keyMax - t.keyMin + 1, count), 0, i);
      } else if t.heapBlocks >= 2 {
        CeilThrice(t.heapBlocks, count);
        BlockRangeAt(t.heapBlocks, CeilDiv(t.heapBlocks, count), 0, i);
      }
    }
  }

  /** Parts clear what they copy unless a table with an integer key is cut by block: then the block numbers
      of a part are taken for keys. */
  lemma ClearsWhatItCopiesIff(t: Table, desiredBytes: int, cap: int)
    ensures ClearsExactly(t, PartsOf(t, desiredBytes, cap)) <==> !(t.integerKey && SplitsByBlock(t, desiredBytes, cap))
  {
    hide KeyRanges, BlockRanges, CeilDiv, PartsOf, Unsplit, SplitsByKey, Clears, HasKey;
    var parts := PartsOf(t, desiredBytes, cap);
    if t.integerKey && SplitsByBlock(t, desiredBytes, cap) {
      BlockTakenForKey(t, desiredBytes, cap);
      assert !ClearsExactly(t, parts);
    } else {
      forall i, key | 0 <= i < |parts| ensures Clears(t, parts[i], key) <==> HasKey(parts[i], key) {
        ClearsWhatItCopies(t, desiredBytes, cap, i, key);
      }
    }
  }

  /** The first part of a table cut by block clears the row with key 0, which it need not copy. */
  lemma BlockTakenForKey(t: Table, desiredBytes: int, cap: int)
    requires t.integerKey && SplitsByBlock(t, desiredBytes, cap)
    ensures
      var parts := PartsOf(t, desiredBytes, cap);
      |parts| > 0 && Clears(t, parts[0], 0) && !HasKey(parts[0], 0)
  {
    var count := PartCount(t, desiredBytes, cap);
    CeilThrice(t.heapBlocks, count);
    var width := CeilDiv(t.heapBlocks, count);
    hide CeilDiv, PartCount;
    assert |BlockRanges(t.heapBlocks, width, 0)| > 0;
    BlockRangeAt(t.heapBlocks, width, 0, 0);
  }

  /** A retried part of any plan of an inventoried table clears exactly the keys it copies again: such a table
      is cut by block only if it has no integer key. */
  lemma InventoriedClearsWhatItCopies(t: Table, desiredBytes: int, cap: int)
    requires InventoryOk(t)
    ensures ClearsExactly(t, PartsOf(t, desiredBytes, cap))
  {
    hide PartsOf, ClearsExactly;
    ClearsWhatItCopiesIff(t, desiredBytes, cap);
  }

  /** The inventory is what makes it so: 100 bytes in 10 blocks, with an integer key of unknown bounds, would
      be cut by block, but the inventory makes no such table. */
  lemma BlocksClearKeys()
    ensures
      var t := Table(100, false, true, 0, 0, false, 10);
      t.integerKey && SplitsByBlock(t, 10, 4) && !ClearsExactly(t, PartsOf(t, 10, 4)) && !InventoryOk(t)
  {
    ClearsWhatItCopiesIff(Table(100, false, true, 0, 0, false, 10), 10, 4);
  }
}
