/** The cache of prepared statements of one target connection: a map from SQL and parameter types to
    named statements and a list of the same statements, most recently used first
    (internal/cdc/apply_stmtcache.go). */
module StatementCache {
  import opened Wrappers
  import opened Model
  import opened Frames
  import opened Decimals

  datatype Query = Query(sql: string, oids: seq<Word>)

  datatype Key = Key(sql: string, oids: Bytes)

  datatype Statement = Statement(key: Key, name: string)

  // --- Keys ---

  function PutUint32(value: Word): (bytes: Bytes)
    ensures |bytes| == 4
  {
    [value / 0x100_0000, value / 0x1_0000 % 256, value / 256 % 256, value % 256]
  }

  function OidBytes(oids: seq<Word>): (bytes: Bytes)
    ensures |bytes| == 4 * |oids|
  {
    if oids == [] then [] else PutUint32(oids[0]) + OidBytes(oids[1..])
  }

  function KeyFor(query: Query): Key {
    Key(query.sql, OidBytes(query.oids))
  }

  lemma {:induction false} OidBytesInjective(a: seq<Word>, b: seq<Word>)
    requires OidBytes(a) == OidBytes(b)
    ensures a == b
  {
    if a != [] && b != [] {
      var x, y := OidBytes(a), OidBytes(b);
      assert x[..4] == PutUint32(a[0]) && x[4..] == OidBytes(a[1..]);
      assert y[..4] == PutUint32(b[0]) && y[4..] == OidBytes(b[1..]);
      SameWord(a[0], b[0]);
      OidBytesInjective(a[1..], b[1..]);
      assert a == [a[0]] + a[1..] && b == [b[0]] + b[1..];
    }
  }

  lemma SameWord(a: Word, b: Word)
    requires PutUint32(a) == PutUint32(b)
    ensures a == b
  {
    var x, y := PutUint32(a), PutUint32(b);
    assert x[0] == y[0] && x[1] == y[1] && x[2] == y[2] && x[3] == y[3];
    FromBytes(a);
    FromBytes(b);
  }

  lemma FromBytes(a: Word)
    ensures a == 0x100_0000 * (a / 0x100_0000) + 0x1_0000 * (a / 0x1_0000 % 256) + 256 * (a / 256 % 256) + a % 256
  {
  }

  /** Two queries share a cached statement only if both the SQL and the parameter types are the same. */
  lemma KeyIdentifiesQuery(a: Query, b: Query)
    ensures KeyFor(a) == KeyFor(b) <==> a == b
  {
    if KeyFor(a) == KeyFor(b) {
      OidBytesInjective(a.oids, b.oids);
    }
  }

  // --- Names ---

  const NAME_PREFIX := "pgmigrate_cdc_"

  function Name(id: nat): string {
    NAME_PREFIX + Decimal(id)
  }

  /** The number a name was made from. */
  function Number(name: string): int {
    if |name| < |NAME_PREFIX| then 0 else Value(name[|NAME_PREFIX|..])
  }

  lemma NumberOfName(id: nat)
    ensures Number(Name(id)) == id
  {
    ValueOfDecimal(id);
    assert Name(id)[|NAME_PREFIX|..] == Decimal(id);
  }

  // --- The cache ---

  datatype Cache = Cache(capacity: nat, nextID: nat, entries: map<Key, Statement>, lru: seq<Statement>)

  /** What acquire returns, and the cache after it. */
  datatype Acquired = Acquired(cache: Cache, statement: Option<Statement>, added: bool, evicted: Option<Statement>)

  function KeysOf(lru: seq<Statement>): (keys: seq<Key>)
    ensures |keys| == |lru|
  {
    seq(|lru|, i requires 0 <= i < |lru| => lru[i].key)
  }

  predicate Distinct<T(==)>(items: seq<T>) {
    forall i, j :: 0 <= i < j < |items| ==> items[i] != items[j]
  }

  /** A name this cache has made, after the number `floor`. */
  predicate Issued(name: string, floor: nat, nextID: nat) {
    floor < Number(name) <= nextID && name == Name(Number(name))
  }

  function NamesOf(lru: seq<Statement>): (names: seq<string>)
    ensures |names| == |lru|
  {
    seq(|lru|, i requires 0 <= i < |lru| => lru[i].name)
  }

  /** Map and list hold the same statements. */
  ghost predicate Indexed(entries: map<Key, Statement>, lru: seq<Statement>) {
    && (forall k :: k in entries ==> entries[k].key == k && entries[k] in lru)
    && (forall s :: s in lru ==> s.key in entries && entries[s.key] == s)
  }

  ghost predicate AllIssued(lru: seq<Statement>, floor: nat, nextID: nat) {
    forall s :: s in lru ==> Issued(s.name, floor, nextID)
  }

  /** Map and list hold the same statements, one for every key, no more than the capacity allows, and
      each has a name of its own. */
  ghost predicate CacheOk(c: Cache, floor: nat) {
    && |c.lru| <= c.capacity && floor <= c.nextID
    && Distinct(KeysOf(c.lru)) && Distinct(NamesOf(c.lru))
    && Indexed(c.entries, c.lru)
    && AllIssued(c.lru, floor, c.nextID)
  }

  function Without<T(==)>(items: seq<T>, item: T): (rest: seq<T>)
    ensures item !in items ==> rest == items
    ensures |rest| == if item in items then |items| - 1 else |items|
  {
    if items == [] then []
    else if items[0] == item then items[1..]
    else [items[0]] + Without(items[1..], item)
  }

  /** The list with its item `i` moved to the front. */
  function Moved<T>(items: seq<T>, i: nat): (moved: seq<T>)
    requires i < |items|
    ensures |moved| == |items|
  {
    [items[i]] + (items[..i] + items[i + 1..])
  }

  lemma {:induction false} WithoutAt<T>(items: seq<T>, i: nat)
    requires Distinct(items) && i < |items|
    ensures Without(items, items[i]) == items[..i] + items[i + 1..]
  {
    if i > 0 {
      WithoutAt(items[1..], i - 1);
      assert items[1..][..i - 1] == items[1..i] && items[1..][i..] == items[i + 1..];
      assert items[..i] == [items[0]] + items[1..i];
    }
  }

  lemma MovedKeeps<T>(items: seq<T>, i: nat)
    requires i < |items|
    ensures Distinct(items) ==> Distinct(Moved(items, i))
    ensures forall x :: x in Moved(items, i) <==> x in items
  {
    var moved := Moved(items, i);
    forall j | 0 <= j < |items| ensures moved[j] == items[if j == 0 then i else if j <= i then j - 1 else j] {}
    forall x | x in items ensures x in moved {
      var j :| 0 <= j < |items| && items[j] == x;
      assert moved[if j == i then 0 else if j < i then j + 1 else j] == x;
    }
  }

  lemma {:induction false} DistinctCount<T>(items: seq<T>)
    requires Distinct(items)
    ensures |set x | x in items| == |items|
  {
    if items != [] {
      DistinctCount(items[1..]);
      assert (set x | x in items) == {items[0]} + set x | x in items[1..];
    }
  }

  lemma KeyPlace(lru: seq<Statement>, key: Key) returns (i: nat)
    requires key in KeysOf(lru)
    ensures i < |lru| && lru[i].key == key && lru[i] in lru
  {
    i :| 0 <= i < |lru| && KeysOf(lru)[i] == key;
  }

  lemma KeysAreEntries(entries: map<Key, Statement>, lru: seq<Statement>, key: Key)
    requires Indexed(entries, lru)
    ensures key in entries <==> key in KeysOf(lru)
  {
    if key in entries {
      var i :| 0 <= i < |lru| && lru[i] == entries[key];
      assert KeysOf(lru)[i] == key;
    }
    if key in KeysOf(lru) {
      var i := KeyPlace(lru, key);
    }
  }

  lemma SameSize(entries: map<Key, Statement>, lru: seq<Statement>)
    requires Indexed(entries, lru) && Distinct(KeysOf(lru))
    ensures |entries| == |lru|
  {
    hide Indexed;
    DistinctCount(KeysOf(lru));
    forall k ensures k in entries.Keys <==> k in KeysOf(lru) {
      KeysAreEntries(entries, lru, k);
    }
    assert entries.Keys == set k | k in KeysOf(lru);
  }

  /** acquire: a hit moves the statement to the front; a miss makes room by dropping the least recently
      used one and admits a statement under the next number. A cache without capacity has none. */
  function AcquireIn(c: Cache, key: Key): Acquired
    requires |c.entries| == |c.lru|
  {
    if c.capacity == 0 then
      Acquired(c, None, false, None)
    else if key in c.entries then
      var statement := c.entries[key];
      Acquired(c.(lru := [statement] + Without(c.lru, statement)), Some(statement), false, None)
    else
      var full := |c.entries| >= c.capacity;
      var kept := if full then c.lru[..|c.lru| - 1] else c.lru;
      var entries := if full then c.entries - {c.lru[|c.lru| - 1].key} else c.entries;
      var statement := Statement(key, Name(c.nextID + 1));
      Acquired(Cache(c.capacity, c.nextID + 1, entries[key := statement], [statement] + kept), Some(statement), true,
               if full then Some(c.lru[|c.lru| - 1]) else None)
  }

  /** invalidate: everything is forgotten but the numbers already used. */
  function Invalidated(c: Cache): Cache {
    c.(entries := map[], lru := [])
  }

  lemma DistinctStatements(lru: seq<Statement>)
    requires Distinct(KeysOf(lru))
    ensures Distinct(lru)
  {
    forall a, b | 0 <= a < b < |lru| ensures lru[a] != lru[b] {
      assert KeysOf(lru)[a] != KeysOf(lru)[b];
    }
  }

  lemma FrontIsMoved(lru: seq<Statement>, i: nat)
    requires Distinct(KeysOf(lru)) && i < |lru|
    ensures [lru[i]] + Without(lru, lru[i]) == Moved(lru, i)
  {
    DistinctStatements(lru);
    WithoutAt(lru, i);
  }

  lemma MovedColumns(lru: seq<Statement>, i: nat)
    requires i < |lru|
    ensures KeysOf(Moved(lru, i)) == Moved(KeysOf(lru), i) && NamesOf(Moved(lru, i)) == Moved(NamesOf(lru), i)
  {
  }

  lemma HitKeeps(c: Cache, floor: nat, key: Key)
    requires CacheOk(c, floor) && |c.entries| == |c.lru| && c.capacity > 0 && key in c.entries
    ensures CacheOk(AcquireIn(c, key).cache, floor)
  {
    hide Distinct, Moved, Without, Name, Number, KeysOf, NamesOf;
    var i :| 0 <= i < |c.lru| && c.lru[i] == c.entries[key];
    FrontIsMoved(c.lru, i);
    MovedKeeps(c.lru, i);
    MovedKeeps(KeysOf(c.lru), i);
    MovedKeeps(NamesOf(c.lru), i);
    MovedColumns(c.lru, i);
  }

  /** What is left when a full cache gives up its last statement. */
  lemma EvictKeeps(entries: map<Key, Statement>, lru: seq<Statement>)
    requires lru != [] && Indexed(entries, lru) && Distinct(KeysOf(lru)) && Distinct(NamesOf(lru))
    ensures var last, kept := lru[|lru| - 1], lru[..|lru| - 1];
            && Indexed(entries - {last.key}, kept) && Distinct(KeysOf(kept)) && Distinct(NamesOf(kept))
            && KeysOf(kept) == KeysOf(lru)[..|kept|] && last.name !in NamesOf(kept)
  {
    var last, kept := lru[|lru| - 1], lru[..|lru| - 1];
    assert KeysOf(kept) == KeysOf(lru)[..|kept|] && NamesOf(kept) == NamesOf(lru)[..|kept|];
    assert KeysOf(lru)[|kept|] == last.key && NamesOf(lru)[|kept|] == last.name;
    assert lru == kept + [last];
    forall s | s in kept ensures s.key != last.key {
      var i :| 0 <= i < |kept| && kept[i] == s;
      assert KeysOf(lru)[i] != KeysOf(lru)[|kept|];
    }
  }

  lemma DistinctPush<T>(item: T, items: seq<T>)
    requires Distinct(items) && item !in items
    ensures Distinct([item] + items)
  {
  }

  lemma PushColumns(statement: Statement, lru: seq<Statement>)
    ensures KeysOf([statement] + lru) == [statement.key] + KeysOf(lru)
    ensures NamesOf([statement] + lru) == [statement.name] + NamesOf(lru)
  {
  }

  lemma NewNumber(lru: seq<Statement>, floor: nat, nextID: nat)
    requires AllIssued(lru, floor, nextID) && floor <= nextID
    ensures Name(nextID + 1) !in NamesOf(lru) && Issued(Name(nextID + 1), floor, nextID + 1)
  {
    NumberOfName(nextID + 1);
    hide Name, Number;
    forall i | 0 <= i < |lru| ensures NamesOf(lru)[i] != Name(nextID + 1) {
      assert lru[i] in lru;
    }
  }

  lemma IndexedPush(entries: map<Key, Statement>, lru: seq<Statement>, statement: Statement)
    requires Indexed(entries, lru) && statement.key !in entries
    ensures Indexed(entries[statement.key := statement], [statement] + lru)
  {
  }

  lemma IssuedPush(lru: seq<Statement>, statement: Statement, floor: nat, nextID: nat)
    requires AllIssued(lru, floor, nextID) && Issued(statement.name, floor, nextID + 1)
    ensures AllIssued([statement] + lru, floor, nextID + 1)
  {
    hide Name, Number;
  }

  lemma AdmitKeeps(entries: map<Key, Statement>, lru: seq<Statement>, floor: nat, nextID: nat, key: Key)
    requires Indexed(entries, lru) && Distinct(KeysOf(lru)) && Distinct(NamesOf(lru))
    requires AllIssued(lru, floor, nextID) && key !in entries && floor <= nextID
    ensures var statement := Statement(key, Name(nextID + 1));
            var after := [statement] + lru;
            && Indexed(entries[key := statement], after) && Distinct(KeysOf(after)) && Distinct(NamesOf(after))
            && AllIssued(after, floor, nextID + 1) && KeysOf(after) == [key] + KeysOf(lru)
            && statement.name !in NamesOf(lru)
  {
    hide Distinct, Name, Number, KeysOf, NamesOf, Indexed, AllIssued, Issued;
    var statement := Statement(key, Name(nextID + 1));
    KeysAreEntries(entries, lru, key);
    NewNumber(lru, floor, nextID);
    PushColumns(statement, lru);
    DistinctPush(key, KeysOf(lru));
    DistinctPush(statement.name, NamesOf(lru));
    IndexedPush(entries, lru, statement);
    IssuedPush(lru, statement, floor, nextID);
  }

  lemma MissKeeps(c: Cache, floor: nat, key: Key)
    requires CacheOk(c, floor) && |c.entries| == |c.lru| && c.capacity > 0 && key !in c.entries
    ensures CacheOk(AcquireIn(c, key).cache, floor)
  {
    hide Distinct, Indexed, Name, Number;
    if |c.lru| >= c.capacity {
      EvictKeeps(c.entries, c.lru);
      AdmitKeeps(c.entries - {c.lru[|c.lru| - 1].key}, c.lru[..|c.lru| - 1], floor, c.nextID, key);
    } else {
      AdmitKeeps(c.entries, c.lru, floor, c.nextID, key);
    }
  }

  /** Every call keeps map and list in agreement, within the capacity, with names of their own, and puts
      the statement it returns in front. */
  lemma AcquireKeeps(c: Cache, floor: nat, key: Key)
    requires CacheOk(c, floor)
    ensures |c.entries| == |c.lru| && CacheOk(AcquireIn(c, key).cache, floor)
    ensures c.capacity > 0 ==>
              var a := AcquireIn(c, key);
              a.statement.Some? && a.statement.value.key == key && a.cache.lru[0] == a.statement.value
  {
    SameSize(c.entries, c.lru);
    if c.capacity > 0 {
      if key in c.entries {
        HitKeeps(c, floor, key);
      } else {
        MissKeeps(c, floor, key);
      }
    }
  }

  // --- What the cache holds, in terms of its uses ---

  /** The keys used so far, the most recently used first. */
  function Recent<T(==)>(uses: seq<T>): (recent: seq<T>)
    ensures forall x :: x in recent ==> x in uses
  {
    if uses == [] then []
    else
      var last := uses[|uses| - 1];
      WithoutElements(Recent(uses[..|uses| - 1]), last);
      [last] + Without(Recent(uses[..|uses| - 1]), last)
  }

  lemma {:induction false} WithoutElements<T>(items: seq<T>, item: T)
    ensures forall x :: x in Without(items, item) ==> x in items
    ensures Distinct(items) ==> Distinct(Without(items, item)) && item !in Without(items, item)
    ensures forall x :: x in items && x != item ==> x in Without(items, item)
  {
    if items != [] && items[0] != item {
      WithoutElements(items[1..], item);
      if Distinct(items) {
        DistinctPush(items[0], Without(items[1..], item));
      }
    }
  }

  lemma {:induction false} RecentDistinct<T>(uses: seq<T>)
    ensures Distinct(Recent(uses))
  {
    if uses != [] {
      var last := uses[|uses| - 1];
      RecentDistinct(uses[..|uses| - 1]);
      WithoutElements(Recent(uses[..|uses| - 1]), last);
      DistinctPush(last, Without(Recent(uses[..|uses| - 1]), last));
    }
  }

  /** Removing an item and cutting the list commute. */
  lemma {:induction false} WithoutPrefix<T>(items: seq<T>, item: T, m: nat)
    requires m <= |items|
    ensures var n := if item in items[..m] then m - 1 else m;
            n <= |Without(items, item)| && Without(items, item)[..n] == Without(items[..m], item)
    decreases m
  {
    if m > 0 {
      assert items[..m][1..] == items[1..][..m - 1];
      if items[0] == item {
        assert item == items[..m][0];
        assert items[1..][..m - 1] == items[..m][1..];
      } else {
        WithoutPrefix(items[1..], item, m - 1);
        assert item in items[..m] <==> item in items[1..][..m - 1] by {
          assert items[..m] == [items[0]] + items[1..][..m - 1];
        }
      }
    }
  }

  function Elements<T(==)>(items: seq<T>): set<T> {
    set x | x in items
  }

  /** The distinct keys of the latest uses, however far back one looks, come first in the list. */
  lemma {:induction false} SuffixIsPrefix<T>(uses: seq<T>, i: nat)
    requires i <= |uses|
    ensures |Elements(uses[i..])| <= |Recent(uses)|
    ensures Elements(uses[i..]) == Elements(Recent(uses)[..|Elements(uses[i..])|])
    decreases |uses|
  {
    if i < |uses| {
      var init, last := uses[..|uses| - 1], uses[|uses| - 1];
      SuffixIsPrefix(init, i);
      assert Recent(uses) == [last] + Without(Recent(init), last);
      hide Distinct, Without, Recent;
      SuffixStep(Recent(init), last, Elements(init[i..])) by {
        RecentDistinct(init);
      }
      assert uses[i..] == init[i..] + [last];
      assert Elements(uses[i..]) == Elements(init[i..]) + {last};
    }
  }

  lemma SuffixStep<T>(recent: seq<T>, last: T, used: set<T>)
    requires Distinct(recent) && |used| <= |recent| && used == Elements(recent[..|used|])
    ensures |used + {last}| <= |[last] + Without(recent, last)|
    ensures Elements(([last] + Without(recent, last))[..|used + {last}|]) == used + {last}
  {
    var m := |used|;
    var head := recent[..m];
    WithoutPrefix(recent, last, m);
    WithoutElements(head, last);
    var n := if last in head then m - 1 else m;
    FirstPlus(last, Without(recent, last), n);
    hide Distinct, Without;
    assert last in head <==> last in used;
    assert used + {last} == {last} + Elements(Without(head, last));
    assert |used + {last}| == n + 1 by {
      if last in used {
        assert used + {last} == used;
      }
    }
  }

  lemma FirstPlus<T>(first: T, items: seq<T>, n: nat)
    requires n <= |items|
    ensures Elements(([first] + items)[..n + 1]) == {first} + Elements(items[..n])
  {
    assert ([first] + items)[..n + 1] == [first] + items[..n];
  }

  function Held<T(==)>(uses: seq<T>, capacity: nat): seq<T> {
    if |Recent(uses)| <= capacity then Recent(uses) else Recent(uses)[..capacity]
  }

  lemma HeldFirst<T>(uses: seq<T>, capacity: nat, key: T) returns (j: nat)
    requires key in Held(uses, capacity)
    ensures j < |Recent(uses)| && j < capacity && Recent(uses)[j] == key
  {
    hide Recent;
    j :| 0 <= j < |Held(uses, capacity)| && Held(uses, capacity)[j] == key;
  }

  lemma HeldWasUsed<T>(uses: seq<T>, capacity: nat, key: T) returns (i: nat)
    requires key in Held(uses, capacity)
    ensures i < |uses| && uses[i] == key && |Elements(uses[i..])| <= capacity
  {
    var j := HeldFirst(uses, capacity, key);
    hide Held;
    var recent := Recent(uses);
    assert key in uses;
    hide Recent, Elements;
    i := LastUse(uses, key);
    SuffixIsPrefix(uses, i + 1);
    var later := Elements(uses[i + 1..]);
    BeforeFirst(recent, |later|, j);
    UsedOnce(uses, i);
  }

  lemma BeforeFirst<T>(items: seq<T>, m: nat, j: nat)
    requires m <= |items| && j < |items| && items[j] !in Elements(items[..m])
    ensures m <= j
  {
  }

  lemma UsedOnce<T>(uses: seq<T>, i: nat)
    requires i < |uses|
    ensures |Elements(uses[i..])| <= |Elements(uses[i + 1..])| + 1
  {
    assert uses[i..] == [uses[i]] + uses[i + 1..];
    assert Elements(uses[i..]) == {uses[i]} + Elements(uses[i + 1..]);
  }

  lemma UsedIsHeld<T>(uses: seq<T>, capacity: nat, key: T, i: nat)
    requires i < |uses| && uses[i] == key && |Elements(uses[i..])| <= capacity
    ensures key in Held(uses, capacity)
  {
    SuffixIsPrefix(uses, i);
    hide Recent;
    assert uses[i..][0] == key;
    assert key in Elements(uses[i..]);
    var m := |Elements(uses[i..])|;
    var j :| 0 <= j < m && Recent(uses)[..m][j] == key;
    assert Held(uses, capacity)[j] == key;
  }

  /** A key is held exactly if some use of it was followed by too few other keys to push it out. */
  lemma HeldIffUsedRecently<T>(uses: seq<T>, capacity: nat, key: T)
    ensures key in Held(uses, capacity) <==>
              exists i :: 0 <= i < |uses| && uses[i] == key && |Elements(uses[i..])| <= capacity
  {
    if key in Held(uses, capacity) {
      var i := HeldWasUsed(uses, capacity, key);
    }
    if i :| 0 <= i < |uses| && uses[i] == key && |Elements(uses[i..])| <= capacity {
      UsedIsHeld(uses, capacity, key, i);
    }
  }

  lemma {:induction false} LastUse<T>(uses: seq<T>, key: T) returns (i: nat)
    requires key in uses
    ensures i < |uses| && uses[i] == key && key !in uses[i + 1..]
  {
    i := |uses| - 1;
    if uses[i] != key {
      i := LastUse(uses[..|uses| - 1], key);
      assert uses[i + 1..] == uses[..|uses| - 1][i + 1..] + [uses[|uses| - 1]];
    }
  }

  /** The list is the capacity's worth of the most recently used keys, and stays so. */
  lemma AcquireHolds(c: Cache, floor: nat, uses: seq<Key>, key: Key)
    requires CacheOk(c, floor) && |c.entries| == |c.lru| && KeysOf(c.lru) == Held(uses, c.capacity)
    ensures KeysOf(AcquireIn(c, key).cache.lru) == Held(uses + [key], c.capacity)
  {
    hide Distinct, Indexed, Without, AllIssued, Name;
    var recent, keys, capacity := Recent(uses), KeysOf(c.lru), c.capacity;
    assert (uses + [key])[..|uses|] == uses && (uses + [key])[|uses|] == key;
    assert Recent(uses + [key]) == [key] + Without(recent, key);
    RecentDistinct(uses);
    KeysAreEntries(c.entries, c.lru, key);
    hide Recent, KeysOf;
    if capacity > 0 {
      WithoutPrefix(recent, key, |keys|);
      assert recent[..|keys|] == keys;
      if key in c.entries {
        HitKeys(c, floor, key);
        HitHolds(recent, keys, key, capacity);
      } else {
        MissHolds(c, recent, key);
      }
    }
  }

  lemma HitKeys(c: Cache, floor: nat, key: Key)
    requires CacheOk(c, floor) && |c.entries| == |c.lru| && c.capacity > 0 && key in c.entries
    ensures KeysOf(AcquireIn(c, key).cache.lru) == [key] + Without(KeysOf(c.lru), key)
  {
    hide Distinct, Without, Name, Number;
    var i :| 0 <= i < |c.lru| && c.lru[i] == c.entries[key];
    assert KeysOf(c.lru)[i] == key;
    FrontIsMoved(c.lru, i);
    MovedColumns(c.lru, i);
    WithoutAt(KeysOf(c.lru), i);
  }

  lemma HitHolds<T>(recent: seq<T>, keys: seq<T>, key: T, capacity: nat)
    requires |keys| <= |recent| && keys == recent[..|keys|] && key in keys
    requires |keys| == |recent| <= capacity || |keys| == capacity < |recent|
    requires |keys| - 1 <= |Without(recent, key)| && Without(recent, key)[..|keys| - 1] == Without(keys, key)
    ensures var after := [key] + Without(recent, key);
            [key] + Without(keys, key) == if |after| <= capacity then after else after[..capacity]
  {
  }

  lemma MissHolds(c: Cache, recent: seq<Key>, key: Key)
    requires c.capacity > 0 && |c.entries| == |c.lru| && key !in c.entries && key !in KeysOf(c.lru)
    requires KeysOf(c.lru) == if |recent| <= c.capacity then recent else recent[..c.capacity]
    requires |c.lru| <= |Without(recent, key)| && Without(recent, key)[..|c.lru|] == Without(KeysOf(c.lru), key)
    ensures var after := [key] + Without(recent, key);
            KeysOf(AcquireIn(c, key).cache.lru) == if |after| <= c.capacity then after else after[..c.capacity]
  {
    hide Name, Without;
    var kept := if |c.entries| >= c.capacity then c.lru[..|c.lru| - 1] else c.lru;
    var first := Statement(key, Name(c.nextID + 1));
    assert AcquireIn(c, key).cache.lru == [first] + kept;
    hide AcquireIn;
    assert KeysOf(kept) == KeysOf(c.lru)[..|kept|];
    PushColumns(first, kept);
    hide KeysOf;
  }

  function AcquireAll(c: Cache, floor: nat, uses: seq<Key>): (after: Cache)
    requires CacheOk(c, floor)
    ensures CacheOk(after, floor) && after.capacity == c.capacity
    decreases |uses|
  {
    if uses == [] then c
    else
      var before := AcquireAll(c, floor, uses[..|uses| - 1]);
      AcquireKeeps(before, floor, uses[|uses| - 1]);
      AcquireIn(before, uses[|uses| - 1]).cache
  }

  lemma {:induction false} AllHeld(c: Cache, floor: nat, uses: seq<Key>)
    requires CacheOk(c, floor) && c.lru == []
    ensures KeysOf(AcquireAll(c, floor, uses).lru) == Held(uses, c.capacity)
    decreases |uses|
  {
    hide AcquireIn, Held, KeysOf, CacheOk;
    if uses == [] {
      NothingHeld(c);
    } else {
      var init, last := uses[..|uses| - 1], uses[|uses| - 1];
      AllHeld(c, floor, init);
      var before := AcquireAll(c, floor, init);
      assert init + [last] == uses;
      AcquireKeeps(before, floor, last);
      AcquireLast(c, floor, init, last, before);
      hide AcquireAll;
      AcquireHolds(before, floor, init, last);
    }
  }

  lemma NothingHeld(c: Cache)
    requires c.lru == []
    ensures KeysOf(c.lru) == Held([], c.capacity)
  {
  }

  lemma AcquireLast(c: Cache, floor: nat, init: seq<Key>, key: Key, before: Cache)
    requires |before.entries| == |before.lru| && CacheOk(c, floor) && before == AcquireAll(c, floor, init)
    ensures AcquireAll(c, floor, init + [key]) == AcquireIn(before, key).cache
  {
    hide CacheOk, AcquireIn, Distinct, Indexed, AllIssued, KeysOf, NamesOf, Without;
    var uses := init + [key];
    assert uses != [] && uses[|uses| - 1] == key;
    assert uses[..|uses| - 1] == init;
  }

  /** Least recently used: after any calls, a statement is cached exactly if fewer than `capacity` other
      statements were used since it last was. */
  lemma CachedIffUsedRecently(c: Cache, floor: nat, uses: seq<Key>, key: Key)
    requires CacheOk(c, floor) && c.lru == []
    ensures key in AcquireAll(c, floor, uses).entries <==>
              exists i :: 0 <= i < |uses| && uses[i] == key && |Elements(uses[i..])| <= c.capacity
  {
    var after := AcquireAll(c, floor, uses);
    AllHeld(c, floor, uses);
    KeysAreEntries(after.entries, after.lru, key);
    HeldIffUsedRecently(uses, c.capacity, key);
  }

  /** applyStatementCache. */
  class PreparedStatements {
    const capacity: nat
    var nextID: nat
    var entries: map<Key, Statement>
    var lru: seq<Statement>

    function State(): Cache
      reads this
    {
      Cache(capacity, nextID, entries, lru)
    }

    ghost predicate Valid()
      reads this
    {
      CacheOk(State(), 0)
    }

    constructor (capacity: int)
      ensures Valid() && State() == Cache(if capacity < 0 then 0 else capacity, 0, map[], [])
    {
      this.capacity := if capacity < 0 then 0 else capacity;
      nextID, entries, lru := 0, map[], [];
    }

    /** The statement to run the query under, whether it has to be prepared first, and the one whose name
        has to be given back before that. */
    method Acquire(query: Query) returns (statement: Option<Statement>, added: bool, evicted: Option<Statement>)
      requires Valid()
      modifies this
      ensures Valid() && |old(entries)| == |old(lru)|
      ensures Acquired(State(), statement, added, evicted) == AcquireIn(old(State()), KeyFor(query))
    {
      hide CacheOk, Name, KeyFor, Number;
      AcquireKeeps(State(), 0, KeyFor(query));
      if capacity == 0 {
        return None, false, None;
      }
      var key := KeyFor(query);
      if key in entries {
        statement := Some(entries[key]);
        lru := [entries[key]] + Without(lru, entries[key]);
        return statement, false, None;
      }
      evicted := None;
      if |entries| >= capacity {
        var last := lru[|lru| - 1];
        evicted := Some(last);
        entries := entries - {last.key};
        lru := lru[..|lru| - 1];
      }
      nextID := nextID + 1;
      var admitted := Statement(key, Name(nextID));
      lru := [admitted] + lru;
      entries := entries[key := admitted];
      statement, added := Some(admitted), true;
    }

    method Invalidate()
      requires Valid()
      modifies this`entries, this`lru
      ensures Valid() && State() == Invalidated(old(State()))
    {
      entries, lru := map[], [];
    }
  }
}
