/** Transactions that outgrow memory: the pgoutput decoder collects changes in memory up to a threshold
    and in a spill file beyond it (internal/cdc/pgoutput.go:243-289, internal/cdc/spill.go:57-116).
    Whatever the threshold, the changes and the payload bytes are the same. */
module Spilling {
  import opened Wrappers
  import opened Model
  import opened Frames
  import opened Codec
  import opened TransactionCodec
  import opened PayloadFormat
  import opened PayloadWriter

  function Encoded(changes: seq<Change>): Bytes {
    EncodeMany(PutChange(CURRENT), changes)
  }

  /** Magic, version, two LSNs, seconds, nanoseconds and two counts. */
  const EMPTY_SIZE := 4 + 1 + 8 + 8 + 8 + 4 + 4 + 4

  /** The bytes of a transaction with these relations and changes. */
  function EncodedSize(relations: seq<Relation>, changes: seq<Change>): nat {
    EMPTY_SIZE + |EncodeMany(PutRelation(), relations)| + |Encoded(changes)|
  }

  lemma EncodedRelationsNext(relations: seq<Relation>, r: Relation)
    ensures EncodeMany(PutRelation(), relations + [r]) == EncodeMany(PutRelation(), relations) + PutRelation()(r)
  {
    hide PutRelation;
    EncodeManyNext(PutRelation(), relations + [r], |relations|);
    assert (relations + [r])[..|relations|] == relations && (relations + [r])[..|relations| + 1] == relations + [r];
  }

  /** What one more change, and perhaps its relation, add. */
  lemma SizeNext(relations: seq<Relation>, changes: seq<Change>, c: Change, more: seq<Relation>)
    requires |more| <= 1
    ensures EncodedSize(relations + more, changes + [c]) ==
      EncodedSize(relations, changes) + |PutChange(CURRENT)(c)| + if more == [] then 0 else |PutRelation()(more[0])|
  {
    hide PutChange, PutRelation, Encoded, EncodeMany;
    EncodedNext(changes, c);
    if more == [] {
      assert relations + more == relations;
    } else {
      assert more == [more[0]];
      EncodedRelationsNext(relations, more[0]);
    }
  }

  predicate Storable(changes: seq<Change>) {
    AllOk(ChangeOk(CURRENT), changes) && forall i :: 0 <= i < |changes| ==> changes[i].relationOid < WORD
  }

  lemma EncodedNext(changes: seq<Change>, c: Change)
    ensures Encoded(changes + [c]) == Encoded(changes) + PutChange(CURRENT)(c)
  {
    hide PutChange;
    EncodeManyNext(PutChange(CURRENT), changes + [c], |changes|);
    assert (changes + [c])[..|changes|] == changes && (changes + [c])[..|changes| + 1] == changes + [c];
  }

  lemma StorableNext(changes: seq<Change>, c: Change)
    requires Storable(changes) && c.relationOid < WORD
    ensures ChangeOk(CURRENT)(c) ==> Storable(changes + [c])
  {
    hide ChangeOk;
  }

  /** Decoding one change off the front of an encoded sequence. */
  lemma DecodeFirst(changes: seq<Change>)
    requires changes != [] && AllOk(ChangeOk(CURRENT), changes)
    ensures TakeChange(Spilled, CURRENT)(Encoded(changes)) == Some(Parsed(changes[0], Encoded(changes[1..])))
  {
    hide PutChange, ChangeOk, TakeChange;
    ChangeExact(CURRENT);
    ExactEncoded(PutChange(CURRENT), ChangeOk(CURRENT), TakeChange(Spilled, CURRENT), changes[0], Encoded(changes[1..]));
  }

  predicate CacheOk(cache: map<Oid, Relation>) {
    forall oid :: oid in cache ==> RelationTyped(cache[oid]) && RelationOk()(cache[oid])
  }

  lemma ReadBack(changes: seq<Change>, i: nat)
    requires i < |changes| && Storable(changes)
    ensures TakeChange(Spilled, CURRENT)(Encoded(changes[i..])) == Some(Parsed(changes[i], Encoded(changes[i + 1..])))
    ensures changes[..i] + [changes[i]] == changes[..i + 1]
  {
    hide ChangeOk, TakeChange, Encoded;
    DecodeFirst(changes[i..]);
    assert changes[i..][1..] == changes[i + 1..];
  }

  class TransactionAssembler {
    const threshold: nat
    var cache: map<Oid, Relation>
    var relations: seq<Relation>
    var required: set<Oid>
    var resident: seq<Change>
    var spilled: bool
    var file: Bytes
    var fileCount: nat
    var fileBytes: nat
    var encodedSize: nat
    ghost var added: seq<Change>

    /** The changes, in memory or in the file, and their size. */
    ghost predicate Collected()
      reads this
    {
      && Storable(added)
      && (if spilled then resident == [] && file == Encoded(added) && fileCount == |added| && fileBytes == |file|
          else resident == added && file == [] && fileCount == 0 && fileBytes == 0)
      && CacheOk(cache)
      && encodedSize == EncodedSize(relations, added)
    }

    /** Changes stay in memory only up to the threshold. */
    ghost predicate Valid()
      reads this
    {
      Collected() && (!spilled && added != [] ==> encodedSize <= threshold)
    }

    constructor (threshold: nat)
      ensures Valid() && added == [] && relations == [] && cache == map[] && !spilled && this.threshold == threshold
    {
      this.threshold := threshold;
      cache, relations, required, resident := map[], [], {}, [];
      spilled, file, fileCount, fileBytes, encodedSize := false, [], 0, 0, EMPTY_SIZE;
      added := [];
    }

    /** TransactionSpill.appendChange: the file may not outgrow a payload. */
    method AppendToFile(c: Change) returns (ok: bool)
      requires c.relationOid < WORD && fileBytes == |file|
      modifies this`file, this`fileCount, this`fileBytes
      ensures ok <==> ChangeOk(CURRENT)(c) && |old(file)| + |PutChange(CURRENT)(c)| <= MAX_PAYLOAD
      ensures ok ==> file == old(file) + PutChange(CURRENT)(c) && fileCount == old(fileCount) + 1 && fileBytes == |file|
      ensures !ok ==> file == old(file) && fileCount == old(fileCount) && fileBytes == old(fileBytes)
    {
      hide ChangeOk, PutChange;
      var size := ChangeSize(c);
      if size.None? || fileBytes + size.value > MAX_PAYLOAD {
        return false;
      }
      var grown := AppendChange(file, c);
      file := grown.value;
      fileBytes := fileBytes + size.value;
      fileCount := fileCount + 1;
      ok := true;
    }

    /** spillCurrent: the resident changes move to the file, in order. */
    method SpillResident() returns (ok: bool)
      requires Collected() && !spilled
      modifies this`file, this`fileCount, this`fileBytes, this`spilled, this`resident
      ensures ok <==> |Encoded(added)| <= MAX_PAYLOAD || added == []
      ensures ok ==> Valid() && spilled
    {
      hide ChangeOk, PutChange, Encoded, CacheOk, EncodedSize;
      NothingEncoded();
      assert added[..0] == [];
      for i := 0 to |resident|
        invariant resident == added && !spilled
        invariant file == Encoded(added[..i]) && fileCount == i && fileBytes == |file|
        invariant i == 0 || |file| <= MAX_PAYLOAD
      {
        EncodedNext(added[..i], added[i]);
        assert added[..i] + [added[i]] == added[..i + 1];
        var appended := AppendToFile(resident[i]);
        if !appended {
          EncodedPrefix(added, i + 1);
          return false;
        }
      }
      assert added[..|added|] == added;
      resident, spilled := [], true;
      ok := true;
    }

    /** The first change of a relation adds the relation to the transaction. */
    method RequireRelation(oid: Oid)
      requires CacheOk(cache) && oid in cache
      modifies this`relations, this`required, this`encodedSize
      ensures relations == old(relations) + if oid in old(required) then [] else [cache[oid]]
      ensures required == old(required) + {oid}
      ensures encodedSize == old(encodedSize) + if oid in old(required) then 0 else |PutRelation()(cache[oid])|
    {
      hide RelationOk, RelationTyped, PutRelation;
      if oid !in required {
        required := required + {oid};
        relations := relations + [cache[oid]];
        var size := RelationSize(cache[oid]);
        encodedSize := encodedSize + size.value;
      }
    }

    /** addChange: fails only for a change that cannot be stored or a payload that outgrows its limit.
        On failure the transaction is abandoned. */
    method AddChange(c: Change) returns (ok: bool)
      requires Valid() && c.relationOid < WORD
      modifies this`relations, this`required, this`resident, this`spilled, this`file, this`fileCount, this`fileBytes,
               this`encodedSize, this`added
      ensures ok ==> Valid() && added == old(added) + [c]
      ensures ok ==> spilled == (old(spilled) || EncodedSize(relations, added) > threshold)
      ensures ok ==> c.relationOid in cache && ChangeOk(CURRENT)(c)
      ensures ok ==> relations == old(relations) + if c.relationOid in old(required) then [] else [cache[c.relationOid]]
      ensures ok ==> required == old(required) + {c.relationOid}
      ensures ok <== c.relationOid in cache && ChangeOk(CURRENT)(c) && |Encoded(old(added) + [c])| <= MAX_PAYLOAD
    {
      hide ChangeOk, PutChange, PutRelation, RelationOk, RelationTyped, Encoded, Storable, CacheOk, EncodedSize;
      StorableNext(added, c);
      if c.relationOid !in cache {
        return false;
      }
      SizeNext(relations, added, c, if c.relationOid in required then [] else [cache[c.relationOid]]);
      RequireRelation(c.relationOid);
      var size := ChangeSize(c);
      if size.None? {
        return false;
      }
      encodedSize := encodedSize + size.value;
      EncodedNext(added, c);
      if spilled {
        ok := AppendToFile(c);
        if !ok {
          return;
        }
        added := added + [c];
        return;
      }
      resident := resident + [c];
      added := added + [c];
      ok := true;
      if encodedSize > threshold {
        ok := SpillResident();
      }
    }

    /** materializeChanges: reading the file back gives the changes that were added. */
    method Changes() returns (changes: Option<seq<Change>>)
      requires Valid()
      ensures changes == Some(added)
    {
      if !spilled {
        return Some(resident);
      }
      hide ChangeOk, TakeChange, Encoded, CacheOk, Storable;
      var rest := file;
      var read: seq<Change> := [];
      assert added[0..] == added;
      for i := 0 to fileCount
        invariant read == added[..i] && rest == Encoded(added[i..])
      {
        ReadBack(added, i);
        var next := TakeChange(Spilled, CURRENT)(rest);
        read := read + [next.value.value];
        rest := next.value.rest;
      }
      NothingEncoded();
      assert added[|added|..] == [] && added[..|added|] == added;
      if |rest| != 0 {
        return None;
      }
      changes := Some(read);
    }

    /** WriteTransaction: prefix, then the resident changes one by one or the file as it is. The bytes
        are those of the transaction with all its changes. */
    method Payload(header: SourceTransaction) returns (out: Option<Bytes>)
      requires Valid() && header.relations == relations && TransactionTyped(header.(changes := added))
      ensures
        var t := header.(changes := added);
        out.Some? ==> out.value == EncodePayload(CURRENT, t) && |out.value| == encodedSize
      ensures
        var t := header.(changes := added);
        CountedOk(RelationOk())(relations) ==> out.Some?
    {
      hide RelationOk, CountedOk, ChangeOk, PrefixBytes, EncodePayload, PutChange, EncodedSize;
      ghost var t := header.(changes := added);
      PayloadIsPrefixAndChanges(t);
      CountedIsAnnounced(t);
      var bare := header.(changes := []);
      SamePrefix(bare, t, |added|);
      var count := if spilled then fileCount else |resident|;
      var prefix := AppendPrefix([], bare, count);
      if prefix.None? {
        return None;
      }
      assert [] + PrefixBytes(bare, count) == PrefixBytes(bare, count);
      if spilled {
        return Some(prefix.value + file);
      }
      out := AppendChanges(prefix.value, resident);
    }
  }

  /** The size counted while a transaction is collected is the size of its payload. */
  lemma CountedIsAnnounced(t: SourceTransaction)
    ensures |EncodePayload(CURRENT, t)| == EncodedSize(t.relations, t.changes)
  {
    hide PutRelation, PutChange, EncodeMany, EncodePayload;
    PayloadIsPrefixAndChanges(t);
  }

  lemma SamePrefix(a: SourceTransaction, b: SourceTransaction, count: nat)
    requires b == a.(changes := b.changes)
    ensures PrefixBytes(a, count) == PrefixBytes(b, count)
  {
  }

  lemma NothingEncoded()
    ensures Encoded([]) == []
  {
  }

  lemma {:induction false} EncodedPrefix(changes: seq<Change>, n: nat)
    requires n <= |changes|
    ensures |Encoded(changes[..n])| <= |Encoded(changes)|
    decreases |changes| - n
  {
    hide PutChange;
    if n == |changes| {
      assert changes[..n] == changes;
    } else {
      EncodedNext(changes[..n], changes[n]);
      assert changes[..n] + [changes[n]] == changes[..n + 1];
      EncodedPrefix(changes, n + 1);
    }
  }
}
