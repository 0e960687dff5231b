/** The encoder and its size functions as they run (appendTuple, appendChange, appendRelation,
    AppendTransaction and the encoded*Size functions, internal/cdc/codec.go:30-330). */
module PayloadWriter {
  import opened Wrappers
  import opened Model
  import opened Frames
  import opened Codec
  import opened TransactionCodec
  import opened PayloadFormat

  const CURRENT: Byte := 2

  lemma {:induction false} EncodeManyNext<T>(encode: T -> Bytes, xs: seq<T>, n: nat)
    requires n < |xs|
    ensures EncodeMany(encode, xs[..n + 1]) == EncodeMany(encode, xs[..n]) + encode(xs[n])
    decreases n
  {
    if n == 0 {
      assert xs[..1] == [xs[0]] && xs[..0] == [];
      assert EncodeMany(encode, [xs[0]]) == encode(xs[0]) + EncodeMany(encode, [xs[0]][1..]);
    } else {
      EncodeManyNext(encode, xs[1..], n - 1);
      assert xs[..n + 1][1..] == xs[1..][..n] && xs[..n][1..] == xs[1..][..n - 1];
    }
  }

  // --- Layouts ---

  lemma ChangeLayout(version: nat, c: Change)
    ensures PutChange(version)(c) ==
      LePut(c.relationOid, 4) + (EncodeHead(version, ChangeTo(c).1.0) + (EncodeTuple(c.oldTuple) + EncodeTuple(c.newTuple)))
    ensures ChangeOk(version)(c) <==>
      c.relationOid < WORD && HeadOk(version, ChangeTo(c).1.0) && TupleOk(c.oldTuple) && TupleOk(c.newTuple)
  {
    hide EncodeTuple, TupleOk, EncodeHead, HeadOk, PutBoth, BothOk, PutMapped, MappedOk;
    PowerOfFour();
    var f := ChangeTo(c);
    var put2, ok2 := PutBoth(EncodeTuple, EncodeTuple), BothOk(TupleOk, TupleOk);
    var put1, ok1 := PutBoth(PutHead(version), put2), BothOk(HeadFits(version), ok2);
    MappedAt(PutBoth(PutNumber(4), put1), BothOk(FitsWidth(4), ok1), ChangeTo, c);
    BothAt(PutNumber(4), FitsWidth(4), put1, ok1, f.0, f.1);
    BothAt(PutHead(version), HeadFits(version), put2, ok2, f.1.0, f.1.1);
    BothAt(EncodeTuple, TupleOk, EncodeTuple, TupleOk, f.1.1.0, f.1.1.1);
  }

  lemma ColumnLayout(c: Column)
    ensures PutColumn()(c) == LePut(c.typeOid, 4) + (LePut(c.flags, 1) + PutBytes(c.name))
    ensures ColumnOk()(c) <==> c.typeOid < WORD && BytesOk(c.name)
  {
    hide PutBytes, BytesOk, PutBoth, BothOk, PutMapped, MappedOk;
    PowerOfFour();
    var f := ColumnTo(c);
    var put1, ok1 := PutBoth(PutNumber(1), PutBytes), BothOk(FitsWidth(1), BytesOk);
    MappedAt(PutColumnFields(), ColumnFieldsOk(), ColumnTo, c);
    BothAt(PutNumber(4), FitsWidth(4), put1, ok1, f.0, f.1);
    BothAt(PutNumber(1), FitsWidth(1), PutBytes, BytesOk, f.1.0, f.1.1);
  }

  lemma RelationLayout(r: Relation)
    ensures PutRelation()(r) ==
      LePut(r.oid, 4) +
      (LePut(r.replicaIdentity, 1) + (PutBytes(r.namespace) + (PutBytes(r.name) + EncodeCounted(PutColumn(), r.columns))))
    ensures RelationOk()(r) <==>
      r.oid < WORD && BytesOk(r.namespace) && BytesOk(r.name) && CountedOk(ColumnOk())(r.columns)
  {
    hide PutBytes, BytesOk, PutBoth, BothOk, PutMapped, MappedOk, EncodeCounted, CountedOk, PutColumn, ColumnOk;
    PowerOfFour();
    var f := RelationTo(r);
    var put, ok := PutCounted(PutColumn()), CountedOk(ColumnOk());
    var put3, ok3 := PutBoth(PutBytes, put), BothOk(BytesOk, ok);
    var put2, ok2 := PutBoth(PutBytes, put3), BothOk(BytesOk, ok3);
    var put1, ok1 := PutBoth(PutNumber(1), put2), BothOk(FitsWidth(1), ok2);
    MappedAt(PutRelationFields(), RelationFieldsOk(), RelationTo, r);
    BothAt(PutNumber(4), FitsWidth(4), put1, ok1, f.0, f.1);
    BothAt(PutNumber(1), FitsWidth(1), put2, ok2, f.1.0, f.1.1);
    BothAt(PutBytes, BytesOk, put3, ok3, f.1.1.0, f.1.1.1);
    BothAt(PutBytes, BytesOk, put, ok, f.1.1.1.0, f.1.1.1.1);
  }

  lemma BodyFullLayout(version: nat, t: SourceTransaction)
    ensures PutBody(version)(t) ==
      LePut(t.commit, 8) + (LePut(t.end, 8) + (LePut(t.seconds, 8) + (LePut(t.nanos, 4) +
      (EncodeCounted(PutRelation(), t.relations) + EncodeCounted(PutChange(version), t.changes)))))
    ensures BodyOk(version)(t) <==>
      t.commit < LONG && t.end < LONG && t.seconds < LONG && t.nanos < NANOS
      && CountedOk(RelationOk())(t.relations) && CountedOk(ChangeOk(version))(t.changes)
  {
    hide PutBoth, BothOk, PutMapped, MappedOk, EncodeCounted, CountedOk, PutRelation, RelationOk, PutChange, ChangeOk;
    PowerOfFour();
    var f := BodyTo(t);
    var put4, ok4 := PutContents(version), ContentsOk(version);
    var put3, ok3 := PutBoth(PutNumber(4), put4), BothOk(NanosFit(), ok4);
    var put2, ok2 := PutBoth(PutNumber(8), put3), BothOk(FitsWidth(8), ok3);
    var put1, ok1 := PutBoth(PutNumber(8), put2), BothOk(FitsWidth(8), ok2);
    MappedAt(PutBoth(PutNumber(8), put1), BothOk(FitsWidth(8), ok1), BodyTo, t);
    BothAt(PutNumber(8), FitsWidth(8), put1, ok1, f.0, f.1);
    BothAt(PutNumber(8), FitsWidth(8), put2, ok2, f.1.0, f.1.1);
    BothAt(PutNumber(8), FitsWidth(8), put3, ok3, f.1.1.0, f.1.1.1);
    BothAt(PutNumber(4), NanosFit(), put4, ok4, f.1.1.1.0, f.1.1.1.1);
    BothAt(
      PutCounted(PutRelation()), CountedOk(RelationOk()), PutCounted(PutChange(version)), CountedOk(ChangeOk(version)),
      f.1.1.1.1.0, f.1.1.1.1.1);
  }

  // --- Tuples ---

  /** Whether a datum may be stored, and how many bytes it takes. */
  method DatumSize(d: Datum) returns (size: Option<nat>)
    ensures size == if DatumOk(d) then Some(|EncodeDatum(d)|) else None
  {
    if d.kind == DatumText || d.kind == DatumBinary {
      if |d.data| > 0xFFFF_FFFF {
        return None;
      }
      return Some(1 + 4 + |d.data|);
    }
    if |d.data| != 0 {
      return None;
    }
    size := Some(1);
  }

  /** encodedTupleSize. */
  method TupleSize(tuple: Option<Tuple>) returns (size: Option<nat>)
    ensures size == if TupleOk(tuple) then Some(|EncodeTuple(tuple)|) else None
  {
    hide DatumOk, EncodeDatum;
    if tuple.None? {
      return Some(1);
    }
    var datums := tuple.value;
    if |datums| > 0xFFFF_FFFF {
      return None;
    }
    var total := 1 + 4;
    for i := 0 to |datums|
      invariant forall j :: 0 <= j < i ==> DatumOk(datums[j])
      invariant total == 5 + |EncodeMany(EncodeDatum, datums[..i])|
    {
      var one := DatumSize(datums[i]);
      if one.None? {
        return None;
      }
      EncodeManyNext(EncodeDatum, datums, i);
      total := total + one.value;
    }
    assert datums[..|datums|] == datums;
    size := Some(total);
  }

  /** appendTuple. */
  method AppendTuple(dst: Bytes, tuple: Option<Tuple>) returns (out: Option<Bytes>)
    ensures out == if TupleOk(tuple) then Some(dst + EncodeTuple(tuple)) else None
  {
    hide DatumOk, EncodeDatum;
    if tuple.None? {
      return Some(dst + [0]);
    }
    var datums := tuple.value;
    if |datums| > 0xFFFF_FFFF {
      return None;
    }
    var buffer := dst + [1] + LePut(|datums|, 4);
    for i := 0 to |datums|
      invariant forall j :: 0 <= j < i ==> DatumOk(datums[j])
      invariant buffer == dst + [1] + LePut(|datums|, 4) + EncodeMany(EncodeDatum, datums[..i])
    {
      var size := DatumSize(datums[i]);
      if size.None? {
        return None;
      }
      EncodeManyNext(EncodeDatum, datums, i);
      buffer := buffer + EncodeDatum(datums[i]);
    }
    assert datums[..|datums|] == datums;
    assert buffer == dst + EncodeTuple(tuple);
    out := Some(buffer);
  }

  // --- Changes ---

  /** encodedChangeSize. A relation OID is 32 bits wide. */
  method ChangeSize(c: Change) returns (size: Option<nat>)
    requires c.relationOid < WORD
    ensures size == if ChangeOk(CURRENT)(c) then Some(|PutChange(CURRENT)(c)|) else None
  {
    hide TupleOk, EncodeTuple, ChangeOk, PutChange;
    ChangeLayout(CURRENT, c);
    if c.kind != Truncate && (c.truncateCascade || c.truncateRestartIdentity) {
      return None;
    }
    var total := 4 + 1;
    if c.kind == Truncate {
      total := total + 1;
    }
    var before := TupleSize(c.oldTuple);
    if before.None? {
      return None;
    }
    var after := TupleSize(c.newTuple);
    if after.None? {
      return None;
    }
    size := Some(total + before.value + after.value);
  }

  /** appendChange. */
  method AppendChange(dst: Bytes, c: Change) returns (out: Option<Bytes>)
    requires c.relationOid < WORD
    ensures out == if ChangeOk(CURRENT)(c) then Some(dst + PutChange(CURRENT)(c)) else None
  {
    hide TupleOk, EncodeTuple, ChangeOk, PutChange;
    ChangeLayout(CURRENT, c);
    var buffer := dst + LePut(c.relationOid, 4) + [ChangeByte(c.kind)];
    if c.kind == Truncate {
      var options: Byte := 0;
      if c.truncateCascade {
        options := options + 1;
      }
      if c.truncateRestartIdentity {
        options := options + 2;
      }
      buffer := buffer + [options];
    } else if c.truncateCascade || c.truncateRestartIdentity {
      return None;
    }
    assert buffer == dst + LePut(c.relationOid, 4) + EncodeHead(CURRENT, ChangeTo(c).1.0);
    var before := AppendTuple(buffer, c.oldTuple);
    if before.None? {
      return None;
    }
    out := AppendTuple(before.value, c.newTuple);
    assert out.Some? ==> out.value == dst + PutChange(CURRENT)(c);
  }

  // --- Relations ---

  /** The fields of a relation are as wide as their types. */
  predicate RelationTyped(r: Relation) {
    r.oid < WORD && forall i :: 0 <= i < |r.columns| ==> r.columns[i].typeOid < WORD
  }

  predicate AllOk<T>(valid: T -> bool, xs: seq<T>) {
    forall i :: 0 <= i < |xs| ==> valid(xs[i])
  }

  lemma CountedMeans<T>(valid: T -> bool, xs: seq<T>, encode: T -> Bytes)
    ensures CountedOk(valid)(xs) <==> |xs| < WORD && AllOk(valid, xs)
    ensures |EncodeCounted(encode, xs)| == 4 + |EncodeMany(encode, xs)|
  {
  }

  /** The column loop of encodedRelationSize. */
  method ColumnsSize(columns: seq<Column>) returns (size: Option<nat>)
    requires forall i :: 0 <= i < |columns| ==> columns[i].typeOid < WORD
    ensures size == if AllOk(ColumnOk(), columns) then Some(|EncodeMany(PutColumn(), columns)|) else None
  {
    hide PutColumn, ColumnOk;
    var total := 0;
    for i := 0 to |columns|
      invariant forall j :: 0 <= j < i ==> ColumnOk()(columns[j])
      invariant total == |EncodeMany(PutColumn(), columns[..i])|
    {
      ColumnLayout(columns[i]);
      if |columns[i].name| > 0xFFFF_FFFF {
        return None;
      }
      EncodeManyNext(PutColumn(), columns, i);
      total := total + 4 + 1 + 4 + |columns[i].name|;
    }
    assert columns[..|columns|] == columns;
    size := Some(total);
  }

  /** encodedRelationSize. */
  method RelationSize(r: Relation) returns (size: Option<nat>)
    requires RelationTyped(r)
    ensures size == if RelationOk()(r) then Some(|PutRelation()(r)|) else None
  {
    hide PutRelation, RelationOk, AllOk, CountedOk, EncodeCounted, EncodeMany;
    RelationLayout(r);
    CountedMeans(ColumnOk(), r.columns, PutColumn());
    hide PutColumn, ColumnOk;
    if |r.namespace| > 0xFFFF_FFFF || |r.name| > 0xFFFF_FFFF || |r.columns| > 0xFFFF_FFFF {
      return None;
    }
    var columns := ColumnsSize(r.columns);
    if columns.None? {
      return None;
    }
    size := Some(4 + 1 + 4 + |r.namespace| + 4 + |r.name| + 4 + columns.value);
  }

  /** The column loop of appendRelation. */
  method AppendColumns(dst: Bytes, columns: seq<Column>) returns (out: Option<Bytes>)
    requires forall i :: 0 <= i < |columns| ==> columns[i].typeOid < WORD
    ensures out == if AllOk(ColumnOk(), columns) then Some(dst + EncodeMany(PutColumn(), columns)) else None
  {
    hide PutColumn, ColumnOk, LePut;
    var buffer := dst;
    for i := 0 to |columns|
      invariant forall j :: 0 <= j < i ==> ColumnOk()(columns[j])
      invariant buffer == dst + EncodeMany(PutColumn(), columns[..i])
    {
      var column := columns[i];
      ColumnLayout(column);
      if |column.name| > 0xFFFF_FFFF {
        return None;
      }
      EncodeManyNext(PutColumn(), columns, i);
      buffer := buffer + (LePut(column.typeOid, 4) + (LePut(column.flags, 1) + PutBytes(column.name)));
    }
    assert columns[..|columns|] == columns;
    out := Some(buffer);
  }

  /** appendRelation. */
  method AppendRelation(dst: Bytes, r: Relation) returns (out: Option<Bytes>)
    requires RelationTyped(r)
    ensures out == if RelationOk()(r) then Some(dst + PutRelation()(r)) else None
  {
    hide PutRelation, RelationOk, LePut, AllOk, CountedOk, EncodeMany;
    RelationLayout(r);
    CountedMeans(ColumnOk(), r.columns, PutColumn());
    hide PutColumn, ColumnOk;
    if |r.namespace| > 0xFFFF_FFFF || |r.name| > 0xFFFF_FFFF || |r.columns| > 0xFFFF_FFFF {
      return None;
    }
    var buffer := dst + LePut(r.oid, 4) + LePut(r.replicaIdentity, 1) + PutBytes(r.namespace) + PutBytes(r.name);
    out := AppendColumns(buffer + LePut(|r.columns|, 4), r.columns);
    assert out.Some? ==> out.value == dst + PutRelation()(r);
  }

  // --- Transactions ---

  predicate TransactionTyped(t: SourceTransaction) {
    && t.commit < LONG && t.end < LONG && t.seconds < LONG && t.nanos < NANOS
    && (forall i :: 0 <= i < |t.relations| ==> RelationTyped(t.relations[i]))
    && (forall i :: 0 <= i < |t.changes| ==> t.changes[i].relationOid < WORD)
  }

  method RelationsSize(relations: seq<Relation>) returns (size: Option<nat>)
    requires forall i :: 0 <= i < |relations| ==> RelationTyped(relations[i])
    ensures size == if AllOk(RelationOk(), relations) then Some(|EncodeMany(PutRelation(), relations)|) else None
  {
    hide PutRelation, RelationOk;
    var total := 0;
    for i := 0 to |relations|
      invariant forall j :: 0 <= j < i ==> RelationOk()(relations[j])
      invariant total == |EncodeMany(PutRelation(), relations[..i])|
    {
      var one := RelationSize(relations[i]);
      if one.None? {
        return None;
      }
      EncodeManyNext(PutRelation(), relations, i);
      total := total + one.value;
    }
    assert relations[..|relations|] == relations;
    size := Some(total);
  }

  method ChangesSize(changes: seq<Change>) returns (size: Option<nat>)
    requires forall i :: 0 <= i < |changes| ==> changes[i].relationOid < WORD
    ensures size == if AllOk(ChangeOk(CURRENT), changes) then Some(|EncodeMany(PutChange(CURRENT), changes)|) else None
  {
    hide PutChange, ChangeOk;
    var total := 0;
    for i := 0 to |changes|
      invariant forall j :: 0 <= j < i ==> ChangeOk(CURRENT)(changes[j])
      invariant total == |EncodeMany(PutChange(CURRENT), changes[..i])|
    {
      var one := ChangeSize(changes[i]);
      if one.None? {
        return None;
      }
      EncodeManyNext(PutChange(CURRENT), changes, i);
      total := total + one.value;
    }
    assert changes[..|changes|] == changes;
    size := Some(total);
  }

  /** transactionPayloadSize of a resident transaction: the size that is announced in the frame header
      before anything is encoded is the size of the encoding. */
  method PayloadSize(t: SourceTransaction) returns (size: Option<nat>)
    requires TransactionTyped(t)
    ensures size == if BodyOk(CURRENT)(t) then Some(|EncodePayload(CURRENT, t)|) else None
  {
    hide PutRelation, RelationOk, PutChange, ChangeOk, PutBody, BodyOk, AllOk, CountedOk, EncodeCounted, EncodeMany;
    BodyFullLayout(CURRENT, t);
    CountedMeans(RelationOk(), t.relations, PutRelation());
    CountedMeans(ChangeOk(CURRENT), t.changes, PutChange(CURRENT));
    if |t.relations| > 0xFFFF_FFFF {
      return None;
    }
    var relations := RelationsSize(t.relations);
    if relations.None? || |t.changes| > 0xFFFF_FFFF {
      return None;
    }
    var changes := ChangesSize(t.changes);
    if changes.None? {
      return None;
    }
    size := Some(4 + 1 + 8 + 8 + 8 + 4 + 4 + 4 + relations.value + changes.value);
  }

  function FixedBytes(t: SourceTransaction): Bytes {
    MAGIC + [CURRENT] + LePut(t.commit, 8) + LePut(t.end, 8) + LePut(t.seconds, 8) + LePut(t.nanos, 4)
  }

  /** Everything before the changes. */
  function PrefixBytes(t: SourceTransaction, changeCount: nat): Bytes {
    FixedBytes(t) + EncodeCounted(PutRelation(), t.relations) + LePut(changeCount, 4)
  }

  /** A payload is its prefix followed by the encoded changes. */
  lemma PayloadIsPrefixAndChanges(t: SourceTransaction)
    ensures EncodePayload(CURRENT, t) == PrefixBytes(t, |t.changes|) + EncodeMany(PutChange(CURRENT), t.changes)
  {
    hide PutBody, LePut, EncodeMany;
    BodyFullLayout(CURRENT, t);
    hide PutRelation, PutChange;
    var relations, changes := EncodeCounted(PutRelation(), t.relations), EncodeCounted(PutChange(CURRENT), t.changes);
    Reassociate(
      MAGIC + [CURRENT], LePut(t.commit, 8), LePut(t.end, 8), LePut(t.seconds, 8), LePut(t.nanos, 4), relations, changes);
    assert FixedBytes(t) + relations + changes == PrefixBytes(t, |t.changes|) + EncodeMany(PutChange(CURRENT), t.changes);
  }

  lemma Reassociate(a: Bytes, b: Bytes, c: Bytes, d: Bytes, e: Bytes, f: Bytes, g: Bytes)
    ensures a + (b + (c + (d + (e + (f + g))))) == a + b + c + d + e + f + g
  {
  }

  method AppendRelations(dst: Bytes, relations: seq<Relation>) returns (out: Option<Bytes>)
    requires forall i :: 0 <= i < |relations| ==> RelationTyped(relations[i])
    ensures out == if AllOk(RelationOk(), relations) then Some(dst + EncodeMany(PutRelation(), relations)) else None
  {
    hide PutRelation, RelationOk;
    var buffer := dst;
    for i := 0 to |relations|
      invariant forall j :: 0 <= j < i ==> RelationOk()(relations[j])
      invariant buffer == dst + EncodeMany(PutRelation(), relations[..i])
    {
      EncodeManyNext(PutRelation(), relations, i);
      var next := AppendRelation(buffer, relations[i]);
      if next.None? {
        return None;
      }
      buffer := next.value;
    }
    assert relations[..|relations|] == relations;
    out := Some(buffer);
  }

  method AppendChanges(dst: Bytes, changes: seq<Change>) returns (out: Option<Bytes>)
    requires forall i :: 0 <= i < |changes| ==> changes[i].relationOid < WORD
    ensures out == if AllOk(ChangeOk(CURRENT), changes) then Some(dst + EncodeMany(PutChange(CURRENT), changes)) else None
  {
    hide PutChange, ChangeOk;
    var buffer := dst;
    for i := 0 to |changes|
      invariant forall j :: 0 <= j < i ==> ChangeOk(CURRENT)(changes[j])
      invariant buffer == dst + EncodeMany(PutChange(CURRENT), changes[..i])
    {
      EncodeManyNext(PutChange(CURRENT), changes, i);
      var next := AppendChange(buffer, changes[i]);
      if next.None? {
        return None;
      }
      buffer := next.value;
    }
    assert changes[..|changes|] == changes;
    out := Some(buffer);
  }

  /** appendTransactionPrefix. */
  method AppendPrefix(dst: Bytes, t: SourceTransaction, changeCount: nat) returns (out: Option<Bytes>)
    requires TransactionTyped(t)
    ensures out == if CountedOk(RelationOk())(t.relations) then Some(dst + PrefixBytes(t, changeCount)) else None
  {
    hide PutRelation, RelationOk, LePut, AllOk, EncodeMany, CountedOk, FixedBytes;
    CountedMeans(RelationOk(), t.relations, PutRelation());
    if |t.relations| > 0xFFFF_FFFF {
      return None;
    }
    var relations := AppendRelations(dst + FixedBytes(t) + LePut(|t.relations|, 4), t.relations);
    if relations.None? {
      return None;
    }
    out := Some(relations.value + LePut(changeCount, 4));
    assert out.value == dst + PrefixBytes(t, changeCount);
  }

  lemma AppendInParts(dst: Bytes, prefix: Bytes, changes: Bytes)
    ensures dst + prefix + changes == dst + (prefix + changes)
  {
  }

  /** What BodyOk asks of a transaction with fields of the right width. */
  lemma TypedBodyOk(t: SourceTransaction)
    requires TransactionTyped(t)
    ensures BodyOk(CURRENT)(t) <==> CountedOk(RelationOk())(t.relations) && |t.changes| < WORD && AllOk(ChangeOk(CURRENT), t.changes)
  {
    hide RelationOk, ChangeOk, PutBody, BodyOk, AllOk, CountedOk;
    BodyFullLayout(CURRENT, t);
    CountedMeans(ChangeOk(CURRENT), t.changes, PutChange(CURRENT));
  }

  /** AppendTransaction of a resident transaction. */
  method AppendTransaction(dst: Bytes, t: SourceTransaction) returns (out: Option<Bytes>)
    requires TransactionTyped(t)
    ensures out.Some? <==> BodyOk(CURRENT)(t) && |EncodePayload(CURRENT, t)| <= MAX_PAYLOAD
    ensures out.Some? ==> out.value == dst + EncodePayload(CURRENT, t)
  {
    hide PutRelation, RelationOk, PutChange, ChangeOk, PutBody, BodyOk, PrefixBytes, AllOk, CountedOk, EncodeMany, EncodePayload;
    TypedBodyOk(t);
    PayloadIsPrefixAndChanges(t);
    var size := PayloadSize(t);
    if size.None? || size.value > MAX_PAYLOAD {
      return None;
    }
    var prefix := AppendPrefix(dst, t, |t.changes|);
    var buffer := AppendChanges(prefix.value, t.changes);
    AppendInParts(dst, PrefixBytes(t, |t.changes|), EncodeMany(PutChange(CURRENT), t.changes));
    if |buffer.value| - |dst| != size.value {
      return None;
    }
    out := buffer;
  }
}
