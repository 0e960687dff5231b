/** The encoding of changes, relations and whole transactions. */
module TransactionCodec {
  import opened Wrappers
  import opened Model
  import opened Frames
  import opened Codec

  // --- Datums and tuples ---

  function KindByte(kind: DatumKind): Byte {
    match kind
    case DatumNull => 0
    case DatumText => 1
    case DatumBinary => 2
    case DatumUnchangedToast => 3
  }

  predicate DatumOk(d: Datum) {
    if d.kind == DatumText || d.kind == DatumBinary then BytesOk(d.data) else d.data == []
  }

  function EncodeDatum(d: Datum): Bytes {
    [KindByte(d.kind)] + if d.kind == DatumText || d.kind == DatumBinary then PutBytes(d.data) else []
  }

  function DecodeDatum(data: Bytes): Option<Parsed<Datum>> {
    if data == [] then None
    else
      var rest := data[1..];
      match data[0]
      case 0 => Some(Parsed(Datum(DatumNull, []), rest))
      case 1 =>
        (match TakeBytes(rest)
         case None => None
         case Some(value) => Some(Parsed(Datum(DatumText, value.value), value.rest)))
      case 2 =>
        (match TakeBytes(rest)
         case None => None
         case Some(value) => Some(Parsed(Datum(DatumBinary, value.value), value.rest)))
      case 3 => Some(Parsed(Datum(DatumUnchangedToast, []), rest))
      case _ => None
  }

  lemma DatumReadBack(x: Datum, rest: Bytes)
    requires DatumOk(x)
    ensures DecodeDatum(EncodeDatum(x) + rest) == Some(Parsed(x, rest))
  {
    BytesExact();
    hide TakeBytes, PutBytes;
    var body := if x.kind == DatumText || x.kind == DatumBinary then PutBytes(x.data) else [];
    assert (EncodeDatum(x) + rest)[1..] == body + rest;
    if x.kind == DatumText || x.kind == DatumBinary {
      ExactEncoded(PutBytes, BytesOk, TakeBytes, x.data, rest);
    }
  }

  lemma DatumWritten(data: Bytes)
    requires DecodeDatum(data).Some?
    ensures
      var parsed := DecodeDatum(data).value;
      DatumOk(parsed.value) && data == EncodeDatum(parsed.value) + parsed.rest
  {
    BytesExact();
    hide TakeBytes, PutBytes;
    assert data == [data[0]] + data[1..];
    if data[0] in {1, 2} {
      ExactDecoded(PutBytes, BytesOk, TakeBytes, data[1..]);
    }
  }

  lemma DatumExact()
    ensures Exact(EncodeDatum, DatumOk, DecodeDatum) && Consumes(DecodeDatum, 1)
  {
    hide EncodeDatum, DecodeDatum;
    forall x, rest | DatumOk(x) ensures DecodeDatum(EncodeDatum(x) + rest) == Some(Parsed(x, rest)) {
      DatumReadBack(x, rest);
    }
    forall data | DecodeDatum(data).Some?
      ensures DatumOk(DecodeDatum(data).value.value)
      ensures data == EncodeDatum(DecodeDatum(data).value.value) + DecodeDatum(data).value.rest
    {
      DatumWritten(data);
    }
    assert Consumes(DecodeDatum, 1) by {
      DatumConsumes();
    }
  }

  lemma DatumConsumes()
    ensures Consumes(DecodeDatum, 1)
  {
  }

  predicate TupleOk(tuple: Option<Tuple>) {
    tuple.Some? ==> |tuple.value| < WORD && forall d :: d in tuple.value ==> DatumOk(d)
  }

  function EncodeTuple(tuple: Option<Tuple>): Bytes {
    match tuple
    case None => [0]
    case Some(datums) => [1] + EncodeCounted(EncodeDatum, datums)
  }

  function DecodeTuple(mode: Mode, data: Bytes): Option<Parsed<Option<Tuple>>> {
    if data == [] then None
    else if data[0] == 0 then Some(Parsed(None, data[1..]))
    else if data[0] != 1 then None
    else
      match DecodeCounted(mode, DecodeDatum, 1, 0, data[1..])
      case None => None
      case Some(datums) => Some(Parsed(Some(datums.value), datums.rest))
  }

  function TakeTuple(mode: Mode): Decoder<Option<Tuple>> {
    data => DecodeTuple(mode, data)
  }

  lemma TupleAgrees(mode: Mode)
    ensures Agree(TakeTuple(mode), TakeTuple(Spilled)) && Consumes(TakeTuple(Spilled), 1)
  {
    hide DecodeCounted;
    DatumExact();
    SelfAgree(DecodeDatum);
    CountedAgree(mode, DecodeDatum, DecodeDatum, 1);
    CountedConsumes(Spilled, DecodeDatum, 1, 0);
    forall data ensures DecodeTuple(mode, data) == DecodeTuple(Spilled, data) {
      if data != [] {
        assert TakeCounted(mode, DecodeDatum, 1, 0)(data[1..]) == TakeCounted(Spilled, DecodeDatum, 1, 0)(data[1..]);
      }
    }
    forall data | DecodeTuple(Spilled, data).Some? ensures |DecodeTuple(Spilled, data).value.rest| + 1 <= |data| {
      if data[0] == 1 {
        assert TakeCounted(Spilled, DecodeDatum, 1, 0)(data[1..]).Some?;
      }
    }
  }

  lemma TupleReadBack(tuple: Option<Tuple>, rest: Bytes)
    requires TupleOk(tuple)
    ensures DecodeTuple(Spilled, EncodeTuple(tuple) + rest) == Some(Parsed(tuple, rest))
  {
    hide DecodeCounted, EncodeCounted, Exact, DatumOk;
    DatumExact();
    assert (EncodeTuple(tuple) + rest)[1..] == EncodeTuple(tuple)[1..] + rest;
    if tuple.Some? {
      CountedRoundTrip(EncodeDatum, DatumOk, DecodeDatum, 1, tuple.value, rest);
    }
  }

  lemma TupleWritten(data: Bytes)
    requires DecodeTuple(Spilled, data).Some?
    ensures
      var parsed := DecodeTuple(Spilled, data).value;
      TupleOk(parsed.value) && data == EncodeTuple(parsed.value) + parsed.rest
  {
    hide DecodeCounted, EncodeCounted, Exact;
    DatumExact();
    assert data == [data[0]] + data[1..];
    if data[0] == 1 {
      CountedCanonical(EncodeDatum, DatumOk, DecodeDatum, 1, data[1..]);
    }
  }

  lemma TupleExact()
    ensures Exact(EncodeTuple, TupleOk, TakeTuple(Spilled))
  {
    hide EncodeTuple, DecodeTuple, TupleOk;
    forall x, rest | TupleOk(x) ensures TakeTuple(Spilled)(EncodeTuple(x) + rest) == Some(Parsed(x, rest)) {
      TupleReadBack(x, rest);
    }
    forall data | TakeTuple(Spilled)(data).Some?
      ensures TupleOk(TakeTuple(Spilled)(data).value.value)
      ensures data == EncodeTuple(TakeTuple(Spilled)(data).value.value) + TakeTuple(Spilled)(data).value.rest
    {
      TupleWritten(data);
    }
  }

  // --- Changes ---

  /** The kind of a change with its truncate options. */
  datatype Head = Head(kind: ChangeKind, cascade: bool, restart: bool)

  function ChangeByte(kind: ChangeKind): Byte {
    match kind
    case Insert => 1
    case Update => 2
    case Delete => 3
    case Truncate => 4
  }

  function OptionsByte(h: Head): Byte {
    (if h.cascade then 1 else 0) + (if h.restart then 2 else 0)
  }

  predicate HasOptions(version: nat, kind: ChangeKind) {
    version >= 2 && kind == Truncate
  }

  predicate HeadOk(version: nat, h: Head) {
    HasOptions(version, h.kind) || (!h.cascade && !h.restart)
  }

  function EncodeHead(version: nat, h: Head): Bytes {
    [ChangeByte(h.kind)] + if HasOptions(version, h.kind) then [OptionsByte(h)] else []
  }

  function DecodeHead(version: nat, data: Bytes): Option<Parsed<Head>> {
    if data == [] || data[0] !in {1, 2, 3, 4} then None
    else
      var kind := if data[0] == 1 then Insert else if data[0] == 2 then Update else if data[0] == 3 then Delete else Truncate;
      if !HasOptions(version, kind) then Some(Parsed(Head(kind, false, false), data[1..]))
      else if |data| < 2 || data[1] > 3 then None
      else Some(Parsed(Head(kind, data[1] % 2 == 1, data[1] >= 2), data[2..]))
  }

  function PutHead(version: nat): Head -> Bytes {
    h => EncodeHead(version, h)
  }

  function HeadFits(version: nat): Head -> bool {
    h => HeadOk(version, h)
  }

  function TakeHead(version: nat): Decoder<Head> {
    data => DecodeHead(version, data)
  }

  lemma HeadReadBack(version: nat, h: Head, rest: Bytes)
    requires HeadOk(version, h)
    ensures DecodeHead(version, EncodeHead(version, h) + rest) == Some(Parsed(h, rest))
  {
    var data := EncodeHead(version, h) + rest;
    assert data[0] == ChangeByte(h.kind);
    if HasOptions(version, h.kind) {
      assert data[2..] == rest;
    } else {
      assert data[1..] == rest;
    }
  }

  lemma HeadWritten(version: nat, data: Bytes)
    requires DecodeHead(version, data).Some?
    ensures
      var parsed := DecodeHead(version, data).value;
      HeadOk(version, parsed.value) && data == EncodeHead(version, parsed.value) + parsed.rest
  {
    assert data == [data[0]] + data[1..];
    if |data| > 1 {
      assert data == [data[0], data[1]] + data[2..];
    }
  }

  lemma HeadExact(version: nat)
    ensures Exact(PutHead(version), HeadFits(version), TakeHead(version)) && Consumes(TakeHead(version), 1)
  {
    forall x, rest | HeadFits(version)(x)
      ensures TakeHead(version)(PutHead(version)(x) + rest) == Some(Parsed(x, rest))
    {
      HeadReadBack(version, x, rest);
    }
    forall data | TakeHead(version)(data).Some?
      ensures HeadFits(version)(TakeHead(version)(data).value.value)
      ensures data == PutHead(version)(TakeHead(version)(data).value.value) + TakeHead(version)(data).value.rest
    {
      HeadWritten(version, data);
    }
  }

  type ChangeFields = (nat, (Head, (Option<Tuple>, Option<Tuple>)))

  function ChangeFrom(f: ChangeFields): Change {
    Change(f.0, f.1.0.kind, f.1.1.0, f.1.1.1, f.1.0.cascade, f.1.0.restart)
  }

  function ChangeTo(c: Change): ChangeFields {
    (c.relationOid, (Head(c.kind, c.truncateCascade, c.truncateRestartIdentity), (c.oldTuple, c.newTuple)))
  }

  function PutChangeFields(version: nat): ChangeFields -> Bytes {
    PutBoth(PutNumber(4), PutBoth(PutHead(version), PutBoth(EncodeTuple, EncodeTuple)))
  }

  function ChangeFieldsOk(version: nat): ChangeFields -> bool {
    BothOk(FitsWidth(4), BothOk(HeadFits(version), BothOk(TupleOk, TupleOk)))
  }

  function TakeChangeFields(mode: Mode, version: nat): Decoder<ChangeFields> {
    Both(TakeNumber(4), Both(TakeHead(version), Both(TakeTuple(mode), TakeTuple(mode))))
  }

  /** appendChange, writeChangeTo. */
  function PutChange(version: nat): Change -> Bytes {
    PutMapped(PutChangeFields(version), ChangeTo)
  }

  function ChangeOk(version: nat): Change -> bool {
    MappedOk(ChangeFieldsOk(version), ChangeTo)
  }

  /** decoder.change, decodeChangeReader. */
  function TakeChange(mode: Mode, version: nat): Decoder<Change> {
    Mapped(TakeChangeFields(mode, version), ChangeFrom)
  }

  lemma ChangeExact(version: nat)
    ensures Exact(PutChange(version), ChangeOk(version), TakeChange(Spilled, version))
  {
    NumberExact(4);
    HeadExact(version);
    TupleExact();
    hide Exact;
    BothExact(EncodeTuple, TupleOk, TakeTuple(Spilled), EncodeTuple, TupleOk, TakeTuple(Spilled));
    BothExact(
      PutHead(version), HeadFits(version), TakeHead(version),
      PutBoth(EncodeTuple, EncodeTuple), BothOk(TupleOk, TupleOk), Both(TakeTuple(Spilled), TakeTuple(Spilled)));
    BothExact(
      PutNumber(4), FitsWidth(4), TakeNumber(4),
      PutBoth(PutHead(version), PutBoth(EncodeTuple, EncodeTuple)), BothOk(HeadFits(version), BothOk(TupleOk, TupleOk)),
      Both(TakeHead(version), Both(TakeTuple(Spilled), TakeTuple(Spilled))));
    MappedExact(
      PutChangeFields(version), ChangeFieldsOk(version), TakeChangeFields(Spilled, version), ChangeFrom, ChangeTo);
  }

  /** Every encoded change takes at least seven bytes, and the three decoders agree on it. */
  lemma ChangeAgrees(mode: Mode, version: nat)
    ensures Agree(TakeChange(mode, version), TakeChange(Spilled, version))
    ensures Consumes(TakeChange(Spilled, version), 7)
  {
    TupleAgrees(mode);
    HeadExact(version);
    NumberConsumes(4);
    SelfAgree(TakeNumber(4));
    SelfAgree(TakeHead(version));
    hide Exact, Agree, Consumes;
    BothAgree(TakeTuple(mode), TakeTuple(Spilled), TakeTuple(mode), TakeTuple(Spilled));
    BothConsume(TakeTuple(Spilled), TakeTuple(Spilled), 1, 1);
    BothAgree(
      TakeHead(version), TakeHead(version), Both(TakeTuple(mode), TakeTuple(mode)),
      Both(TakeTuple(Spilled), TakeTuple(Spilled)));
    BothConsume(TakeHead(version), Both(TakeTuple(Spilled), TakeTuple(Spilled)), 1, 2);
    BothAgree(
      TakeNumber(4), TakeNumber(4), Both(TakeHead(version), Both(TakeTuple(mode), TakeTuple(mode))),
      Both(TakeHead(version), Both(TakeTuple(Spilled), TakeTuple(Spilled))));
    BothConsume(TakeNumber(4), Both(TakeHead(version), Both(TakeTuple(Spilled), TakeTuple(Spilled))), 4, 3);
    MappedAgree(TakeChangeFields(mode, version), TakeChangeFields(Spilled, version), ChangeFrom);
    MappedConsumes(TakeChangeFields(Spilled, version), ChangeFrom, 7);
  }

  // --- Columns and relations ---

  type ColumnFields = (nat, (nat, Bytes))

  function ColumnFrom(f: ColumnFields): Column {
    Column(f.1.1, f.0, if f.1.0 < 256 then f.1.0 else 0)
  }

  function ColumnTo(c: Column): ColumnFields {
    (c.typeOid, (c.flags as nat, c.name))
  }

  function PutColumnFields(): ColumnFields -> Bytes {
    PutBoth(PutNumber(4), PutBoth(PutNumber(1), PutBytes))
  }

  function ColumnFieldsOk(): ColumnFields -> bool {
    BothOk(FitsWidth(4), BothOk(FitsWidth(1), BytesOk))
  }

  function TakeColumnFields(): Decoder<ColumnFields> {
    Both(TakeNumber(4), Both(TakeNumber(1), TakeBytes))
  }

  lemma ColumnExact()
    ensures Exact(PutMapped(PutColumnFields(), ColumnTo), MappedOk(ColumnFieldsOk(), ColumnTo), Mapped(TakeColumnFields(), ColumnFrom))
  {
    NumberExact(4);
    NumberExact(1);
    BytesExact();
    PowerOfFour();
    hide Exact;
    BothExact(PutNumber(1), FitsWidth(1), TakeNumber(1), PutBytes, BytesOk, TakeBytes);
    BothExact(
      PutNumber(4), FitsWidth(4), TakeNumber(4),
      PutBoth(PutNumber(1), PutBytes), BothOk(FitsWidth(1), BytesOk), Both(TakeNumber(1), TakeBytes));
    MappedExact(PutColumnFields(), ColumnFieldsOk(), TakeColumnFields(), ColumnFrom, ColumnTo);
  }

  function TakeColumn(): Decoder<Column> {
    Mapped(TakeColumnFields(), ColumnFrom)
  }

  function PutColumn(): Column -> Bytes {
    PutMapped(PutColumnFields(), ColumnTo)
  }

  function ColumnOk(): Column -> bool {
    MappedOk(ColumnFieldsOk(), ColumnTo)
  }

  lemma ColumnConsumes()
    ensures Consumes(TakeColumn(), 9)
  {
    NumberConsumes(4);
    NumberConsumes(1);
    BytesConsume();
    hide Consumes;
    BothConsume(TakeNumber(1), TakeBytes, 1, 4);
    BothConsume(TakeNumber(4), Both(TakeNumber(1), TakeBytes), 4, 5);
    MappedConsumes(TakeColumnFields(), ColumnFrom, 9);
  }

  type RelationFields = (nat, (nat, (Bytes, (Bytes, seq<Column>))))

  function RelationFrom(f: RelationFields): Relation {
    Relation(f.0, f.1.1.0, f.1.1.1.0, if f.1.0 < 256 then f.1.0 else 0, f.1.1.1.1)
  }

  function RelationTo(r: Relation): RelationFields {
    (r.oid, (r.replicaIdentity as nat, (r.namespace, (r.name, r.columns))))
  }

  function PutRelationFields(): RelationFields -> Bytes {
    PutBoth(PutNumber(4), PutBoth(PutNumber(1), PutBoth(PutBytes, PutBoth(PutBytes, PutCounted(PutColumn())))))
  }

  function RelationFieldsOk(): RelationFields -> bool {
    BothOk(FitsWidth(4), BothOk(FitsWidth(1), BothOk(BytesOk, BothOk(BytesOk, CountedOk(ColumnOk())))))
  }

  function TakeRelationFields(mode: Mode): Decoder<RelationFields> {
    Both(TakeNumber(4), Both(TakeNumber(1), Both(TakeBytes, Both(TakeBytes, TakeCounted(mode, TakeColumn(), 9, 0)))))
  }

  function PutRelation(): Relation -> Bytes {
    PutMapped(PutRelationFields(), RelationTo)
  }

  function RelationOk(): Relation -> bool {
    MappedOk(RelationFieldsOk(), RelationTo)
  }

  function TakeRelation(mode: Mode): Decoder<Relation> {
    Mapped(TakeRelationFields(mode), RelationFrom)
  }

  lemma RelationExact()
    ensures Exact(PutRelation(), RelationOk(), TakeRelation(Spilled))
  {
    NumberExact(4);
    NumberExact(1);
    BytesExact();
    ColumnExact();
    PowerOfFour();
    hide Exact;
    CountedExact(PutColumn(), ColumnOk(), TakeColumn(), 9, 0);
    var put, ok, take := PutCounted(PutColumn()), CountedOk(ColumnOk()), TakeCounted(Spilled, TakeColumn(), 9, 0);
    BothExact(PutBytes, BytesOk, TakeBytes, put, ok, take);
    BothExact(PutBytes, BytesOk, TakeBytes, PutBoth(PutBytes, put), BothOk(BytesOk, ok), Both(TakeBytes, take));
    BothExact(
      PutNumber(1), FitsWidth(1), TakeNumber(1), PutBoth(PutBytes, PutBoth(PutBytes, put)),
      BothOk(BytesOk, BothOk(BytesOk, ok)), Both(TakeBytes, Both(TakeBytes, take)));
    BothExact(
      PutNumber(4), FitsWidth(4), TakeNumber(4), PutBoth(PutNumber(1), PutBoth(PutBytes, PutBoth(PutBytes, put))),
      BothOk(FitsWidth(1), BothOk(BytesOk, BothOk(BytesOk, ok))), Both(TakeNumber(1), Both(TakeBytes, Both(TakeBytes, take))));
    RelationFieldsMap();
    MappedExact(PutRelationFields(), RelationFieldsOk(), TakeRelationFields(Spilled), RelationFrom, RelationTo);
  }

  lemma RelationFieldsMap()
    ensures forall r :: RelationFrom(RelationTo(r)) == r
    ensures forall f :: RelationFieldsOk()(f) ==> RelationTo(RelationFrom(f)) == f
  {
    PowerOfFour();
  }

  /** Every encoded relation takes at least seventeen bytes, and the decoders agree on it. */
  lemma RelationAgrees(mode: Mode)
    ensures Agree(TakeRelation(mode), TakeRelation(Spilled))
    ensures Consumes(TakeRelation(Spilled), 17)
  {
    ColumnConsumes();
    NumberConsumes(4);
    NumberConsumes(1);
    BytesConsume();
    SelfAgree(TakeColumn());
    SelfAgree(TakeNumber(4));
    SelfAgree(TakeNumber(1));
    SelfAgree(TakeBytes);
    CountedAgree(mode, TakeColumn(), TakeColumn(), 9);
    CountedConsumes(Spilled, TakeColumn(), 9, 0);
    hide Agree, Consumes;
    var a, b := TakeCounted(mode, TakeColumn(), 9, 0), TakeCounted(Spilled, TakeColumn(), 9, 0);
    BothAgree(TakeBytes, TakeBytes, a, b);
    BothConsume(TakeBytes, b, 4, 4);
    BothAgree(TakeBytes, TakeBytes, Both(TakeBytes, a), Both(TakeBytes, b));
    BothConsume(TakeBytes, Both(TakeBytes, b), 4, 8);
    BothAgree(TakeNumber(1), TakeNumber(1), Both(TakeBytes, Both(TakeBytes, a)), Both(TakeBytes, Both(TakeBytes, b)));
    BothConsume(TakeNumber(1), Both(TakeBytes, Both(TakeBytes, b)), 1, 12);
    BothAgree(
      TakeNumber(4), TakeNumber(4), Both(TakeNumber(1), Both(TakeBytes, Both(TakeBytes, a))),
      Both(TakeNumber(1), Both(TakeBytes, Both(TakeBytes, b))));
    BothConsume(TakeNumber(4), Both(TakeNumber(1), Both(TakeBytes, Both(TakeBytes, b))), 4, 13);
    MappedAgree(TakeRelationFields(mode), TakeRelationFields(Spilled), RelationFrom);
    MappedConsumes(TakeRelationFields(Spilled), RelationFrom, 17);
  }
}
