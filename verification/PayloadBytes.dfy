/** One transaction with every kind of change and datum, and its bytes written out: the tags, the order of the
    fields and of the bytes of a number (internal/cdc/codec.go:26-81, 174-257, internal/cdc/model.go:28-52). */
module PayloadBytes {
  import opened Wrappers
  import opened Model
  import opened Frames
  import opened Codec
  import opened TransactionCodec
  import opened PayloadFormat
  import opened PayloadWriter

  const ONE_RELATION := Relation(7, [115], [116], 100, [Column([107], 23, 1)])

  const INSERTED := Change(
    7, Insert, None,
    Some([Datum(DatumNull, []), Datum(DatumText, [65]), Datum(DatumBinary, [0, 255]), Datum(DatumUnchangedToast, [])]),
    false, false)

  const UPDATED := Change(7, Update, Some([Datum(DatumText, [65])]), Some([Datum(DatumNull, [])]), false, false)

  const DELETED := Change(7, Delete, Some([]), None, false, false)

  const TRUNCATED := Change(7, Truncate, None, None, true, false)

  const RESTARTED := Change(7, Truncate, None, None, false, true)

  const SAMPLE := SourceTransaction(
    513, 1027, 5, 6, [ONE_RELATION], [INSERTED, UPDATED, DELETED, TRUNCATED, RESTARTED])

  lemma Zeros()
    ensures LePut(0, 1) == [0] && LePut(0, 2) == [0, 0] && LePut(0, 3) == [0, 0, 0]
  {
    assert LePut(0, 0) == [];
    assert LePut(0, 1) == [0] + LePut(0, 0);
    assert LePut(0, 2) == [0] + LePut(0, 1);
    assert LePut(0, 3) == [0] + LePut(0, 2);
  }

  lemma Small(v: nat)
    requires v < 256
    ensures LePut(v, 1) == [v] && LePut(v, 4) == [v, 0, 0, 0]
  {
    Zeros();
    assert v % 256 == v && v / 256 == 0;
    assert LePut(v, 1) == [v] + LePut(0, 0) && LePut(0, 0) == [];
    assert LePut(v, 4) == [v] + LePut(0, 3);
  }

  lemma Long(v: nat)
    requires v < 65536
    ensures LePut(v, 8) == [v % 256, v / 256, 0, 0, 0, 0, 0, 0]
  {
    Small(0);
    assert LePut(0, 5) == [0] + LePut(0, 4) && LePut(0, 6) == [0] + LePut(0, 5);
    assert LePut(v / 256, 7) == [v / 256] + LePut(0, 6);
  }

  lemma Many<T>(encode: T -> Bytes, x: T, xs: seq<T>)
    ensures EncodeMany(encode, [x] + xs) == encode(x) + EncodeMany(encode, xs)
  {
    assert ([x] + xs)[1..] == xs;
  }

  lemma Name(b: Byte)
    ensures PutBytes([b]) == [1, 0, 0, 0, b]
  {
    Small(1);
  }

  function RelationLiteral(): Bytes {
    [7, 0, 0, 0] + ([100] + ([1, 0, 0, 0, 115] + ([1, 0, 0, 0, 116] + [1, 0, 0, 0, 23, 0, 0, 0, 1, 1, 0, 0, 0, 107])))
  }

  lemma ColumnBytes()
    ensures PutColumn()(ONE_RELATION.columns[0]) == [23, 0, 0, 0, 1, 1, 0, 0, 0, 107]
  {
    hide LePut, PutColumn, PutBytes;
    ColumnLayout(ONE_RELATION.columns[0]);
    Small(23);
    Small(1);
    Name(107);
  }

  lemma ColumnsBytes()
    ensures EncodeCounted(PutColumn(), ONE_RELATION.columns) == [1, 0, 0, 0, 23, 0, 0, 0, 1, 1, 0, 0, 0, 107]
  {
    hide LePut, PutColumn;
    var column := ONE_RELATION.columns[0];
    assert ONE_RELATION.columns == [column] + [];
    Many(PutColumn(), column, []);
    ColumnBytes();
    Small(1);
  }

  lemma RelationBytes()
    ensures PutRelation()(ONE_RELATION) == RelationLiteral()
  {
    hide LePut, PutRelation, PutColumn, PutBytes, EncodeCounted;
    RelationLayout(ONE_RELATION);
    ColumnsBytes();
    Small(7);
    Small(100);
    Name(115);
    Name(116);
  }

  lemma NoTuple()
    ensures EncodeTuple(None) == [0]
  {
  }

  lemma OneDatum(d: Datum)
    ensures EncodeTuple(Some([d])) == [1, 1, 0, 0, 0] + EncodeDatum(d)
  {
    hide LePut, EncodeDatum;
    assert [d] == [d] + [];
    Many(EncodeDatum, d, []);
    Small(1);
  }

  lemma DatumBytes()
    ensures EncodeDatum(Datum(DatumNull, [])) == [0]
    ensures EncodeDatum(Datum(DatumText, [65])) == [1, 1, 0, 0, 0, 65]
    ensures EncodeDatum(Datum(DatumBinary, [0, 255])) == [2, 2, 0, 0, 0, 0, 255]
    ensures EncodeDatum(Datum(DatumUnchangedToast, [])) == [3]
  {
    hide LePut;
    Small(1);
    Small(2);
  }

  function FourLiteral(): Bytes {
    [1] + ([4, 0, 0, 0] + ([0] + ([1, 1, 0, 0, 0, 65] + ([2, 2, 0, 0, 0, 0, 255] + [3]))))
  }

  lemma FourDatums()
    ensures EncodeTuple(INSERTED.newTuple) == FourLiteral()
  {
    hide LePut, EncodeDatum;
    var a, b := Datum(DatumNull, []), Datum(DatumText, [65]);
    var c, d := Datum(DatumBinary, [0, 255]), Datum(DatumUnchangedToast, []);
    assert [a, b, c, d] == [a] + [b, c, d] && [b, c, d] == [b] + [c, d] && [c, d] == [c] + [d] && [d] == [d] + [];
    Many(EncodeDatum, a, [b, c, d]);
    Many(EncodeDatum, b, [c, d]);
    Many(EncodeDatum, c, [d]);
    Many(EncodeDatum, d, []);
    hide EncodeMany;
    DatumBytes();
    assert EncodeMany(EncodeDatum, [d]) == [3] by {
      assert EncodeMany(EncodeDatum, []) == [];
    }
    Small(4);
  }

  function InsertLiteral(): Bytes {
    [7, 0, 0, 0] + ([1] + ([0] + FourLiteral()))
  }

  lemma InsertBytes()
    ensures PutChange(CURRENT)(INSERTED) == InsertLiteral()
  {
    hide LePut, PutChange, EncodeDatum, EncodeTuple;
    ChangeLayout(CURRENT, INSERTED);
    Small(7);
    FourDatums();
    NoTuple();
  }

  function UpdateLiteral(): Bytes {
    [7, 0, 0, 0] + ([2] + ([1, 1, 0, 0, 0, 1, 1, 0, 0, 0, 65] + [1, 1, 0, 0, 0, 0]))
  }

  lemma UpdateBytes()
    ensures PutChange(CURRENT)(UPDATED) == UpdateLiteral()
  {
    hide LePut, PutChange, EncodeDatum, EncodeTuple;
    ChangeLayout(CURRENT, UPDATED);
    Small(7);
    DatumBytes();
    OneDatum(Datum(DatumText, [65]));
    OneDatum(Datum(DatumNull, []));
  }

  function DeleteLiteral(): Bytes {
    [7, 0, 0, 0] + ([3] + ([1, 0, 0, 0, 0] + [0]))
  }

  lemma DeleteBytes()
    ensures PutChange(CURRENT)(DELETED) == DeleteLiteral()
  {
    hide LePut, PutChange, EncodeTuple;
    ChangeLayout(CURRENT, DELETED);
    Small(7);
    NoDatums();
    NoTuple();
  }

  /** Cascade is the first bit of the options, restarting the identity the second. */
  function TruncateLiteral(options: Byte): Bytes {
    [7, 0, 0, 0] + ([4, options] + ([0] + [0]))
  }

  lemma TruncateBytes()
    ensures PutChange(CURRENT)(TRUNCATED) == TruncateLiteral(1)
    ensures PutChange(CURRENT)(RESTARTED) == TruncateLiteral(2)
  {
    hide LePut, PutChange, EncodeTuple;
    ChangeLayout(CURRENT, TRUNCATED);
    ChangeLayout(CURRENT, RESTARTED);
    Small(7);
    NoTuple();
  }

  lemma NoDatums()
    ensures EncodeTuple(Some([])) == [1, 0, 0, 0, 0]
  {
    hide LePut;
    Small(0);
  }

  lemma FiveChanges(f: Change -> Bytes, a: Change, b: Change, c: Change, d: Change, e: Change)
    ensures EncodeMany(f, [a, b, c, d, e]) == f(a) + f(b) + f(c) + f(d) + f(e)
  {
    assert [a, b, c, d, e] == [a] + [b, c, d, e] && [b, c, d, e] == [b] + [c, d, e];
    assert [c, d, e] == [c] + [d, e] && [d, e] == [d] + [e] && [e] == [e] + [];
    Many(f, a, [b, c, d, e]);
    Many(f, b, [c, d, e]);
    Many(f, c, [d, e]);
    Many(f, d, [e]);
    Many(f, e, []);
  }

  function FixedLiteral(): Bytes {
    [80, 71, 77, 67, 2, 1, 2, 0, 0, 0, 0, 0, 0, 3, 4, 0, 0, 0, 0, 0, 0, 5, 0, 0, 0, 0, 0, 0, 0, 6, 0, 0, 0]
  }

  lemma SampleFixed()
    ensures FixedBytes(SAMPLE) == FixedLiteral()
  {
    hide LePut;
    Long(513);
    Long(1027);
    Long(5);
    Small(6);
  }

  lemma SamplePrefix()
    ensures PrefixBytes(SAMPLE, 5) == FixedLiteral() + ([1, 0, 0, 0] + RelationLiteral()) + [5, 0, 0, 0]
  {
    hide LePut, PutRelation, FixedBytes, FixedLiteral, RelationLiteral;
    SampleFixed();
    Small(1);
    Small(5);
    assert [ONE_RELATION] == [ONE_RELATION] + [];
    Many(PutRelation(), ONE_RELATION, []);
    RelationBytes();
  }

  /** The payload of the sample, byte for byte. */
  lemma SampleBytes()
    ensures EncodePayload(CURRENT, SAMPLE) ==
      FixedLiteral() + ([1, 0, 0, 0] + RelationLiteral()) + [5, 0, 0, 0] +
      (InsertLiteral() + UpdateLiteral() + DeleteLiteral() + TruncateLiteral(1) + TruncateLiteral(2))
  {
    hide LePut, PutChange, PrefixBytes, EncodePayload, FixedLiteral, RelationLiteral;
    hide InsertLiteral, UpdateLiteral, DeleteLiteral, TruncateLiteral;
    PayloadIsPrefixAndChanges(SAMPLE);
    SamplePrefix();
    InsertBytes();
    UpdateBytes();
    DeleteBytes();
    TruncateBytes();
    FiveChanges(PutChange(CURRENT), INSERTED, UPDATED, DELETED, TRUNCATED, RESTARTED);
  }

  /** A frame is the length and the checksum of its payload, low bytes first, and the payload. */
  lemma FrameHeader(crc: Checksum, payload: Bytes)
    requires |payload| < 256 && crc(payload) == 67305985
    ensures FrameBytes(crc, payload) == [|payload|, 0, 0, 0] + [1, 2, 3, 4] + payload
  {
    Small(|payload|);
    assert LePut(67305985, 4) == [1] + LePut(262914, 3) && LePut(262914, 3) == [2] + LePut(1027, 2);
    assert LePut(1027, 2) == [3] + LePut(4, 1) && LePut(4, 1) == [4];
  }
}
