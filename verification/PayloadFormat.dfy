/** Whole transaction payloads: exactly the encodings of valid transactions decode, the in-memory and
    the streaming decoder agree on every byte string, and the announced size is the encoded size
    (internal/cdc/codec.go:26-155, 380-460, internal/cdc/codec_stream.go:58-103). */
module PayloadFormat {
  import opened Wrappers
  import opened Model
  import opened Frames
  import opened Codec
  import opened TransactionCodec

  /** A transaction as it is stored; `seconds` is the 64-bit pattern of its commit time. */
  datatype SourceTransaction = SourceTransaction(
    commit: Lsn, end: Lsn, seconds: nat, nanos: nat, relations: seq<Relation>, changes: seq<Change>)

  const NANOS := 1_000_000_000

  function NanosFit(): nat -> bool {
    n => n < NANOS
  }

  function TakeNanos(): Decoder<nat> {
    data =>
      match TakeNumber(4)(data)
      case None => None
      case Some(n) => if n.value >= NANOS then None else Some(n)
  }

  lemma NanosExact()
    ensures Exact(PutNumber(4), NanosFit(), TakeNanos())
  {
    NumberExact(4);
    PowerOfFour();
  }

  type BodyFields = (nat, (nat, (nat, (nat, (seq<Relation>, seq<Change>)))))

  function BodyFrom(f: BodyFields): SourceTransaction {
    SourceTransaction(f.0, f.1.0, f.1.1.0, f.1.1.1.0, f.1.1.1.1.0, f.1.1.1.1.1)
  }

  function BodyTo(t: SourceTransaction): BodyFields {
    (t.commit, (t.end, (t.seconds, (t.nanos, (t.relations, t.changes)))))
  }

  function PutContents(version: nat): ((seq<Relation>, seq<Change>)) -> Bytes {
    PutBoth(PutCounted(PutRelation()), PutCounted(PutChange(version)))
  }

  function ContentsOk(version: nat): ((seq<Relation>, seq<Change>)) -> bool {
    BothOk(CountedOk(RelationOk()), CountedOk(ChangeOk(version)))
  }

  /** The relations must leave room for the count of the changes. */
  function TakeContents(mode: Mode, version: nat): Decoder<(seq<Relation>, seq<Change>)> {
    Both(TakeCounted(mode, TakeRelation(mode), 17, 4), TakeCounted(mode, TakeChange(mode, version), 7, 0))
  }

  function PutBody(version: nat): SourceTransaction -> Bytes {
    PutMapped(
      PutBoth(PutNumber(8), PutBoth(PutNumber(8), PutBoth(PutNumber(8), PutBoth(PutNumber(4), PutContents(version))))), BodyTo)
  }

  function BodyOk(version: nat): SourceTransaction -> bool {
    MappedOk(
      BothOk(FitsWidth(8), BothOk(FitsWidth(8), BothOk(FitsWidth(8), BothOk(NanosFit(), ContentsOk(version))))), BodyTo)
  }

  function TakeBody(mode: Mode, version: nat): Decoder<SourceTransaction> {
    Mapped(
      Both(TakeNumber(8), Both(TakeNumber(8), Both(TakeNumber(8), Both(TakeNanos(), TakeContents(mode, version))))), BodyFrom)
  }

  lemma ContentsExact(version: nat)
    ensures Exact(PutContents(version), ContentsOk(version), TakeContents(Spilled, version))
  {
    RelationExact();
    ChangeExact(version);
    hide Exact;
    CountedExact(PutRelation(), RelationOk(), TakeRelation(Spilled), 17, 4);
    CountedExact(PutChange(version), ChangeOk(version), TakeChange(Spilled, version), 7, 0);
    BothExact(
      PutCounted(PutRelation()), CountedOk(RelationOk()), TakeCounted(Spilled, TakeRelation(Spilled), 17, 4),
      PutCounted(PutChange(version)), CountedOk(ChangeOk(version)), TakeCounted(Spilled, TakeChange(Spilled, version), 7, 0));
  }

  lemma BodyExact(version: nat)
    ensures Exact(PutBody(version), BodyOk(version), TakeBody(Spilled, version))
  {
    NumberExact(8);
    NanosExact();
    ContentsExact(version);
    hide Exact;
    var put, ok, take := PutContents(version), ContentsOk(version), TakeContents(Spilled, version);
    BothExact(PutNumber(4), NanosFit(), TakeNanos(), put, ok, take);
    var put3, ok3, take3 := PutBoth(PutNumber(4), put), BothOk(NanosFit(), ok), Both(TakeNanos(), take);
    BothExact(PutNumber(8), FitsWidth(8), TakeNumber(8), put3, ok3, take3);
    var put2, ok2, take2 := PutBoth(PutNumber(8), put3), BothOk(FitsWidth(8), ok3), Both(TakeNumber(8), take3);
    BothExact(PutNumber(8), FitsWidth(8), TakeNumber(8), put2, ok2, take2);
    var put1, ok1, take1 := PutBoth(PutNumber(8), put2), BothOk(FitsWidth(8), ok2), Both(TakeNumber(8), take2);
    BothExact(PutNumber(8), FitsWidth(8), TakeNumber(8), put1, ok1, take1);
    MappedExact(
      PutBoth(PutNumber(8), put1), BothOk(FitsWidth(8), ok1), Both(TakeNumber(8), take1), BodyFrom, BodyTo);
  }

  /** Reserving room for what must follow does not change which whole inputs decode. */
  lemma ReservedAgree<A(!new), B(!new)>(
    mode: Mode, a: Decoder<A>, a': Decoder<A>, minimum: nat, reserve: nat, b: Decoder<B>, b': Decoder<B>)
    requires minimum > 0 && Agree(a, a') && Consumes(a, minimum) && Agree(b, b') && Consumes(b', reserve)
    ensures Agree(Both(TakeCounted(mode, a, minimum, reserve), b), Both(TakeCounted(Spilled, a', minimum, reserve), b'))
  {
    var left := Both(TakeCounted(mode, a, minimum, reserve), b);
    var right := Both(TakeCounted(Spilled, a', minimum, reserve), b');
    forall data ensures left(data) == right(data) {
      CountCheckRedundant(mode, a, minimum, reserve, data);
      var count := TakeNumber(4)(data);
      if count.Some? {
        ManyAgree(a, a', count.value.value, count.value.rest);
      }
    }
  }

  lemma AgreeConsumes<T(!new)>(a: Decoder<T>, b: Decoder<T>, minimum: nat)
    requires Agree(a, b) && Consumes(b, minimum)
    ensures Consumes(a, minimum)
  {
  }

  lemma ContentsAgree(mode: Mode, version: nat)
    ensures Agree(TakeContents(mode, version), TakeContents(Spilled, version))
  {
    RelationAgrees(mode);
    ChangeAgrees(mode, version);
    AgreeConsumes(TakeRelation(mode), TakeRelation(Spilled), 17);
    AgreeConsumes(TakeChange(mode, version), TakeChange(Spilled, version), 7);
    CountedAgree(mode, TakeChange(mode, version), TakeChange(Spilled, version), 7);
    FewerConsumed(TakeChange(Spilled, version));
    CountedConsumes(Spilled, TakeChange(Spilled, version), 7, 0);
    hide Agree, Consumes;
    ReservedAgree(
      mode, TakeRelation(mode), TakeRelation(Spilled), 17, 4,
      TakeCounted(mode, TakeChange(mode, version), 7, 0), TakeCounted(Spilled, TakeChange(Spilled, version), 7, 0));
  }

  lemma FewerConsumed<T(!new)>(a: Decoder<T>)
    requires Consumes(a, 7)
    ensures Consumes(a, 0)
  {
  }

  lemma BodyAgrees(mode: Mode, version: nat)
    ensures Agree(TakeBody(mode, version), TakeBody(Spilled, version))
  {
    ContentsAgree(mode, version);
    SelfAgree(TakeNumber(8));
    SelfAgree(TakeNanos());
    hide Agree;
    var a, b := TakeContents(mode, version), TakeContents(Spilled, version);
    BothAgree(TakeNanos(), TakeNanos(), a, b);
    var a3, b3 := Both(TakeNanos(), a), Both(TakeNanos(), b);
    BothAgree(TakeNumber(8), TakeNumber(8), a3, b3);
    var a2, b2 := Both(TakeNumber(8), a3), Both(TakeNumber(8), b3);
    BothAgree(TakeNumber(8), TakeNumber(8), a2, b2);
    var a1, b1 := Both(TakeNumber(8), a2), Both(TakeNumber(8), b2);
    BothAgree(TakeNumber(8), TakeNumber(8), a1, b1);
    MappedAgree(Both(TakeNumber(8), a1), Both(TakeNumber(8), b1), BodyFrom);
  }

  // --- Payloads ---

  function EncodePayload(version: Byte, t: SourceTransaction): Bytes {
    MAGIC + [version] + PutBody(version)(t)
  }

  /** UnmarshalTransaction for `Resident`, the prefix and change decoders of a reader for `Streamed`. */
  function DecodePayload(mode: Mode, data: Bytes): Option<(Byte, SourceTransaction)> {
    if |data| > MAX_PAYLOAD || |data| < 5 || data[..4] != MAGIC || data[4] !in {1, 2} then None
    else
      match TakeBody(mode, data[4])(data[5..])
      case None => None
      case Some(body) => if body.rest != [] then None else Some((data[4], body.value))
  }

  lemma EncodingDecodes(mode: Mode, version: Byte, t: SourceTransaction)
    requires version in {1, 2} && BodyOk(version)(t) && |EncodePayload(version, t)| <= MAX_PAYLOAD
    ensures DecodePayload(mode, EncodePayload(version, t)) == Some((version, t))
  {
    hide TakeBody, PutBody, BodyOk;
    BodyExact(version);
    BodyAgrees(mode, version);
    var data, body := EncodePayload(version, t), PutBody(version)(t);
    assert data[..4] == MAGIC && data[4] == version && data[5..] == body;
    ExactEncoded(PutBody(version), BodyOk(version), TakeBody(Spilled, version), t, []);
    assert body + [] == body;
    AgreeAt(TakeBody(mode, version), TakeBody(Spilled, version), body);
  }

  lemma DecodedIsEncoding(mode: Mode, data: Bytes)
    requires DecodePayload(mode, data).Some?
    ensures
      var (version, t) := DecodePayload(mode, data).value;
      version in {1, 2} && BodyOk(version)(t) && |data| <= MAX_PAYLOAD && data == EncodePayload(version, t)
  {
    hide TakeBody, PutBody, BodyOk;
    var (version, t) := DecodePayload(mode, data).value;
    BodyExact(version);
    BodyAgrees(mode, version);
    AgreeAt(TakeBody(mode, version), TakeBody(Spilled, version), data[5..]);
    ExactDecoded(PutBody(version), BodyOk(version), TakeBody(Spilled, version), data[5..]);
    assert data == data[..4] + [data[4]] + data[5..];
    assert PutBody(version)(t) + [] == PutBody(version)(t);
  }

  /** A payload decodes exactly when it is the encoding of a valid transaction, and then to it. */
  lemma DecodesExactlyEncodings(mode: Mode, data: Bytes, version: Byte, t: SourceTransaction)
    ensures DecodePayload(mode, data) == Some((version, t)) <==>
      version in {1, 2} && BodyOk(version)(t) && |data| <= MAX_PAYLOAD && data == EncodePayload(version, t)
  {
    hide DecodePayload, BodyOk, EncodePayload;
    if version in {1, 2} && BodyOk(version)(t) && |data| <= MAX_PAYLOAD && data == EncodePayload(version, t) {
      EncodingDecodes(mode, version, t);
    }
    if DecodePayload(mode, data) == Some((version, t)) {
      DecodedIsEncoding(mode, data);
    }
  }

  lemma AgreeAt<T(!new)>(a: Decoder<T>, b: Decoder<T>, data: Bytes)
    requires Agree(a, b)
    ensures a(data) == b(data)
  {
  }

  /** The in-memory and the streaming decoder give the same answer on every byte string. */
  lemma DecodersAgree(data: Bytes)
    ensures DecodePayload(Resident, data) == DecodePayload(Streamed, data)
  {
    hide TakeBody;
    if |data| >= 5 {
      BodyAgrees(Resident, data[4]);
      BodyAgrees(Streamed, data[4]);
      AgreeAt(TakeBody(Resident, data[4]), TakeBody(Spilled, data[4]), data[5..]);
      AgreeAt(TakeBody(Streamed, data[4]), TakeBody(Spilled, data[4]), data[5..]);
    }
  }

  /** Different transactions never share an encoding. */
  lemma EncodingInjective(version: Byte, t: SourceTransaction, other: SourceTransaction)
    requires version in {1, 2} && BodyOk(version)(t) && BodyOk(version)(other)
    requires EncodePayload(version, t) == EncodePayload(version, other)
    ensures t == other
  {
    hide BodyOk, TakeBody, PutBody;
    BodyExact(version);
    var body, again := PutBody(version)(t), PutBody(version)(other);
    assert body == EncodePayload(version, t)[5..] && again == EncodePayload(version, other)[5..];
    ExactEncoded(PutBody(version), BodyOk(version), TakeBody(Spilled, version), t, []);
    ExactEncoded(PutBody(version), BodyOk(version), TakeBody(Spilled, version), other, []);
  }

  lemma MetadataAt(version: Byte, commit: Bytes, end: Bytes, tail: Bytes)
    requires |commit| == 8 && |end| == 8
    ensures
      var data := MAGIC + [version] + (commit + (end + tail));
      && |data| >= METADATA_SIZE && data[..4] == MAGIC && data[4] == version
      && data[5..13] == commit && data[13..21] == end
  {
  }

  /** The fields of a body in order, and their ranges. */
  lemma BodyLayout(version: nat, t: SourceTransaction) returns (tail: Bytes)
    ensures PutBody(version)(t) == LePut(t.commit, 8) + (LePut(t.end, 8) + tail)
    ensures BodyOk(version)(t) ==> t.commit < Pow256(8) && t.end < Pow256(8)
  {
    hide PutContents, ContentsOk, BothOk, PutBoth, PutMapped, MappedOk;
    var put3, ok3 := PutBoth(PutNumber(4), PutContents(version)), BothOk(NanosFit(), ContentsOk(version));
    var put2, ok2 := PutBoth(PutNumber(8), put3), BothOk(FitsWidth(8), ok3);
    var put1, ok1 := PutBoth(PutNumber(8), put2), BothOk(FitsWidth(8), ok2);
    MappedAt(PutBoth(PutNumber(8), put1), BothOk(FitsWidth(8), ok1), BodyTo, t);
    var f := BodyTo(t);
    BothAt(PutNumber(8), FitsWidth(8), put1, ok1, f.0, f.1);
    BothAt(PutNumber(8), FitsWidth(8), put2, ok2, f.1.0, f.1.1);
    tail := put2(f.1.1);
  }

  /** What a segment scan reads from a payload are the LSNs of the transaction it encodes. */
  lemma StampOfEncoding(version: Byte, t: SourceTransaction)
    requires version in {1, 2} && BodyOk(version)(t)
    ensures PayloadStamp(EncodePayload(version, t)) == Some(Stamp(t.commit, t.end))
  {
    hide PutBody, LePut, Le, BodyOk;
    var tail := BodyLayout(version, t);
    LeRoundTrip(t.commit, 8);
    LeRoundTrip(t.end, 8);
    MetadataAt(version, LePut(t.commit, 8), LePut(t.end, 8), tail);
  }
}
