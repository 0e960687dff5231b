/** The byte format of transactions (internal/cdc/codec.go, internal/cdc/codec_stream.go). Encoding and
    decoding are exact inverses, and the decoders differ only in when they give up. */
module Codec {
  import opened Wrappers
  import opened Model
  import opened Frames

  const WORD := 0x1_0000_0000
  const LONG := 0x1_0000_0000_0000_0000

  datatype Parsed<T> = Parsed(value: T, rest: Bytes)

  type Decoder<T> = Bytes -> Option<Parsed<T>>

  /** Decoding what was encoded gives it back and leaves what follows; everything decoded is an
      encoding of a valid value. */
  ghost predicate Exact<T(!new)>(encode: T -> Bytes, valid: T -> bool, decode: Decoder<T>) {
    && (forall x, rest :: valid(x) ==> decode(encode(x) + rest) == Some(Parsed(x, rest)))
    && (forall data :: decode(data).Some? ==>
          valid(decode(data).value.value) && data == encode(decode(data).value.value) + decode(data).value.rest)
  }

  // --- Numbers and byte strings ---

  function Take(data: Bytes, n: nat): Option<Parsed<Bytes>> {
    if n > |data| then None else Some(Parsed(data[..n], data[n..]))
  }

  function TakeNumber(width: nat): Decoder<nat> {
    data => if width > |data| then None else Some(Parsed(Le(data[..width]), data[width..]))
  }

  function PutNumber(width: nat): nat -> Bytes {
    value => LePut(value, width)
  }

  function FitsWidth(width: nat): nat -> bool {
    value => value < Pow256(width)
  }

  lemma {:induction false} LeBound(bytes: Bytes)
    ensures Le(bytes) < Pow256(|bytes|)
    decreases |bytes|
  {
    if bytes != [] {
      LeBound(bytes[1..]);
    }
  }

  /** A number field reads back. */
  lemma NumberWritten(width: nat, value: nat, rest: Bytes)
    requires value < Pow256(width)
    ensures TakeNumber(width)(LePut(value, width) + rest) == Some(Parsed(value, rest))
  {
    LeRoundTrip(value, width);
    assert (LePut(value, width) + rest)[..width] == LePut(value, width);
  }

  lemma NumberRead(width: nat, data: Bytes)
    requires TakeNumber(width)(data).Some?
    ensures
      var number := TakeNumber(width)(data).value;
      number.value < Pow256(width) && data == LePut(number.value, width) + number.rest
  {
    LePutLe(data[..width]);
    LeBound(data[..width]);
    assert data == data[..width] + data[width..];
  }

  lemma NumberExact(width: nat)
    ensures Exact(PutNumber(width), FitsWidth(width), TakeNumber(width))
  {
    hide TakeNumber;
    var encode, valid, decode := PutNumber(width), FitsWidth(width), TakeNumber(width);
    forall x: nat, rest | valid(x) ensures decode(encode(x) + rest) == Some(Parsed(x, rest)) {
      NumberWritten(width, x, rest);
    }
    forall data | decode(data).Some?
      ensures valid(decode(data).value.value) && data == encode(decode(data).value.value) + decode(data).value.rest
    {
      NumberRead(width, data);
    }
  }

  lemma PowerOfFour()
    ensures Pow256(1) == 256 && Pow256(4) == WORD && Pow256(8) == LONG
  {
    assert Pow256(2) == 256 * Pow256(1) && Pow256(3) == 256 * Pow256(2) && Pow256(4) == 256 * Pow256(3);
    assert Pow256(5) == 256 * Pow256(4) && Pow256(6) == 256 * Pow256(5) && Pow256(7) == 256 * Pow256(6);
  }

  /** appendBytes. */
  function PutBytes(value: Bytes): Bytes {
    LePut(|value|, 4) + value
  }

  predicate BytesOk(value: Bytes) {
    |value| < WORD
  }

  function TakeBytes(data: Bytes): Option<Parsed<Bytes>> {
    match TakeNumber(4)(data)
    case None => None
    case Some(size) => Take(size.rest, size.value)
  }

  lemma BytesExact()
    ensures Exact(PutBytes, BytesOk, TakeBytes)
  {
    hide TakeNumber;
    PowerOfFour();
    forall x, rest | BytesOk(x) ensures TakeBytes(PutBytes(x) + rest) == Some(Parsed(x, rest)) {
      NumberWritten(4, |x|, x + rest);
      assert PutBytes(x) + rest == LePut(|x|, 4) + (x + rest);
    }
    forall data | TakeBytes(data).Some?
      ensures BytesOk(TakeBytes(data).value.value)
      ensures data == PutBytes(TakeBytes(data).value.value) + TakeBytes(data).value.rest
    {
      NumberRead(4, data);
      var size := TakeNumber(4)(data).value;
      assert size.rest == size.rest[..size.value] + size.rest[size.value..];
    }
  }

  // --- Sequences of fields ---

  /** Two fields, one after the other. */
  function Both<A, B>(first: Decoder<A>, second: Decoder<B>): Decoder<(A, B)> {
    data =>
      match first(data)
      case None => None
      case Some(a) =>
        match second(a.rest)
        case None => None
        case Some(b) => Some(Parsed((a.value, b.value), b.rest))
  }

  function PutBoth<A, B>(first: A -> Bytes, second: B -> Bytes): ((A, B)) -> Bytes {
    (pair: (A, B)) => first(pair.0) + second(pair.1)
  }

  function BothOk<A, B>(first: A -> bool, second: B -> bool): ((A, B)) -> bool {
    (pair: (A, B)) => first(pair.0) && second(pair.1)
  }

  /** Reading two fields, step by step. */
  lemma BothReads<A, B>(first: Decoder<A>, second: Decoder<B>, data: Bytes)
    ensures Both(first, second)(data) ==
      match first(data)
      case None => None
      case Some(a) =>
        match second(a.rest)
        case None => None
        case Some(b) => Some(Parsed((a.value, b.value), b.rest))
  {
  }

  lemma MappedReads<A, B>(decode: Decoder<A>, from: A -> B, data: Bytes)
    ensures Mapped(decode, from)(data) ==
      match decode(data)
      case None => None
      case Some(a) => Some(Parsed(from(a.value), a.rest))
  {
  }

  /** The meaning of a pair of fields, one pair at a time. */
  lemma BothAt<A, B>(encodeA: A -> Bytes, validA: A -> bool, encodeB: B -> Bytes, validB: B -> bool, a: A, b: B)
    ensures PutBoth(encodeA, encodeB)((a, b)) == encodeA(a) + encodeB(b)
    ensures BothOk(validA, validB)((a, b)) <==> validA(a) && validB(b)
  {
  }

  lemma MappedAt<A, B>(encode: A -> Bytes, valid: A -> bool, to: B -> A, b: B)
    ensures PutMapped(encode, to)(b) == encode(to(b))
    ensures MappedOk(valid, to)(b) <==> valid(to(b))
  {
  }

  lemma BothExact<A(!new), B(!new)>(
    encodeA: A -> Bytes, validA: A -> bool, decodeA: Decoder<A>,
    encodeB: B -> Bytes, validB: B -> bool, decodeB: Decoder<B>)
    requires Exact(encodeA, validA, decodeA) && Exact(encodeB, validB, decodeB)
    ensures Exact(PutBoth(encodeA, encodeB), BothOk(validA, validB), Both(decodeA, decodeB))
  {
    var encode, valid, decode := PutBoth(encodeA, encodeB), BothOk(validA, validB), Both(decodeA, decodeB);
    forall x, rest | valid(x) ensures decode(encode(x) + rest) == Some(Parsed(x, rest)) {
      assert encode(x) + rest == encodeA(x.0) + (encodeB(x.1) + rest);
    }
    forall data | decode(data).Some?
      ensures valid(decode(data).value.value) && data == encode(decode(data).value.value) + decode(data).value.rest
    {
      var a := decodeA(data).value;
      var b := decodeB(a.rest).value;
      assert encodeA(a.value) + (encodeB(b.value) + b.rest) == encodeA(a.value) + encodeB(b.value) + b.rest;
    }
  }

  /** A format given by another format of the same fields. */
  function Mapped<A, B>(decode: Decoder<A>, from: A -> B): Decoder<B> {
    data =>
      match decode(data)
      case None => None
      case Some(a) => Some(Parsed(from(a.value), a.rest))
  }

  function PutMapped<A, B>(encode: A -> Bytes, to: B -> A): B -> Bytes {
    (b: B) => encode(to(b))
  }

  function MappedOk<A, B>(valid: A -> bool, to: B -> A): B -> bool {
    (b: B) => valid(to(b))
  }

  lemma MappedExact<A(!new), B(!new)>(
    encode: A -> Bytes, valid: A -> bool, decode: Decoder<A>, from: A -> B, to: B -> A)
    requires Exact(encode, valid, decode)
    requires (forall b :: valid(to(b)) ==> from(to(b)) == b) && (forall a :: valid(a) ==> to(from(a)) == a)
    ensures Exact(PutMapped(encode, to), MappedOk(valid, to), Mapped(decode, from))
  {
  }

  // --- Collections ---

  function EncodeMany<T>(encode: T -> Bytes, xs: seq<T>): Bytes {
    if xs == [] then [] else encode(xs[0]) + EncodeMany(encode, xs[1..])
  }

  function DecodeMany<T>(decode: Decoder<T>, n: nat, data: Bytes): Option<Parsed<seq<T>>> {
    if n == 0 then Some(Parsed([], data))
    else
      match decode(data)
      case None => None
      case Some(first) =>
        match DecodeMany(decode, n - 1, first.rest)
        case None => None
        case Some(others) => Some(Parsed([first.value] + others.value, others.rest))
  }

  lemma {:induction false} ManyRoundTrip<T(!new)>(
    encode: T -> Bytes, valid: T -> bool, decode: Decoder<T>, xs: seq<T>, rest: Bytes)
    requires Exact(encode, valid, decode) && forall i :: 0 <= i < |xs| ==> valid(xs[i])
    ensures DecodeMany(decode, |xs|, EncodeMany(encode, xs) + rest) == Some(Parsed(xs, rest))
    decreases |xs|
  {
    hide Exact;
    if xs == [] {
      assert EncodeMany(encode, xs) + rest == rest;
    } else {
      var others := EncodeMany(encode, xs[1..]) + rest;
      ExactEncoded(encode, valid, decode, xs[0], others);
      ManyRoundTrip(encode, valid, decode, xs[1..], rest);
      assert EncodeMany(encode, xs) + rest == encode(xs[0]) + others;
      assert [xs[0]] + xs[1..] == xs;
    }
  }

  lemma ExactDecoded<T(!new)>(encode: T -> Bytes, valid: T -> bool, decode: Decoder<T>, data: Bytes)
    requires Exact(encode, valid, decode) && decode(data).Some?
    ensures valid(decode(data).value.value) && data == encode(decode(data).value.value) + decode(data).value.rest
  {
  }

  lemma ExactEncoded<T(!new)>(encode: T -> Bytes, valid: T -> bool, decode: Decoder<T>, x: T, rest: Bytes)
    requires Exact(encode, valid, decode) && valid(x)
    ensures decode(encode(x) + rest) == Some(Parsed(x, rest))
  {
  }

  lemma {:induction false} ManyCanonical<T(!new)>(
    encode: T -> Bytes, valid: T -> bool, decode: Decoder<T>, n: nat, data: Bytes)
    requires Exact(encode, valid, decode) && DecodeMany(decode, n, data).Some?
    ensures
      var parsed := DecodeMany(decode, n, data).value;
      && |parsed.value| == n && (forall x :: x in parsed.value ==> valid(x))
      && data == EncodeMany(encode, parsed.value) + parsed.rest
    decreases n
  {
    hide Exact;
    if n > 0 {
      var first := decode(data).value;
      ExactDecoded(encode, valid, decode, data);
      ManyCanonical(encode, valid, decode, n - 1, first.rest);
      var others := DecodeMany(decode, n - 1, first.rest).value;
      var all := [first.value] + others.value;
      assert all[1..] == others.value;
      assert EncodeMany(encode, all) == encode(first.value) + EncodeMany(encode, others.value);
      assert encode(first.value) + (EncodeMany(encode, others.value) + others.rest) == EncodeMany(encode, all) + others.rest;
    }
  }

  /** Every item takes at least `minimum` bytes. */
  ghost predicate Consumes<T(!new)>(decode: Decoder<T>, minimum: nat) {
    forall data :: decode(data).Some? ==> |decode(data).value.rest| + minimum <= |data|
  }

  lemma {:induction false} ManyConsumes<T(!new)>(decode: Decoder<T>, minimum: nat, n: nat, data: Bytes)
    requires Consumes(decode, minimum) && DecodeMany(decode, n, data).Some?
    ensures |DecodeMany(decode, n, data).value.rest| + n * minimum <= |data|
    decreases n
  {
    if n > 0 {
      ManyConsumes(decode, minimum, n - 1, decode(data).value.rest);
      assert n * minimum == (n - 1) * minimum + minimum;
    }
  }

  // --- Counted collections under the three decoders ---

  /** In memory, streamed from a bounded reader, and streamed from a spill file. */
  datatype Mode = Resident | Streamed | Spilled

  /** The check of a collection count against the bytes left (decoder.count, validateEncodedCount). */
  predicate CountOk(mode: Mode, count: nat, minimum: nat, reserve: nat, remaining: nat)
    requires minimum > 0
  {
    match mode
    case Resident => count <= remaining / minimum
    case Streamed => reserve <= remaining && count <= (remaining - reserve) / minimum
    case Spilled => true
  }

  function DecodeCounted<T>(mode: Mode, decode: Decoder<T>, minimum: nat, reserve: nat, data: Bytes): Option<Parsed<seq<T>>>
    requires minimum > 0
  {
    match TakeNumber(4)(data)
    case None => None
    case Some(count) =>
      if !CountOk(mode, count.value, minimum, reserve, |count.rest|) then None
      else DecodeMany(decode, count.value, count.rest)
  }

  function EncodeCounted<T>(encode: T -> Bytes, xs: seq<T>): Bytes {
    LePut(|xs|, 4) + EncodeMany(encode, xs)
  }

  /** A count check never rejects a collection that can be decoded and leaves the reserved bytes. */
  lemma CountCheckRedundant<T(!new)>(mode: Mode, decode: Decoder<T>, minimum: nat, reserve: nat, data: Bytes)
    requires minimum > 0 && Consumes(decode, minimum)
    ensures DecodeCounted(mode, decode, minimum, reserve, data).Some? ==>
      DecodeCounted(mode, decode, minimum, reserve, data) == DecodeCounted(Spilled, decode, minimum, reserve, data)
    ensures
      var plain := DecodeCounted(Spilled, decode, minimum, reserve, data);
      plain.Some? && reserve <= |plain.value.rest| ==> DecodeCounted(mode, decode, minimum, reserve, data) == plain
  {
    var count := TakeNumber(4)(data);
    if count.Some? && DecodeMany(decode, count.value.value, count.value.rest).Some? {
      ManyConsumes(decode, minimum, count.value.value, count.value.rest);
      var rest := DecodeMany(decode, count.value.value, count.value.rest).value.rest;
      var n, remaining := count.value.value, |count.value.rest|;
      DivisionBound(n, minimum, remaining);
      if reserve <= |rest| {
        DivisionBound(n, minimum, remaining - reserve);
      }
    }
  }

  lemma DivisionBound(n: nat, minimum: nat, total: nat)
    requires minimum > 0 && n * minimum <= total
    ensures n <= total / minimum
  {
    var quotient := total / minimum;
    assert total < (quotient + 1) * minimum;
    BelowMultiple(n, quotient + 1, minimum);
  }

  lemma BelowMultiple(a: nat, b: nat, minimum: nat)
    requires a * minimum < b * minimum
    ensures a < b
  {
  }

  lemma CountedRoundTrip<T(!new)>(
    encode: T -> Bytes, valid: T -> bool, decode: Decoder<T>, minimum: nat, xs: seq<T>, rest: Bytes)
    requires minimum > 0 && Exact(encode, valid, decode) && |xs| < WORD && forall i :: 0 <= i < |xs| ==> valid(xs[i])
    ensures DecodeCounted(Spilled, decode, minimum, 0, EncodeCounted(encode, xs) + rest) == Some(Parsed(xs, rest))
  {
    hide Exact, DecodeMany, EncodeMany, TakeNumber;
    PowerOfFour();
    var items := EncodeMany(encode, xs) + rest;
    NumberWritten(4, |xs|, items);
    ManyRoundTrip(encode, valid, decode, xs, rest);
    assert EncodeCounted(encode, xs) + rest == LePut(|xs|, 4) + items;
  }

  lemma CountedCanonical<T(!new)>(encode: T -> Bytes, valid: T -> bool, decode: Decoder<T>, minimum: nat, data: Bytes)
    requires minimum > 0 && Exact(encode, valid, decode) && DecodeCounted(Spilled, decode, minimum, 0, data).Some?
    ensures
      var parsed := DecodeCounted(Spilled, decode, minimum, 0, data).value;
      && |parsed.value| < WORD && (forall x :: x in parsed.value ==> valid(x))
      && data == EncodeCounted(encode, parsed.value) + parsed.rest
  {
    hide Exact, DecodeMany, EncodeMany, TakeNumber;
    PowerOfFour();
    NumberRead(4, data);
    var count := TakeNumber(4)(data).value;
    ManyCanonical(encode, valid, decode, count.value, count.rest);
    var items := DecodeMany(decode, count.value, count.rest).value;
    assert data == LePut(count.value, 4) + (EncodeMany(encode, items.value) + items.rest);
  }

  // --- Counted collections as a format ---

  function PutCounted<T>(encode: T -> Bytes): seq<T> -> Bytes {
    xs => EncodeCounted(encode, xs)
  }

  function CountedOk<T>(valid: T -> bool): seq<T> -> bool {
    (xs: seq<T>) => |xs| < WORD && forall i :: 0 <= i < |xs| ==> valid(xs[i])
  }

  function TakeCounted<T>(mode: Mode, decode: Decoder<T>, minimum: nat, reserve: nat): Decoder<seq<T>>
    requires minimum > 0
  {
    data => DecodeCounted(mode, decode, minimum, reserve, data)
  }

  lemma CountedExact<T(!new)>(encode: T -> Bytes, valid: T -> bool, decode: Decoder<T>, minimum: nat, reserve: nat)
    requires minimum > 0 && Exact(encode, valid, decode)
    ensures Exact(PutCounted(encode), CountedOk(valid), TakeCounted(Spilled, decode, minimum, reserve))
  {
    var take, put, ok := TakeCounted(Spilled, decode, minimum, reserve), PutCounted(encode), CountedOk(valid);
    forall data ensures take(data) == DecodeCounted(Spilled, decode, minimum, 0, data) {
    }
    forall xs, rest | ok(xs) ensures take(put(xs) + rest) == Some(Parsed(xs, rest)) {
      CountedRoundTrip(encode, valid, decode, minimum, xs, rest);
    }
    forall data | take(data).Some?
      ensures ok(take(data).value.value) && data == put(take(data).value.value) + take(data).value.rest
    {
      CountedCanonical(encode, valid, decode, minimum, data);
      var xs := take(data).value.value;
      assert forall i :: 0 <= i < |xs| ==> xs[i] in xs;
    }
  }

  // --- Decoders that agree ---

  ghost predicate Agree<T(!new)>(a: Decoder<T>, b: Decoder<T>) {
    forall data :: a(data) == b(data)
  }

  lemma {:induction false} ManyAgree<T(!new)>(a: Decoder<T>, b: Decoder<T>, n: nat, data: Bytes)
    requires Agree(a, b)
    ensures DecodeMany(a, n, data) == DecodeMany(b, n, data)
    decreases n
  {
    if n > 0 && a(data).Some? {
      ManyAgree(a, b, n - 1, a(data).value.rest);
    }
  }

  /** Items that agree, with or without the count check and nothing reserved. */
  lemma CountedAgree<T(!new)>(mode: Mode, a: Decoder<T>, b: Decoder<T>, minimum: nat)
    requires minimum > 0 && Agree(a, b) && Consumes(a, minimum)
    ensures Agree(TakeCounted(mode, a, minimum, 0), TakeCounted(Spilled, b, minimum, 0))
  {
    forall data ensures DecodeCounted(mode, a, minimum, 0, data) == DecodeCounted(Spilled, b, minimum, 0, data) {
      CountCheckRedundant(mode, a, minimum, 0, data);
      var count := TakeNumber(4)(data);
      if count.Some? {
        ManyAgree(a, b, count.value.value, count.value.rest);
      }
    }
  }

  lemma BothAgree<A(!new), B(!new)>(a: Decoder<A>, a': Decoder<A>, b: Decoder<B>, b': Decoder<B>)
    requires Agree(a, a') && Agree(b, b')
    ensures Agree(Both(a, b), Both(a', b'))
  {
  }

  lemma MappedAgree<A(!new), B(!new)>(a: Decoder<A>, b: Decoder<A>, from: A -> B)
    requires Agree(a, b)
    ensures Agree(Mapped(a, from), Mapped(b, from))
  {
  }

  lemma SelfAgree<T(!new)>(a: Decoder<T>)
    ensures Agree(a, a)
  {
  }

  // --- Smallest encodings ---

  lemma NumberConsumes(width: nat)
    ensures Consumes(TakeNumber(width), width)
  {
  }

  lemma BytesConsume()
    ensures Consumes(TakeBytes, 4)
  {
  }

  lemma CountedConsumes<T(!new)>(mode: Mode, decode: Decoder<T>, minimum: nat, reserve: nat)
    requires minimum > 0 && Consumes(decode, 0)
    ensures Consumes(TakeCounted(mode, decode, minimum, reserve), 4)
  {
    forall data | DecodeCounted(mode, decode, minimum, reserve, data).Some?
      ensures |DecodeCounted(mode, decode, minimum, reserve, data).value.rest| + 4 <= |data|
    {
      var count := TakeNumber(4)(data).value;
      ManyConsumes(decode, 0, count.value, count.rest);
    }
  }

  lemma BothConsume<A(!new), B(!new)>(a: Decoder<A>, b: Decoder<B>, m: nat, n: nat)
    requires Consumes(a, m) && Consumes(b, n)
    ensures Consumes(Both(a, b), m + n)
  {
  }

  lemma MappedConsumes<A(!new), B(!new)>(a: Decoder<A>, from: A -> B, m: nat)
    requires Consumes(a, m)
    ensures Consumes(Mapped(a, from), m)
  {
  }
}
