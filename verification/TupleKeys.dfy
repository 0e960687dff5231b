/** The text keys by which a run of changes is cut into statements with pairwise different rows: every
    datum as its kind, its length in decimal, a colon and its bytes (primaryKeyTupleKey and
    batchDeleteIdentityKey, internal/cdc/applier.go:3287-3299, 4944-4970). */
module TupleKeys {
  import opened Model
  import opened Decimals
  import TransactionCodec

  const COLON: Byte := 58

  function Ascii(digits: string): (bytes: Bytes)
    requires forall i :: 0 <= i < |digits| ==> '0' <= digits[i] <= '9'
    ensures |bytes| == |digits|
    ensures forall i :: 0 <= i < |bytes| ==> bytes[i] == digits[i] as int
  {
    seq(|digits|, i requires 0 <= i < |digits| => digits[i] as int)
  }

  function LengthText(n: nat): Bytes {
    DecimalDigits(n);
    Ascii(Decimal(n))
  }

  /** `lead` separates the kind from the length: a colon for upsert keys, nothing for delete keys. */
  function DatumKey(lead: Bytes, datum: Datum): Bytes {
    [TransactionCodec.KindByte(datum.kind)] + (lead + (LengthText(|datum.data|) + ([COLON] + datum.data)))
  }

  function KeyText(lead: Bytes, datums: seq<Datum>): Bytes {
    if datums == [] then [] else DatumKey(lead, datums[0]) + KeyText(lead, datums[1..])
  }

  lemma LengthTextInjective(m: nat, n: nat)
    requires LengthText(m) == LengthText(n)
    ensures m == n
  {
    DecimalDigits(m);
    DecimalDigits(n);
    var a, b := Decimal(m), Decimal(n);
    forall i | 0 <= i < |a| ensures a[i] == b[i] {
      assert LengthText(m)[i] == a[i] as int && LengthText(n)[i] == b[i] as int;
    }
    assert a == b;
    ValueOfDecimal(m);
    ValueOfDecimal(n);
  }

  lemma NoColon(n: nat)
    ensures COLON !in LengthText(n)
  {
    DecimalDigits(n);
  }

  /** Text before the first colon is determined. */
  lemma SameBeforeColon(a: Bytes, x: Bytes, b: Bytes, y: Bytes)
    requires COLON !in a && COLON !in b && a + ([COLON] + x) == b + ([COLON] + y)
    ensures a == b && x == y
  {
    var s, t := a + ([COLON] + x), b + ([COLON] + y);
    assert s[|a|] == COLON && t[|b|] == COLON;
    assert |a| == |b|;
    assert a == s[..|a|] && b == t[..|b|];
    assert x == s[|a| + 1..] && y == t[|b| + 1..];
  }

  lemma DatumKeyInjective(lead: Bytes, a: Datum, x: Bytes, b: Datum, y: Bytes)
    requires DatumKey(lead, a) + x == DatumKey(lead, b) + y
    ensures a == b && x == y
  {
    KeyParts(lead, a, x);
    KeyParts(lead, b, y);
    hide DatumKey, LengthText;
    NoColon(|a.data|);
    NoColon(|b.data|);
    SameBeforeColon(LengthText(|a.data|), a.data + x, LengthText(|b.data|), b.data + y);
    LengthTextInjective(|a.data|, |b.data|);
    SplitAt(a.data, x, b.data, y);
  }

  lemma KeyParts(lead: Bytes, a: Datum, x: Bytes)
    ensures
      var s := DatumKey(lead, a) + x;
      && |s| > |lead| && s[0] == TransactionCodec.KindByte(a.kind)
      && s[1 + |lead|..] == LengthText(|a.data|) + ([COLON] + (a.data + x))
  {
    hide LengthText;
  }

  lemma SplitAt(a: Bytes, x: Bytes, b: Bytes, y: Bytes)
    requires a + x == b + y && |a| == |b|
    ensures a == b && x == y
  {
    assert a == (a + x)[..|a|] && b == (b + y)[..|b|];
    assert x == (a + x)[|a|..] && y == (b + y)[|b|..];
  }

  lemma EmptyKeyText(lead: Bytes, datums: seq<Datum>)
    requires datums == []
    ensures KeyText(lead, datums) == []
  {
  }

  lemma {:induction false} KeyTextNext(lead: Bytes, datums: seq<Datum>, datum: Datum)
    ensures KeyText(lead, datums + [datum]) == KeyText(lead, datums) + DatumKey(lead, datum)
    decreases |datums|
  {
    if datums == [] {
      assert [datum][1..] == [];
    } else {
      KeyTextNext(lead, datums[1..], datum);
      assert (datums + [datum])[1..] == datums[1..] + [datum];
    }
  }

  /** Equal texts mean equal keys: no two different keys are taken for one. */
  lemma {:induction false} KeyTextIdentifies(lead: Bytes, a: seq<Datum>, b: seq<Datum>)
    requires |a| == |b|
    ensures KeyText(lead, a) == KeyText(lead, b) <==> a == b
    decreases |a|
  {
    if KeyText(lead, a) == KeyText(lead, b) && a != [] {
      DatumKeyInjective(lead, a[0], KeyText(lead, a[1..]), b[0], KeyText(lead, b[1..]));
      KeyTextIdentifies(lead, a[1..], b[1..]);
      assert a == [a[0]] + a[1..] && b == [b[0]] + b[1..];
    }
  }
}
