/** A column of values as one array literal parameter (arrayParamForColumn,
    internal/cdc/applier.go:2073-2142), against the input syntax of section 8.15.6 of the PostgreSQL
    documentation. */
module ArrayLiterals {
  import opened Wrappers
  import opened Model
  import opened TextCopy
  import Frames

  const QUOTE: Byte := 34
  const COMMA: Byte := 44
  const OPEN_BRACE: Byte := 123
  const CLOSE_BRACE: Byte := 125
  const NULL_TEXT: Bytes := [78, 85, 76, 76]

  // --- Writing ---

  function QuotedByte(b: Byte): (q: Bytes)
    ensures q != []
  {
    if b == BACKSLASH || b == QUOTE then [BACKSLASH, b] else [b]
  }

  function Quoted(value: Bytes): Bytes {
    if value == [] then [] else QuotedByte(value[0]) + Quoted(value[1..])
  }

  function ElementText(field: Field): Bytes {
    match field
    case None => NULL_TEXT
    case Some(value) => [QUOTE] + (Quoted(value) + [QUOTE])
  }

  /** The elements after the first, each after a comma. */
  function MoreElements(fields: seq<Field>): Bytes {
    if fields == [] then [] else [COMMA] + (ElementText(fields[0]) + MoreElements(fields[1..]))
  }

  function ArrayText(fields: seq<Field>): Bytes
    requires fields != []
  {
    [OPEN_BRACE] + (ElementText(fields[0]) + (MoreElements(fields[1..]) + [CLOSE_BRACE]))
  }

  // --- Reading ---

  /** A quoted value up to its closing quote; a backslash takes the next byte as it is. */
  function ReadQuoted(s: Bytes): Option<(Bytes, Bytes)> {
    if s == [] then None
    else if s[0] == QUOTE then Some(([], s[1..]))
    else
      var n := if s[0] == BACKSLASH then 2 else 1;
      if |s| < n then None
      else
        match ReadQuoted(s[n..])
        case None => None
        case Some(read) => Some(([s[n - 1]] + read.0, read.1))
  }

  /** An unquoted token up to the next delimiter; quotes, braces and escapes in it are not read here. */
  function ReadToken(s: Bytes): Option<(Bytes, Bytes)> {
    if s == [] || s[0] == QUOTE || s[0] == BACKSLASH || s[0] == OPEN_BRACE then None
    else if s[0] == COMMA || s[0] == CLOSE_BRACE then Some(([], s))
    else
      match ReadToken(s[1..])
      case None => None
      case Some(read) => Some(([s[0]] + read.0, read.1))
  }

  function UpperByte(b: Byte): Byte {
    if 97 <= b <= 122 then b - 32 else b
  }

  /** The unquoted word NULL, in any case. */
  predicate IsNull(token: Bytes) {
    |token| == 4 && forall i :: 0 <= i < 4 ==> UpperByte(token[i]) == NULL_TEXT[i]
  }

  function ReadElement(s: Bytes): Option<(Field, Bytes)> {
    if s != [] && s[0] == QUOTE then
      match ReadQuoted(s[1..])
      case None => None
      case Some(read) => Some((Some(read.0), read.1))
    else
      match ReadToken(s)
      case None => None
      case Some(read) =>
        if read.0 == [] then None
        else if IsNull(read.0) then Some((None, read.1))
        else Some((Some(read.0), read.1))
  }

  function ReadElements(s: Bytes): Option<seq<Field>>
    decreases |s|
  {
    match ReadElement(s)
    case None => None
    case Some(read) =>
      if read.1 == [CLOSE_BRACE] then Some([read.0])
      else if read.1 == [] || read.1[0] != COMMA || |read.1| > |s| then None
      else
        match ReadElements(read.1[1..])
        case None => None
        case Some(more) => Some([read.0] + more)
  }

  function ReadArray(s: Bytes): Option<seq<Field>> {
    if s == [OPEN_BRACE, CLOSE_BRACE] then Some([])
    else if s == [] || s[0] != OPEN_BRACE then None
    else ReadElements(s[1..])
  }

  // --- Reading back ---

  lemma ReadQuotedByte(b: Byte, rest: Bytes)
    requires ReadQuoted(rest).Some?
    ensures ReadQuoted(QuotedByte(b) + rest) == Some(([b] + ReadQuoted(rest).value.0, ReadQuoted(rest).value.1))
  {
    var first := QuotedByte(b);
    var s := first + rest;
    assert s[0] == first[0] && s[|first|..] == rest && s[|first| - 1] == b;
  }

  lemma {:induction false} QuotedReadBack(value: Bytes, tail: Bytes)
    ensures ReadQuoted(Quoted(value) + ([QUOTE] + tail)) == Some((value, tail))
    decreases |value|
  {
    if value == [] {
      var s := Quoted(value) + ([QUOTE] + tail);
      assert s == [QUOTE] + tail && s[1..] == tail;
    } else {
      assert Quoted(value) == QuotedByte(value[0]) + Quoted(value[1..]);
      QuotedReadBack(value[1..], tail);
      hide QuotedByte, ReadQuoted, Quoted;
      ReadQuotedByte(value[0], Quoted(value[1..]) + ([QUOTE] + tail));
      Frames.Assoc(QuotedByte(value[0]), Quoted(value[1..]), [QUOTE] + tail);
      assert value == [value[0]] + value[1..];
    }
  }

  lemma {:induction false} TokenReadBack(token: Bytes, tail: Bytes)
    requires tail != [] && (tail[0] == COMMA || tail[0] == CLOSE_BRACE)
    requires forall i :: 0 <= i < |token| ==> 65 <= token[i] <= 90
    ensures ReadToken(token + tail) == Some((token, tail))
    decreases |token|
  {
    if token == [] {
      assert token + tail == tail;
    } else {
      TokenReadBack(token[1..], tail);
      assert (token + tail)[1..] == token[1..] + tail && (token + tail)[0] == token[0];
      assert [token[0]] + token[1..] == token;
    }
  }

  lemma NullReadBack(tail: Bytes)
    requires tail != [] && (tail[0] == COMMA || tail[0] == CLOSE_BRACE)
    ensures ReadElement(NULL_TEXT + tail) == Some((None, tail))
  {
    TokenReadBack(NULL_TEXT, tail);
    assert (NULL_TEXT + tail)[0] == NULL_TEXT[0];
  }

  /** Whatever bytes a value holds, even the word NULL, it is read back as itself and not as NULL. */
  lemma ElementReadBack(field: Field, tail: Bytes)
    requires tail != [] && (tail[0] == COMMA || tail[0] == CLOSE_BRACE)
    ensures ReadElement(ElementText(field) + tail) == Some((field, tail))
  {
    match field {
      case None => {
        NullReadBack(tail);
      }
      case Some(value) => {
        QuotedReadBack(value, tail);
        hide ReadQuoted, Quoted;
        Frames.Assoc([QUOTE], Quoted(value) + [QUOTE], tail);
        Frames.Assoc(Quoted(value), [QUOTE], tail);
        var s := ElementText(field) + tail;
        assert s[0] == QUOTE && s[1..] == Quoted(value) + ([QUOTE] + tail);
      }
    }
  }

  lemma {:induction false} ElementsReadBack(first: Field, rest: seq<Field>)
    ensures ReadElements(ElementText(first) + (MoreElements(rest) + [CLOSE_BRACE])) == Some([first] + rest)
    decreases |rest|
  {
    var tail := MoreElements(rest) + [CLOSE_BRACE];
    if rest == [] {
      assert tail == [CLOSE_BRACE];
      ElementReadBack(first, tail);
      assert [first] + rest == [first];
    } else {
      var next := ElementText(rest[0]) + (MoreElements(rest[1..]) + [CLOSE_BRACE]);
      assert MoreElements(rest) == [COMMA] + (ElementText(rest[0]) + MoreElements(rest[1..]));
      ElementsReadBack(rest[0], rest[1..]);
      hide ReadElement, ElementText, MoreElements;
      Frames.Assoc([COMMA], ElementText(rest[0]) + MoreElements(rest[1..]), [CLOSE_BRACE]);
      Frames.Assoc(ElementText(rest[0]), MoreElements(rest[1..]), [CLOSE_BRACE]);
      assert tail[0] == COMMA && tail[1..] == next && |tail| > 1;
      ElementReadBack(first, tail);
      assert rest == [rest[0]] + rest[1..];
    }
  }

  /** PostgreSQL reads an array literal back as the values it was written from, NULLs included. */
  lemma ArrayReadBack(fields: seq<Field>)
    requires fields != []
    ensures ReadArray(ArrayText(fields)) == Some(fields)
  {
    ElementsReadBack(fields[0], fields[1..]);
    var s := ArrayText(fields);
    assert s[1..] == ElementText(fields[0]) + (MoreElements(fields[1..]) + [CLOSE_BRACE]);
    assert fields == [fields[0]] + fields[1..];
    assert s != [OPEN_BRACE, CLOSE_BRACE] by {
      assert s[1] == ElementText(fields[0])[0];
    }
  }

  // --- The writer ---

  lemma {:induction false} MoreElementsLast(fields: seq<Field>, field: Field)
    ensures MoreElements(fields + [field]) == MoreElements(fields) + ([COMMA] + ElementText(field))
    decreases |fields|
  {
    hide ElementText;
    if fields == [] {
      assert [field][1..] == [] && [] + [field] == [field];
      assert MoreElements([field]) == [COMMA] + (ElementText(field) + []);
      assert [COMMA] + (ElementText(field) + []) == [COMMA] + ElementText(field);
    } else {
      var first, rest := fields[0], fields[1..];
      MoreElementsLast(rest, field);
      assert (fields + [field])[1..] == rest + [field] && (fields + [field])[0] == first;
      hide MoreElements;
      Frames.Assoc(ElementText(first), MoreElements(rest), [COMMA] + ElementText(field));
      Frames.Assoc([COMMA], ElementText(first) + MoreElements(rest), [COMMA] + ElementText(field));
    }
  }

  method AppendElement(dst: Bytes, datum: Datum) returns (data: Bytes)
    ensures data == dst + ElementText(FieldOf(datum))
  {
    if datum.kind == DatumNull {
      return dst + NULL_TEXT;
    }
    var start := dst + [QUOTE];
    data := start;
    for i := 0 to |datum.data|
      invariant data + Quoted(datum.data[i..]) == start + Quoted(datum.data)
    {
      var value := datum.data[i];
      assert datum.data[i..][0] == value && datum.data[i..][1..] == datum.data[i + 1..];
      Frames.Assoc(data, QuotedByte(value), Quoted(datum.data[i + 1..]));
      if value == BACKSLASH || value == QUOTE {
        Frames.Assoc(data, [BACKSLASH], [value]);
        assert [BACKSLASH] + [value] == [BACKSLASH, value];
        data := data + [BACKSLASH];
      }
      data := data + [value];
    }
    assert datum.data[|datum.data|..] == [];
    Frames.Assoc(dst, [QUOTE], Quoted(datum.data));
    Frames.Assoc(dst, [QUOTE] + Quoted(datum.data), [QUOTE]);
    Frames.Assoc([QUOTE], Quoted(datum.data), [QUOTE]);
    data := data + [QUOTE];
  }

  /** The text form of arrayParamForColumn, for at least one value. */
  method ArrayParam(datums: seq<Datum>) returns (data: Bytes)
    requires datums != []
    ensures data == ArrayText(FieldsOf(datums))
    ensures ReadArray(data) == Some(FieldsOf(datums))
  {
    hide ElementText, ReadArray;
    var fields := FieldsOf(datums);
    var start := [OPEN_BRACE];
    data := AppendElement(start, datums[0]);
    ghost var first := data;
    assert first == start + ElementText(fields[0]);
    for i := 1 to |datums|
      invariant data == first + MoreElements(fields[1..i])
    {
      MoreElementsLast(fields[1..i], fields[i]);
      assert fields[1..i + 1] == fields[1..i] + [fields[i]];
      Frames.Assoc(first, MoreElements(fields[1..i]), [COMMA] + ElementText(fields[i]));
      Frames.Assoc(data, [COMMA], ElementText(fields[i]));
      data := data + [COMMA];
      data := AppendElement(data, datums[i]);
    }
    assert fields[1..|datums|] == fields[1..];
    Frames.Assoc(first, MoreElements(fields[1..]), [CLOSE_BRACE]);
    Frames.Assoc(start, ElementText(fields[0]), MoreElements(fields[1..]) + [CLOSE_BRACE]);
    data := data + [CLOSE_BRACE];
    ArrayReadBack(fields);
  }
}
