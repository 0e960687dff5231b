/** Staged rows in the text format of COPY (textCopyStageData and appendTextCopyValue,
    internal/cdc/applier.go:2755-2813), against the reading rules of the PostgreSQL documentation ('COPY',
    File Formats, Text Format). */
module TextCopy {
  import opened Wrappers
  import opened Model
  import opened Catalog
  import opened Decimals
  import Frames
  import opened TupleKeys

  const TAB: Byte := 9
  const NEWLINE: Byte := 10
  const CARRIAGE_RETURN: Byte := 13
  const BACKSLASH: Byte := 92
  const CAPITAL_N: Byte := 78

  /** NULL or a text value. */
  type Field = Option<Bytes>

  // --- Writing ---

  function EscapeByte(b: Byte): (e: Bytes)
    ensures e != []
  {
    match b
    case 92 => [BACKSLASH, 92]
    case 9 => [BACKSLASH, 116]
    case 10 => [BACKSLASH, 110]
    case 13 => [BACKSLASH, 114]
    case 8 => [BACKSLASH, 98]
    case 12 => [BACKSLASH, 102]
    case 11 => [BACKSLASH, 118]
    case _ => [b]
  }

  function Escape(value: Bytes): Bytes {
    if value == [] then [] else EscapeByte(value[0]) + Escape(value[1..])
  }

  function CellText(field: Field): Bytes {
    match field
    case None => [BACKSLASH, CAPITAL_N]
    case Some(value) => Escape(value)
  }

  /** The fields after the ordinal, each after a tab. */
  function MoreCells(fields: seq<Field>): Bytes {
    if fields == [] then [] else [TAB] + (CellText(fields[0]) + MoreCells(fields[1..]))
  }

  function RowText(ordinal: nat, fields: seq<Field>): Bytes {
    LengthText(ordinal) + (MoreCells(fields) + [NEWLINE])
  }

  /** The rows, with ordinals counted from `first`. */
  function RowsText(first: nat, rows: seq<seq<Field>>): Bytes
    decreases |rows|
  {
    if rows == [] then [] else RowText(first, rows[0]) + RowsText(first + 1, rows[1..])
  }

  // --- Reading ---

  /** The raw bytes up to the next delimiter; a backslash takes the byte after it along. */
  function ReadRaw(s: Bytes): Option<(Bytes, Bytes)> {
    if s == [] || s[0] == CARRIAGE_RETURN then None
    else if s[0] == TAB || s[0] == NEWLINE then Some(([], s))
    else
      var n := if s[0] == BACKSLASH then 2 else 1;
      if |s| < n then None
      else
        match ReadRaw(s[n..])
        case None => None
        case Some(read) => Some((s[..n] + read.0, read.1))
  }

  /** Backslash sequences stand for control characters or for the byte itself. The numeric ones, which
      are never written here, are not read. */
  function Unescape(raw: Bytes): Option<Bytes> {
    if raw == [] then Some([])
    else if raw[0] != BACKSLASH then
      match Unescape(raw[1..])
      case None => None
      case Some(value) => Some([raw[0]] + value)
    else if |raw| == 1 || 48 <= raw[1] <= 57 || raw[1] == 120 then None
    else
      match Unescape(raw[2..])
      case None => None
      case Some(value) =>
        Some([match raw[1]
              case 98 => 8
              case 102 => 12
              case 110 => 10
              case 114 => 13
              case 116 => 9
              case 118 => 11
              case b => b] + value)
  }

  /** A field is NULL if its raw bytes are the null marker, before any unescaping. */
  function ReadField(raw: Bytes): Option<Field> {
    if raw == [BACKSLASH, CAPITAL_N] then Some(None)
    else
      match Unescape(raw)
      case None => None
      case Some(value) => Some(Some(value))
  }

  function ReadRow(s: Bytes): Option<(seq<Field>, Bytes)>
    decreases |s|
  {
    match ReadRaw(s)
    case None => None
    case Some(read) =>
      if |read.1| == 0 || |read.1| > |s| || ReadField(read.0).None? then None
      else if read.1[0] == NEWLINE then Some(([ReadField(read.0).value], read.1[1..]))
      else
        match ReadRow(read.1[1..])
        case None => None
        case Some(more) => Some(([ReadField(read.0).value] + more.0, more.1))
  }

  /** All rows; the end-of-data marker, a line of backslash and period, does not belong to the data. */
  function ReadRows(s: Bytes): Option<seq<seq<Field>>>
    decreases |s|
  {
    if s == [] then Some([])
    else
      match ReadRow(s)
      case None => None
      case Some(read) =>
        if |read.1| >= |s| then None
        else
          match ReadRows(read.1)
          case None => None
          case Some(more) => Some([read.0] + more)
  }

  // --- One field ---

  lemma ReadOne(b: Byte, rest: Bytes)
    requires ReadRaw(rest).Some?
    ensures var read := ReadRaw(rest).value;
            ReadRaw(EscapeByte(b) + rest) == Some((EscapeByte(b) + read.0, read.1))
  {
    var first := EscapeByte(b);
    var s := first + rest;
    assert s[0] == first[0] && s[|first|..] == rest && s[..|first|] == first;
  }

  lemma {:induction false} ReadEscaped(value: Bytes, tail: Bytes)
    requires tail != [] && (tail[0] == TAB || tail[0] == NEWLINE)
    ensures ReadRaw(Escape(value) + tail) == Some((Escape(value), tail))
    decreases |value|
  {
    if value == [] {
      assert Escape(value) + tail == tail;
    } else {
      assert Escape(value) == EscapeByte(value[0]) + Escape(value[1..]);
      ReadEscaped(value[1..], tail);
      hide EscapeByte, ReadRaw, Escape;
      ReadOne(value[0], Escape(value[1..]) + tail);
      Frames.Assoc(EscapeByte(value[0]), Escape(value[1..]), tail);
    }
  }

  lemma UnescapeOne(b: Byte, rest: Bytes)
    requires Unescape(rest).Some?
    ensures Unescape(EscapeByte(b) + rest) == Some([b] + Unescape(rest).value)
  {
    var first := EscapeByte(b);
    var raw := first + rest;
    assert raw[|first|..] == rest && raw[0] == first[0];
    if |first| == 2 {
      assert raw[1] == first[1];
    }
  }

  lemma {:induction false} UnescapeEscaped(value: Bytes)
    ensures Unescape(Escape(value)) == Some(value)
  {
    if value != [] {
      UnescapeEscaped(value[1..]);
      assert Escape(value) == EscapeByte(value[0]) + Escape(value[1..]);
      hide Unescape, Escape, EscapeByte;
      UnescapeOne(value[0], Escape(value[1..]));
      assert value == [value[0]] + value[1..];
    }
  }

  /** Reading a written field gives it back: no text is taken for NULL. */
  lemma FieldReadBack(field: Field, tail: Bytes)
    requires tail != [] && (tail[0] == TAB || tail[0] == NEWLINE)
    ensures ReadRaw(CellText(field) + tail) == Some((CellText(field), tail))
    ensures ReadField(CellText(field)) == Some(field)
  {
    if field.None? {
      var s := CellText(field) + tail;
      assert s[2..] == tail && s[..2] == CellText(field);
      assert ReadRaw(tail) == Some(([], tail));
      assert CellText(field) + [] == CellText(field);
    } else {
      ReadEscaped(field.value, tail);
      UnescapeEscaped(field.value);
      if field.value != [] {
        assert Escape(field.value)[0] == EscapeByte(field.value[0])[0];
        if |EscapeByte(field.value[0])| == 2 {
          assert Escape(field.value)[1] == EscapeByte(field.value[0])[1];
        }
      }
    }
  }

  // --- Rows ---

  /** After a raw field and its delimiter. */
  lemma ReadRowStep(field: Field, delimiter: Byte, next: Bytes)
    requires delimiter == TAB || delimiter == NEWLINE
    ensures ReadRow(CellText(field) + ([delimiter] + next))
            == if delimiter == NEWLINE then Some(([field], next))
               else if ReadRow(next).None? then None
               else Some(([field] + ReadRow(next).value.0, ReadRow(next).value.1))
  {
    FieldReadBack(field, [delimiter] + next);
    assert ([delimiter] + next)[1..] == next;
    hide ReadRaw, ReadField, CellText;
  }

  lemma {:induction false} FieldsReadBack(field: Field, fields: seq<Field>, tail: Bytes)
    ensures ReadRow(CellText(field) + (MoreCells(fields) + ([NEWLINE] + tail))) == Some(([field] + fields, tail))
    decreases |fields|
  {
    if fields == [] {
      ReadRowStep(field, NEWLINE, tail);
      assert [] + ([NEWLINE] + tail) == [NEWLINE] + tail && [field] + fields == [field];
    } else {
      var first, rest := fields[0], fields[1..];
      var next := CellText(first) + (MoreCells(rest) + ([NEWLINE] + tail));
      assert MoreCells(fields) == [TAB] + (CellText(first) + MoreCells(rest));
      FieldsReadBack(first, rest, tail);
      hide ReadRow, CellText, MoreCells;
      ReadRowStep(field, TAB, next);
      Frames.Assoc([TAB], CellText(first) + MoreCells(rest), [NEWLINE] + tail);
      Frames.Assoc(CellText(first), MoreCells(rest), [NEWLINE] + tail);
      assert fields == [first] + rest;
    }
  }

  lemma {:induction false} DigitsUnescaped(digits: Bytes)
    requires forall i :: 0 <= i < |digits| ==> 48 <= digits[i] <= 57
    ensures Escape(digits) == digits
  {
    if digits != [] {
      DigitsUnescaped(digits[1..]);
      assert EscapeByte(digits[0]) == [digits[0]];
    }
  }

  /** The rows with their ordinals, counted from `first`. */
  function Numbered(first: nat, rows: seq<seq<Field>>): seq<seq<Field>>
    decreases |rows|
  {
    if rows == [] then []
    else [[Some(LengthText(first))] + rows[0]] + Numbered(first + 1, rows[1..])
  }

  lemma RowReadBack(ordinal: nat, row: seq<Field>, tail: Bytes)
    ensures ReadRow(RowText(ordinal, row) + tail) == Some(([Some(LengthText(ordinal))] + row, tail))
  {
    var number := Some(LengthText(ordinal));
    DecimalDigits(ordinal);
    DigitsUnescaped(LengthText(ordinal));
    FieldsReadBack(number, row, tail);
    assert CellText(number) == LengthText(ordinal);
    hide ReadRow, MoreCells, LengthText;
    Frames.Assoc(LengthText(ordinal), MoreCells(row) + [NEWLINE], tail);
    Frames.Assoc(MoreCells(row), [NEWLINE], tail);
  }

  lemma RowNotEmpty(ordinal: nat, row: seq<Field>, tail: Bytes)
    ensures |tail| < |RowText(ordinal, row) + tail|
  {
  }

  /** What COPY reads back is the rows as written, in order, with their ordinals, whatever bytes they
      hold. */
  lemma {:induction false} RowsReadBack(first: nat, rows: seq<seq<Field>>)
    ensures ReadRows(RowsText(first, rows)) == Some(Numbered(first, rows))
    decreases |rows|
  {
    if rows != [] {
      RowReadBack(first, rows[0], RowsText(first + 1, rows[1..]));
      RowNotEmpty(first, rows[0], RowsText(first + 1, rows[1..]));
      RowsReadBack(first + 1, rows[1..]);
      hide ReadRow, LengthText, RowText;
    }
  }

  // --- The writer ---

  lemma {:induction false} MoreCellsLast(fields: seq<Field>, field: Field)
    ensures MoreCells(fields + [field]) == MoreCells(fields) + ([TAB] + CellText(field))
    decreases |fields|
  {
    hide CellText;
    if fields == [] {
      assert [field][1..] == [] && [] + [field] == [field];
      assert MoreCells([field]) == [TAB] + (CellText(field) + []);
      assert [TAB] + (CellText(field) + []) == [TAB] + CellText(field);
    } else {
      var first, rest := fields[0], fields[1..];
      MoreCellsLast(rest, field);
      assert (fields + [field])[1..] == rest + [field] && (fields + [field])[0] == first;
      hide MoreCells;
      Frames.Assoc(CellText(first), MoreCells(rest), [TAB] + CellText(field));
      Frames.Assoc([TAB], CellText(first) + MoreCells(rest), [TAB] + CellText(field));
    }
  }

  lemma {:induction false} RowsTextLast(first: nat, rows: seq<seq<Field>>, row: seq<Field>)
    ensures RowsText(first, rows + [row]) == RowsText(first, rows) + RowText(first + |rows|, row)
    decreases |rows|
  {
    hide RowText;
    if rows == [] {
      assert [row][1..] == [] && [] + [row] == [row];
      assert RowsText(first, [row]) == RowText(first, row) + RowsText(first + 1, []);
    } else {
      RowsTextLast(first + 1, rows[1..], row);
      assert (rows + [row])[1..] == rows[1..] + [row] && (rows + [row])[0] == rows[0];
      Frames.Assoc(RowText(first, rows[0]), RowsText(first + 1, rows[1..]), RowText(first + |rows|, row));
    }
  }

  function FieldOf(datum: Datum): Field {
    if datum.kind == DatumNull then None else Some(datum.data)
  }

  function FieldsOf(datums: seq<Datum>): (fields: seq<Field>)
    ensures |fields| == |datums|
  {
    seq(|datums|, i requires 0 <= i < |datums| => FieldOf(datums[i]))
  }

  /** A flat list of values as rows of `width` fields. */
  function Rows(values: seq<Datum>, width: nat, count: nat): (rows: seq<seq<Field>>)
    requires count * width <= |values|
    ensures |rows| == count
  {
    if count == 0 then []
    else
      RowInside(count, width);
      Rows(values, width, count - 1) + [FieldsOf(values[(count - 1) * width..count * width])]
  }

  lemma RowInside(count: nat, width: nat)
    requires count > 0
    ensures 0 <= (count - 1) * width && (count - 1) * width + width == count * width
  {
  }

  lemma RowsBefore(count: nat, total: nat, width: nat)
    requires count <= total
    ensures count * width <= total * width
  {
  }

  method AppendTextCopyValue(dst: Bytes, value: Bytes) returns (data: Bytes)
    ensures data == dst + Escape(value)
  {
    data := dst;
    for i := 0 to |value|
      invariant data + Escape(value[i..]) == dst + Escape(value)
    {
      assert value[i..][0] == value[i] && value[i..][1..] == value[i + 1..];
      Frames.Assoc(data, EscapeByte(value[i]), Escape(value[i + 1..]));
      data := data + EscapeByte(value[i]);
    }
    assert value[|value|..] == [];
  }

  /** One staged row, or `None` for a binary value, or an error for a value its column cannot take. */
  method AppendRow(r: TargetRelation, columns: seq<TargetColumn>, dst: Bytes, ordinal: nat, datums: seq<Datum>)
    returns (result: Result<Option<Bytes>, ReplayError>)
    requires |datums| == |columns|
    ensures result.Failure? ==> exists i :: 0 <= i < |columns| && !ParamOk(r, columns[i], datums[i])
    ensures result == Success(None) ==> exists i :: 0 <= i < |datums| && datums[i].kind == DatumBinary
    ensures result.Success? && result.value.Some? ==>
              && result.value.value == dst + RowText(ordinal, FieldsOf(datums))
              && (forall d :: d in datums ==> d.kind == DatumNull || d.kind == DatumText)
  {
    hide CellText, LengthText, ParamOk;
    var data := dst + LengthText(ordinal);
    ghost var start := data;
    for i := 0 to |columns|
      invariant data == start + MoreCells(FieldsOf(datums[..i]))
      invariant forall k :: 0 <= k < i ==> datums[k].kind == DatumNull || datums[k].kind == DatumText
    {
      var datum := datums[i];
      if !ParamOk(r, columns[i], datum) {
        return Failure(InvalidDatum);
      }
      MoreCellsLast(FieldsOf(datums[..i]), FieldOf(datum));
      assert FieldsOf(datums[..i + 1]) == FieldsOf(datums[..i]) + [FieldOf(datum)];
      Frames.Assoc(start, MoreCells(FieldsOf(datums[..i])), [TAB] + CellText(FieldOf(datum)));
      Frames.Assoc(data, [TAB], CellText(FieldOf(datum)));
      data := data + [TAB];
      match datum.kind {
        case DatumNull => {
          data := data + [BACKSLASH, CAPITAL_N];
          NullCell();
        }
        case DatumText => {
          data := AppendTextCopyValue(data, datum.data);
          TextCell(datum.data);
        }
        case DatumBinary => {
          return Success(None);
        }
        case DatumUnchangedToast => {
          NoToast(r, columns[i], datum);
          assert false;
        }
      }
    }
    assert datums[..|columns|] == datums;
    Frames.Assoc(start, MoreCells(FieldsOf(datums)), [NEWLINE]);
    Frames.Assoc(dst, LengthText(ordinal), MoreCells(FieldsOf(datums)) + [NEWLINE]);
    result := Success(Some(data + [NEWLINE]));
  }

  lemma NullCell()
    ensures CellText(None) == [BACKSLASH, CAPITAL_N]
  {
  }

  lemma TextCell(value: Bytes)
    ensures CellText(Some(value)) == Escape(value)
  {
  }

  lemma NoToast(r: TargetRelation, column: TargetColumn, datum: Datum)
    requires datum.kind == DatumUnchangedToast
    ensures !ParamOk(r, column, datum)
  {
  }

  /** textCopyStageData: the text of all rows, or no text if some value is binary, or an error. */
  method TextCopyStageData(r: TargetRelation, columns: seq<TargetColumn>, values: seq<Datum>, rowCount: nat)
    returns (result: Result<Option<Bytes>, ReplayError>)
    ensures |values| != rowCount * |columns| ==> result.Failure?
    ensures result.Success? && result.value.Some? ==>
              && |values| == rowCount * |columns|
              && result.value.value == RowsText(0, Rows(values, |columns|, rowCount))
              && ReadRows(result.value.value) == Some(Numbered(0, Rows(values, |columns|, rowCount)))
    ensures result == Success(None) ==> exists d :: d in values && d.kind == DatumBinary
  {
    hide RowsText, RowText, ReadRows, ParamOk;
    var width := |columns|;
    if |values| != rowCount * width {
      return Failure(InvalidTuple);
    }
    var data: Bytes := [];
    assert data == RowsText(0, Rows(values, width, 0)) by {
      NoRows();
    }
    for ordinal := 0 to rowCount
      invariant ordinal * width <= |values|
      invariant data == RowsText(0, Rows(values, width, ordinal))
    {
      RowInside(ordinal + 1, width);
      RowsBefore(ordinal + 1, rowCount, width);
      var row := values[ordinal * width..(ordinal + 1) * width];
      var more := AppendRow(r, columns, data, ordinal, row);
      if more.Failure? {
        return Failure(more.error);
      }
      if more.value.None? {
        return Success(None);
      }
      RowsTextLast(0, Rows(values, width, ordinal), FieldsOf(row));
      data := more.value.value;
    }
    RowsReadBack(0, Rows(values, width, rowCount));
    result := Success(Some(data));
  }

  lemma NoRows()
    ensures RowsText(0, []) == []
  {
  }
}
