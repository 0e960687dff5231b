/** The in-memory decoder as it runs: each method takes its field off the front of `data`
    (decoder, internal/cdc/codec.go:380-640). */
module PayloadReader {
  import opened Wrappers
  import opened Model
  import opened Frames
  import opened Codec
  import opened TransactionCodec
  import opened PayloadFormat

  /** A method took what the format says from the front of `before` and left `after`, or it failed and
      so does the format. */
  predicate Took<T(==)>(before: Bytes, format: Option<Parsed<T>>, result: Option<T>, after: Bytes) {
    match format
    case None => result.None?
    case Some(parsed) => result == Some(parsed.value) && after == parsed.rest
  }

  class PayloadDecoder {
    var data: Bytes
    const version: Byte

    constructor (data: Bytes, version: Byte)
      ensures this.data == data && this.version == version
    {
      this.data, this.version := data, version;
    }

    method Take(n: nat) returns (value: Option<Bytes>)
      modifies this
      ensures Took(old(data), Codec.Take(old(data), n), value, data)
    {
      if n > |data| {
        return None;
      }
      value := Some(data[..n]);
      data := data[n..];
    }

    method Number(width: nat) returns (value: Option<nat>)
      modifies this
      ensures Took(old(data), TakeNumber(width)(old(data)), value, data)
    {
      var bytes := Take(width);
      if bytes.None? {
        return None;
      }
      value := Some(Le(bytes.value));
    }

    /** The count of a collection, refused when the items cannot fit what is left. */
    method Count(minimum: nat) returns (value: Option<nat>)
      requires minimum > 0
      modifies this
      ensures
        var number := TakeNumber(4)(old(data));
        if number.None? || number.value.value > |number.value.rest| / minimum then value.None?
        else value == Some(number.value.value) && data == number.value.rest
    {
      value := Number(4);
      if value.None? || value.value > |data| / minimum {
        return None;
      }
    }

    method LengthBytes() returns (value: Option<Bytes>)
      modifies this
      ensures Took(old(data), TakeBytes(old(data)), value, data)
    {
      var size := Number(4);
      if size.None? {
        return None;
      }
      value := Take(size.value);
    }

    method OneDatum() returns (value: Option<Datum>)
      modifies this
      ensures Took(old(data), DecodeDatum(old(data)), value, data)
    {
      hide TakeBytes;
      if |data| == 0 {
        return None;
      }
      var kind := data[0];
      data := data[1..];
      if kind == 0 || kind == 3 {
        return Some(Datum(if kind == 0 then DatumNull else DatumUnchangedToast, []));
      }
      if kind != 1 && kind != 2 {
        return None;
      }
      var bytes := LengthBytes();
      if bytes.None? {
        return None;
      }
      value := Some(Datum(if kind == 1 then DatumText else DatumBinary, bytes.value));
    }

    method OneTuple() returns (value: Option<Option<Tuple>>)
      modifies this
      ensures Took(old(data), DecodeTuple(Resident, old(data)), value, data)
    {
      hide DecodeDatum, TakeNumber;
      if |data| == 0 {
        return None;
      }
      var present := data[0];
      data := data[1..];
      if present == 0 {
        return Some(None);
      }
      if present != 1 {
        return None;
      }
      var count := Count(1);
      if count.None? {
        return None;
      }
      ghost var start := data;
      var tuple: Tuple := [];
      ProgressStart(DecodeDatum, count.value, start);
      for i := 0 to count.value
        invariant Progress(DecodeDatum, count.value, start, tuple, i, data)
      {
        ProgressNext(DecodeDatum, count.value, start, tuple, i, data);
        var datum := OneDatum();
        if datum.None? {
          return None;
        }
        tuple := tuple + [datum.value];
      }
      ProgressEnd(DecodeDatum, count.value, start, tuple, data);
      value := Some(Some(tuple));
    }

    method OneChange() returns (value: Option<Change>)
      modifies this
      ensures Took(old(data), TakeChange(Resident, version)(old(data)), value, data)
    {
      hide DecodeTuple, TakeNumber, Both, Mapped, DecodeHead;
      ChangeReads(version, data);
      var oid := Number(4);
      if oid.None? {
        return None;
      }
      var head := DecodeHead(version, data);
      if head.None? {
        return None;
      }
      data := head.value.rest;
      var before := OneTuple();
      if before.None? {
        return None;
      }
      var after := OneTuple();
      if after.None? {
        return None;
      }
      var h := head.value.value;
      value := Some(Change(oid.value, h.kind, before.value, after.value, h.cascade, h.restart));
    }

    method OneColumn() returns (value: Option<Column>)
      modifies this
      ensures Took(old(data), TakeColumn()(old(data)), value, data)
    {
      hide TakeBytes, TakeNumber, Both, Mapped;
      ColumnReads(data);
      var oid := Number(4);
      if oid.None? {
        return None;
      }
      NumberBelow(data);
      var flags := Number(1);
      if flags.None? {
        return None;
      }
      var name := LengthBytes();
      if name.None? {
        return None;
      }
      value := Some(Column(name.value, oid.value, flags.value));
    }

    method OneRelation() returns (value: Option<Relation>)
      modifies this
      ensures Took(old(data), TakeRelation(Resident)(old(data)), value, data)
    {
      hide TakeBytes, TakeNumber, TakeColumn, Both, Mapped;
      RelationReads(data);
      var oid := Number(4);
      if oid.None? {
        return None;
      }
      NumberBelow(data);
      var identity := Number(1);
      if identity.None? {
        return None;
      }
      var namespace := LengthBytes();
      if namespace.None? {
        return None;
      }
      var name := LengthBytes();
      if name.None? {
        return None;
      }
      var count := Count(9);
      if count.None? {
        return None;
      }
      ghost var start := data;
      var columns: seq<Column> := [];
      ProgressStart(TakeColumn(), count.value, start);
      for i := 0 to count.value
        invariant Progress(TakeColumn(), count.value, start, columns, i, data)
      {
        ProgressNext(TakeColumn(), count.value, start, columns, i, data);
        var column := OneColumn();
        if column.None? {
          return None;
        }
        columns := columns + [column.value];
      }
      ProgressEnd(TakeColumn(), count.value, start, columns, data);
      value := Some(Relation(oid.value, namespace.value, name.value, identity.value, columns));
    }
  }

  /** The fields of a change, one after the other. */
  lemma ChangeReads(version: Byte, data: Bytes)
    ensures TakeChange(Resident, version)(data) ==
      match TakeNumber(4)(data)
      case None => None
      case Some(oid) =>
        match DecodeHead(version, oid.rest)
        case None => None
        case Some(head) =>
          match DecodeTuple(Resident, head.rest)
          case None => None
          case Some(before) =>
            match DecodeTuple(Resident, before.rest)
            case None => None
            case Some(after) =>
              var h := head.value;
              Some(Parsed(Change(oid.value, h.kind, before.value, after.value, h.cascade, h.restart), after.rest))
  {
    hide Both, Mapped, TakeNumber, DecodeHead, DecodeTuple;
    var tuples := Both(TakeTuple(Resident), TakeTuple(Resident));
    MappedReads(TakeChangeFields(Resident, version), ChangeFrom, data);
    BothReads(TakeNumber(4), Both(TakeHead(version), tuples), data);
    if TakeNumber(4)(data).Some? {
      var rest := TakeNumber(4)(data).value.rest;
      BothReads(TakeHead(version), tuples, rest);
      if DecodeHead(version, rest).Some? {
        BothReads(TakeTuple(Resident), TakeTuple(Resident), DecodeHead(version, rest).value.rest);
      }
    }
  }

  lemma ColumnReads(data: Bytes)
    ensures TakeColumn()(data) ==
      match TakeNumber(4)(data)
      case None => None
      case Some(oid) =>
        match TakeNumber(1)(oid.rest)
        case None => None
        case Some(flags) =>
          match TakeBytes(flags.rest)
          case None => None
          case Some(name) =>
            Some(Parsed(Column(name.value, oid.value, if flags.value < 256 then flags.value else 0), name.rest))
  {
    hide Both, Mapped, TakeNumber, TakeBytes;
    MappedReads(TakeColumnFields(), ColumnFrom, data);
    BothReads(TakeNumber(4), Both(TakeNumber(1), TakeBytes), data);
    if TakeNumber(4)(data).Some? {
      BothReads(TakeNumber(1), TakeBytes, TakeNumber(4)(data).value.rest);
    }
  }

  lemma RelationReads(data: Bytes)
    ensures TakeRelation(Resident)(data) ==
      match TakeNumber(4)(data)
      case None => None
      case Some(oid) =>
        match TakeNumber(1)(oid.rest)
        case None => None
        case Some(identity) =>
          match TakeBytes(identity.rest)
          case None => None
          case Some(namespace) =>
            match TakeBytes(namespace.rest)
            case None => None
            case Some(name) =>
              match DecodeCounted(Resident, TakeColumn(), 9, 0, name.rest)
              case None => None
              case Some(columns) =>
                Some(Parsed(
                  Relation(oid.value, namespace.value, name.value, if identity.value < 256 then identity.value else 0,
                           columns.value),
                  columns.rest))
  {
    hide Both, Mapped, TakeNumber, TakeBytes, DecodeCounted, TakeColumn;
    var columns := TakeCounted(Resident, TakeColumn(), 9, 0);
    MappedReads(TakeRelationFields(Resident), RelationFrom, data);
    BothReads(TakeNumber(4), Both(TakeNumber(1), Both(TakeBytes, Both(TakeBytes, columns))), data);
    if TakeNumber(4)(data).Some? {
      var rest := TakeNumber(4)(data).value.rest;
      BothReads(TakeNumber(1), Both(TakeBytes, Both(TakeBytes, columns)), rest);
      if TakeNumber(1)(rest).Some? {
        var rest1 := TakeNumber(1)(rest).value.rest;
        BothReads(TakeBytes, Both(TakeBytes, columns), rest1);
        if TakeBytes(rest1).Some? {
          BothReads(TakeBytes, columns, TakeBytes(rest1).value.rest);
        }
      }
    }
  }

  lemma NumberBelow(data: Bytes)
    ensures TakeNumber(1)(data).Some? ==> TakeNumber(1)(data).value.value < 256
  {
    if TakeNumber(1)(data).Some? {
      NumberRead(1, data);
      PowerOfFour();
    }
  }

  /** After `i` of `n` items the rest still has to be decoded from `rest`. */
  ghost predicate Progress<T(!new)>(decode: Decoder<T>, n: nat, start: Bytes, read: seq<T>, i: nat, rest: Bytes) {
    i <= n && |read| == i &&
    DecodeMany(decode, n, start) ==
      match DecodeMany(decode, n - i, rest)
      case None => None
      case Some(others) => Some(Parsed(read + others.value, others.rest))
  }

  lemma ProgressNext<T(!new)>(decode: Decoder<T>, n: nat, start: Bytes, read: seq<T>, i: nat, rest: Bytes)
    requires Progress(decode, n, start, read, i, rest) && i < n
    ensures decode(rest).None? ==> DecodeMany(decode, n, start).None?
    ensures decode(rest).Some? ==> Progress(decode, n, start, read + [decode(rest).value.value], i + 1, decode(rest).value.rest)
  {
    if decode(rest).Some? {
      var first := decode(rest).value;
      var others := DecodeMany(decode, n - i - 1, first.rest);
      if others.Some? {
        assert read + ([first.value] + others.value.value) == read + [first.value] + others.value.value;
      }
    }
  }

  lemma ProgressStart<T(!new)>(decode: Decoder<T>, n: nat, start: Bytes)
    ensures Progress(decode, n, start, [], 0, start)
  {
    var all := DecodeMany(decode, n, start);
    assert all.Some? ==> [] + all.value.value == all.value.value;
  }

  lemma ProgressEnd<T(!new)>(decode: Decoder<T>, n: nat, start: Bytes, read: seq<T>, rest: Bytes)
    requires Progress(decode, n, start, read, n, rest)
    ensures DecodeMany(decode, n, start) == Some(Parsed(read, rest))
  {
    assert read + [] == read;
  }

  /** The timestamp and the collections of a body. */
  function ReadTail(data: Bytes, version: Byte, commit: nat, end: nat, seconds: nat): Option<Parsed<SourceTransaction>> {
    match TakeNanos()(data)
    case None => None
    case Some(nanos) =>
      match DecodeCounted(Resident, TakeRelation(Resident), 17, 4, nanos.rest)
      case None => None
      case Some(relations) =>
        match DecodeCounted(Resident, TakeChange(Resident, version), 7, 0, relations.rest)
        case None => None
        case Some(changes) =>
          Some(Parsed(SourceTransaction(commit, end, seconds, nanos.value, relations.value, changes.value), changes.rest))
  }

  lemma BodyReads(version: Byte, data: Bytes)
    ensures TakeBody(Resident, version)(data) ==
      match TakeNumber(8)(data)
      case None => None
      case Some(commit) =>
        match TakeNumber(8)(commit.rest)
        case None => None
        case Some(end) =>
          match TakeNumber(8)(end.rest)
          case None => None
          case Some(seconds) => ReadTail(seconds.rest, version, commit.value, end.value, seconds.value)
  {
    hide Both, Mapped, TakeNumber, DecodeCounted, TakeRelation, TakeChange, TakeNanos;
    var contents := TakeContents(Resident, version);
    var d3 := Both(TakeNanos(), contents);
    var d2 := Both(TakeNumber(8), d3);
    var d1 := Both(TakeNumber(8), d2);
    MappedReads(Both(TakeNumber(8), d1), BodyFrom, data);
    BothReads(TakeNumber(8), d1, data);
    if TakeNumber(8)(data).Some? {
      var rest := TakeNumber(8)(data).value.rest;
      BothReads(TakeNumber(8), d2, rest);
      if TakeNumber(8)(rest).Some? {
        var rest2 := TakeNumber(8)(rest).value.rest;
        BothReads(TakeNumber(8), d3, rest2);
        if TakeNumber(8)(rest2).Some? {
          var rest3 := TakeNumber(8)(rest2).value.rest;
          BothReads(TakeNanos(), contents, rest3);
          if TakeNanos()(rest3).Some? {
            BothReads(
              TakeCounted(Resident, TakeRelation(Resident), 17, 4), TakeCounted(Resident, TakeChange(Resident, version), 7, 0),
              TakeNanos()(rest3).value.rest);
          }
        }
      }
    }
  }

  method RelationList(d: PayloadDecoder) returns (value: Option<seq<Relation>>)
    modifies d
    ensures Took(old(d.data), DecodeCounted(Resident, TakeRelation(Resident), 17, 4, old(d.data)), value, d.data)
  {
    hide TakeRelation, TakeNumber;
    var count := d.Count(17);
    if count.None? {
      return None;
    }
    ghost var start := d.data;
    var relations: seq<Relation> := [];
    ProgressStart(TakeRelation(Resident), count.value, start);
    for i := 0 to count.value
      invariant Progress(TakeRelation(Resident), count.value, start, relations, i, d.data)
    {
      ProgressNext(TakeRelation(Resident), count.value, start, relations, i, d.data);
      var relation := d.OneRelation();
      if relation.None? {
        return None;
      }
      relations := relations + [relation.value];
    }
    ProgressEnd(TakeRelation(Resident), count.value, start, relations, d.data);
    value := Some(relations);
  }

  method ChangeList(d: PayloadDecoder) returns (value: Option<seq<Change>>)
    modifies d
    ensures Took(old(d.data), DecodeCounted(Resident, TakeChange(Resident, d.version), 7, 0, old(d.data)), value, d.data)
  {
    hide TakeChange, TakeNumber;
    var count := d.Count(7);
    if count.None? {
      return None;
    }
    ghost var start := d.data;
    var changes: seq<Change> := [];
    ProgressStart(TakeChange(Resident, d.version), count.value, start);
    for i := 0 to count.value
      invariant Progress(TakeChange(Resident, d.version), count.value, start, changes, i, d.data)
    {
      ProgressNext(TakeChange(Resident, d.version), count.value, start, changes, i, d.data);
      var change := d.OneChange();
      if change.None? {
        return None;
      }
      changes := changes + [change.value];
    }
    ProgressEnd(TakeChange(Resident, d.version), count.value, start, changes, d.data);
    value := Some(changes);
  }

  /** UnmarshalTransaction. */
  method UnmarshalTransaction(data: Bytes) returns (result: Option<(Byte, SourceTransaction)>)
    ensures result == DecodePayload(Resident, data)
  {
    hide TakeNumber, DecodeCounted, TakeRelation, TakeChange, TakeBody;
    if |data| > MAX_PAYLOAD || |data| < 5 || data[..4] != MAGIC || data[4] !in {1, 2} {
      return None;
    }
    var version := data[4];
    BodyReads(version, data[5..]);
    var d := new PayloadDecoder(data[5..], version);
    var commit := d.Number(8);
    if commit.None? {
      return None;
    }
    var end := d.Number(8);
    if end.None? {
      return None;
    }
    var seconds := d.Number(8);
    if seconds.None? {
      return None;
    }
    var nanos := d.Number(4);
    if nanos.None? || nanos.value >= NANOS {
      return None;
    }
    var relations := RelationList(d);
    if relations.None? {
      return None;
    }
    var changes := ChangeList(d);
    if changes.None? || |d.data| != 0 {
      return None;
    }
    result := Some((
      version, SourceTransaction(commit.value, end.value, seconds.value, nanos.value, relations.value, changes.value)));
  }
}
