/** The RowBinary encoder (crates/commons/clickhouse/src/row_binary.rs). */
module RowBinary {
  import opened Basics
  import opened Columns
  import opened Wire
  import DT = DataTypes
  import V = Values
  import Decimals

  datatype EncodeError = Mismatch | OutOfRange | Unsupported | FixedStringLength(n: u32, got: nat)

  type Encoded = Result<seq<byte>, EncodeError>

  // ---- Scalars ----

  function Prefixed(s: seq<byte>): seq<byte> {
    VarUint(|s|) + s
  }

  function Reverse(s: seq<byte>): (r: seq<byte>)
    ensures |r| == |s|
    ensures forall i :: 0 <= i < |s| ==> r[i] == s[|s| - 1 - i]
  {
    if s == [] then [] else Reverse(s[1..]) + [s[0]]
  }

  const NANOS: int := 1_000_000_000

  /** `decimal_width` */
  function DecimalWidth(precision: nat): nat {
    if precision <= 9 then 4
    else if precision <= 18 then 8
    else if precision <= 38 then 16
    else 32
  }

  /** `with_scale_round(_, Down)`: the mantissa at the new scale, cut toward zero. */
  function RoundDown(m: int, s: int, to: int): int {
    if s <= to then Decimals.Rescale(m, s, to)
    else if m >= 0 then m / Ten(s - to)
    else -((-m) / Ten(s - to))
  }

  function OrElse(o: Option<u32>, otherwise: u32): u32 {
    if o.Some? then o.value else otherwise
  }

  /** `encode_decimal` */
  function EncodeDecimal(precision: Option<u32>, scale: Option<u32>, m: int, s: int): Encoded {
    var target := OrElse(scale, 0);
    var width := DecimalWidth(OrElse(precision, 38));
    if s == target then
      if FitsSigned(m, width) then Ok(SignedBytes(m, width)) else Err(OutOfRange)
    else
      var rounded := RoundDown(m, s, target);
      if Decimals.CompareDecimal(rounded, target, m, s) != Equal then Err(OutOfRange)
      else if FitsSigned(rounded, width) then Ok(SignedBytes(rounded, width))
      else Err(OutOfRange)
  }

  /** `encode_typed` on a non-composite type. */
  function EncodeScalar(t: ScalarType, v: ScalarValue): Encoded {
    SignedWidths();
    match t
    case Bool => if v.Bool? then Ok([if v.flag then 1 else 0]) else Err(Mismatch)
    case Int8 => if v.Int8? then Ok(SignedBytes(v.int8, 1)) else Err(Mismatch)
    case Int16 => if v.Int16? then Ok(SignedBytes(v.int16, 2)) else Err(Mismatch)
    case Int32 => if v.Int32? then Ok(SignedBytes(v.int32, 4)) else Err(Mismatch)
    case Int64 => if v.Int64? then Ok(SignedBytes(v.int64, 8)) else Err(Mismatch)
    case UInt8 => if v.UInt8? then Ok(LittleEndian(v.uint8, 1)) else Err(Mismatch)
    case UInt16 => if v.UInt16? then Ok(LittleEndian(v.uint16, 2)) else Err(Mismatch)
    case UInt32 => if v.UInt32? then Ok(LittleEndian(v.uint32, 4)) else Err(Mismatch)
    case UInt64 => if v.UInt64? then Ok(LittleEndian(v.uint64, 8)) else Err(Mismatch)
    case Float32 => if v.Float32? then Ok(LittleEndian(v.bits32, 4)) else Err(Mismatch)
    case Float64 => if v.Float64? then Ok(LittleEndian(v.bits64, 8)) else Err(Mismatch)
    case Text(_) => if v.Text? then Ok(Prefixed(v.utf8)) else Err(Mismatch)
    case Bytes(_) => if v.Bytes? then Ok(Prefixed(v.bytes)) else Err(Mismatch)
    case Date =>
      if !v.Date? then Err(Mismatch)
      else if 0 <= v.days < 0x1_0000 then Ok(LittleEndian(v.days, 2))
      else Err(OutOfRange)
    case Timestamp =>
      if !v.Timestamp? then Err(Mismatch)
      else if 0 <= v.nanos / NANOS < 0x1_0000_0000 then Ok(LittleEndian(v.nanos / NANOS, 4))
      else Err(OutOfRange)
    case Uuid => if v.Uuid? then Ok(Reverse(v.uuid[..8]) + Reverse(v.uuid[8..])) else Err(Mismatch)
    case Json =>
      if v.Json? then Ok(Prefixed(v.json))
      else if v.Text? then Ok(Prefixed(v.utf8))
      else Err(Mismatch)
    case Decimal(p, s) => if v.Decimal? then EncodeDecimal(p, s, v.mantissa, v.scale) else Err(Mismatch)
    case Ipv4 => if v.Ipv4? then Ok(Reverse(v.ipv4)) else Err(Mismatch)
    case Ipv6 => if v.Ipv6? then Ok(v.ipv6) else Err(Mismatch)
    case BigInt(_) => Err(Unsupported)
    case Xml => Err(Unsupported)
    case Object => Err(Unsupported)
    case Union(_) => Err(Unsupported)
    case Interval => Err(Unsupported)
  }

  /** The carriers that hold no other column type. */
  predicate IsLeaf(ct: ColumnType) {
    ct.FixedString? || ct.Enum8? || ct.Enum16? || ct.Int128? || ct.UInt128? || ct.Int256? || ct.UInt256? ||
    ct.AggregateState? || ct.Scalar?
  }

  lemma Width16()
    ensures Bytes256(16) == 0x1_0000_0000_0000_0000_0000_0000_0000_0000
  {
    SignedWidths();
    PowAdd(256, 8, 8);
  }

  function EncodeLeaf(ct: ColumnType, v: Cell): Encoded
    requires IsLeaf(ct)
  {
    match ct
    case Scalar(t) => if v.ScalarCell? then EncodeScalar(t, v.scalar) else Err(Mismatch)
    case FixedString(n) =>
      if !v.FixedBytes? then Err(Mismatch)
      else if |v.bytes| > n then Err(FixedStringLength(n, |v.bytes|))
      else Ok(v.bytes + seq(n - |v.bytes|, _ => 0))
    case Enum8(_) =>
      SignedWidths();
      if !v.EnumCell? then Err(Mismatch)
      else if -0x80 <= v.ordinal < 0x80 then Ok(SignedBytes(v.ordinal, 1))
      else Err(OutOfRange)
    case Enum16(_) =>
      SignedWidths();
      if v.EnumCell? then Ok(SignedBytes(v.ordinal, 2)) else Err(Mismatch)
    case Int128 => Width16(); if v.Int128Cell? then Ok(SignedBytes(v.int128, 16)) else Err(Mismatch)
    case UInt128 => if v.UInt128Cell? then Ok(LittleEndian(v.uint128, 16)) else Err(Mismatch)
    case Int256 => if v.Int256Cell? then Ok(v.le) else Err(Mismatch)
    case UInt256 => if v.UInt256Cell? then Ok(v.le) else Err(Mismatch)
    case AggregateState(f, _, _) =>
      if v.StateCell? && SnakeCase(v.function_) == SnakeCase(f) then Ok(v.bytes) else Err(Mismatch)
  }

  // ---- Composites: the bytes a cell stands for ----

  function Join(a: Encoded, b: Encoded): Encoded {
    if a.Err? then a else if b.Err? then b else Ok(a.value + b.value)
  }

  lemma JoinAssociative(a: Encoded, b: Encoded, c: Encoded)
    ensures Join(Join(a, b), c) == Join(a, Join(b, c))
  {
    if a.Ok? && b.Ok? && c.Ok? {
      assert a.value + b.value + c.value == a.value + (b.value + c.value);
    }
  }

  lemma JoinEmpty(a: Encoded)
    ensures Join(Ok([]), a) == a
  {
    if a.Ok? {
      assert [] + a.value == a.value;
    }
  }

  function EncodeTyped(ct: ColumnType, v: Cell): Encoded
    decreases ct, 1
  {
    if IsLeaf(ct) then EncodeLeaf(ct, v)
    else match ct
    case UnknownArray(_) =>
      if v == CanonicalItems([]) then Ok(VarUint(0)) else Err(Mismatch)
    case CanonicalArray(element, nullable) =>
      if v.CanonicalItems? then Join(Ok(VarUint(|v.items|)), EncodeItems(element, nullable, v.items)) else Err(Mismatch)
    case ArrayOf(element, nullable) =>
      if v.Items? then Join(Ok(VarUint(|v.items|)), EncodeItems(element, nullable, v.items)) else Err(Mismatch)
    case MapOf(_, _, _, _) =>
      if v.Entries? then Join(Ok(VarUint(|v.entries|)), EncodeEntries(ct, v.entries)) else Err(Mismatch)
    case TupleOf(fields) =>
      if v.Fields? && |v.cells| == |fields| then EncodeFields(fields, v.cells) else Err(Mismatch)
  }

  /** `encode_typed_nullable`, and `encode_value` on a column. */
  function EncodeNullable(ct: ColumnType, nullable: bool, v: Cell): Encoded
    decreases ct, 2
  {
    if nullable then
      if v.Null? then Ok([1]) else Join(Ok([0]), EncodeTyped(ct, v))
    else if v.Null? then Err(Mismatch)
    else EncodeTyped(ct, v)
  }

  function EncodeItems(ct: ColumnType, nullable: bool, items: seq<Cell>): Encoded
    decreases ct, 3, |items|
  {
    if items == [] then Ok([])
    else Join(EncodeNullable(ct, nullable, items[0]), EncodeItems(ct, nullable, items[1..]))
  }

  function EncodeEntries(ct: ColumnType, entries: seq<CellPair>): Encoded
    requires ct.MapOf?
    decreases ct, 0, |entries|
  {
    if entries == [] then Ok([])
    else
      Join(Join(EncodeNullable(ct.key, ct.keyNullable, entries[0].key),
                EncodeNullable(ct.value, ct.valueNullable, entries[0].value)),
           EncodeEntries(ct, entries[1..]))
  }

  function EncodeFields(fields: seq<ColumnField>, cells: seq<Cell>): Encoded
    requires |fields| == |cells|
    decreases fields, 0
  {
    if fields == [] then Ok([])
    else
      var field := fields[0];
      assert (fields decreases to field);
      Join(EncodeNullable(field.columnType, field.nullable, cells[0]), EncodeFields(fields[1..], cells[1..]))
  }

  // ---- The encoder ----

  /** After a step that should write `bytes`: they were appended, or its error came back. */
  ghost predicate Wrote(before: seq<byte>, after: seq<byte>, bytes: Encoded, r: Result<(), EncodeError>) {
    && before <= after
    && (bytes.Ok? ==> r.Ok? && after == before + bytes.value)
    && (bytes.Err? ==> r == Err(bytes.error))
  }

  method WriteTyped(out: Buffer, ct: ColumnType, v: Cell) returns (r: Result<(), EncodeError>)
    modifies out
    ensures Wrote(old(out.bytes), out.bytes, EncodeTyped(ct, v), r)
    decreases ct, 1
  {
    hide EncodeLeaf;
    if IsLeaf(ct) {
      var bytes := EncodeLeaf(ct, v);
      if bytes.Err? {
        return Err(bytes.error);
      }
      out.Extend(bytes.value);
      return Ok(());
    }
    match ct
    case UnknownArray(_) =>
      if !v.CanonicalItems? {
        return Err(Mismatch);
      }
      WriteVarUint(out, |v.items|);
      r := if v.items == [] then Ok(()) else Err(Mismatch);
    case CanonicalArray(element, nullable) =>
      if !v.CanonicalItems? {
        return Err(Mismatch);
      }
      WriteVarUint(out, |v.items|);
      r := WriteItems(out, element, nullable, v.items);
    case ArrayOf(element, nullable) =>
      if !v.Items? {
        return Err(Mismatch);
      }
      WriteVarUint(out, |v.items|);
      r := WriteItems(out, element, nullable, v.items);
    case MapOf(_, _, _, _) =>
      if !v.Entries? {
        return Err(Mismatch);
      }
      WriteVarUint(out, |v.entries|);
      r := WriteEntries(out, ct, v.entries);
    case TupleOf(fields) =>
      if !v.Fields? || |v.cells| != |fields| {
        return Err(Mismatch);
      }
      r := WriteFields(out, fields, v.cells);
  }

  /** `encode_typed_nullable` and `encode_value` */
  method WriteNullable(out: Buffer, ct: ColumnType, nullable: bool, v: Cell) returns (r: Result<(), EncodeError>)
    modifies out
    ensures Wrote(old(out.bytes), out.bytes, EncodeNullable(ct, nullable, v), r)
    decreases ct, 2
  {
    hide EncodeTyped;
    if nullable {
      if v.Null? {
        out.Push(1);
        return Ok(());
      }
      out.Push(0);
    } else if v.Null? {
      return Err(Mismatch);
    }
    r := WriteTyped(out, ct, v);
  }

  method WriteItems(out: Buffer, ct: ColumnType, nullable: bool, items: seq<Cell>)
    returns (r: Result<(), EncodeError>)
    modifies out
    ensures Wrote(old(out.bytes), out.bytes, EncodeItems(ct, nullable, items), r)
    decreases ct, 3
  {
    hide EncodeTyped, EncodeLeaf, VarUint;
    ghost var written := [];
    assert items[0..] == items;
    JoinEmpty(EncodeItems(ct, nullable, items));
    for i := 0 to |items|
      invariant out.bytes == old(out.bytes) + written
      invariant EncodeItems(ct, nullable, items) == Join(Ok(written), EncodeItems(ct, nullable, items[i..]))
    {
      ghost var next := EncodeNullable(ct, nullable, items[i]);
      assert items[i..][1..] == items[i + 1..];
      JoinAssociative(Ok(written), next, EncodeItems(ct, nullable, items[i + 1..]));
      var _ :- WriteNullable(out, ct, nullable, items[i]);
      written := written + next.value;
    }
    return Ok(());
  }

  method WriteEntries(out: Buffer, ct: ColumnType, entries: seq<CellPair>) returns (r: Result<(), EncodeError>)
    requires ct.MapOf?
    modifies out
    ensures Wrote(old(out.bytes), out.bytes, EncodeEntries(ct, entries), r)
    decreases ct, 0
  {
    hide EncodeTyped, EncodeLeaf, VarUint;
    ghost var written := [];
    assert entries[0..] == entries;
    JoinEmpty(EncodeEntries(ct, entries));
    for i := 0 to |entries|
      invariant out.bytes == old(out.bytes) + written
      invariant EncodeEntries(ct, entries) == Join(Ok(written), EncodeEntries(ct, entries[i..]))
    {
      ghost var key := EncodeNullable(ct.key, ct.keyNullable, entries[i].key);
      ghost var value := EncodeNullable(ct.value, ct.valueNullable, entries[i].value);
      assert entries[i..][1..] == entries[i + 1..];
      JoinAssociative(Ok(written), Join(key, value), EncodeEntries(ct, entries[i + 1..]));
      var _ :- WriteNullable(out, ct.key, ct.keyNullable, entries[i].key);
      var _ :- WriteNullable(out, ct.value, ct.valueNullable, entries[i].value);
      written := written + (key.value + value.value);
    }
    return Ok(());
  }

  method WriteFields(out: Buffer, fields: seq<ColumnField>, cells: seq<Cell>) returns (r: Result<(), EncodeError>)
    requires |fields| == |cells|
    modifies out
    ensures Wrote(old(out.bytes), out.bytes, EncodeFields(fields, cells), r)
    decreases fields, 0
  {
    hide EncodeTyped, EncodeLeaf, VarUint;
    ghost var written := [];
    assert fields[0..] == fields && cells[0..] == cells;
    JoinEmpty(EncodeFields(fields, cells));
    for i := 0 to |cells|
      invariant out.bytes == old(out.bytes) + written
      invariant EncodeFields(fields, cells) == Join(Ok(written), EncodeFields(fields[i..], cells[i..]))
    {
      var field := fields[i];
      assert (fields decreases to field);
      ghost var next := EncodeNullable(field.columnType, field.nullable, cells[i]);
      assert fields[i..][1..] == fields[i + 1..] && cells[i..][1..] == cells[i + 1..];
      JoinAssociative(Ok(written), next, EncodeFields(fields[i + 1..], cells[i + 1..]));
      var _ :- WriteNullable(out, field.columnType, field.nullable, cells[i]);
      written := written + next.value;
    }
    return Ok(());
  }

  // ---- Batches ----

  datatype Row = Row(upsert: bool, values: seq<Cell>)

  /** One value per column: a missing value is NULL, an extra one is not looked at. */
  function Padded(width: nat, values: seq<Cell>): (r: seq<Cell>)
    ensures |r| == width
  {
    seq(width, i => if 0 <= i < |values| then values[i] else Null)
  }

  function Upserts(rows: seq<Row>): seq<Row> {
    if rows == [] then []
    else (if rows[0].upsert then [rows[0]] else []) + Upserts(rows[1..])
  }

  function EncodeRows(columns: seq<ColumnField>, rows: seq<Row>): Encoded {
    if rows == [] then Ok([])
    else Join(EncodeFields(columns, Padded(|columns|, rows[0].values)), EncodeRows(columns, rows[1..]))
  }

  /** The body of one INSERT (crates/sinks/clickhouse/src/clickhouse_sink.rs): rows that are not upserts are skipped. */
  method WriteBatch(out: Buffer, columns: seq<ColumnField>, rows: seq<Row>)
    returns (r: Result<(), EncodeError>, upserts: nat)
    modifies out
    ensures Wrote(old(out.bytes), out.bytes, EncodeRows(columns, Upserts(rows)), r)
    ensures r.Ok? ==> upserts == |Upserts(rows)|
  {
    hide EncodeFields;
    ghost var written := [];
    upserts := 0;
    assert rows[0..] == rows;
    JoinEmpty(EncodeRows(columns, Upserts(rows)));
    for i := 0 to |rows|
      invariant out.bytes == old(out.bytes) + written
      invariant EncodeRows(columns, Upserts(rows)) == Join(Ok(written), EncodeRows(columns, Upserts(rows[i..])))
      invariant upserts + |Upserts(rows[i..])| == |Upserts(rows)|
    {
      ghost var rest := Upserts(rows[i + 1..]);
      assert rows[i..][1..] == rows[i + 1..];
      if rows[i].upsert {
        upserts := upserts + 1;
        var cells := Padded(|columns|, rows[i].values);
        ghost var next := EncodeFields(columns, cells);
        assert Upserts(rows[i..]) == [rows[i]] + rest && ([rows[i]] + rest)[1..] == rest;
        JoinAssociative(Ok(written), next, EncodeRows(columns, rest));
        r := WriteFields(out, columns, cells);
        if r.Err? {
          return;
        }
        written := written + next.value;
      } else {
        assert Upserts(rows[i..]) == rest;
      }
    }
    r := Ok(());
  }
}
