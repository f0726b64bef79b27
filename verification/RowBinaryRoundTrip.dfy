/**
 Reading RowBinary back. A reader that knows only the column types recovers every cell, up to what
 the column cannot hold, and stops exactly where the cell ends.
 */
module RowBinaryRoundTrip {
  import opened Basics
  import opened Columns
  import opened Wire
  import opened RowBinary
  import DT = DataTypes
  import V = Values
  import Decimals

  // ---- The reader ----

  /** The byte width of a scalar of fixed size. */
  function FixedWidth(t: ScalarType): Option<nat> {
    match t
    case Bool | Int8 | UInt8 => Some(1)
    case Int16 | UInt16 | Date => Some(2)
    case Int32 | UInt32 | Float32 | Timestamp | Ipv4 => Some(4)
    case Int64 | UInt64 | Float64 => Some(8)
    case Uuid | Ipv6 => Some(16)
    case Decimal(p, _) => Some(DecimalWidth(OrElse(p, 38)))
    case _ => None
  }

  function ReadFixed(t: ScalarType, s: seq<byte>): ScalarValue
    requires FixedWidth(t) == Some(|s|)
  {
    SignedWidths();
    FromLittleEndianBound(s);
    match t
    case Bool => V.Bool(s[0] == 1)
    case Int8 => V.Int8(FromSignedBytes(s))
    case Int16 => V.Int16(FromSignedBytes(s))
    case Int32 => V.Int32(FromSignedBytes(s))
    case Int64 => V.Int64(FromSignedBytes(s))
    case UInt8 => V.UInt8(FromLittleEndian(s))
    case UInt16 => V.UInt16(FromLittleEndian(s))
    case UInt32 => V.UInt32(FromLittleEndian(s))
    case UInt64 => V.UInt64(FromLittleEndian(s))
    case Float32 => V.Float32(FromLittleEndian(s))
    case Float64 => V.Float64(FromLittleEndian(s))
    case Date => V.Date(FromLittleEndian(s))
    case Timestamp => V.Timestamp(FromLittleEndian(s) * 1_000_000_000)
    case Uuid => V.Uuid(Reverse(s[..8]) + Reverse(s[8..]))
    case Ipv4 => V.Ipv4(Reverse(s))
    case Ipv6 => V.Ipv6(s)
    case Decimal(_, scale) => V.Decimal(FromSignedBytes(s), OrElse(scale, 0))
  }

  type Read<T> = Option<(T, seq<byte>)>

  function Take(n: nat, s: seq<byte>): Read<seq<byte>> {
    if |s| < n then None else Some((s[..n], s[n..]))
  }

  function ReadPrefixed(s: seq<byte>): Read<seq<byte>> {
    var n := ReadVarUint(s);
    if n.None? then None else Take(n.value.0, n.value.1)
  }

  function ReadScalar(t: ScalarType, s: seq<byte>): Read<ScalarValue> {
    if FixedWidth(t).Some? then
      var r := Take(FixedWidth(t).value, s);
      if r.None? then None else Some((ReadFixed(t, r.value.0), r.value.1))
    else if t.Text? || t.Bytes? || t.Json? then
      var r := ReadPrefixed(s);
      if r.None? then None
      else
        var text := r.value.0;
        Some((if t.Text? then V.Text(text) else if t.Bytes? then V.Bytes(text) else V.Json(text), r.value.1))
    else None
  }

  function LeafWidth(ct: ColumnType): nat
    requires IsLeaf(ct)
  {
    match ct
    case FixedString(n) => n
    case Enum8(_) => 1
    case Enum16(_) => 2
    case Int128 | UInt128 => 16
    case Int256 | UInt256 => 32
    case _ => 0
  }

  /** An enum column stores the ordinal; the name is looked up elsewhere. */
  function ReadLeafBytes(ct: ColumnType, s: seq<byte>): Cell
    requires IsLeaf(ct) && !ct.Scalar? && !ct.AggregateState? && |s| == LeafWidth(ct)
  {
    SignedWidths();
    Width16();
    FromLittleEndianBound(s);
    match ct
    case FixedString(_) => FixedBytes(s)
    case Enum8(_) => EnumCell("", FromSignedBytes(s))
    case Enum16(_) => EnumCell("", FromSignedBytes(s))
    case Int128 => Int128Cell(FromSignedBytes(s))
    case UInt128 => UInt128Cell(FromLittleEndian(s))
    case Int256 => Int256Cell(s)
    case UInt256 => UInt256Cell(s)
  }

  function ReadLeaf(ct: ColumnType, s: seq<byte>): Read<Cell>
    requires IsLeaf(ct)
  {
    if ct.Scalar? then
      var r := ReadScalar(ct.scalar, s);
      if r.None? then None else Some((ScalarCell(r.value.0), r.value.1))
    else if ct.AggregateState? then None
    else
      var r := Take(LeafWidth(ct), s);
      if r.None? then None else Some((ReadLeafBytes(ct, r.value.0), r.value.1))
  }

  function ReadTyped(ct: ColumnType, s: seq<byte>): Read<Cell>
    decreases ct, 1
  {
    if IsLeaf(ct) then ReadLeaf(ct, s)
    else if ct.TupleOf? then
      var r := ReadFields(ct.fields, s);
      if r.None? then None else Some((Fields(r.value.0), r.value.1))
    else
      var n := ReadVarUint(s);
      if n.None? then None
      else
        match ct
        case MapOf(_, _, _, _) =>
          var r := ReadEntries(ct, n.value.0, n.value.1);
          if r.None? then None else Some((Entries(r.value.0), r.value.1))
        case CanonicalArray(element, nullable) =>
          var r := ReadItems(element, nullable, n.value.0, n.value.1);
          if r.None? then None else Some((CanonicalItems(r.value.0), r.value.1))
        case ArrayOf(element, nullable) =>
          var r := ReadItems(element, nullable, n.value.0, n.value.1);
          if r.None? then None else Some((Items(r.value.0), r.value.1))
        case UnknownArray(_) =>
          if n.value.0 == 0 then Some((CanonicalItems([]), n.value.1)) else None
  }

  function ReadNullable(ct: ColumnType, nullable: bool, s: seq<byte>): Read<Cell>
    decreases ct, 2
  {
    if !nullable then ReadTyped(ct, s)
    else if s == [] then None
    else if s[0] == 1 then Some((Null, s[1..]))
    else ReadTyped(ct, s[1..])
  }

  function ReadItems(ct: ColumnType, nullable: bool, n: nat, s: seq<byte>): Read<seq<Cell>>
    decreases ct, 3, n
  {
    if n == 0 then Some(([], s))
    else
      var head := ReadNullable(ct, nullable, s);
      if head.None? then None
      else
        var tail := ReadItems(ct, nullable, n - 1, head.value.1);
        if tail.None? then None else Some(([head.value.0] + tail.value.0, tail.value.1))
  }

  function ReadEntries(ct: ColumnType, n: nat, s: seq<byte>): Read<seq<CellPair>>
    requires ct.MapOf?
    decreases ct, 0, n
  {
    if n == 0 then Some(([], s))
    else
      var key := ReadNullable(ct.key, ct.keyNullable, s);
      if key.None? then None
      else
        var value := ReadNullable(ct.value, ct.valueNullable, key.value.1);
        if value.None? then None
        else
          var tail := ReadEntries(ct, n - 1, value.value.1);
          if tail.None? then None else Some(([CellPair(key.value.0, value.value.0)] + tail.value.0, tail.value.1))
  }

  function ReadFields(fields: seq<ColumnField>, s: seq<byte>): Read<seq<Cell>>
    decreases fields, 0
  {
    if fields == [] then Some(([], s))
    else
      var field := fields[0];
      assert (fields decreases to field);
      var head := ReadNullable(field.columnType, field.nullable, s);
      if head.None? then None
      else
        var tail := ReadFields(fields[1..], head.value.1);
        if tail.None? then None else Some(([head.value.0] + tail.value.0, tail.value.1))
  }

  // ---- What a column keeps of a cell ----

  function StoredScalar(t: ScalarType, v: ScalarValue): ScalarValue {
    match t
    case Timestamp => if v.Timestamp? then V.Timestamp(v.nanos / 1_000_000_000 * 1_000_000_000) else v
    case Json => if v.Text? then V.Json(v.utf8) else v
    case Decimal(_, scale) =>
      var target := OrElse(scale, 0);
      if v.Decimal? then V.Decimal(RoundDown(v.mantissa, v.scale, target), target) else v
    case _ => v
  }

  function Stored(ct: ColumnType, v: Cell): Cell
    decreases ct, v
  {
    match ct
    case Scalar(t) => if v.ScalarCell? then ScalarCell(StoredScalar(t, v.scalar)) else v
    case FixedString(n) => if v.FixedBytes? && |v.bytes| <= n then FixedBytes(v.bytes + seq(n - |v.bytes|, _ => 0)) else v
    case Enum8(_) => if v.EnumCell? then EnumCell("", v.ordinal) else v
    case Enum16(_) => if v.EnumCell? then EnumCell("", v.ordinal) else v
    case CanonicalArray(e, _) => if v.CanonicalItems? then CanonicalItems(StoredItems(e, v.items)) else v
    case ArrayOf(e, _) => if v.Items? then Items(StoredItems(e, v.items)) else v
    case MapOf(_, _, _, _) => if v.Entries? then Entries(StoredEntries(ct, v.entries)) else v
    case TupleOf(fields) => if v.Fields? && |v.cells| == |fields| then Fields(StoredFields(fields, v.cells)) else v
    case _ => v
  }

  function StoredItems(ct: ColumnType, items: seq<Cell>): (r: seq<Cell>)
    decreases ct, items
  {
    if items == [] then [] else [Stored(ct, items[0])] + StoredItems(ct, items[1..])
  }

  function StoredEntries(ct: ColumnType, entries: seq<CellPair>): seq<CellPair>
    requires ct.MapOf?
    decreases ct, entries
  {
    if entries == [] then []
    else [CellPair(Stored(ct.key, entries[0].key), Stored(ct.value, entries[0].value))] + StoredEntries(ct, entries[1..])
  }

  function StoredFields(fields: seq<ColumnField>, cells: seq<Cell>): (r: seq<Cell>)
    requires |fields| == |cells|
    ensures |r| == |cells|
    decreases fields, cells
  {
    if fields == [] then []
    else
      var field := fields[0];
      assert (fields decreases to field);
      [Stored(field.columnType, cells[0])] + StoredFields(fields[1..], cells[1..])
  }

  /** Aggregate states carry no length, so nothing after one can be found. */
  predicate SelfDelimiting(ct: ColumnType)
    decreases ct
  {
    match ct
    case AggregateState(_, _, _) => false
    case CanonicalArray(e, _) => SelfDelimiting(e)
    case ArrayOf(e, _) => SelfDelimiting(e)
    case MapOf(k, v, _, _) => SelfDelimiting(k) && SelfDelimiting(v)
    case TupleOf(fields) => AllSelfDelimiting(fields)
    case _ => true
  }

  predicate AllSelfDelimiting(fields: seq<ColumnField>)
    decreases fields
  {
    fields != [] ==>
      var field := fields[0];
      assert (fields decreases to field);
      SelfDelimiting(field.columnType) && AllSelfDelimiting(fields[1..])
  }

  // ---- Decimals ----

  /** `RoundDown` finds the mantissa whenever there is one. */
  lemma RoundDownExact(a: int, to: int, m: int, s: int)
    requires Decimals.CompareDecimal(a, to, m, s) == Equal
    ensures a == RoundDown(m, s, to)
  {
    assert Ten(0) == 1;
    if s > to {
      var k := Ten(s - to);
      assert a * k == m;
      DivModUnique(Abs(m), k, Abs(a), 0) by {
        assert Abs(m) == Abs(a) * k;
      }
    }
  }

  /**
   A decimal is accepted exactly when the column's scale can express it and the scaled mantissa fits
   the column's width; what is written is that mantissa in two's complement.
   */
  lemma DecimalWritten(precision: Option<u32>, scale: Option<u32>, m: int, s: int, bytes: seq<byte>)
    ensures EncodeDecimal(precision, scale, m, s) == Ok(bytes) <==>
            exists a :: Decimals.CompareDecimal(a, OrElse(scale, 0), m, s) == Equal
                     && FitsSigned(a, DecimalWidth(OrElse(precision, 38)))
                     && bytes == SignedBytes(a, DecimalWidth(OrElse(precision, 38)))
  {
    var to, width := OrElse(scale, 0), DecimalWidth(OrElse(precision, 38));
    var r := RoundDown(m, s, to);
    assert Ten(0) == 1;
    assert s == to ==> r == m && Decimals.CompareDecimal(m, to, m, s) == Equal;
    if EncodeDecimal(precision, scale, m, s) == Ok(bytes) {
      assert Decimals.CompareDecimal(r, to, m, s) == Equal && bytes == SignedBytes(r, width);
    }
    forall a | Decimals.CompareDecimal(a, to, m, s) == Equal && FitsSigned(a, width) && bytes == SignedBytes(a, width)
      ensures EncodeDecimal(precision, scale, m, s) == Ok(bytes)
    {
      RoundDownExact(a, to, m, s);
    }
  }

  // ---- Round trips ----

  lemma ReverseTwice(s: seq<byte>)
    ensures Reverse(Reverse(s)) == s
  {
  }

  lemma SwappedHalves(s: V.Octets16)
    ensures var t := Reverse(s[..8]) + Reverse(s[8..]); Reverse(t[..8]) + Reverse(t[8..]) == s
  {
    var a, b := Reverse(s[..8]), Reverse(s[8..]);
    assert (a + b)[..8] == a && (a + b)[8..] == b;
    ReverseTwice(s[..8]);
    ReverseTwice(s[8..]);
    assert s[..8] + s[8..] == s;
  }

  lemma TakeAppended(s: seq<byte>, rest: seq<byte>)
    ensures Take(|s|, s + rest) == Some((s, rest))
  {
    assert (s + rest)[..|s|] == s && (s + rest)[|s|..] == rest;
  }

  lemma PrefixedRoundTrip(s: seq<byte>, rest: seq<byte>)
    ensures ReadPrefixed(Prefixed(s) + rest) == Some((s, rest))
  {
    assert Prefixed(s) + rest == VarUint(|s|) + (s + rest);
    VarUintRoundTrip(|s|, s + rest);
    TakeAppended(s, rest);
  }

  lemma DecimalRoundTrip(precision: Option<u32>, scale: Option<u32>, m: int, s: int, bytes: seq<byte>)
    requires EncodeDecimal(precision, scale, m, s) == Ok(bytes)
    ensures |bytes| == DecimalWidth(OrElse(precision, 38))
    ensures FromSignedBytes(bytes) == RoundDown(m, s, OrElse(scale, 0))
  {
    var r, width := RoundDown(m, s, OrElse(scale, 0)), DecimalWidth(OrElse(precision, 38));
    assert Ten(0) == 1;
    assert FitsSigned(r, width) && bytes == SignedBytes(r, width);
    SignedRoundTrip(r, width);
  }

  lemma SignedScalarRoundTrip(t: ScalarType, v: ScalarValue, bytes: seq<byte>)
    requires t.Int8? || t.Int16? || t.Int32? || t.Int64?
    requires EncodeScalar(t, v) == Ok(bytes) && FixedWidth(t).Some?
    ensures FixedWidth(t) == Some(|bytes|)
    ensures ReadFixed(t, bytes) == StoredScalar(t, v)
  {
    hide SignedBytes, FromSignedBytes, LittleEndian, FromLittleEndian;
    SignedWidths();
    match t
    case Int8 => SignedRoundTrip(v.int8, 1);
    case Int16 => SignedRoundTrip(v.int16, 2);
    case Int32 => SignedRoundTrip(v.int32, 4);
    case Int64 => SignedRoundTrip(v.int64, 8);
  }

  lemma UnsignedScalarRoundTrip(t: ScalarType, v: ScalarValue, bytes: seq<byte>)
    requires t.UInt8? || t.UInt16? || t.UInt32? || t.UInt64? || t.Float32? || t.Float64? || t.Date? || t.Timestamp?
    requires EncodeScalar(t, v) == Ok(bytes) && FixedWidth(t).Some?
    ensures FixedWidth(t) == Some(|bytes|)
    ensures ReadFixed(t, bytes) == StoredScalar(t, v)
  {
    hide SignedBytes, FromSignedBytes, LittleEndian, FromLittleEndian;
    SignedWidths();
    match t
    case UInt8 => LittleEndianRoundTrip(v.uint8, 1);
    case UInt16 => LittleEndianRoundTrip(v.uint16, 2);
    case UInt32 => LittleEndianRoundTrip(v.uint32, 4);
    case UInt64 => LittleEndianRoundTrip(v.uint64, 8);
    case Float32 => LittleEndianRoundTrip(v.bits32, 4);
    case Float64 => LittleEndianRoundTrip(v.bits64, 8);
    case Date => LittleEndianRoundTrip(v.days, 2);
    case Timestamp => LittleEndianRoundTrip(v.nanos / 1_000_000_000, 4);
  }

  lemma OtherScalarRoundTrip(t: ScalarType, v: ScalarValue, bytes: seq<byte>)
    requires t.Bool? || t.Uuid? || t.Ipv4? || t.Ipv6? || t.Decimal?
    requires EncodeScalar(t, v) == Ok(bytes) && FixedWidth(t).Some?
    ensures FixedWidth(t) == Some(|bytes|)
    ensures ReadFixed(t, bytes) == StoredScalar(t, v)
  {
    hide SignedBytes, FromSignedBytes, LittleEndian, FromLittleEndian, EncodeDecimal, Reverse, RoundDown;
    match t
    case Bool =>
    case Uuid => SwappedHalves(v.uuid);
    case Ipv4 => ReverseTwice(v.ipv4);
    case Ipv6 =>
    case Decimal(p, s) => DecimalRoundTrip(p, s, v.mantissa, v.scale, bytes);
  }

  lemma FixedRoundTrip(t: ScalarType, v: ScalarValue, bytes: seq<byte>)
    requires EncodeScalar(t, v) == Ok(bytes) && FixedWidth(t).Some?
    ensures FixedWidth(t) == Some(|bytes|)
    ensures ReadFixed(t, bytes) == StoredScalar(t, v)
  {
    hide EncodeScalar, ReadFixed, StoredScalar;
    if t.Int8? || t.Int16? || t.Int32? || t.Int64? {
      SignedScalarRoundTrip(t, v, bytes);
    } else if t.Bool? || t.Uuid? || t.Ipv4? || t.Ipv6? || t.Decimal? {
      OtherScalarRoundTrip(t, v, bytes);
    } else {
      UnsignedScalarRoundTrip(t, v, bytes);
    }
  }

  lemma ScalarRoundTrip(t: ScalarType, v: ScalarValue, bytes: seq<byte>, rest: seq<byte>)
    requires EncodeScalar(t, v) == Ok(bytes)
    ensures ReadScalar(t, bytes + rest) == Some((StoredScalar(t, v), rest))
  {
    if FixedWidth(t).Some? {
      FixedRoundTrip(t, v, bytes);
      TakeAppended(bytes, rest);
    } else {
      PrefixedRoundTrip(if v.Text? then v.utf8 else if v.Bytes? then v.bytes else v.json, rest);
    }
  }

  lemma CarrierRoundTrip(ct: ColumnType, v: Cell, bytes: seq<byte>)
    requires IsLeaf(ct) && !ct.Scalar? && !ct.AggregateState? && EncodeLeaf(ct, v) == Ok(bytes)
    ensures |bytes| == LeafWidth(ct)
    ensures ReadLeafBytes(ct, bytes) == Stored(ct, v)
  {
    SignedWidths();
    Width16();
    match ct
    case FixedString(_) =>
    case Enum8(_) => SignedRoundTrip(v.ordinal, 1);
    case Enum16(_) => SignedRoundTrip(v.ordinal, 2);
    case Int128 => SignedRoundTrip(v.int128, 16);
    case UInt128 => LittleEndianRoundTrip(v.uint128, 16);
    case Int256 =>
    case UInt256 =>
  }

  lemma LeafRoundTrip(ct: ColumnType, v: Cell, bytes: seq<byte>, rest: seq<byte>)
    requires IsLeaf(ct) && !ct.AggregateState? && EncodeLeaf(ct, v) == Ok(bytes)
    ensures ReadLeaf(ct, bytes + rest) == Some((Stored(ct, v), rest))
  {
    if ct.Scalar? {
      ScalarRoundTrip(ct.scalar, v.scalar, bytes, rest);
    } else {
      CarrierRoundTrip(ct, v, bytes);
      TakeAppended(bytes, rest);
    }
  }

  lemma {:induction false} TypedRoundTrip(ct: ColumnType, v: Cell, bytes: seq<byte>, rest: seq<byte>)
    requires EncodeTyped(ct, v) == Ok(bytes) && SelfDelimiting(ct)
    ensures ReadTyped(ct, bytes + rest) == Some((Stored(ct, v), rest))
    decreases ct, 1
  {
    hide EncodeLeaf, ReadLeaf;
    if IsLeaf(ct) {
      LeafRoundTrip(ct, v, bytes, rest);
    } else if ct.TupleOf? {
      FieldsRoundTrip(ct.fields, v.cells, bytes, rest);
    } else if ct.UnknownArray? {
      VarUintRoundTrip(0, rest);
    } else if ct.MapOf? {
      var body := EncodeEntries(ct, v.entries).value;
      assert bytes + rest == VarUint(|v.entries|) + (body + rest);
      VarUintRoundTrip(|v.entries|, body + rest);
      EntriesRoundTrip(ct, v.entries, body, rest);
    } else {
      var body := EncodeItems(ct.element, ct.elementNullable, v.items).value;
      assert bytes + rest == VarUint(|v.items|) + (body + rest);
      VarUintRoundTrip(|v.items|, body + rest);
      ItemsRoundTrip(ct.element, ct.elementNullable, v.items, body, rest);
    }
  }

  /**
   Whatever follows, a reader driven by the column type alone gets back the cell that was written and
   the position just after it.
   */
  lemma {:induction false} NullableRoundTrip(ct: ColumnType, nullable: bool, v: Cell, bytes: seq<byte>, rest: seq<byte>)
    requires EncodeNullable(ct, nullable, v) == Ok(bytes) && SelfDelimiting(ct)
    ensures ReadNullable(ct, nullable, bytes + rest) == Some((Stored(ct, v), rest))
    decreases ct, 2
  {
    hide EncodeTyped, ReadTyped;
    if nullable && v.Null? {
      assert (bytes + rest)[1..] == rest;
    } else if nullable {
      var body := EncodeTyped(ct, v).value;
      assert (bytes + rest)[1..] == body + rest;
      TypedRoundTrip(ct, v, body, rest);
    } else {
      TypedRoundTrip(ct, v, bytes, rest);
    }
  }

  lemma {:induction false} ItemsRoundTrip(ct: ColumnType, nullable: bool, items: seq<Cell>, bytes: seq<byte>, rest: seq<byte>)
    requires EncodeItems(ct, nullable, items) == Ok(bytes) && SelfDelimiting(ct)
    ensures ReadItems(ct, nullable, |items|, bytes + rest) == Some((StoredItems(ct, items), rest))
    decreases ct, 3, |items|
  {
    hide EncodeNullable, ReadNullable, Stored;
    if items == [] {
      assert bytes + rest == rest;
    } else {
      var head := EncodeNullable(ct, nullable, items[0]).value;
      var tail := EncodeItems(ct, nullable, items[1..]).value;
      assert bytes + rest == head + (tail + rest);
      NullableRoundTrip(ct, nullable, items[0], head, tail + rest);
      ItemsRoundTrip(ct, nullable, items[1..], tail, rest);
    }
  }

  lemma {:induction false} EntriesRoundTrip(ct: ColumnType, entries: seq<CellPair>, bytes: seq<byte>, rest: seq<byte>)
    requires ct.MapOf? && EncodeEntries(ct, entries) == Ok(bytes) && SelfDelimiting(ct)
    ensures ReadEntries(ct, |entries|, bytes + rest) == Some((StoredEntries(ct, entries), rest))
    decreases ct, 0, |entries|
  {
    hide EncodeNullable, ReadNullable, Stored;
    if entries == [] {
      assert bytes + rest == rest;
    } else {
      var key := EncodeNullable(ct.key, ct.keyNullable, entries[0].key).value;
      var value := EncodeNullable(ct.value, ct.valueNullable, entries[0].value).value;
      var tail := EncodeEntries(ct, entries[1..]).value;
      assert bytes + rest == key + (value + (tail + rest));
      NullableRoundTrip(ct.key, ct.keyNullable, entries[0].key, key, value + (tail + rest));
      NullableRoundTrip(ct.value, ct.valueNullable, entries[0].value, value, tail + rest);
      EntriesRoundTrip(ct, entries[1..], tail, rest);
    }
  }

  lemma {:induction false} FieldsRoundTrip(fields: seq<ColumnField>, cells: seq<Cell>, bytes: seq<byte>, rest: seq<byte>)
    requires |fields| == |cells| && EncodeFields(fields, cells) == Ok(bytes) && AllSelfDelimiting(fields)
    ensures ReadFields(fields, bytes + rest) == Some((StoredFields(fields, cells), rest))
    decreases fields, 0
  {
    hide EncodeNullable, ReadNullable, Stored;
    if fields == [] {
      assert bytes + rest == rest;
    } else {
      var field := fields[0];
      assert (fields decreases to field);
      var head := EncodeNullable(field.columnType, field.nullable, cells[0]).value;
      var tail := EncodeFields(fields[1..], cells[1..]).value;
      assert bytes + rest == head + (tail + rest);
      NullableRoundTrip(field.columnType, field.nullable, cells[0], head, tail + rest);
      FieldsRoundTrip(fields[1..], cells[1..], tail, rest);
    }
  }

  // ---- Batches ----

  function ReadRows(columns: seq<ColumnField>, n: nat, s: seq<byte>): Read<seq<seq<Cell>>> {
    if n == 0 then Some(([], s))
    else
      var head := ReadFields(columns, s);
      if head.None? then None
      else
        var tail := ReadRows(columns, n - 1, head.value.1);
        if tail.None? then None else Some(([head.value.0] + tail.value.0, tail.value.1))
  }

  function StoredRows(columns: seq<ColumnField>, rows: seq<Row>): seq<seq<Cell>> {
    if rows == [] then []
    else [StoredFields(columns, Padded(|columns|, rows[0].values))] + StoredRows(columns, rows[1..])
  }

  /** Rows are concatenated with no separator and all of them come back, in order. */
  lemma {:induction false} RowsRoundTrip(columns: seq<ColumnField>, rows: seq<Row>, bytes: seq<byte>, rest: seq<byte>)
    requires EncodeRows(columns, rows) == Ok(bytes) && AllSelfDelimiting(columns)
    ensures ReadRows(columns, |rows|, bytes + rest) == Some((StoredRows(columns, rows), rest))
  {
    hide EncodeFields, ReadFields, StoredFields;
    if rows == [] {
      assert bytes + rest == rest;
    } else {
      var cells := Padded(|columns|, rows[0].values);
      var head := EncodeFields(columns, cells).value;
      var tail := EncodeRows(columns, rows[1..]).value;
      assert bytes + rest == head + (tail + rest);
      FieldsRoundTrip(columns, cells, head, tail + rest);
      RowsRoundTrip(columns, rows[1..], tail, rest);
    }
  }

  /** Two cells of one column that are written alike are stored alike, whatever follows each. */
  lemma EncodingUnambiguous(ct: ColumnType, nullable: bool, v: Cell, w: Cell, x: seq<byte>, y: seq<byte>)
    requires SelfDelimiting(ct) && EncodeNullable(ct, nullable, v).Ok? && EncodeNullable(ct, nullable, w).Ok?
    requires EncodeNullable(ct, nullable, v).value + x == EncodeNullable(ct, nullable, w).value + y
    ensures Stored(ct, v) == Stored(ct, w) && x == y
  {
    hide EncodeNullable, ReadNullable, Stored;
    NullableRoundTrip(ct, nullable, v, EncodeNullable(ct, nullable, v).value, x);
    NullableRoundTrip(ct, nullable, w, EncodeNullable(ct, nullable, w).value, y);
  }

  /** Not so for aggregate states: the same bytes split in two ways. */
  lemma StatesAmbiguous(name: string, arguments: seq<string>, simple: bool)
    ensures var ct := AggregateState(name, arguments, simple);
            exists v, w, x, y ::
              && EncodeTyped(ct, v).Ok? && EncodeTyped(ct, w).Ok? && Stored(ct, v) != Stored(ct, w)
              && EncodeTyped(ct, v).value + x == EncodeTyped(ct, w).value + y
  {
    var ct := AggregateState(name, arguments, simple);
    var v, w := StateCell(name, [7]), StateCell(name, []);
    assert EncodeTyped(ct, v) == Ok([7]) && EncodeTyped(ct, w) == Ok([]);
    assert EncodeTyped(ct, v).value + [] == EncodeTyped(ct, w).value + [7];
  }

  // ---- Which cells are written ----

  /** The number has a mantissa at the column's scale, and it fits the column's width. */
  ghost predicate DecimalFits(precision: Option<u32>, scale: Option<u32>, m: int, s: int) {
    exists a :: Decimals.CompareDecimal(a, OrElse(scale, 0), m, s) == Equal
             && FitsSigned(a, DecimalWidth(OrElse(precision, 38)))
  }

  /** The value is of the variant the column is for; JSON columns also take text. */
  predicate SameScalarKind(t: ScalarType, v: ScalarValue) {
    match v
    case Bool(_) => t.Bool?
    case Int8(_) => t.Int8?
    case Int16(_) => t.Int16?
    case Int32(_) => t.Int32?
    case Int64(_) => t.Int64?
    case UInt8(_) => t.UInt8?
    case UInt16(_) => t.UInt16?
    case UInt32(_) => t.UInt32?
    case UInt64(_) => t.UInt64?
    case Float32(_) => t.Float32?
    case Float64(_) => t.Float64?
    case Text(_) => t.Text? || t.Json?
    case Bytes(_) => t.Bytes?
    case Date(_) => t.Date?
    case Timestamp(_) => t.Timestamp?
    case Uuid(_) => t.Uuid?
    case Ipv4(_) => t.Ipv4?
    case Ipv6(_) => t.Ipv6?
    case Json(_) => t.Json?
    case Decimal(_, _) => t.Decimal?
    case _ => false
  }

  ghost predicate StorableScalar(t: ScalarType, v: ScalarValue) {
    && SameScalarKind(t, v)
    && (v.Date? ==> 0 <= v.days <= 65535)
    && (v.Timestamp? ==> 0 <= v.nanos < 0x1_0000_0000 * 1_000_000_000)
    && (v.Decimal? ==> DecimalFits(t.precision, t.scale, v.mantissa, v.scale))
  }

  /** The cell has the column's shape and every part of it is in range. */
  ghost predicate Storable(ct: ColumnType, nullable: bool, v: Cell)
    decreases ct
  {
    match v
    case Null => nullable
    case ScalarCell(x) => ct.Scalar? && StorableScalar(ct.scalar, x)
    case FixedBytes(s) => ct.FixedString? && |s| <= ct.size
    case EnumCell(_, ordinal) => ct.Enum16? || (ct.Enum8? && -128 <= ordinal <= 127)
    case Int128Cell(_) => ct.Int128?
    case UInt128Cell(_) => ct.UInt128?
    case Int256Cell(_) => ct.Int256?
    case UInt256Cell(_) => ct.UInt256?
    case StateCell(f, _) => ct.AggregateState? && SnakeCase(f) == SnakeCase(ct.function_)
    case CanonicalItems(items) =>
      || (ct.UnknownArray? && items == [])
      || (ct.CanonicalArray? && forall i :: 0 <= i < |items| ==> Storable(ct.element, ct.elementNullable, items[i]))
    case Items(items) =>
      ct.ArrayOf? && forall i :: 0 <= i < |items| ==> Storable(ct.element, ct.elementNullable, items[i])
    case Entries(entries) =>
      && ct.MapOf?
      && forall i :: 0 <= i < |entries| ==>
           && Storable(ct.key, ct.keyNullable, entries[i].key)
           && Storable(ct.value, ct.valueNullable, entries[i].value)
    case Fields(cells) =>
      && ct.TupleOf? && |cells| == |ct.fields|
      && forall i :: 0 <= i < |cells| ==> Storable(ct.fields[i].columnType, ct.fields[i].nullable, cells[i])
  }

  lemma DecimalStorable(precision: Option<u32>, scale: Option<u32>, m: int, s: int)
    ensures EncodeDecimal(precision, scale, m, s).Ok? <==> DecimalFits(precision, scale, m, s)
  {
    var width := DecimalWidth(OrElse(precision, 38));
    if EncodeDecimal(precision, scale, m, s).Ok? {
      DecimalWritten(precision, scale, m, s, EncodeDecimal(precision, scale, m, s).value);
    }
    if DecimalFits(precision, scale, m, s) {
      var a :| Decimals.CompareDecimal(a, OrElse(scale, 0), m, s) == Equal && FitsSigned(a, width);
      DecimalWritten(precision, scale, m, s, SignedBytes(a, width));
    }
  }

  lemma ScalarWritten(t: ScalarType, v: ScalarValue)
    ensures EncodeScalar(t, v).Ok? <==> StorableScalar(t, v)
  {
    hide SignedBytes, LittleEndian, EncodeDecimal, Prefixed, Reverse, DecimalFits;
    if t.Decimal? && v.Decimal? {
      DecimalStorable(t.precision, t.scale, v.mantissa, v.scale);
    }
  }

  lemma LeafWritten(ct: ColumnType, nullable: bool, v: Cell)
    requires IsLeaf(ct) && !v.Null?
    ensures EncodeLeaf(ct, v).Ok? <==> Storable(ct, nullable, v)
  {
    if ct.Scalar? && v.ScalarCell? {
      ScalarWritten(ct.scalar, v.scalar);
    }
  }

  /** A cell is written if and only if its column can store it. */
  lemma {:induction false} WrittenIffStorable(ct: ColumnType, nullable: bool, v: Cell)
    ensures EncodeNullable(ct, nullable, v).Ok? <==> Storable(ct, nullable, v)
    decreases ct, 2
  {
    hide EncodeLeaf;
    if v.Null? {
    } else if IsLeaf(ct) {
      LeafWritten(ct, nullable, v);
    } else if ct.TupleOf? && v.Fields? && |v.cells| == |ct.fields| {
      FieldsWritten(ct.fields, v.cells);
    } else if ct.MapOf? && v.Entries? {
      EntriesWritten(ct, v.entries);
    } else if (ct.CanonicalArray? && v.CanonicalItems?) || (ct.ArrayOf? && v.Items?) {
      ItemsWritten(ct.element, ct.elementNullable, v.items);
    }
  }

  lemma {:induction false} ItemsWritten(ct: ColumnType, nullable: bool, items: seq<Cell>)
    ensures EncodeItems(ct, nullable, items).Ok? <==> forall i :: 0 <= i < |items| ==> Storable(ct, nullable, items[i])
    decreases ct, 3, |items|
  {
    hide EncodeNullable, Storable;
    if items == [] {
    } else {
      WrittenIffStorable(ct, nullable, items[0]);
      ItemsWritten(ct, nullable, items[1..]);
      assert forall i :: 0 < i < |items| ==> items[i] == items[1..][i - 1];
    }
  }

  lemma {:induction false} EntriesWritten(ct: ColumnType, entries: seq<CellPair>)
    requires ct.MapOf?
    ensures EncodeEntries(ct, entries).Ok? <==>
            forall i :: 0 <= i < |entries| ==>
              && Storable(ct.key, ct.keyNullable, entries[i].key)
              && Storable(ct.value, ct.valueNullable, entries[i].value)
    decreases ct, 0, |entries|
  {
    hide EncodeNullable, Storable;
    if entries == [] {
    } else {
      WrittenIffStorable(ct.key, ct.keyNullable, entries[0].key);
      WrittenIffStorable(ct.value, ct.valueNullable, entries[0].value);
      EntriesWritten(ct, entries[1..]);
      assert forall i :: 0 < i < |entries| ==> entries[i] == entries[1..][i - 1];
    }
  }

  lemma {:induction false} FieldsWritten(fields: seq<ColumnField>, cells: seq<Cell>)
    requires |fields| == |cells|
    ensures EncodeFields(fields, cells).Ok? <==>
            forall i :: 0 <= i < |cells| ==> Storable(fields[i].columnType, fields[i].nullable, cells[i])
    decreases fields, 0
  {
    hide EncodeNullable, Storable;
    if fields == [] {
    } else {
      var field := fields[0];
      assert (fields decreases to field);
      WrittenIffStorable(field.columnType, field.nullable, cells[0]);
      FieldsWritten(fields[1..], cells[1..]);
      assert forall i :: 0 < i < |cells| ==> cells[i] == cells[1..][i - 1] && fields[i] == fields[1..][i - 1];
    }
  }
}
