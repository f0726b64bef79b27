/** Which error a cell that cannot be written gets (crates/commons/clickhouse/src/row_binary.rs). */
module RowBinaryErrors {
  import opened Basics
  import opened Columns
  import opened RowBinary
  import opened RowBinaryRoundTrip
  import DT = DataTypes
  import V = Values

  /** Scalar types that no cell can be written to. */
  predicate HasNoForm(t: ScalarType) {
    t.BigInt? || t.Xml? || t.Object? || t.Union? || t.Interval?
  }

  lemma NoFormScalar(t: ScalarType, v: ScalarValue)
    requires HasNoForm(t)
    ensures EncodeScalar(t, v) == Err(Unsupported)
  {
  }

  lemma OtherKindScalar(t: ScalarType, v: ScalarValue)
    requires !HasNoForm(t) && !SameScalarKind(t, v)
    ensures EncodeScalar(t, v) == Err(Mismatch)
  {
  }

  lemma SameKindScalar(t: ScalarType, v: ScalarValue)
    requires SameScalarKind(t, v)
    ensures EncodeScalar(t, v).Err? ==> EncodeScalar(t, v) == Err(OutOfRange)
  {
  }

  /** Unsupported for a type without a form, Mismatch for a value of another kind, OutOfRange for the rest. */
  lemma ScalarErrors(t: ScalarType, v: ScalarValue)
    ensures EncodeScalar(t, v) == Err(Unsupported) <==> HasNoForm(t)
    ensures EncodeScalar(t, v) == Err(Mismatch) <==> !HasNoForm(t) && !SameScalarKind(t, v)
    ensures EncodeScalar(t, v) == Err(OutOfRange) <==> SameScalarKind(t, v) && !StorableScalar(t, v)
  {
    hide EncodeScalar, StorableScalar;
    ScalarWritten(t, v);
    if HasNoForm(t) {
      NoFormScalar(t, v);
    } else if SameScalarKind(t, v) {
      SameKindScalar(t, v);
    } else {
      OtherKindScalar(t, v);
    }
  }

  /** The cell is the carrier the column is for. */
  predicate SameCarrier(ct: ColumnType, v: Cell) {
    match v
    case ScalarCell(_) => ct.Scalar?
    case FixedBytes(_) => ct.FixedString?
    case EnumCell(_, _) => ct.Enum8? || ct.Enum16?
    case Int128Cell(_) => ct.Int128?
    case UInt128Cell(_) => ct.UInt128?
    case Int256Cell(_) => ct.Int256?
    case UInt256Cell(_) => ct.UInt256?
    case StateCell(f, _) => ct.AggregateState? && SnakeCase(f) == SnakeCase(ct.function_)
    case CanonicalItems(_) => ct.CanonicalArray? || ct.UnknownArray?
    case Items(_) => ct.ArrayOf?
    case Entries(_) => ct.MapOf?
    case Fields(cells) => ct.TupleOf? && |cells| == |ct.fields|
    case Null => false
  }

  /** A cell of another carrier is a mismatch, before anything of it is looked at. */
  lemma OtherCarrier(ct: ColumnType, v: Cell)
    requires !SameCarrier(ct, v)
    ensures EncodeTyped(ct, v) == Err(Mismatch)
  {
  }

  /** The errors of carriers that hold no other cell: too long a string reports both lengths, an ordinal its range. */
  lemma CarrierErrors(ct: ColumnType, v: Cell)
    requires SameCarrier(ct, v) && IsLeaf(ct) && !ct.Scalar? && EncodeTyped(ct, v).Err?
    ensures EncodeTyped(ct, v).error ==
            if ct.FixedString? then FixedStringLength(ct.size, |v.bytes|) else OutOfRange
  {
  }

  /** A null in a column that cannot hold one, and a value for an array of unknown elements. */
  lemma NullErrors(ct: ColumnType, v: Cell)
    ensures EncodeNullable(ct, false, Null) == Err(Mismatch)
    ensures ct.UnknownArray? && v != CanonicalItems([]) ==> EncodeTyped(ct, v) == Err(Mismatch)
  {
  }
}
