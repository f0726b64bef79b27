/**
 The canonical column types and the total order that makes unions comparable
 (crates/types/src/data_type.rs). Connector-specific `Custom` types are not modelled here.
 */
module DataTypes {
  import opened Basics

  datatype DataType =
    | Bool
    | Int8
    | Int16
    | Int32
    | Int64
    | UInt8
    | UInt16
    | UInt32
    | UInt64
    | Float32
    | Float64
    | BigInt(width: Option<u32>)
    | Decimal(precision: Option<u32>, scale: Option<u32>)
    | Text(size: Option<u32>)
    | Bytes(size: Option<u32>)
    | Date
    | Timestamp
    | Uuid
    | Ipv4
    | Ipv6
    | Json
    | Xml
    | Object
    | Union(members: seq<DataType>)
    | Interval
    | Array(element: Option<DataType>, elementNullable: bool)

  predicate IsSigned(t: DataType) {
    t.Int8? || t.Int16? || t.Int32? || t.Int64?
  }

  predicate IsUnsigned(t: DataType) {
    t.UInt8? || t.UInt16? || t.UInt32? || t.UInt64?
  }

  predicate IsFloat(t: DataType) {
    t.Float32? || t.Float64?
  }

  /** UUIDs and addresses: values of a fixed number of octets with a canonical text. */
  predicate IsIdentifier(t: DataType) {
    t.Uuid? || t.Ipv4? || t.Ipv6?
  }

  function VariantOrder(t: DataType): nat {
    match t
    case Bool => 0
    case Int8 => 1
    case Int16 => 2
    case Int32 => 3
    case Int64 => 4
    case UInt8 => 5
    case UInt16 => 6
    case UInt32 => 7
    case UInt64 => 8
    case Float32 => 9
    case Float64 => 10
    case BigInt(_) => 11
    case Decimal(_, _) => 12
    case Text(_) => 13
    case Bytes(_) => 14
    case Date => 15
    case Timestamp => 16
    case Uuid => 17
    case Ipv4 => 18
    case Ipv6 => 19
    case Json => 20
    case Xml => 21
    case Object => 22
    case Union(_) => 23
    case Interval => 25
    case Array(_, _) => 26
  }

  /** `Option<u32>` order: an absent bound sorts first. */
  function CompareBound(a: Option<u32>, b: Option<u32>): Ordering {
    match (a, b)
    case (None, None) => Equal
    case (None, Some(_)) => Less
    case (Some(_), None) => Greater
    case (Some(x), Some(y)) => CompareInt(x, y)
  }

  /** `Ord::cmp`: the variant first, then the payload, recursively. */
  function Compare(a: DataType, b: DataType): Ordering
    decreases a, 1
  {
    CompareVariant(a, b).Then(ComparePayload(a, b))
  }

  function CompareVariant(a: DataType, b: DataType): Ordering {
    CompareInt(VariantOrder(a), VariantOrder(b))
  }

  function ComparePayload(a: DataType, b: DataType): Ordering
    decreases a, 0
  {
    if a.BigInt? && b.BigInt? then CompareBound(a.width, b.width)
    else if a.Decimal? && b.Decimal? then
      CompareBound(a.precision, b.precision).Then(CompareBound(a.scale, b.scale))
    else if a.Text? && b.Text? then CompareBound(a.size, b.size)
    else if a.Bytes? && b.Bytes? then CompareBound(a.size, b.size)
    else if a.Union? && b.Union? then CompareMembers(a.members, b.members)
    else if a.Array? && b.Array? then
      CompareElement(a.element, b.element).Then(CompareBool(a.elementNullable, b.elementNullable))
    else Equal
  }

  function CompareElement(a: Option<DataType>, b: Option<DataType>): Ordering
    decreases a
  {
    match (a, b)
    case (None, None) => Equal
    case (None, Some(_)) => Less
    case (Some(_), None) => Greater
    case (Some(x), Some(y)) => Compare(x, y)
  }

  function CompareMembers(a: seq<DataType>, b: seq<DataType>): Ordering
    decreases a
  {
    if a == [] && b == [] then Equal
    else if a == [] then Less
    else if b == [] then Greater
    else Compare(a[0], b[0]).Then(CompareMembers(a[1..], b[1..]))
  }

  predicate HasPayload(t: DataType) {
    t.BigInt? || t.Decimal? || t.Text? || t.Bytes? || t.Union? || t.Array?
  }

  predicate SameShape(a: DataType, b: DataType) {
    && a.BigInt? == b.BigInt? && a.Decimal? == b.Decimal? && a.Text? == b.Text?
    && a.Bytes? == b.Bytes? && a.Union? == b.Union? && a.Array? == b.Array?
    && (!HasPayload(a) ==> a == b)
  }

  lemma SameVariant(a: DataType, b: DataType)
    requires CompareVariant(a, b) == Equal
    ensures SameShape(a, b)
  {
  }

  // ---- `Compare` is a total order that agrees with equality ----

  lemma {:induction false} CompareEqual(a: DataType, b: DataType)
    ensures Compare(a, b) == Equal <==> a == b
    decreases a, 1
  {
    if CompareVariant(a, b) == Equal {
      SameVariant(a, b);
      PayloadEqual(a, b);
    }
  }

  lemma {:induction false} PayloadEqual(a: DataType, b: DataType)
    requires SameShape(a, b)
    ensures ComparePayload(a, b) == Equal <==> a == b
    decreases a, 0
  {
    if a.Union? {
      CompareMembersEqual(a.members, b.members);
    } else if a.Array? && a.element.Some? && b.element.Some? {
      CompareEqual(a.element.value, b.element.value);
    }
  }

  lemma {:induction false} CompareMembersEqual(a: seq<DataType>, b: seq<DataType>)
    ensures CompareMembers(a, b) == Equal <==> a == b
    decreases a
  {
    if a == [] || b == [] {
    } else {
      CompareEqual(a[0], b[0]);
      CompareMembersEqual(a[1..], b[1..]);
      assert a == [a[0]] + a[1..] && b == [b[0]] + b[1..];
    }
  }

  lemma {:induction false} CompareReverse(a: DataType, b: DataType)
    ensures Compare(b, a) == Compare(a, b).Reverse()
    decreases a, 1
  {
    PayloadReverse(a, b);
  }

  lemma {:induction false} PayloadReverse(a: DataType, b: DataType)
    ensures ComparePayload(b, a) == ComparePayload(a, b).Reverse()
    decreases a, 0
  {
    if a.Union? && b.Union? {
      CompareMembersReverse(a.members, b.members);
    } else if a.Array? && b.Array? && a.element.Some? && b.element.Some? {
      CompareReverse(a.element.value, b.element.value);
    }
  }

  lemma {:induction false} CompareMembersReverse(a: seq<DataType>, b: seq<DataType>)
    ensures CompareMembers(b, a) == CompareMembers(a, b).Reverse()
    decreases a
  {
    if a == [] || b == [] {
    } else {
      CompareReverse(a[0], b[0]);
      CompareMembersReverse(a[1..], b[1..]);
    }
  }

  lemma {:induction false} CompareTransitive(a: DataType, b: DataType, c: DataType)
    requires Compare(a, b) != Greater && Compare(b, c) != Greater
    ensures Compare(a, c) == Compare(a, b).Then(Compare(b, c))
    decreases a, 1
  {
    if CompareVariant(a, b) == Equal && CompareVariant(b, c) == Equal {
      PayloadTransitive(a, b, c) by {
        SameVariant(a, b);
        SameVariant(b, c);
      }
    }
    VariantTransitive(a, b, c);
    ThenTransitive(CompareVariant(a, b), CompareVariant(b, c), CompareVariant(a, c),
                   ComparePayload(a, b), ComparePayload(b, c), ComparePayload(a, c));
  }

  lemma ThenTransitive(v1: Ordering, v2: Ordering, v3: Ordering, p1: Ordering, p2: Ordering, p3: Ordering)
    requires v1 != Greater && v2 != Greater && v3 == v1.Then(v2)
    requires v1 == v2 == Equal ==> p3 == p1.Then(p2)
    requires v1.Then(p1) != Greater && v2.Then(p2) != Greater
    ensures v3.Then(p3) == v1.Then(p1).Then(v2.Then(p2))
  {
  }

  lemma VariantTransitive(a: DataType, b: DataType, c: DataType)
    requires CompareVariant(a, b) != Greater && CompareVariant(b, c) != Greater
    ensures CompareVariant(a, c) == CompareVariant(a, b).Then(CompareVariant(b, c))
  {
  }

  lemma {:induction false} PayloadTransitive(a: DataType, b: DataType, c: DataType)
    requires SameShape(a, b) && SameShape(b, c)
    requires ComparePayload(a, b) != Greater && ComparePayload(b, c) != Greater
    ensures ComparePayload(a, c) == ComparePayload(a, b).Then(ComparePayload(b, c))
    decreases a, 0
  {
    if a.Union? {
      CompareMembersTransitive(a.members, b.members, c.members);
    } else if a.Array? && a.element.Some? && b.element.Some? && c.element.Some? {
      CompareTransitive(a.element.value, b.element.value, c.element.value);
    }
  }

  lemma {:induction false} CompareMembersTransitive(a: seq<DataType>, b: seq<DataType>, c: seq<DataType>)
    requires CompareMembers(a, b) != Greater && CompareMembers(b, c) != Greater
    ensures CompareMembers(a, c) == CompareMembers(a, b).Then(CompareMembers(b, c))
    decreases a
  {
    if a == [] || b == [] || c == [] {
    } else {
      CompareTransitive(a[0], b[0], c[0]);
      if Compare(a[0], b[0]) == Equal && Compare(b[0], c[0]) == Equal {
        CompareMembersTransitive(a[1..], b[1..], c[1..]);
      }
    }
  }
}
