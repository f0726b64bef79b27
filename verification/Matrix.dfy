/**
 The compatibility matrices (crates/types/src/matrix.rs). The arms are grouped by source type;
 the order in which the original tests them does not matter because they are disjoint.
 */
module Matrix {
  import opened Basics
  import opened DataTypes

  // ---- Size and digit rules ----

  /** `fits_size` */
  predicate FitsSize(source: Option<u32>, sink: Option<u32>) {
    match (source, sink)
    case (_, None) => true
    case (None, Some(_)) => false
    case (Some(a), Some(b)) => a <= b
  }

  predicate AtLeast(size: Option<u32>, n: nat) {
    size.None? || size.value >= n
  }

  function SaturatingSub(a: nat, b: nat): nat {
    if a < b then 0 else a - b
  }

  function ScaleOr0(scale: Option<u32>): nat {
    if scale.Some? then scale.value else 0
  }

  /** `decimal_fits_int_digits` */
  predicate DecimalFitsIntDigits(t: DataType, digits: nat) {
    t.Decimal? && (t.precision.None? || SaturatingSub(t.precision.value, ScaleOr0(t.scale)) >= digits)
  }

  /** `decimal_fits_bigint` */
  predicate DecimalFitsBigInt(width: Option<u32>, t: DataType) {
    t.Decimal? &&
    match (width, t.precision)
    case (_, None) => true
    case (None, Some(_)) => false
    case (Some(w), Some(p)) => SaturatingSub(p, ScaleOr0(t.scale)) >= w
  }

  /** `decimal_fits_decimal` */
  predicate DecimalFitsDecimal(s: DataType, t: DataType)
    requires s.Decimal? && t.Decimal?
  {
    match (s.precision, t.precision)
    case (_, None) => true
    case (None, Some(_)) => false
    case (Some(pa), Some(pb)) =>
      var sa, sb := ScaleOr0(s.scale), ScaleOr0(t.scale);
      sb >= sa && SaturatingSub(pb, sb) >= SaturatingSub(pa, sa)
  }

  predicate UnboundedText(t: DataType) {
    t.Text? && t.size.None?
  }

  predicate BoundedText(t: DataType) {
    t.Text? && t.size.Some?
  }

  // ---- Lossless ----

  /** The non-recursive arms of `is_compatible` between two different, non-union types. */
  predicate LosslessArm(s: DataType, t: DataType) {
    match s
    case Bool =>
      IsSigned(t) || IsUnsigned(t) || t.Float32? || t.Float64? || t.BigInt? || DecimalFitsIntDigits(t, 1) || UnboundedText(t)
    case Int8 =>
      t.Int16? || t.Int32? || t.Int64? || t.Float32? || t.Float64? || t.Bool? || t.BigInt? || DecimalFitsIntDigits(t, 3) || UnboundedText(t)
    case Int16 =>
      t.Int32? || t.Int64? || t.Float32? || t.Float64? || t.Bool? || t.BigInt? || DecimalFitsIntDigits(t, 5) || UnboundedText(t)
    case Int32 =>
      t.Int64? || t.Float64? || t.Bool? || t.BigInt? || DecimalFitsIntDigits(t, 10) || UnboundedText(t)
    case Int64 =>
      t.Bool? || t.BigInt? || DecimalFitsIntDigits(t, 19) || UnboundedText(t)
    case UInt8 =>
      t.UInt16? || t.UInt32? || t.UInt64? || t.Int16? || t.Int32? || t.Int64? || t.BigInt? || DecimalFitsIntDigits(t, 3) || t.Bool? || UnboundedText(t)
    case UInt16 =>
      t.UInt32? || t.UInt64? || t.Int32? || t.Int64? || t.BigInt? || DecimalFitsIntDigits(t, 5) || t.Bool? || UnboundedText(t)
    case UInt32 =>
      t.UInt64? || t.Int64? || t.BigInt? || DecimalFitsIntDigits(t, 10) || t.Bool? || UnboundedText(t)
    case UInt64 =>
      t.BigInt? || DecimalFitsIntDigits(t, 20) || t.Bool? || UnboundedText(t)
    case Float32 => t.Float64? || UnboundedText(t)
    case Float64 => UnboundedText(t)
    case BigInt(width) =>
      (t.BigInt? && FitsSize(width, t.width)) || DecimalFitsBigInt(width, t) || UnboundedText(t)
    case Decimal(_, _) =>
      (t.Decimal? && DecimalFitsDecimal(s, t)) || UnboundedText(t)
    case Text(a) =>
      || (t.Text? && FitsSize(a, t.size))
      || (t.Uuid? && AtLeast(a, 36))
      || t.Xml? || t.Bool?
      || (t.Ipv4? && AtLeast(a, 7))
      || (t.Ipv6? && AtLeast(a, 2))
    case Bytes(a) =>
      || (t.Bytes? && FitsSize(a, t.size))
      || (t.Uuid? && AtLeast(a, 16))
      || (t.Ipv4? && AtLeast(a, 4))
      || (t.Ipv6? && AtLeast(a, 16))
      || UnboundedText(t)
    case Uuid => (t.Text? && AtLeast(t.size, 36)) || (t.Bytes? && AtLeast(t.size, 16))
    case Ipv4 => t.Ipv6? || (t.Text? && AtLeast(t.size, 15)) || (t.Bytes? && AtLeast(t.size, 4))
    case Ipv6 => (t.Text? && AtLeast(t.size, 39)) || (t.Bytes? && AtLeast(t.size, 16))
    case Date => UnboundedText(t)
    case Timestamp => UnboundedText(t)
    case Xml => UnboundedText(t)
    case Json => UnboundedText(t)
    case Object => t.Json? || UnboundedText(t)
    case Array(_, _) => t.Json? || UnboundedText(t)
    case Interval => false
    case Union(_) => false
  }

  /** `is_compatible` */
  predicate IsCompatible(s: DataType, t: DataType)
    decreases s, 0
  {
    if s == t then true
    else if s.Union? then forall v | v in s.members :: IsCompatible(v, t)
    else if t.Union? then false
    else if s.Array? && t.Array? then
      ArrayElementCompatible(s.element, s.elementNullable, t.element, t.elementNullable, false)
    else LosslessArm(s, t)
  }

  /** `array_element_compatible` */
  predicate ArrayElementCompatible(s: Option<DataType>, sourceNullable: bool, t: Option<DataType>, sinkNullable: bool, truncate: bool)
    decreases s
  {
    if sourceNullable && !sinkNullable && !truncate then false
    else if s.None? || t.None? then true
    else if truncate then IsCompatibleWithTruncate(s.value, t.value)
    else IsCompatible(s.value, t.value)
  }

  // ---- Truncating ----

  /** The non-recursive arms that `truncate` adds. */
  predicate TruncateArm(s: DataType, t: DataType) {
    match s
    case Bool => BoundedText(t)
    case Int64 => t.Int32? || t.Int16? || t.Int8? || IsUnsigned(t) || BoundedText(t)
    case Int32 => t.Int16? || t.Int8? || IsUnsigned(t) || BoundedText(t)
    case Int16 => t.Int8? || IsUnsigned(t) || BoundedText(t)
    case Int8 => IsUnsigned(t) || BoundedText(t)
    case UInt64 => t.UInt32? || t.UInt16? || t.UInt8? || IsSigned(t) || BoundedText(t)
    case UInt32 => t.UInt16? || t.UInt8? || t.Int32? || t.Int16? || t.Int8? || BoundedText(t)
    case UInt16 => t.UInt8? || t.Int16? || t.Int8? || BoundedText(t)
    case UInt8 => t.Int8? || BoundedText(t)
    case Float64 => t.Float32? || IsSigned(t) || IsUnsigned(t) || t.Bool? || BoundedText(t)
    case Float32 => IsSigned(t) || IsUnsigned(t) || t.Bool? || BoundedText(t)
    case BigInt(_) => t.BigInt? || IsSigned(t) || IsUnsigned(t) || t.Bool? || BoundedText(t)
    case Decimal(_, _) =>
      t.Decimal? || t.BigInt? || IsSigned(t) || IsUnsigned(t) || t.Bool? || t.Float64? || t.Float32? || BoundedText(t)
    case Text(_) => t.Text?
    case Bytes(_) => t.Bytes? || BoundedText(t)
    case Date => BoundedText(t)
    case Timestamp => t.Date? || BoundedText(t)
    case Json => BoundedText(t) || t.Object?
    case Xml => BoundedText(t)
    case Ipv6 => t.Ipv4?
    case Object => BoundedText(t)
    case Array(_, _) => BoundedText(t)
    case _ => false
  }

  /** `is_compatible_with_truncate` */
  predicate IsCompatibleWithTruncate(s: DataType, t: DataType)
    decreases s, 1
  {
    if s.Union? then forall v | v in s.members :: IsCompatibleWithTruncate(v, t)
    else if t.Union? then false
    else if IsCompatible(s, t) then true
    else if s.Array? && t.Array? then
      ArrayElementCompatible(s.element, s.elementNullable, t.element, t.elementNullable, true)
    else TruncateArm(s, t)
  }

  // ---- Narrowing ----

  predicate NarrowingArm(s: DataType, t: DataType) {
    match s
    case Int64 => t.Int32? || t.Int16? || t.Int8? || IsUnsigned(t)
    case Int32 => t.Int16? || t.Int8? || IsUnsigned(t)
    case Int16 => t.Int8? || IsUnsigned(t)
    case Int8 => IsUnsigned(t)
    case UInt64 => t.UInt32? || t.UInt16? || t.UInt8?
    case UInt32 => t.UInt16? || t.UInt8?
    case UInt16 => t.UInt8?
    case UInt8 => t.Int8?
    case Float64 => t.Float32? || IsSigned(t) || IsUnsigned(t)
    case Float32 => IsSigned(t) || IsUnsigned(t)
    case Decimal(_, _) => t.Float64? || t.Float32?
    case Text(a) => t.Text? && !FitsSize(a, t.size)
    case Bytes(a) => t.Bytes? && !FitsSize(a, t.size)
    case Ipv6 => t.Ipv4?
    case _ => false
  }

  /** `is_narrowing` */
  predicate IsNarrowing(s: DataType, t: DataType)
    decreases s
  {
    if s.Union? then forall v | v in s.members :: IsNarrowing(v, t)
    else if t.Union? then false
    else if s.Array? && t.Array? then
      if s.elementNullable && !t.elementNullable then true
      else s.element.Some? && t.element.Some? && IsNarrowing(s.element.value, t.element.value)
    else NarrowingArm(s, t)
  }

  // ---- How the three relations fit together ----

  /** A union with nothing in it, at any depth. */
  predicate Hollow(t: DataType) {
    t.Union? && forall v | v in t.members :: Hollow(v)
  }

  predicate NoEmptyUnion(t: DataType) {
    match t
    case Union(members) => members != [] && forall v | v in members :: NoEmptyUnion(v)
    case Array(Some(e), _) => NoEmptyUnion(e)
    case _ => true
  }

  /** Some array level, reached through arrays and unions, drops element nullability. */
  predicate DropsNulls(s: DataType, t: DataType)
    decreases s
  {
    if s.Union? then exists v | v in s.members :: DropsNulls(v, t)
    else s.Array? && t.Array? &&
         ((s.elementNullable && !t.elementNullable) ||
          (s.element.Some? && t.element.Some? && DropsNulls(s.element.value, t.element.value)))
  }

  /** Only hollow sources get into a union sink under truncation. */
  lemma {:induction false} TruncateIntoUnion(s: DataType, t: DataType)
    requires t.Union?
    ensures IsCompatibleWithTruncate(s, t) <==> Hollow(s)
  {
    if s.Union? {
      forall v | v in s.members ensures IsCompatibleWithTruncate(v, t) <==> Hollow(v) {
        TruncateIntoUnion(v, t);
      }
    }
  }

  lemma {:induction false} LosslessImpliesTruncate(s: DataType, t: DataType)
    requires IsCompatible(s, t) && !t.Union?
    ensures IsCompatibleWithTruncate(s, t)
  {
    if s.Union? {
      forall v | v in s.members ensures IsCompatibleWithTruncate(v, t) {
        LosslessImpliesTruncate(v, t);
      }
    }
  }

  /**
   The documented super-relation "lossless implies truncate" holds exactly when the sink is not
   a union or the source is hollow.
   */
  lemma SuperRelation(s: DataType, t: DataType)
    requires IsCompatible(s, t)
    ensures IsCompatibleWithTruncate(s, t) <==> !t.Union? || Hollow(s)
  {
    if t.Union? {
      TruncateIntoUnion(s, t);
    } else {
      LosslessImpliesTruncate(s, t);
    }
  }

  /** The identity pair of a union is lossless and yet refused under truncation. */
  lemma UnionIdentityNotTruncate()
    ensures var u := Union([Int32, Date]);
            IsCompatible(u, u) && !IsCompatibleWithTruncate(u, u)
  {
    var u := Union([Int32, Date]);
    assert Int32 in u.members && !Hollow(Int32);
    TruncateIntoUnion(u, u);
  }

  lemma NarrowingArmNotLossless(s: DataType, t: DataType)
    requires NarrowingArm(s, t)
    ensures s != t && !LosslessArm(s, t)
  {
  }

  lemma NarrowingArmTruncates(s: DataType, t: DataType)
    requires NarrowingArm(s, t)
    ensures TruncateArm(s, t)
  {
  }

  /** The empty union is narrowing and lossless at once. */
  lemma EmptyUnionNarrowsAndFits(t: DataType)
    ensures IsNarrowing(Union([]), t) && IsCompatible(Union([]), t)
  {
  }

  /** Every path through unions and array elements ends in an empty union. */
  predicate Vacant(t: DataType) {
    match t
    case Union(members) => forall v | v in members :: Vacant(v)
    case Array(Some(e), _) => Vacant(e)
    case _ => false
  }

  lemma {:induction false} NarrowingItselfIsVacant(t: DataType)
    requires IsNarrowing(t, t)
    ensures Vacant(t) && !DropsNulls(t, t)
  {
    if t.Union? {
      forall v | v in t.members ensures Vacant(v) && !DropsNulls(v, t) {
        NarrowingIntoUnionIsVacant(v, t);
      }
    } else if t.Array? {
      NarrowingItselfIsVacant(t.element.value);
    } else {
      NarrowingArmNotLossless(t, t);
    }
  }

  lemma {:induction false} NarrowingIntoUnionIsVacant(s: DataType, t: DataType)
    requires t.Union? && IsNarrowing(s, t)
    ensures Vacant(s) && !DropsNulls(s, t)
    decreases s
  {
    forall v | v in s.members ensures Vacant(v) && !DropsNulls(v, t) {
      NarrowingIntoUnionIsVacant(v, t);
    }
  }

  /** A narrowing pair is lossless exactly when the source is vacant and no array level drops nulls. */
  lemma {:induction false} NarrowingAndLossless(s: DataType, t: DataType)
    requires IsNarrowing(s, t)
    ensures IsCompatible(s, t) <==> Vacant(s) && !DropsNulls(s, t)
    decreases s
  {
    if s == t {
      NarrowingItselfIsVacant(s);
    } else if s.Union? {
      forall v | v in s.members ensures IsCompatible(v, t) <==> Vacant(v) && !DropsNulls(v, t) {
        NarrowingAndLossless(v, t);
      }
    } else if s.Array? && t.Array? {
      if !(s.elementNullable && !t.elementNullable) {
        NarrowingAndLossless(s.element.value, t.element.value);
      }
    } else {
      NarrowingArmNotLossless(s, t);
    }
  }

  lemma {:induction false} FullIsNotVacant(t: DataType)
    requires NoEmptyUnion(t)
    ensures !Vacant(t)
  {
    if t.Union? {
      assert t.members[0] in t.members;
      FullIsNotVacant(t.members[0]);
    } else if t.Array? && t.element.Some? {
      FullIsNotVacant(t.element.value);
    }
  }

  /** So what needs the "enable truncate" hint is never lossless, unless it holds an empty union. */
  lemma NarrowingNotLossless(s: DataType, t: DataType)
    requires IsNarrowing(s, t) && NoEmptyUnion(s)
    ensures !IsCompatible(s, t)
  {
    NarrowingAndLossless(s, t);
    FullIsNotVacant(s);
  }

  /** Wherever an array level drops nulls, the element types are admitted under truncation. */
  predicate DroppedLevelsFit(s: DataType, t: DataType)
    decreases s
  {
    if s.Union? then forall v | v in s.members :: DroppedLevelsFit(v, t)
    else if s.Array? && t.Array? && s.element.Some? && t.element.Some? then
      if s.elementNullable && !t.elementNullable then IsCompatibleWithTruncate(s.element.value, t.element.value)
      else DroppedLevelsFit(s.element.value, t.element.value)
    else true
  }

  lemma {:induction false} NarrowingIntoUnionIsHollow(s: DataType, t: DataType)
    requires t.Union? && IsNarrowing(s, t)
    ensures Hollow(s) && DroppedLevelsFit(s, t)
    decreases s
  {
    forall v | v in s.members ensures Hollow(v) && DroppedLevelsFit(v, t) {
      NarrowingIntoUnionIsHollow(v, t);
    }
  }

  /** What is narrowing is admitted under truncation exactly when the null-dropping levels fit. */
  lemma {:induction false} NarrowingTruncates(s: DataType, t: DataType)
    requires IsNarrowing(s, t)
    ensures IsCompatibleWithTruncate(s, t) <==> DroppedLevelsFit(s, t)
    decreases s
  {
    if t.Union? {
      NarrowingIntoUnionIsHollow(s, t);
      TruncateIntoUnion(s, t);
    } else if s.Union? {
      forall v | v in s.members ensures IsCompatibleWithTruncate(v, t) <==> DroppedLevelsFit(v, t) {
        NarrowingTruncates(v, t);
      }
    } else if s.Array? && t.Array? {
      ArrayTruncates(s, t);
      if !(s.elementNullable && !t.elementNullable) {
        NarrowingTruncates(s.element.value, t.element.value);
      }
    } else {
      NarrowingArmTruncates(s, t);
    }
  }

  /** Over arrays a narrowing pair is settled by the elements. */
  lemma ArrayTruncates(s: DataType, t: DataType)
    requires s.Array? && t.Array? && IsNarrowing(s, t)
    ensures IsCompatibleWithTruncate(s, t) <==>
            s.element.None? || t.element.None? || IsCompatibleWithTruncate(s.element.value, t.element.value)
  {
    if IsCompatible(s, t) {
      NarrowingAndLossless(s, t);
      var e, f := s.element.value, t.element.value;
      assert s == t ==> t.element == Some(e);
      if t.element.Some? {
        NarrowingAndLossless(e, f);
        if f.Union? {
          NarrowingIntoUnionIsHollow(e, f);
          TruncateIntoUnion(e, f);
        } else {
          LosslessImpliesTruncate(e, f);
        }
      }
    }
  }

  /** In particular when no array level drops element nullability. */
  lemma {:induction false} NoDroppedNulls(s: DataType, t: DataType)
    requires !DropsNulls(s, t)
    ensures DroppedLevelsFit(s, t)
    decreases s
  {
    if s.Union? {
      forall v | v in s.members ensures DroppedLevelsFit(v, t) {
        NoDroppedNulls(v, t);
      }
    } else if s.Array? && t.Array? && s.element.Some? && t.element.Some? {
      NoDroppedNulls(s.element.value, t.element.value);
    }
  }

  lemma NarrowingButRefused()
    ensures var s, t := Array(Some(Int32), true), Array(Some(Date), false);
            IsNarrowing(s, t) && !IsCompatibleWithTruncate(s, t)
  {
    var s, t := Array(Some(Int32), true), Array(Some(Date), false);
    assert !TruncateArm(Int32, Date) && !LosslessArm(Int32, Date);
    assert !DroppedLevelsFit(s, t);
    NarrowingTruncates(s, t);
  }
}
