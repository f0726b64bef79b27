/**
 The lossless numeric arms against the numbers themselves. A number is written m / 10^k; a
 numeric type is the set of numbers c / 10^scale with c in an interval.
 */
module MatrixRanges {
  import opened Basics
  import opened DataTypes
  import opened Matrix

  datatype Range =
    | Everything
    | Integers
    | Grid(scale: nat, low: int, high: int)

  predicate IsFixedInt(t: DataType) {
    IsSigned(t) || IsUnsigned(t)
  }

  function FixedMin(t: DataType): int
    requires IsFixedInt(t)
  {
    match t
    case Int8 => -0x80
    case Int16 => -0x8000
    case Int32 => -0x8000_0000
    case Int64 => -0x8000_0000_0000_0000
    case _ => 0
  }

  function FixedMax(t: DataType): int
    requires IsFixedInt(t)
  {
    match t
    case Int8 => 0x7F
    case Int16 => 0x7FFF
    case Int32 => 0x7FFF_FFFF
    case Int64 => 0x7FFF_FFFF_FFFF_FFFF
    case UInt8 => 0xFF
    case UInt16 => 0xFFFF
    case UInt32 => 0xFFFF_FFFF
    case _ => 0xFFFF_FFFF_FFFF_FFFF
  }

  predicate IsNumeric(t: DataType) {
    IsFixedInt(t) || t.BigInt? || t.Decimal?
  }

  /** `0 <= scale <= precision`, which the type's documentation demands of bounded decimals. */
  predicate ProperDecimal(t: DataType) {
    t.Decimal? && t.precision.Some? ==> ScaleOr0(t.scale) <= t.precision.value
  }

  /** The numbers a column of type `t` may hold. */
  function RangeOf(t: DataType): Range
    requires IsNumeric(t)
  {
    match t
    case BigInt(None) => Integers
    case BigInt(Some(w)) => Digits(0, w)
    case Decimal(None, _) => Everything
    case Decimal(Some(p), s) => Digits(ScaleOr0(s), p)
    case _ => Grid(0, FixedMin(t), FixedMax(t))
  }

  /** At most `p` decimal digits, `s` of them after the point. */
  function Digits(s: nat, p: nat): Range {
    Grid(s, 1 - Ten(p), Ten(p) - 1)
  }

  /** The number m / 10^k belongs to the range. */
  ghost predicate Holds(r: Range, m: int, k: nat) {
    match r
    case Everything => true
    case Integers => exists n :: m == n * Ten(k)
    case Grid(s, low, high) => exists c :: OnGrid(c, s, m, k) && low <= c <= high
  }

  /** c / 10^s == m / 10^k */
  predicate OnGrid(c: int, s: nat, m: int, k: nat) {
    c * Ten(k) == m * Ten(s)
  }

  ghost predicate Included(r: Range, q: Range) {
    forall m, k: nat :: Holds(r, m, k) ==> Holds(q, m, k)
  }

  // ---- Inclusion of grids, decided by scales and end points ----

  lemma GridIncluded(r: Range, q: Range)
    requires r.Grid? && q.Grid? && r.scale <= q.scale
    requires q.low <= r.low * Ten(q.scale - r.scale) && r.high * Ten(q.scale - r.scale) <= q.high
    ensures Included(r, q)
  {
    var f := Ten(q.scale - r.scale);
    PowAdd(10, q.scale - r.scale, r.scale);
    forall m, k: nat | Holds(r, m, k) ensures Holds(q, m, k) {
      var c :| OnGrid(c, r.scale, m, k) && r.low <= c <= r.high;
      calc {
        (c * f) * Ten(k);
        { MulSwap(c, f, Ten(k)); }
        (c * Ten(k)) * f;
        (m * Ten(r.scale)) * f;
        { MulSwap(m, Ten(r.scale), f); MulAssociative(m, f, Ten(r.scale)); }
        m * Ten(q.scale);
      }
      MulMonotone(r.low, c, f);
      MulMonotone(c, r.high, f);
      assert OnGrid(c * f, q.scale, m, k);
    }
  }

  lemma MulSwap(x: int, y: int, z: int)
    ensures (x * y) * z == (x * z) * y
  {
  }

  lemma GridMember(r: Range, c: int)
    requires r.Grid? && r.low <= c <= r.high
    ensures Holds(r, c, r.scale)
  {
    assert OnGrid(c, r.scale, c, r.scale);
  }

  /** A finer or equal grid holds c / 10^s only as c scaled up. */
  lemma GridPoint(q: Range, c: int, s: nat)
    requires q.Grid? && s <= q.scale
    ensures Holds(q, c, s) <==> q.low <= c * Ten(q.scale - s) <= q.high
  {
    var f := Ten(q.scale - s);
    PowAdd(10, q.scale - s, s);
    MulAssociative(c, f, Ten(s));
    assert OnGrid(c * f, q.scale, c, s);
    forall d | OnGrid(d, q.scale, c, s) ensures d == c * f {
      MulCancel(d, c * f, Ten(s));
    }
  }

  /** A coarser grid misses 1 / 10^s. */
  lemma GridTooCoarse(q: Range, s: nat)
    requires q.Grid? && q.scale < s
    ensures !Holds(q, 1, s)
  {
    PowStrict(10, q.scale, s);
    forall c ensures !OnGrid(c, q.scale, 1, s) {
      if c >= 1 {
        MulMonotone(1, c, Ten(s));
      } else {
        MulMonotone(c, 0, Ten(s));
      }
    }
  }

  /** A d-digit number shifted by s places stays below 10^p exactly when d + s <= p. */
  lemma DigitsFit(n: nat, d: nat, s: nat, p: nat)
    requires d >= 1 && Ten(d - 1) <= n < Ten(d)
    ensures n * Ten(s) < Ten(p) <==> d + s <= p
  {
    if d + s <= p {
      PowAdd(10, d, s);
      PowMonotone(10, d + s, p);
      MulStrict(n, Ten(d), Ten(s));
    } else {
      PowAdd(10, d - 1, s);
      PowMonotone(10, p, d - 1 + s);
      MulMonotone(Ten(d - 1), n, Ten(s));
    }
  }

  // ---- Fixed-width integers ----

  function FixedDigits(t: DataType): nat
    requires IsFixedInt(t)
  {
    match t
    case Int8 => 3
    case UInt8 => 3
    case Int16 => 5
    case UInt16 => 5
    case Int32 => 10
    case UInt32 => 10
    case Int64 => 19
    case _ => 20
  }

  /** The digit counts 3 / 5 / 10 / 19 / 20 are exact. */
  lemma FixedDigitsExact(t: DataType)
    requires IsFixedInt(t)
    ensures Ten(FixedDigits(t) - 1) <= FixedMax(t) < Ten(FixedDigits(t))
    ensures -FixedMin(t) < Ten(FixedDigits(t))
  {
    Tens();
  }

  lemma Tens()
    ensures Ten(2) == 100 && Ten(3) == 1000 && Ten(4) == 10000 && Ten(5) == 100000
    ensures Ten(9) == 1000000000 && Ten(10) == 10000000000
    ensures Ten(18) == 1000000000000000000 && Ten(19) == 10000000000000000000
    ensures Ten(20) == 100000000000000000000
  {
    PowAdd(10, 9, 9);
    PowAdd(10, 9, 10);
    PowAdd(10, 10, 10);
  }

  lemma FixedIntoDigits(t: DataType, s: nat, p: nat)
    requires IsFixedInt(t)
    ensures Included(RangeOf(t), Digits(s, p)) <==> FixedDigits(t) + s <= p
  {
    FixedDigitsExact(t);
    IntervalIntoDigits(FixedMin(t), FixedMax(t), FixedDigits(t), s, p);
  }

  lemma IntervalIntoDigits(low: int, high: int, d: nat, s: nat, p: nat)
    requires d >= 1 && Ten(d - 1) <= high < Ten(d) && low <= 0 && -low < Ten(d)
    ensures Included(Grid(0, low, high), Digits(s, p)) <==> d + s <= p
  {
    var r, q := Grid(0, low, high), Digits(s, p);
    DigitsFit(high, d, s, p);
    if d + s <= p {
      PowAdd(10, d, s);
      PowMonotone(10, d + s, p);
      MulStrict(-low, Ten(d), Ten(s));
      assert (-low) * Ten(s) == -(low * Ten(s));
      GridIncluded(r, q);
    } else {
      GridMember(r, high);
      GridPoint(q, high, 0);
    }
  }

  /** Between fixed-width integers the matrix is exactly range inclusion. */
  lemma FixedIntoFixed(s: DataType, t: DataType)
    requires IsFixedInt(s) && IsFixedInt(t)
    ensures IsCompatible(s, t) <==> Included(RangeOf(s), RangeOf(t))
  {
    FixedArm(s, t);
    IntervalIncluded(FixedMin(s), FixedMax(s), FixedMin(t), FixedMax(t));
  }

  lemma IntervalIncluded(low: int, high: int, min: int, max: int)
    requires low <= high
    ensures Included(Grid(0, low, high), Grid(0, min, max)) <==> min <= low && high <= max
  {
    var r, q := Grid(0, low, high), Grid(0, min, max);
    if min <= low && high <= max {
      GridIncluded(r, q);
    } else {
      GridMember(r, low);
      GridMember(r, high);
      GridPoint(q, low, 0);
      GridPoint(q, high, 0);
    }
  }

  lemma FixedArm(s: DataType, t: DataType)
    requires IsFixedInt(s) && IsFixedInt(t)
    ensures IsCompatible(s, t) <==> FixedMin(t) <= FixedMin(s) && FixedMax(s) <= FixedMax(t)
  {
    assert IsCompatible(s, t) <==> s == t || LosslessArm(s, t);
    hide IsCompatible, LosslessArm, FixedMin, FixedMax;
    if IsSigned(s) {
      SignedArm(s, t);
    } else {
      UnsignedArm(s, t);
    }
  }

  lemma SignedArm(s: DataType, t: DataType)
    requires IsSigned(s) && IsFixedInt(t)
    ensures s == t || LosslessArm(s, t) <==> FixedMin(t) <= FixedMin(s) && FixedMax(s) <= FixedMax(t)
  {
  }

  lemma UnsignedArm(s: DataType, t: DataType)
    requires IsUnsigned(s) && IsFixedInt(t)
    ensures s == t || LosslessArm(s, t) <==> FixedMin(t) <= FixedMin(s) && FixedMax(s) <= FixedMax(t)
  {
  }

  // ---- Arbitrary precision ----

  lemma DigitsIntoDigits(s1: nat, p1: nat, s2: nat, p2: nat)
    requires s1 <= p1 && s1 <= s2
    ensures Included(Digits(s1, p1), Digits(s2, p2)) <==> p1 == 0 || p1 + (s2 - s1) <= p2
  {
    var r, q, f := Digits(s1, p1), Digits(s2, p2), Ten(s2 - s1);
    if p1 == 0 {
      GridIncluded(r, q);
    } else {
      assert Ten(p1) == 10 * Ten(p1 - 1);
      DigitsFit(Ten(p1) - 1, p1, s2 - s1, p2);
      assert (1 - Ten(p1)) * f == -((Ten(p1) - 1) * f);
      if p1 + (s2 - s1) <= p2 {
        GridIncluded(r, q);
      } else {
        GridMember(r, Ten(p1) - 1);
        GridPoint(q, Ten(p1) - 1, s1);
      }
    }
  }

  lemma DecimalIntoDecimal(s: DataType, t: DataType)
    requires s.Decimal? && t.Decimal? && ProperDecimal(s) && ProperDecimal(t)
    ensures IsCompatible(s, t) <==> Included(RangeOf(s), RangeOf(t))
  {
    assert s == t || (IsCompatible(s, t) <==> DecimalFitsDecimal(s, t));
    if t.precision.None? {
    } else if s.precision.None? {
      assert Holds(Everything, 1, ScaleOr0(t.scale) + 1);
      GridTooCoarse(RangeOf(t), ScaleOr0(t.scale) + 1);
    } else {
      var s1, p1, s2, p2 := ScaleOr0(s.scale), s.precision.value, ScaleOr0(t.scale), t.precision.value;
      if s1 <= s2 {
        DigitsIntoDigits(s1, p1, s2, p2);
      } else {
        PowMonotone(10, 1, p1);
        GridMember(RangeOf(s), 1);
        GridTooCoarse(RangeOf(t), s1);
      }
    }
  }

  /** Every integer is too much for a bounded range. */
  lemma IntegersUnbounded(s: nat, p: nat)
    ensures !Included(Integers, Digits(s, p))
  {
    assert Ten(p) == Ten(p) * Ten(0);
    assert Holds(Integers, Ten(p), 0);
    GridPoint(Digits(s, p), Ten(p), 0);
    MulMonotone(1, Ten(s), Ten(p));
  }

  lemma GridInIntegers(r: Range)
    requires r.Grid? && r.scale == 0
    ensures Included(r, Integers)
  {
    forall m, k: nat | Holds(r, m, k) ensures Holds(Integers, m, k) {
      var c :| OnGrid(c, 0, m, k) && r.low <= c <= r.high;
      assert m == c * Ten(k);
    }
  }

  lemma BigIntSource(s: DataType, t: DataType)
    requires s.BigInt? && (t.BigInt? || t.Decimal?)
    ensures IsCompatible(s, t) <==> Included(RangeOf(s), RangeOf(t))
  {
    var s2 := if t.BigInt? then 0 else ScaleOr0(t.scale);
    var p2 := if t.BigInt? then t.width else t.precision;
    if p2.None? {
      if s.width.Some? {
        GridInIntegers(RangeOf(s));
      }
    } else if s.width.None? {
      IntegersUnbounded(s2, p2.value);
    } else {
      DigitsIntoDigits(0, s.width.value, s2, p2.value);
    }
  }

  // ---- The matrix ----

  /** The one family of arms that ignores the sink's width. */
  predicate IntoBoundedBigInt(s: DataType, t: DataType) {
    IsFixedInt(s) && t.BigInt? && t.width.Some?
  }

  predicate WideningTarget(s: DataType, t: DataType) {
    t.Decimal? || (IsFixedInt(s) && IsFixedInt(t)) || (!s.Decimal? && t.BigInt?)
  }

  /**
   Into decimals, between fixed-width integers and into big integers, the lossless matrix is
   exactly inclusion of ranges: nothing representable is refused, nothing else is admitted.
   */
  lemma LosslessIsInclusion(s: DataType, t: DataType)
    requires IsNumeric(s) && IsNumeric(t) && ProperDecimal(s) && ProperDecimal(t)
    requires WideningTarget(s, t) && !IntoBoundedBigInt(s, t)
    ensures IsCompatible(s, t) <==> Included(RangeOf(s), RangeOf(t))
  {
    if IsFixedInt(s) {
      if IsFixedInt(t) {
        FixedIntoFixed(s, t);
      } else if t.BigInt? {
        GridInIntegers(RangeOf(s));
      } else {
        FixedIntoDecimal(s, t);
      }
    } else if s.BigInt? {
      BigIntSource(s, t);
    } else {
      DecimalIntoDecimal(s, t);
    }
  }

  lemma FixedIntoDecimal(s: DataType, t: DataType)
    requires IsFixedInt(s) && t.Decimal?
    ensures IsCompatible(s, t) <==> Included(RangeOf(s), RangeOf(t))
  {
    assert IsCompatible(s, t) <==> DecimalFitsIntDigits(t, FixedDigits(s));
    if t.precision.Some? {
      FixedIntoDigits(s, ScaleOr0(t.scale), t.precision.value);
    }
  }

  /** Every lossless numeric pair keeps every number, save into a bounded big integer. */
  lemma LosslessIsSound(s: DataType, t: DataType)
    requires IsNumeric(s) && IsNumeric(t) && ProperDecimal(s) && ProperDecimal(t)
    requires IsCompatible(s, t) && !IntoBoundedBigInt(s, t)
    ensures Included(RangeOf(s), RangeOf(t))
  {
    if WideningTarget(s, t) {
      LosslessIsInclusion(s, t);
    } else {
      NoNarrowingArm(s, t);
    }
  }

  /** The lossless matrix has no arm back into a narrower kind of number. */
  lemma NoNarrowingArm(s: DataType, t: DataType)
    requires (s.BigInt? && IsFixedInt(t)) || (s.Decimal? && (IsFixedInt(t) || t.BigInt?))
    ensures !IsCompatible(s, t)
  {
    assert !LosslessArm(s, t);
  }

  /** A fixed-width integer always enters a bounded big integer; exactly some widths hold it. */
  lemma BoundedBigIntIgnoresWidth(s: DataType, w: u32)
    requires IsFixedInt(s)
    ensures IsCompatible(s, BigInt(Some(w)))
    ensures Included(RangeOf(s), RangeOf(BigInt(Some(w)))) <==> FixedDigits(s) <= w
  {
    FixedIntoDigits(s, 0, w);
  }
}
