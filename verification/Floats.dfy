/**
 IEEE 754 binary64 and binary32 as bit patterns (section 3.4 of IEEE 754-2019). The value of a
 finite binary64 is an integer multiple of 2^-1074, so values are integers in that unit.
 */
module Floats {
  import opened Basics

  const FRACTION: nat := 0x10_0000_0000_0000            // 2^52
  const SIGN: nat := 0x8000_0000_0000_0000              // 2^63
  const INFINITY: nat := 0x7FF0_0000_0000_0000          // exponent 2047, fraction 0
  const CANONICAL_NAN: nat := 0x7FF8_0000_0000_0000
  const FRACTION32: nat := 0x80_0000                    // 2^23
  const SIGN32: nat := 0x8000_0000
  const INFINITY32: nat := 0x7F80_0000

  predicate IsNegative(bits: u64) {
    bits >= SIGN
  }

  function Magnitude(bits: u64): nat {
    if IsNegative(bits) then bits - SIGN else bits
  }

  predicate IsNaN(bits: u64) {
    Magnitude(bits) > INFINITY
  }

  /** Value of a magnitude in units of 2^-1074; infinity sits above every finite value. */
  function MagnitudeValue(magnitude: nat): nat {
    var exponent, fraction := magnitude / FRACTION, magnitude % FRACTION;
    if exponent == 0 then fraction else (FRACTION + fraction) * Two(exponent - 1)
  }

  function FloatValue(bits: u64): int {
    var value: int := MagnitudeValue(Magnitude(bits));
    if IsNegative(bits) then -value else value
  }

  /** `f64::partial_cmp` */
  function CompareFloat(x: u64, y: u64): Option<Ordering> {
    if IsNaN(x) || IsNaN(y) then None else Some(CompareInt(FloatValue(x), FloatValue(y)))
  }

  function BitLength(n: nat): nat {
    if n == 0 then 0 else 1 + BitLength(n / 2)
  }

  /** Round to nearest, ties to even, as if exponents had no upper bound. */
  function RoundUnbounded(a: nat): nat {
    if a < 2 * FRACTION then a
    else
      var shift := ShiftOf(a);
      shift * FRACTION + RoundHalfEven(a / Two(shift), a % Two(shift), Two(shift))
  }

  /** The binary64 magnitude nearest to `a` units of 2^-1074; too large becomes infinity. */
  function RoundMagnitude(a: nat): (magnitude: nat)
    ensures magnitude <= INFINITY
  {
    Min(RoundUnbounded(a), INFINITY)
  }

  /** How many low bits of `a` do not fit in 53 significant bits. */
  function ShiftOf(a: nat): nat {
    if BitLength(a) <= 53 then 0 else BitLength(a) - 53
  }

  function RoundHalfEven(quotient: nat, remainder: nat, divisor: nat): nat {
    if 2 * remainder > divisor || (2 * remainder == divisor && quotient % 2 == 1) then quotient + 1
    else quotient
  }

  function SignBit(negative: bool): nat {
    if negative then SIGN else 0
  }

  /** An integer converted to binary64 (`as f64`, `BigInt::to_f64`). */
  function IntToFloat(n: int): (bits: u64)
    ensures IsNegative(bits) <==> n < 0
    ensures Magnitude(bits) == RoundMagnitude(Abs(n) * Two(1074))
  {
    SignBit(n < 0) + RoundMagnitude(Abs(n) * Two(1074))
  }

  /** The integer survives the conversion unchanged. */
  predicate Representable(n: int) {
    !IsInfinite(IntToFloat(n)) && FloatValue(IntToFloat(n)) == n * Two(1074)
  }

  predicate IsInfinite(bits: u64) {
    Magnitude(bits) == INFINITY
  }

  // ---- binary32 ----

  function Magnitude32(bits: u32): nat {
    if bits >= SIGN32 then bits - SIGN32 else bits
  }

  /** Value of a binary32 magnitude in units of 2^-149. */
  function MagnitudeValue32(magnitude: nat): nat {
    var exponent, fraction := magnitude / FRACTION32, magnitude % FRACTION32;
    if exponent == 0 then fraction else (FRACTION32 + fraction) * Two(exponent - 1)
  }

  /** `f64::from(f32)` */
  function WidenFloat(bits: u32): u64 {
    var m := Magnitude32(bits);
    SignBit(bits >= SIGN32) +
    (if m > INFINITY32 then CANONICAL_NAN
     else if m == INFINITY32 then INFINITY
     else RoundMagnitude(MagnitudeValue32(m) * Two(925)))
  }

  lemma TwoConstants()
    ensures Two(52) == FRACTION && Two(53) == 2 * FRACTION
  {
    assert Pow(2, 13) == 8192;
    PowAdd(2, 13, 13);
    PowAdd(2, 26, 26);
  }

  // ---- Bit lengths ----

  lemma {:induction false} BitLengthBounds(n: nat)
    ensures n < Two(BitLength(n))
    ensures n > 0 ==> BitLength(n) >= 1 && Two(BitLength(n) - 1) <= n
  {
    if n == 0 {
    } else {
      BitLengthBounds(n / 2);
    }
  }

  lemma {:induction false} BitLengthUnique(n: nat, l: nat)
    requires l >= 1 && Two(l - 1) <= n < Two(l)
    ensures BitLength(n) == l
  {
    BitLengthBounds(n);
    if BitLength(n) < l {
      PowMonotone(2, BitLength(n), l - 1);
    } else if BitLength(n) > l {
      PowMonotone(2, l, BitLength(n) - 1);
    }
  }

  // ---- Magnitudes are ordered like their bit patterns ----

  lemma MagnitudeStep(b: nat)
    ensures MagnitudeValue(b) < MagnitudeValue(b + 1)
  {
    var e, f := b / FRACTION, b % FRACTION;
    if f + 1 < FRACTION {
      DivModUnique(b + 1, FRACTION, e, f + 1);
      if e > 0 {
        MulStrict(FRACTION + f, FRACTION + f + 1, Two(e - 1));
      }
    } else {
      DivModUnique(b + 1, FRACTION, e + 1, 0);
      if e > 0 {
        assert Two(e) == 2 * Two(e - 1);
        MulStrict(FRACTION + f, 2 * FRACTION, Two(e - 1));
        assert FRACTION * (2 * Two(e - 1)) == (2 * FRACTION) * Two(e - 1);
      }
    }
  }

  lemma {:induction false} MagnitudeMonotone(a: nat, b: nat)
    requires a < b
    ensures MagnitudeValue(a) < MagnitudeValue(b)
    decreases b - a
  {
    MagnitudeStep(a);
    if a + 1 < b {
      MagnitudeMonotone(a + 1, b);
    }
  }

  lemma MagnitudeInjective(a: nat, b: nat)
    requires MagnitudeValue(a) == MagnitudeValue(b)
    ensures a == b
  {
    if a < b {
      MagnitudeMonotone(a, b);
    } else if b < a {
      MagnitudeMonotone(b, a);
    }
  }

  // ---- Rounding ----

  lemma SmallMagnitude(a: nat)
    requires a < 2 * FRACTION
    ensures MagnitudeValue(a) == a
  {
    if a < FRACTION {
      DivModUnique(a, FRACTION, 0, a);
    } else {
      DivModUnique(a, FRACTION, 1, a - FRACTION);
      assert Two(0) == 1;
    }
  }

  /** The magnitude with 53-bit significand `q` scaled by 2^shift. */
  lemma ScaledMagnitude(shift: nat, q: nat)
    requires FRACTION <= q <= 2 * FRACTION
    ensures MagnitudeValue(shift * FRACTION + q) == q * Two(shift)
  {
    var b := shift * FRACTION + q;
    if q < 2 * FRACTION {
      DivModUnique(b, FRACTION, shift + 1, q - FRACTION);
    } else {
      DivModUnique(b, FRACTION, shift + 2, 0);
      assert Two(shift + 1) == 2 * Two(shift);
      assert FRACTION * (2 * Two(shift)) == (2 * FRACTION) * Two(shift);
    }
  }

  /** Dividing by 2^shift leaves exactly 53 significant bits. */
  lemma QuotientBounds(a: nat)
    requires a >= 2 * FRACTION
    ensures FRACTION <= a / Two(ShiftOf(a)) < 2 * FRACTION
  {
    var s := ShiftOf(a);
    ShiftBounds(a);
    DivBounds(a, Two(s), FRACTION, 2 * FRACTION);
  }

  lemma ShiftBounds(a: nat)
    requires a >= 2 * FRACTION
    ensures FRACTION * Two(ShiftOf(a)) <= a < 2 * FRACTION * Two(ShiftOf(a))
  {
    var l, s := BitLength(a), ShiftOf(a);
    BitLengthBounds(a);
    TwoConstants();
    if l <= 53 {
      PowMonotone(2, l, 53);
    }
    PowAdd(2, 53, s);
    PowAdd(2, 52, s);
  }

  lemma DivBounds(a: nat, t: nat, low: nat, high: nat)
    requires t >= 1 && low * t <= a < high * t
    ensures low <= a / t < high
  {
    var q, r := a / t, a % t;
    assert a == q * t + r && (low - 1) * t == low * t - t;
    if q < low {
      MulMonotone(q, low - 1, t);
    } else if q >= high {
      MulMonotone(high, q, t);
    }
  }

  predicate Nearer(candidate: nat, other: nat, a: nat) {
    Abs(MagnitudeValue(candidate) - a) <= Abs(MagnitudeValue(other) - a)
  }

  /** No magnitude is nearer to `a` than the rounded one, and a tie goes to the even one. */
  lemma RoundNearest(a: nat, other: nat)
    ensures Nearer(RoundUnbounded(a), other, a)
    ensures other != RoundUnbounded(a) && Nearer(other, RoundUnbounded(a), a) ==> RoundUnbounded(a) % 2 == 0
  {
    hide MagnitudeValue, ShiftOf;
    if a < 2 * FRACTION {
      SmallMagnitude(a);
      if other != a && MagnitudeValue(other) == a {
        MagnitudeInjective(other, a);
      }
    } else {
      var s := ShiftOf(a);
      var q, r, v := a / Two(s), a % Two(s), a - a % Two(s);
      Neighbours(a);
      Bracketed(s * FRACTION + q, other);
      NearestOfTwo(s * FRACTION + q, q, v, r, Two(s), other, MagnitudeValue(other));
    }
  }

  /** Rounding keeps the order. */
  lemma RoundMonotone(a: nat, b: nat)
    requires a <= b
    ensures RoundUnbounded(a) <= RoundUnbounded(b)
  {
    var x, y := RoundUnbounded(a), RoundUnbounded(b);
    if x > y {
      MagnitudeMonotone(y, x);
      RoundNearest(a, y);
      RoundNearest(b, x);
    }
  }

  /** The two magnitudes around `a`. */
  lemma Neighbours(a: nat)
    requires a >= 2 * FRACTION
    ensures var s := ShiftOf(a);
            var low := s * FRACTION + a / Two(s);
            && low % 2 == (a / Two(s)) % 2
            && MagnitudeValue(low) == a - a % Two(s)
            && MagnitudeValue(low + 1) == a - a % Two(s) + Two(s)
  {
    hide ShiftOf, MagnitudeValue, Pow;
    var s := ShiftOf(a);
    var q := a / Two(s);
    QuotientBounds(a);
    ScaledMagnitude(s, q);
    ScaledMagnitude(s, q + 1);
    assert (q + 1) * Two(s) == q * Two(s) + Two(s);
    assert a == q * Two(s) + a % Two(s);
    EvenFraction(s, q);
  }

  /** A third magnitude lies on or beyond one of two neighbours. */
  lemma Bracketed(low: nat, other: nat)
    ensures other < low ==> MagnitudeValue(other) < MagnitudeValue(low)
    ensures other > low + 1 ==> MagnitudeValue(other) > MagnitudeValue(low + 1)
    ensures MagnitudeValue(low) < MagnitudeValue(low + 1)
  {
    MagnitudeMonotone(low, low + 1);
    if other < low {
      MagnitudeMonotone(other, low);
    } else if other > low + 1 {
      MagnitudeMonotone(low + 1, other);
    }
  }

  /** Choosing between neighbours with values v and v + t for v + r. */
  lemma NearestOfTwo(low: nat, q: nat, v: int, r: nat, t: nat, other: nat, w: int)
    requires r < t && low % 2 == q % 2
    requires other < low ==> w < v
    requires other > low + 1 ==> w > v + t
    requires other == low ==> w == v
    requires other == low + 1 ==> w == v + t
    ensures var up := RoundHalfEven(q, r, t) == q + 1;
            var pick, value := low + (if up then 1 else 0), v + (if up then t else 0);
            && Abs(value - (v + r)) <= Abs(w - (v + r))
            && (other != pick && Abs(w - (v + r)) <= Abs(value - (v + r)) ==> pick % 2 == 0)
  {
  }

  lemma EvenPlus(x: nat, q: nat)
    ensures (2 * x + q) % 2 == q % 2
  {
  }

  lemma EvenFraction(s: nat, q: nat)
    ensures (s * FRACTION + q) % 2 == q % 2
  {
    EvenPlus(s * (FRACTION / 2), q);
  }

  /** Values with at most 53 significant bits are rounded to themselves. */
  lemma RoundExact(m: nat, j: nat)
    requires m < 2 * FRACTION && j <= 2000
    ensures RoundMagnitude(m * Two(j)) < INFINITY
    ensures MagnitudeValue(RoundMagnitude(m * Two(j))) == m * Two(j)
  {
    var a := m * Two(j);
    if a < 2 * FRACTION {
      SmallMagnitude(a);
    } else {
      var s := ShiftOf(a);
      ShiftDivides(m, j);
      PowAdd(2, j - s, s);
      MulAssociative(m, Two(j - s), Two(s));
      var q := m * Two(j - s);
      DivModUnique(a, Two(s), q, 0);
      QuotientBounds(a);
      ScaledMagnitude(s, q);
      MulMonotone(s, 2000, FRACTION);
    }
  }

  /** The shift never exceeds the trailing zeros that are known to be there. */
  lemma ShiftDivides(m: nat, j: nat)
    requires m < 2 * FRACTION && m * Two(j) >= 2 * FRACTION
    ensures ShiftOf(m * Two(j)) <= j
  {
    var a := m * Two(j);
    BitLengthBounds(a);
    TwoConstants();
    PowAdd(2, 53, j);
    MulStrict(m, 2 * FRACTION, Two(j));
    if BitLength(a) > 53 + j {
      PowMonotone(2, 53 + j, BitLength(a) - 1);
    }
  }

  /** Every integer within 2^53 of zero is representable. */
  lemma SmallIntRepresentable(n: int)
    requires -2 * FRACTION <= n <= 2 * FRACTION
    ensures Representable(n)
  {
    SmallIntExact(Abs(n), 1074);
    assert n < 0 ==> n * Two(1074) == -(Abs(n) * Two(1074));
  }

  lemma SmallIntExact(n: nat, j: nat)
    requires n <= 2 * FRACTION && j <= 1900
    ensures RoundMagnitude(n * Two(j)) < INFINITY
    ensures MagnitudeValue(RoundMagnitude(n * Two(j))) == n * Two(j)
  {
    if n < 2 * FRACTION {
      RoundExact(n, j);
    } else {
      TwoConstants();
      PowAdd(2, 53, j);
      RoundExact(1, 53 + j);
    }
  }

  /** Conversion to binary64 keeps the order of integers, though not strictly. */
  lemma IntToFloatMonotone(n: int, m: int)
    requires n <= m
    ensures FloatValue(IntToFloat(n)) <= FloatValue(IntToFloat(m))
  {
    var u := Two(1074);
    if n >= 0 {
      MulMonotone(n, m, u);
      RoundMonotone(n * u, m * u);
      MagnitudeOrder(RoundMagnitude(n * u), RoundMagnitude(m * u));
    } else if m < 0 {
      MulMonotone(-m, -n, u);
      RoundMonotone((-m) * u, (-n) * u);
      MagnitudeOrder(RoundMagnitude((-m) * u), RoundMagnitude((-n) * u));
    }
  }

  lemma MagnitudeOrder(a: nat, b: nat)
    requires a <= b
    ensures MagnitudeValue(a) <= MagnitudeValue(b)
  {
    if a < b {
      MagnitudeMonotone(a, b);
    }
  }

  /** Widening a binary32 is exact. */
  lemma WidenExact(bits: u32)
    requires Magnitude32(bits) < INFINITY32
    ensures !IsNaN(WidenFloat(bits)) && !IsInfinite(WidenFloat(bits))
    ensures IsNegative(WidenFloat(bits)) <==> bits >= SIGN32
    ensures MagnitudeValue(Magnitude(WidenFloat(bits))) == MagnitudeValue32(Magnitude32(bits)) * Two(925)
  {
    var m := Magnitude32(bits);
    var e, f := m / FRACTION32, m % FRACTION32;
    if e == 0 {
      RoundExact(f, 925);
    } else {
      assert e <= 254;
      PowAdd(2, e - 1, 925);
      MulAssociative(FRACTION32 + f, Two(e - 1), Two(925));
      RoundExact(FRACTION32 + f, e - 1 + 925);
    }
  }

  /** The odd number just above 2^53 units rounds down to even. */
  lemma OddAboveTwoTo53(j: nat)
    ensures RoundUnbounded((2 * FRACTION + 1) * Two(j)) == RoundUnbounded(2 * FRACTION * Two(j))
  {
    var t := Two(j);
    TwoConstants();
    PowAdd(2, 53, j);
    assert Two(j + 1) == 2 * t && Two(53 + j + 1) == 2 * Two(53 + j);
    BitLengthUnique(2 * FRACTION * t, 53 + j + 1);
    BitLengthUnique((2 * FRACTION + 1) * t, 53 + j + 1);
    DivModUnique(2 * FRACTION * t, Two(j + 1), FRACTION, 0);
    DivModUnique((2 * FRACTION + 1) * t, Two(j + 1), FRACTION, t);
    assert FRACTION % 2 == 0;
  }

  // ---- Integers in binary32 ----

  function Float32Value(bits: u32): int {
    var value: int := MagnitudeValue32(Magnitude32(bits));
    if bits >= SIGN32 then -value else value
  }

  /** Some finite binary32 is exactly the integer. */
  ghost predicate Representable32(n: int) {
    exists bits: u32 :: Magnitude32(bits) < INFINITY32 && Float32Value(bits) == n * Two(149)
  }

  lemma TwoConstants32()
    ensures Two(23) == FRACTION32 && Two(24) == 2 * FRACTION32
  {
    assert Pow(2, 11) == 2048 && Pow(2, 12) == 4096;
    PowAdd(2, 11, 12);
    PowAdd(2, 12, 12);
  }

  lemma ScaledBounds(low: nat, n: nat, high: nat, t: nat)
    requires low <= n < high && t >= 1
    ensures low * t <= n * t < high * t
  {
    MulMonotone(low, n, t);
    MulStrict(n, high, t);
  }

  /** Shift a number of `k` bits up to the 24 of a binary32 significand. */
  lemma Significand(n: nat, k: nat)
    requires 1 <= k <= 24 && Two(k - 1) <= n < Two(k)
    ensures FRACTION32 <= n * Two(24 - k) < 2 * FRACTION32
    ensures n * Two(24 - k) * Two(125 + k) == n * Two(149)
  {
    hide Pow;
    TwoConstants32();
    PowAdd(2, k - 1, 24 - k);
    PowAdd(2, k, 24 - k);
    ScaledBounds(Two(k - 1), n, Two(k), Two(24 - k));
    PowAdd(2, 24 - k, 125 + k);
    MulAssociative(n, Two(24 - k), Two(125 + k));
  }

  lemma Magnitude32Of(n: nat) returns (magnitude: nat)
    requires n < 2 * FRACTION32
    ensures magnitude < INFINITY32 && MagnitudeValue32(magnitude) == n * Two(149)
  {
    if n == 0 {
      magnitude := 0;
    } else {
      var k := BitLength(n);
      BitLengthBounds(n);
      TwoConstants32();
      if k > 24 {
        PowMonotone(2, 24, k - 1);
      }
      Significand(n, k);
      var q := n * Two(24 - k);
      magnitude := (126 + k) * FRACTION32 + (q - FRACTION32);
      DivModUnique(magnitude, FRACTION32, 126 + k, q - FRACTION32);
    }
  }

  /** Integers of at most 24 bits are binary32 numbers. */
  lemma SmallIntRepresentable32(n: int)
    requires -2 * FRACTION32 < n < 2 * FRACTION32
    ensures Representable32(n)
  {
    var m := Magnitude32Of(Abs(n));
    var bits: u32 := if n < 0 then SIGN32 + m else m;
    assert Magnitude32(bits) == m;
    assert n < 0 ==> n * Two(149) == -(Abs(n) * Two(149));
    assert Float32Value(bits) == n * Two(149);
  }

  lemma EvenTimes(x: nat, d: nat)
    requires d >= 1
    ensures x * Two(d) % 2 == 0
  {
    MulAssociative(x, 2, Two(d - 1));
    MulAssociative(2, x, Two(d - 1));
  }

  /** A 24-bit significand never reaches an odd integer of 25 bits or more. */
  lemma OddTooWide(q: nat, e: nat, n: nat)
    requires q < 2 * FRACTION32 < n && n % 2 == 1
    ensures q * Two(e) != n * Two(149)
  {
    if e <= 149 {
      PowAdd(2, 149 - e, e);
      MulAssociative(n, Two(149 - e), Two(e));
      MulMonotone(1, Two(149 - e), n);
      MulStrict(q, n * Two(149 - e), Two(e));
    } else {
      PowAdd(2, e - 149, 149);
      MulAssociative(q, Two(e - 149), Two(149));
      EvenTimes(q, e - 149);
      if q * Two(e) == n * Two(149) {
        MulCancel(q * Two(e - 149), n, Two(149));
      }
    }
  }

  lemma OddNotRepresentable32(n: nat)
    requires n > 2 * FRACTION32 && n % 2 == 1
    ensures !Representable32(n)
  {
    forall bits: u32 ensures Float32Value(bits) != n * Two(149) {
      var m := Magnitude32(bits);
      var e, f := m / FRACTION32, m % FRACTION32;
      MulStrict(0, n, Two(149));
      if e == 0 {
        assert Two(0) == 1;
        OddTooWide(f, 0, n);
      } else {
        OddTooWide(FRACTION32 + f, e - 1, n);
      }
    }
  }

  lemma TwoTo53Plus1NotRepresentable()
    ensures !Representable(2 * FRACTION + 1)
  {
    OddAboveTwoTo53(1074);
    SmallIntRepresentable(2 * FRACTION);
    MulStrict(2 * FRACTION, 2 * FRACTION + 1, Two(1074));
  }

  lemma NegateProduct(a: int, c: int)
    ensures (-a) * c == -(a * c)
  {
  }

  /** The widened number is the same number, sign included. */
  lemma WidenKeepsValue(bits: u32)
    requires Magnitude32(bits) < INFINITY32
    ensures FloatValue(WidenFloat(bits)) == Float32Value(bits) * Two(925)
  {
    hide WidenFloat, MagnitudeValue, MagnitudeValue32, Magnitude, Magnitude32, Pow, IsNegative;
    WidenExact(bits);
    NegateProduct(MagnitudeValue32(Magnitude32(bits)), Two(925));
  }

  /** The layout of the two formats: 11 and 8 exponent bits above 52 and 23 fraction bits, the sign on top. */
  lemma FormatLayout()
    ensures FRACTION == Two(52) && INFINITY == (Two(11) - 1) * Two(52) && SIGN == Two(63)
    ensures CANONICAL_NAN == INFINITY + Two(51)
    ensures FRACTION32 == Two(23) && INFINITY32 == (Two(8) - 1) * Two(23) && SIGN32 == Two(31)
  {
    TwoConstants();
    TwoConstants32();
    PowAdd(2, 11, 52);
    PowAdd(2, 8, 23);
    assert Two(11) == 2048 && Two(8) == 256;
  }

  /** Infinities widen to infinities of the same sign, NaNs to NaNs. */
  lemma WidenSpecial(bits: u32)
    requires Magnitude32(bits) >= INFINITY32
    ensures IsInfinite(WidenFloat(bits)) <==> Magnitude32(bits) == INFINITY32
    ensures IsNaN(WidenFloat(bits)) <==> Magnitude32(bits) > INFINITY32
    ensures IsNegative(WidenFloat(bits)) <==> bits >= SIGN32
  {
  }
}
