/** Arbitrary-precision decimals as mantissa and scale: the number m / 10^s, s of any sign. */
module Decimals {
  import opened Basics

  /** The mantissa at a finer scale `k`. */
  function Rescale(m: int, s: int, k: int): int
    requires s <= k
  {
    m * Ten(k - s)
  }

  /** `BigDecimal::cmp` compares the numbers. */
  function CompareDecimal(m1: int, s1: int, m2: int, s2: int): Ordering {
    var k := Max(s1, s2);
    CompareInt(Rescale(m1, s1, k), Rescale(m2, s2, k))
  }

  /** `BigDecimal::normalized`: no trailing zeros, and zero has scale 0. */
  function Normalized(m: int, s: int): (r: (int, int))
    decreases Abs(m)
  {
    if m == 0 then (0, 0)
    else if m % 10 == 0 then Normalized(m / 10, s - 1)
    else (m, s)
  }

  lemma RescaleTwice(m: int, s: int, j: int, k: int)
    requires s <= j <= k
    ensures Rescale(m, s, k) == Rescale(m, s, j) * Ten(k - j)
  {
    PowAdd(10, j - s, k - j);
    MulAssociative(m, Ten(j - s), Ten(k - j));
  }

  /** Any common scale gives the same comparison. */
  lemma CompareAtScale(m1: int, s1: int, m2: int, s2: int, k: int)
    requires s1 <= k && s2 <= k
    ensures CompareDecimal(m1, s1, m2, s2) == CompareInt(Rescale(m1, s1, k), Rescale(m2, s2, k))
  {
    var j := Max(s1, s2);
    RescaleTwice(m1, s1, j, k);
    RescaleTwice(m2, s2, j, k);
    CompareScaled(Rescale(m1, s1, j), Rescale(m2, s2, j), Ten(k - j));
  }

  lemma CompareDecimalTransitive(m1: int, s1: int, m2: int, s2: int, m3: int, s3: int)
    requires CompareDecimal(m1, s1, m2, s2) != Greater && CompareDecimal(m2, s2, m3, s3) != Greater
    ensures CompareDecimal(m1, s1, m3, s3) == CompareDecimal(m1, s1, m2, s2).Then(CompareDecimal(m2, s2, m3, s3))
  {
    var k := Max(s1, Max(s2, s3));
    CompareAtScale(m1, s1, m2, s2, k);
    CompareAtScale(m2, s2, m3, s3, k);
    CompareAtScale(m1, s1, m3, s3, k);
  }

  lemma CompareDecimalReverse(m1: int, s1: int, m2: int, s2: int)
    ensures CompareDecimal(m2, s2, m1, s1) == CompareDecimal(m1, s1, m2, s2).Reverse()
  {
  }

  predicate IsNormal(r: (int, int)) {
    r == (0, 0) || r.0 % 10 != 0
  }

  /** Normalising keeps the number. */
  lemma {:induction false} NormalizedKeepsValue(m: int, s: int)
    ensures IsNormal(Normalized(m, s))
    ensures CompareDecimal(Normalized(m, s).0, Normalized(m, s).1, m, s) == Equal
    decreases Abs(m)
  {
    if m != 0 && m % 10 == 0 {
      var r := Normalized(m / 10, s - 1);
      NormalizedKeepsValue(m / 10, s - 1);
      assert Ten(1) == 10 && Ten(0) == 1;
      assert CompareDecimal(m / 10, s - 1, m, s) == Equal;
      CompareDecimalTransitive(r.0, r.1, m / 10, s - 1, m, s);
    }
  }

  /** A number has one normal form. */
  lemma NormalUnique(r: (int, int), q: (int, int))
    requires IsNormal(r) && IsNormal(q) && r.1 <= q.1
    requires CompareDecimal(r.0, r.1, q.0, q.1) == Equal
    ensures r == q
  {
    var d := q.1 - r.1;
    assert Ten(0) == 1 && Rescale(q.0, q.1, q.1) == q.0;
    assert Rescale(r.0, r.1, q.1) == q.0;
    if d > 0 {
      TrailingZero(r.0, d);
    }
  }

  lemma TrailingZero(m: int, d: nat)
    requires d > 0
    ensures (m * Ten(d)) % 10 == 0
    ensures m * Ten(d) == 0 ==> m == 0
  {
    var x := m * Ten(d - 1);
    assert m * Ten(d) == 10 * x by {
      MulAssociative(m, 10, Ten(d - 1));
      MulAssociative(10, m, Ten(d - 1));
    }
    if m * Ten(d) == 0 {
      MulCancel(m, 0, Ten(d));
    }
  }

  /** Decimals that compare equal normalise to the same pair, and conversely. */
  lemma NormalizedDecides(m1: int, s1: int, m2: int, s2: int)
    ensures CompareDecimal(m1, s1, m2, s2) == Equal <==> Normalized(m1, s1) == Normalized(m2, s2)
  {
    var r, q := Normalized(m1, s1), Normalized(m2, s2);
    NormalizedKeepsValue(m1, s1);
    NormalizedKeepsValue(m2, s2);
    if CompareDecimal(m1, s1, m2, s2) == Equal {
      CompareDecimalTransitive(r.0, r.1, m1, s1, m2, s2);
      CompareDecimalTransitive(r.0, r.1, m2, s2, q.0, q.1);
      if r.1 <= q.1 {
        NormalUnique(r, q);
      } else {
        NormalUnique(q, r);
      }
    } else if r == q {
      CompareDecimalTransitive(m1, s1, r.0, r.1, m2, s2);
    }
  }

  // ---- The numbers themselves ----

  /** The number a mantissa and a scale stand for. */
  function Amount(m: int, s: int): real {
    if s >= 0 then m as real / Ten(s) as real else (m * Ten(-s)) as real
  }

  lemma QuotientScaled(m: real, x: real, y: real)
    requires x > 0.0
    ensures m / x * (x * y) == m * y
  {
    assert m / x * x == m;
  }

  lemma ProductAsReal(x: int, y: int)
    ensures (x * y) as real == x as real * y as real
  {
  }

  lemma FractionScaled(m: int, s: nat, k: nat)
    requires s <= k
    ensures Amount(m, s) * Ten(k) as real == (m * Ten(k - s)) as real
  {
    PowAdd(10, s, k - s);
    hide Pow;
    var x, y := Ten(s), Ten(k - s);
    ProductAsReal(x, y);
    ProductAsReal(m, y);
    QuotientScaled(m as real, x as real, y as real);
  }

  lemma WholeScaled(m: int, s: nat, k: nat)
    ensures (m * Ten(s)) as real * Ten(k) as real == (m * Ten(k + s)) as real
  {
    PowAdd(10, s, k);
    MulAssociative(m, Ten(s), Ten(k));
    ProductAsReal(m * Ten(s), Ten(k));
  }

  lemma AmountScaled(m: int, s: int, k: nat)
    requires s <= k
    ensures Amount(m, s) * Ten(k) as real == Rescale(m, s, k) as real
  {
    if s >= 0 {
      FractionScaled(m, s, k);
    } else {
      WholeScaled(m, -s, k);
    }
  }

  lemma RealOrder(x: real, y: real, k: real)
    requires k > 0.0
    ensures x * k < y * k <==> x < y
    ensures x * k == y * k <==> x == y
  {
    assert (y - x) * k == y * k - x * k;
  }

  /** `cmp` orders decimals as the numbers they are. */
  lemma CompareDecimalMeans(m1: int, s1: int, m2: int, s2: int)
    ensures CompareDecimal(m1, s1, m2, s2) == Less <==> Amount(m1, s1) < Amount(m2, s2)
    ensures CompareDecimal(m1, s1, m2, s2) == Equal <==> Amount(m1, s1) == Amount(m2, s2)
    ensures CompareDecimal(m1, s1, m2, s2) == Greater <==> Amount(m1, s1) > Amount(m2, s2)
  {
    hide CompareDecimal, Amount, Rescale, Ten;
    var k := Max(0, Max(s1, s2));
    CompareAtScale(m1, s1, m2, s2, k);
    AmountScaled(m1, s1, k);
    AmountScaled(m2, s2, k);
    var x, y := Rescale(m1, s1, k), Rescale(m2, s2, k);
    assert x < y <==> x as real < y as real;
    RealOrder(Amount(m1, s1), Amount(m2, s2), Ten(k) as real);
  }
}
