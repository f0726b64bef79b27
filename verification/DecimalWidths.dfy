/** How many bytes a ClickHouse decimal takes: the fewest that hold every mantissa of its precision. */
module DecimalWidths {
  import opened Basics
  import opened Wire
  import opened RowBinary

  /** Every mantissa of `p` digits fits in `width` bytes. */
  ghost predicate HoldsDigits(width: nat, p: nat) {
    forall n: int :: Abs(n) < Ten(p) ==> FitsSigned(n, width)
  }

  lemma Tens()
    ensures Ten(9) == 1_000_000_000 && Ten(10) == 10_000_000_000
    ensures Ten(18) == 1_000_000_000_000_000_000 && Ten(19) == 10_000_000_000_000_000_000
    ensures Ten(38) == 100_000_000_000_000_000_000_000_000_000_000_000_000
    ensures Ten(39) == 1_000_000_000_000_000_000_000_000_000_000_000_000_000
    ensures Ten(76) == Ten(38) * Ten(38)
  {
    PowAdd(10, 9, 9);
    PowAdd(10, 9, 10);
    PowAdd(10, 19, 19);
    PowAdd(10, 19, 20);
    PowAdd(10, 10, 10);
    PowAdd(10, 38, 38);
  }

  lemma Widths()
    ensures Bytes256(4) == 0x1_0000_0000 && Bytes256(8) == 0x1_0000_0000_0000_0000
    ensures Bytes256(16) == 0x1_0000_0000_0000_0000_0000_0000_0000_0000
    ensures Bytes256(32) == Bytes256(16) * Bytes256(16)
  {
    SignedWidths();
    Width16();
    PowAdd(256, 16, 16);
  }

  lemma WideEnough(width: nat, p: nat, top: nat)
    requires p <= top && 2 * Ten(top) <= Bytes256(width)
    ensures HoldsDigits(width, p)
  {
    PowMonotone(10, p, top);
  }

  /** The mantissa of `least` nines, a number of at most `p` digits, is too wide. */
  lemma TooNarrow(width: nat, least: nat, p: nat) returns (n: int)
    requires least <= p && 2 * (Ten(least) - 1) >= Bytes256(width)
    ensures Abs(n) < Ten(p) && !FitsSigned(n, width)
  {
    PowMonotone(10, least, p);
    n := Ten(least) - 1;
  }

  lemma Narrower(width: nat, least: nat, p: nat)
    requires least <= p && 2 * (Ten(least) - 1) >= Bytes256(width)
    ensures !HoldsDigits(width, p)
  {
    var n := TooNarrow(width, least, p);
  }

  lemma Bytes32Big()
    ensures 2 * Ten(76) <= Bytes256(32)
  {
    Tens();
    Widths();
    var t, b := Ten(38), Bytes256(16);
    assert 2 * t * t <= b * b by {
      assert 3 * t <= b;
      MulMonotone(3 * t, b, 3 * t);
      MulMonotone(3 * t, b, b);
    }
  }

  /** For up to 76 digits the width is the least of 4, 8, 16 and 32 that holds them all; beyond, it is 32. */
  lemma LeastWidth(p: nat)
    ensures DecimalWidth(p) in {4, 8, 16, 32}
    ensures p <= 76 ==> HoldsDigits(DecimalWidth(p), p)
    ensures forall w | w in {4, 8, 16, 32} && w < DecimalWidth(p) :: !HoldsDigits(w, p)
    ensures p > 76 ==> DecimalWidth(p) == 32
  {
    Tens();
    Widths();
    Bytes32Big();
    hide Pow, HoldsDigits, Bytes256;
    if p <= 9 {
      WideEnough(4, p, 9);
    } else if p <= 18 {
      WideEnough(8, p, 18);
      Narrower(4, 10, p);
    } else if p <= 38 {
      WideEnough(16, p, 38);
      Narrower(4, 10, p);
      Narrower(8, 19, p);
    } else {
      if p <= 76 {
        WideEnough(32, p, 76);
      }
      Narrower(4, 10, p);
      Narrower(8, 19, p);
      Narrower(16, 39, p);
    }
  }

  /**
   What is on the wire: the least width for the column's precision, 16 bytes when it has none; and no scale means
   scale 0.
   */
  lemma WrittenLength(precision: Option<u32>, scale: Option<u32>, m: int, s: int)
    requires EncodeDecimal(precision, scale, m, s).Ok?
    ensures var w := |EncodeDecimal(precision, scale, m, s).value|;
            && w in {4, 8, 16, 32}
            && (precision.None? ==> w == 16)
            && (precision.Some? && precision.value <= 76 ==> HoldsDigits(w, precision.value))
            && (precision.Some? ==> forall v | v in {4, 8, 16, 32} && v < w :: !HoldsDigits(v, precision.value))
            && (precision.Some? && precision.value > 76 ==> w == 32)
    ensures scale.None? ==> EncodeDecimal(precision, scale, m, s) == EncodeDecimal(precision, Some(0), m, s)
  {
    hide HoldsDigits, RoundDown;
    if precision.Some? {
      LeastWidth(precision.value);
    }
  }
}
