/** What the lossless arms into floating point mean as sets of numbers. */
module MatrixFloats {
  import opened Basics
  import opened DataTypes
  import opened Matrix
  import opened MatrixRanges
  import opened Floats

  /** The integer is exactly a number of the float type. */
  ghost predicate FloatHolds(t: DataType, n: int) {
    if t.Float32? then Representable32(n) else Representable(n)
  }

  lemma TooWideInteger(s: DataType, t: DataType) returns (n: int)
    requires (t.Float32? && (s.Int32? || s.Int64?)) || (t.Float64? && s.Int64?)
    ensures FixedMin(s) <= n <= FixedMax(s) && !FloatHolds(t, n)
  {
    if t.Float32? {
      n := 2 * FRACTION32 + 1;
      OddNotRepresentable32(n);
    } else {
      n := 2 * FRACTION + 1;
      TwoTo53Plus1NotRepresentable();
    }
  }

  lemma NarrowInteger(s: DataType, t: DataType, n: int)
    requires (t.Float32? && (s.Int8? || s.Int16?)) || (t.Float64? && (s.Int8? || s.Int16? || s.Int32?))
    requires FixedMin(s) <= n <= FixedMax(s)
    ensures FloatHolds(t, n)
  {
    if t.Float32? {
      SmallIntRepresentable32(n);
    } else {
      SmallIntRepresentable(n);
    }
  }

  /** A signed integer column enters a float column exactly when the float type holds each of its integers. */
  lemma SignedIntoFloat(s: DataType, t: DataType)
    requires IsSigned(s) && (t.Float32? || t.Float64?)
    ensures IsCompatible(s, t) <==> forall n | FixedMin(s) <= n <= FixedMax(s) :: FloatHolds(t, n)
  {
    hide FloatHolds;
    if (t.Float32? && (s.Int32? || s.Int64?)) || (t.Float64? && s.Int64?) {
      var n := TooWideInteger(s, t);
    } else {
      forall n | FixedMin(s) <= n <= FixedMax(s) ensures FloatHolds(t, n) {
        NarrowInteger(s, t, n);
      }
    }
  }

  /** Unsigned columns are refused, although the narrow ones would fit. */
  lemma UnsignedIntoFloatRefused(s: DataType, t: DataType)
    requires IsUnsigned(s) && (t.Float32? || t.Float64?)
    ensures !IsCompatible(s, t)
    ensures s.UInt8? ==> forall n | FixedMin(s) <= n <= FixedMax(s) :: FloatHolds(t, n)
  {
    if s.UInt8? {
      forall n | FixedMin(s) <= n <= FixedMax(s) ensures FloatHolds(t, n) {
        if t.Float32? {
          SmallIntRepresentable32(n);
        } else {
          SmallIntRepresentable(n);
        }
      }
    }
  }

  /** Every finite binary32 is a binary64 number, so the one arm between the float types is sound. */
  lemma Float32IntoFloat64(bits: u32)
    requires Magnitude32(bits) < INFINITY32
    ensures IsCompatible(Float32, Float64) && !IsCompatible(Float64, Float32)
    ensures exists wide: u64 :: !IsNaN(wide) && !IsInfinite(wide) && FloatValue(wide) == Float32Value(bits) * Two(925)
  {
    hide WidenFloat, FloatValue, Float32Value, Pow;
    WidenExact(bits);
    WidenKeepsValue(bits);
  }
}
