/**
 What the matrices promise, sink by sink, in terms of the values themselves: which texts, octets and numbers of the
 source a sink column can hold, and what a consented cut keeps of the rest.
 */
module MatrixMeaning {
  import opened Basics
  import opened DataTypes
  import V = Values
  import opened Matrix
  import opened MatrixFold
  import opened MatrixRanges
  import opened MatrixFloats
  import opened Addresses

  // ---- Lengths ----

  predicate Fits(length: nat, size: Option<u32>) {
    size.Some? ==> length <= size.value
  }

  /** Types with a canonical text. */
  predicate HasText(t: DataType) {
    !t.Interval? && !t.Union?
  }

  /** The lengths of the texts of a column. Outside text, identifiers and addresses no bound is relied on. */
  ghost predicate TextLength(t: DataType, n: nat) {
    match t
    case Text(size) => Fits(n, size)
    case Uuid => exists u: V.Octets16 :: |UuidText(u)| == n
    case Ipv4 => exists a: V.Octets4 :: |Ipv4Text(a)| == n
    case Ipv6 => exists a: V.Octets16 :: |Ipv6Text(a)| == n
    case _ => true
  }

  /** Types whose values are octets, identifiers and addresses in network order. */
  predicate HasOctets(t: DataType) {
    t.Bytes? || t.Uuid? || t.Ipv4? || t.Ipv6?
  }

  ghost predicate OctetLength(t: DataType, n: nat) {
    match t
    case Bytes(size) => Fits(n, size)
    case Ipv4 => exists a: V.Octets4 :: |a| == n
    case _ => exists a: V.Octets16 :: |a| == n
  }

  // ---- Lossless ----

  ghost predicate EveryTextFits(s: DataType, size: Option<u32>) {
    forall n: nat :: TextLength(s, n) ==> Fits(n, size)
  }

  ghost predicate EveryOctetsFit(s: DataType, size: Option<u32>) {
    forall n: nat :: OctetLength(s, n) ==> Fits(n, size)
  }

  /** Some value of the sink has a text the source column may hold. */
  ghost predicate SomeTextReads(s: DataType, t: DataType) {
    exists n: nat :: TextLength(s, n) && TextLength(t, n)
  }

  ghost predicate SomeOctetsRead(s: DataType, t: DataType) {
    exists n: nat :: OctetLength(s, n) && OctetLength(t, n)
  }

  /** The integers of a fixed-width type or of a flag. */
  predicate HasInteger(s: DataType, n: int) {
    if s.Bool? then n == 0 || n == 1 else IsFixedInt(s) && FixedMin(s) <= n <= FixedMax(s)
  }

  ghost predicate KeepsText(s: DataType, size: Option<u32>) {
    HasText(s) && EveryTextFits(s, size)
  }

  ghost predicate KeepsOctets(s: DataType, size: Option<u32>) {
    HasOctets(s) && EveryOctetsFit(s, size)
  }

  /** Reading an identifier back from text or octets is checked value by value; the column must be able to hold one. */
  ghost predicate KeepsIdentifier(s: DataType, t: DataType) {
    (s.Text? && SomeTextReads(s, t)) || (s.Bytes? && SomeOctetsRead(s, t)) || (s.Ipv4? && t.Ipv6?)
  }

  ghost predicate KeepsInteger(s: DataType, t: DataType) {
    (s.Bool? || IsFixedInt(s)) && forall n :: HasInteger(s, n) ==> HasInteger(t, n)
  }

  ghost predicate KeepsFloat(s: DataType, t: DataType) {
    || ((s.Bool? || IsSigned(s)) && forall n :: HasInteger(s, n) ==> FloatHolds(t, n))
    || (s.Float32? && t.Float64?)
  }

  /** A fixed-width integer enters every big integer, whatever its width. */
  predicate KeepsBigInt(s: DataType, width: Option<u32>) {
    s.Bool? || IsFixedInt(s) || (s.BigInt? && (width.Some? ==> s.width.Some? && s.width.value <= width.value))
  }

  /** An integer of `digits` digits leaves room for the sink's scale. */
  predicate IntegerPlacesFit(digits: nat, precision: Option<u32>, scale: nat) {
    precision.Some? ==> digits == 0 || digits + scale <= precision.value
  }

  /** Places after the point and places before it both suffice. */
  predicate DecimalPlacesFit(p: Option<u32>, s: nat, precision: Option<u32>, scale: nat) {
    precision.Some? ==> p.Some? && s <= scale && (p.value <= s || p.value - s <= precision.value - scale)
  }

  predicate KeepsDecimal(s: DataType, precision: Option<u32>, scale: nat) {
    || (s.Bool? && IntegerPlacesFit(1, precision, scale))
    || (IsFixedInt(s) && IntegerPlacesFit(FixedDigits(s), precision, scale))
    || (s.BigInt? && (precision.Some? ==> s.width.Some? && IntegerPlacesFit(s.width.value, precision, scale)))
    || (s.Decimal? && DecimalPlacesFit(s.precision, if s.scale.Some? then s.scale.value else 0, precision, scale))
  }

  /** Between two different types, neither source nor sink a union and not both arrays. */
  ghost predicate Keeps(s: DataType, t: DataType) {
    if t.Text? then KeepsText(s, t.size)
    else if t.Bytes? then KeepsOctets(s, t.size)
    else if IsIdentifier(t) then KeepsIdentifier(s, t)
    else if IsFixedInt(t) then KeepsInteger(s, t)
    else if IsFloat(t) then KeepsFloat(s, t)
    else if t.BigInt? then KeepsBigInt(s, t.width)
    else if t.Decimal? then KeepsDecimal(s, t.precision, if t.scale.Some? then t.scale.value else 0)
    else
      || (t.Bool? && (IsFixedInt(s) || s.Text?))
      || (t.Xml? && s.Text?)
      || (t.Json? && (s.Object? || s.Array?))
  }

  // Lengths, from the canonical texts.

  lemma UuidLengths(n: nat)
    ensures TextLength(Uuid, n) <==> n == 36
  {
    assert |UuidText(UNSPECIFIED)| == 36;
  }

  lemma Ipv4TextLengths(n: nat)
    ensures TextLength(Ipv4, n) ==> 7 <= n <= 15
    ensures n == 7 || n == 15 ==> TextLength(Ipv4, n)
  {
    hide Ipv4Text;
    forall a: V.Octets4 ensures 7 <= |Ipv4Text(a)| <= 15 {
      Ipv4Lengths(a);
    }
    Ipv4Bounds();
  }

  lemma Ipv6TextLengths(n: nat)
    ensures TextLength(Ipv6, n) ==> 2 <= n <= 39
    ensures n == 2 || n == 39 ==> TextLength(Ipv6, n)
  {
    hide Ipv6Text;
    forall a: V.Octets16 ensures 2 <= |Ipv6Text(a)| <= 39 {
      Ipv6Lengths(a);
    }
    Ipv6Bounds();
  }

  lemma TextLengths(t: DataType, n: nat)
    requires IsIdentifier(t)
    ensures TextLength(t, n) ==> ShortestText(t) <= n <= LongestText(t)
    ensures n == ShortestText(t) || n == LongestText(t) ==> TextLength(t, n)
  {
    hide TextLength;
    if t.Uuid? {
      UuidLengths(n);
    } else if t.Ipv4? {
      Ipv4TextLengths(n);
    } else {
      Ipv6TextLengths(n);
    }
  }

  lemma OctetLengths(t: DataType, n: nat)
    requires IsIdentifier(t)
    ensures OctetLength(t, n) <==> n == if t.Ipv4? then 4 else 16
  {
    var four: V.Octets4 := [0, 0, 0, 0];
    assert |four| == 4 && |UNSPECIFIED| == 16;
  }

  function LongestText(t: DataType): nat
    requires IsIdentifier(t)
  {
    if t.Uuid? then 36 else if t.Ipv4? then 15 else 39
  }

  function ShortestText(t: DataType): nat
    requires IsIdentifier(t)
  {
    if t.Uuid? then 36 else if t.Ipv4? then 7 else 2
  }

  lemma IdentifierTextFits(s: DataType, size: Option<u32>)
    requires IsIdentifier(s)
    ensures EveryTextFits(s, size) <==> Fits(LongestText(s), size)
  {
    hide TextLength;
    TextLengths(s, LongestText(s));
    forall n: nat ensures TextLength(s, n) ==> n <= LongestText(s) {
      TextLengths(s, n);
    }
  }

  lemma IdentifierTextReads(s: DataType, t: DataType)
    requires IsIdentifier(t) && s.Text?
    ensures SomeTextReads(s, t) <==> Fits(ShortestText(t), s.size)
  {
    forall n: nat ensures TextLength(t, n) ==> n >= ShortestText(t) {
      TextLengths(t, n);
    }
    hide TextLength;
    TextLengths(t, ShortestText(t));
    forall n: nat ensures TextLength(s, n) <==> Fits(n, s.size) {
      TextLengthOfText(s, n);
    }
  }

  lemma TextLengthOfText(s: DataType, n: nat)
    requires s.Text?
    ensures TextLength(s, n) <==> Fits(n, s.size)
  {
  }

  lemma IdentifierOctetsFit(s: DataType, size: Option<u32>)
    requires IsIdentifier(s)
    ensures EveryOctetsFit(s, size) <==> Fits(if s.Ipv4? then 4 else 16, size)
  {
    hide OctetLength;
    forall n: nat ensures OctetLength(s, n) <==> n == if s.Ipv4? then 4 else 16 {
      OctetLengths(s, n);
    }
  }

  lemma IdentifierOctetsRead(s: DataType, t: DataType)
    requires IsIdentifier(t) && s.Bytes?
    ensures SomeOctetsRead(s, t) <==> Fits(if t.Ipv4? then 4 else 16, s.size)
  {
    var k := if t.Ipv4? then 4 else 16;
    forall n: nat ensures OctetLength(t, n) <==> n == k {
      OctetLengths(t, n);
    }
    if Fits(k, s.size) {
      assert OctetLength(s, k) && OctetLength(t, k);
    }
  }

  /** What fits a bound fits another exactly when the other is no smaller. */
  lemma BoundsInclude(a: Option<u32>, b: Option<u32>)
    ensures FitsSize(a, b) <==> forall n: nat :: Fits(n, a) ==> Fits(n, b)
  {
    if !FitsSize(a, b) {
      var n: nat := b.value + 1;
      assert Fits(n, a) && !Fits(n, b);
    }
  }

  lemma PlainTextFits(s: DataType, size: Option<u32>)
    requires !s.Text? && !IsIdentifier(s)
    ensures EveryTextFits(s, size) <==> size.None?
  {
    if size.Some? {
      assert TextLength(s, size.value + 1);
    }
  }

  // Sink by sink.

  lemma IntoText(s: DataType, t: DataType)
    requires t.Text? && s != t
    ensures LosslessArm(s, t) <==> KeepsText(s, t.size)
  {
    hide EveryTextFits;
    if s.Text? {
      TextIntoText(s, t.size);
    } else if IsIdentifier(s) {
      IdentifierTextFits(s, t.size);
    } else {
      PlainTextFits(s, t.size);
    }
  }

  lemma TextIntoText(s: DataType, size: Option<u32>)
    requires s.Text?
    ensures EveryTextFits(s, size) <==> FitsSize(s.size, size)
  {
    BoundsInclude(s.size, size);
  }

  lemma BytesIntoBytes(s: DataType, size: Option<u32>)
    requires s.Bytes?
    ensures EveryOctetsFit(s, size) <==> FitsSize(s.size, size)
  {
    BoundsInclude(s.size, size);
  }

  lemma IntoBytes(s: DataType, t: DataType)
    requires t.Bytes? && s != t
    ensures LosslessArm(s, t) <==> KeepsOctets(s, t.size)
  {
    hide EveryOctetsFit;
    if s.Bytes? {
      BytesIntoBytes(s, t.size);
    } else if IsIdentifier(s) {
      IdentifierOctetsFit(s, t.size);
    }
  }

  lemma IntoIdentifier(s: DataType, t: DataType)
    requires IsIdentifier(t) && s != t
    ensures LosslessArm(s, t) <==> KeepsIdentifier(s, t)
  {
    hide SomeTextReads, SomeOctetsRead;
    if s.Text? {
      IdentifierTextReads(s, t);
    } else if s.Bytes? {
      IdentifierOctetsRead(s, t);
    }
  }

  lemma IntegersKeptByEnds(s: DataType, t: DataType)
    requires IsFixedInt(t)
    ensures KeepsInteger(s, t) <==> s.Bool? || (IsFixedInt(s) && FixedMin(t) <= FixedMin(s) && FixedMax(s) <= FixedMax(t))
  {
    if IsFixedInt(s) {
      EndsHeld(s);
    }
  }

  lemma EndsHeld(s: DataType)
    requires IsFixedInt(s)
    ensures HasInteger(s, FixedMin(s)) && HasInteger(s, FixedMax(s))
  {
  }

  lemma IntoFixedInt(s: DataType, t: DataType)
    requires IsFixedInt(t) && s != t
    ensures LosslessArm(s, t) <==> KeepsInteger(s, t)
  {
    hide KeepsInteger, FixedMin, FixedMax, LosslessArm;
    IntegersKeptByEnds(s, t);
    if IsSigned(s) {
      SignedArm(s, t);
    } else if IsUnsigned(s) {
      UnsignedArm(s, t);
    } else {
      OnlyFlagsAreIntegers(s, t);
    }
  }

  lemma OnlyFlagsAreIntegers(s: DataType, t: DataType)
    requires IsFixedInt(t) && !IsFixedInt(s)
    ensures LosslessArm(s, t) <==> s.Bool?
  {
  }

  lemma IntoFloat(s: DataType, t: DataType)
    requires IsFloat(t) && s != t
    ensures LosslessArm(s, t) <==> KeepsFloat(s, t)
  {
    hide FloatHolds, FixedMin, FixedMax;
    if IsSigned(s) {
      SignedIntoFloat(s, t);
    } else if s.Bool? {
      FlagIntoFloat(t);
    }
  }

  lemma FlagIntoFloat(t: DataType)
    requires IsFloat(t)
    ensures FloatHolds(t, 0) && FloatHolds(t, 1)
  {
    NarrowInteger(Int8, t, 0);
    NarrowInteger(Int8, t, 1);
  }

  lemma IntoBigInt(s: DataType, t: DataType)
    requires t.BigInt? && s != t
    ensures LosslessArm(s, t) <==> KeepsBigInt(s, t.width)
  {
  }

  lemma IntoDecimal(s: DataType, t: DataType)
    requires t.Decimal? && s != t
    ensures LosslessArm(s, t) <==> KeepsDecimal(s, t.precision, if t.scale.Some? then t.scale.value else 0)
  {
  }

  lemma IntoOthers(s: DataType, t: DataType)
    requires !t.Text? && !t.Bytes? && !IsIdentifier(t) && !IsFixedInt(t) && !IsFloat(t) && !t.BigInt? && !t.Decimal?
    ensures LosslessArm(s, t) <==> Keeps(s, t)
  {
  }

  /** The lossless matrix says yes exactly where the sink column can hold what the source column holds. */
  lemma LosslessKeeps(s: DataType, t: DataType)
    requires s != t && !s.Union? && !(s.Array? && t.Array?)
    ensures IsCompatible(s, t) <==> Keeps(s, t)
  {
    hide LosslessArm, Keeps;
    UnequalLossless(s, t);
    ArmKeeps(s, t);
  }

  lemma ArmKeeps(s: DataType, t: DataType)
    requires s != t
    ensures LosslessArm(s, t) <==> Keeps(s, t)
  {
    hide LosslessArm, KeepsText, KeepsOctets, KeepsIdentifier, KeepsInteger, KeepsFloat, KeepsBigInt, KeepsDecimal;
    hide IsIdentifier, IsFixedInt, IsFloat;
    if t.Text? {
      IntoText(s, t);
    } else if t.Bytes? {
      IntoBytes(s, t);
    } else if IsIdentifier(t) {
      IntoIdentifier(s, t);
    } else if IsFixedInt(t) || IsFloat(t) || t.BigInt? || t.Decimal? {
      ArmKeepsNumber(s, t);
    } else {
      IntoOthers(s, t);
    }
  }

  lemma ArmKeepsNumber(s: DataType, t: DataType)
    requires s != t && (IsFixedInt(t) || IsFloat(t) || t.BigInt? || t.Decimal?)
    ensures LosslessArm(s, t) <==> Keeps(s, t)
  {
    hide LosslessArm, KeepsText, KeepsOctets, KeepsIdentifier, KeepsInteger, KeepsFloat, KeepsBigInt, KeepsDecimal;
    if IsFixedInt(t) {
      IntoFixedInt(s, t);
    } else if IsFloat(t) {
      IntoFloat(s, t);
    } else if t.BigInt? {
      IntoBigInt(s, t);
    } else {
      IntoDecimal(s, t);
    }
  }

  lemma UnequalLossless(s: DataType, t: DataType)
    requires s != t && !s.Union? && !(s.Array? && t.Array?)
    ensures IsCompatible(s, t) <==> LosslessArm(s, t)
  {
    if t.Union? {
      UnionSinkRefused(s, t);
    }
  }

  lemma UnionSinkRefused(s: DataType, t: DataType)
    requires t.Union?
    ensures !LosslessArm(s, t)
  {
  }

  /** The sizes 36, 15, 39, 16 and 4 are the longest texts and the octets of the values themselves. */
  lemma IdentifierSizes(n: u32)
    ensures IsCompatible(Uuid, Text(Some(n))) <==> forall u: V.Octets16 :: |UuidText(u)| <= n
    ensures IsCompatible(Ipv4, Text(Some(n))) <==> forall a: V.Octets4 :: |Ipv4Text(a)| <= n
    ensures IsCompatible(Ipv6, Text(Some(n))) <==> forall a: V.Octets16 :: |Ipv6Text(a)| <= n
    ensures IsCompatible(Uuid, Bytes(Some(n))) <==> forall u: V.Octets16 :: |u| <= n
    ensures IsCompatible(Ipv4, Bytes(Some(n))) <==> forall a: V.Octets4 :: |a| <= n
    ensures IsCompatible(Ipv6, Bytes(Some(n))) <==> forall a: V.Octets16 :: |a| <= n
  {
    UuidSizes(n);
    Ipv4Sizes(n);
    Ipv6Sizes(n);
  }

  lemma UuidSizes(n: u32)
    ensures IsCompatible(Uuid, Text(Some(n))) <==> forall u: V.Octets16 :: |UuidText(u)| <= n
    ensures IsCompatible(Uuid, Bytes(Some(n))) <==> forall u: V.Octets16 :: |u| <= n
  {
    hide UuidText;
    assert |UNSPECIFIED| == 16 && |UuidText(UNSPECIFIED)| == 36;
  }

  lemma Ipv4Sizes(n: u32)
    ensures IsCompatible(Ipv4, Text(Some(n))) <==> forall a: V.Octets4 :: |Ipv4Text(a)| <= n
    ensures IsCompatible(Ipv4, Bytes(Some(n))) <==> forall a: V.Octets4 :: |a| <= n
  {
    hide Ipv4Text;
    var widest: V.Octets4 := [255, 255, 255, 255];
    Ipv4Bounds();
    assert |widest| == 4 && |Ipv4Text(widest)| == 15;
    forall a: V.Octets4 ensures |Ipv4Text(a)| <= 15 {
      Ipv4Lengths(a);
    }
  }

  lemma Ipv6Sizes(n: u32)
    ensures IsCompatible(Ipv6, Text(Some(n))) <==> forall a: V.Octets16 :: |Ipv6Text(a)| <= n
    ensures IsCompatible(Ipv6, Bytes(Some(n))) <==> forall a: V.Octets16 :: |a| <= n
  {
    hide Ipv6Text;
    Ipv6Bounds();
    assert |ALL_ONES| == 16 && |Ipv6Text(ALL_ONES)| == 39;
    forall a: V.Octets16 ensures |Ipv6Text(a)| <= 39 {
      Ipv6Lengths(a);
    }
  }

  // ---- With consent to cut ----

  predicate IsNumber(t: DataType) {
    IsFixedInt(t) || IsFloat(t) || t.BigInt? || t.Decimal?
  }

  /**
   What is left after a cut: a prefix of a text or of octets, the whole part of a number, whether it is zero, the
   nearest float, a decimal with fewer places, the day of a timestamp, the address inside a mapped one, the fields of
   a document. Identifiers have no meaningful prefix.
   */
  predicate Cuts(s: DataType, t: DataType) {
    if t.Text? then HasText(s) && !IsIdentifier(s)
    else if t.Bytes? then s.Bytes?
    else if IsFixedInt(t) || t.Bool? then IsNumber(s)
    else if t.BigInt? then s.BigInt? || s.Decimal?
    else if IsFloat(t) then s.Decimal? || (s.Float64? && t.Float32?)
    else
      || (t.Decimal? && s.Decimal?)
      || (t.Date? && s.Timestamp?)
      || (t.Ipv4? && s.Ipv6?)
      || (t.Object? && s.Json?)
  }

  /** With consent the matrix says yes exactly where the value is kept or something of it is. */
  lemma TruncateKeepsOrCuts(s: DataType, t: DataType)
    requires s != t && !s.Union? && !t.Union? && !(s.Array? && t.Array?)
    ensures IsCompatibleWithTruncate(s, t) <==> Keeps(s, t) || Cuts(s, t)
  {
    assert IsCompatibleWithTruncate(s, t) <==> IsCompatible(s, t) || TruncateArm(s, t);
    hide IsCompatible, IsCompatibleWithTruncate, LosslessArm, TruncateArm, Keeps, Cuts;
    UnequalLossless(s, t);
    LosslessKeeps(s, t);
    TruncateArmCuts(s, t);
  }

  lemma TruncateArmCuts(s: DataType, t: DataType)
    requires s != t && !s.Union? && !t.Union? && !(s.Array? && t.Array?)
    ensures LosslessArm(s, t) || TruncateArm(s, t) <==> LosslessArm(s, t) || Cuts(s, t)
  {
    hide LosslessArm, TruncateArm, Cuts;
    if t.Text? {
      CutToText(s, t);
    } else if IsFixedInt(t) {
      CutToInteger(s, t);
    } else if t.Bool? {
      CutToFlag(s, t);
    } else if t.BigInt? {
      CutToBigInt(s, t);
    } else if IsFloat(t) {
      CutToFloat(s, t);
    } else {
      CutToOthers(s, t);
    }
  }

  lemma CutToText(s: DataType, t: DataType)
    requires s != t && t.Text?
    ensures LosslessArm(s, t) || TruncateArm(s, t) <==> LosslessArm(s, t) || Cuts(s, t)
  {
  }

  lemma CutToInteger(s: DataType, t: DataType)
    requires s != t && IsFixedInt(t)
    ensures LosslessArm(s, t) || TruncateArm(s, t) <==> LosslessArm(s, t) || Cuts(s, t)
  {
    hide LosslessArm, TruncateArm, Cuts, IsSigned, IsUnsigned;
    if IsSigned(s) {
      CutSigned(s, t);
    } else if IsUnsigned(s) {
      CutUnsigned(s, t);
    } else {
      OnlyFlagsAreIntegers(s, t);
      CutWhole(s, t);
    }
  }

  lemma CutSigned(s: DataType, t: DataType)
    requires s != t && IsSigned(s) && IsFixedInt(t)
    ensures (LosslessArm(s, t) || TruncateArm(s, t)) && Cuts(s, t)
  {
  }

  lemma CutUnsigned(s: DataType, t: DataType)
    requires s != t && IsUnsigned(s) && IsFixedInt(t)
    ensures (LosslessArm(s, t) || TruncateArm(s, t)) && Cuts(s, t)
  {
  }

  lemma CutWhole(s: DataType, t: DataType)
    requires !IsFixedInt(s) && IsFixedInt(t)
    ensures TruncateArm(s, t) <==> Cuts(s, t)
  {
  }

  lemma CutToFlag(s: DataType, t: DataType)
    requires s != t && t.Bool?
    ensures LosslessArm(s, t) || TruncateArm(s, t) <==> LosslessArm(s, t) || Cuts(s, t)
  {
  }

  lemma CutToBigInt(s: DataType, t: DataType)
    requires s != t && t.BigInt?
    ensures LosslessArm(s, t) || TruncateArm(s, t) <==> LosslessArm(s, t) || Cuts(s, t)
  {
  }

  lemma CutToFloat(s: DataType, t: DataType)
    requires s != t && IsFloat(t)
    ensures TruncateArm(s, t) <==> Cuts(s, t)
  {
  }

  lemma CutToOthers(s: DataType, t: DataType)
    requires !t.Text? && !IsFixedInt(t) && !t.Bool? && !t.BigInt? && !IsFloat(t)
    ensures TruncateArm(s, t) <==> Cuts(s, t)
  {
  }

  // ---- Unions and arrays ----

  /** A non-union type reached through any depth of unions. */
  predicate Leaf(l: DataType, s: DataType)
    decreases s
  {
    if s.Union? then exists m | m in s.members :: Leaf(l, m) else l == s
  }

  /** Nulls are dropped only with consent; an unknown element type on either side is a wildcard. */
  predicate ElementsAccepted(truncate: bool, s: DataType, t: DataType)
    requires s.Array? && t.Array?
  {
    && (s.elementNullable && !t.elementNullable ==> truncate)
    && (s.element.Some? && t.element.Some? ==> Accepts(truncate, s.element.value, t.element.value))
  }

  ghost predicate LeafAccepted(truncate: bool, s: DataType, t: DataType) {
    || s == t
    || (if s.Array? && t.Array? then ElementsAccepted(false, s, t) || (truncate && ElementsAccepted(true, s, t))
        else Keeps(s, t) || (truncate && Cuts(s, t)))
  }

  lemma ElementRule(truncate: bool, s: DataType, t: DataType)
    requires s.Array? && t.Array?
    ensures ArrayElementCompatible(s.element, s.elementNullable, t.element, t.elementNullable, truncate) <==>
            ElementsAccepted(truncate, s, t)
  {
    hide IsCompatible, IsCompatibleWithTruncate;
  }

  lemma ArraysByElement(truncate: bool, s: DataType, t: DataType)
    requires s.Array? && t.Array?
    ensures Accepts(truncate, s, t) <==> LeafAccepted(truncate, s, t)
  {
    hide ElementsAccepted;
    ElementRule(false, s, t);
    ElementRule(true, s, t);
    assert IsCompatible(s, t) <==> s == t || ElementsAccepted(false, s, t);
    assert IsCompatibleWithTruncate(s, t) <==> IsCompatible(s, t) || ElementsAccepted(true, s, t);
  }

  lemma SameType(t: DataType)
    requires !t.Union?
    ensures IsCompatible(t, t) && IsCompatibleWithTruncate(t, t)
  {
  }

  lemma LeafVerdict(truncate: bool, s: DataType, t: DataType)
    requires !s.Union? && !t.Union?
    ensures Accepts(truncate, s, t) <==> LeafAccepted(truncate, s, t)
  {
    hide Keeps, Cuts, IsCompatible, IsCompatibleWithTruncate;
    if s == t {
      SameType(s);
    } else if s.Array? && t.Array? {
      ArraysByElement(truncate, s, t);
    } else {
      LosslessKeeps(s, t);
      TruncateKeepsOrCuts(s, t);
    }
  }

  /** Both matrices on every source and every sink that is not a union: each leaf must be accepted on its own. */
  lemma {:induction false} MatrixByLeaves(truncate: bool, s: DataType, t: DataType)
    requires !t.Union?
    ensures Accepts(truncate, s, t) <==> forall l :: Leaf(l, s) ==> LeafAccepted(truncate, l, t)
    decreases s
  {
    if s.Union? {
      hide LeafAccepted;
      forall m | m in s.members
        ensures Accepts(truncate, m, t) <==> forall l :: Leaf(l, m) ==> LeafAccepted(truncate, l, t)
      {
        MatrixByLeaves(truncate, m, t);
      }
      assert Accepts(truncate, s, t) <==> forall m | m in s.members :: Accepts(truncate, m, t);
      if forall l :: Leaf(l, s) ==> LeafAccepted(truncate, l, t) {
        forall m | m in s.members ensures Accepts(truncate, m, t) {
          assert forall l :: Leaf(l, m) ==> Leaf(l, s);
        }
      }
    } else {
      LeafVerdict(truncate, s, t);
    }
  }

  /** The sink itself, or a union of such. */
  predicate BuiltFrom(s: DataType, t: DataType) {
    s == t || (s.Union? && forall m | m in s.members :: BuiltFrom(m, t))
  }

  /** A union sink takes losslessly only copies of itself. */
  lemma {:induction false} LosslessIntoUnion(s: DataType, t: DataType)
    requires t.Union?
    ensures IsCompatible(s, t) <==> BuiltFrom(s, t)
    decreases s
  {
    if s.Union? {
      forall m | m in s.members ensures IsCompatible(m, t) <==> BuiltFrom(m, t) {
        LosslessIntoUnion(m, t);
      }
    }
  }

  // ---- The hint that consent would help ----

  /** Unsigned integers wider than eight bits into signed ones are never flagged. */
  predicate Unflagged(s: DataType, t: DataType) {
    IsUnsigned(s) && !s.UInt8? && IsSigned(t)
  }

  ghost predicate Flagged(s: DataType, t: DataType) {
    if t.Text? then s.Text? && !EveryTextFits(s, t.size)
    else if t.Bytes? then s.Bytes? && !EveryOctetsFit(s, t.size)
    else if IsFixedInt(t) then IsFloat(s) || (IsFixedInt(s) && !KeepsInteger(s, t) && !Unflagged(s, t))
    else if IsFloat(t) then s.Decimal? || (s.Float64? && t.Float32?)
    else t.Ipv4? && s.Ipv6?
  }

  lemma NarrowingArmFlagged(s: DataType, t: DataType)
    ensures NarrowingArm(s, t) <==> Flagged(s, t)
  {
    hide EveryTextFits, EveryOctetsFit, KeepsInteger, NarrowingArm, Unflagged, FitsSize;
    if t.Text? {
      NarrowingSized(s, t);
      if s.Text? {
        TextIntoText(s, t.size);
      }
    } else if t.Bytes? {
      NarrowingSized(s, t);
      if s.Bytes? {
        BytesIntoBytes(s, t.size);
      }
    } else if IsFixedInt(t) {
      NarrowingInteger(s, t);
    } else {
      NarrowingOthers(s, t);
    }
  }

  lemma NarrowingOthers(s: DataType, t: DataType)
    requires !t.Text? && !t.Bytes? && !IsFixedInt(t)
    ensures NarrowingArm(s, t) <==>
            if IsFloat(t) then s.Decimal? || (s.Float64? && t.Float32?) else t.Ipv4? && s.Ipv6?
  {
  }

  lemma NarrowingSized(s: DataType, t: DataType)
    requires t.Text? || t.Bytes?
    ensures NarrowingArm(s, t) <==>
            if t.Text? then s.Text? && !FitsSize(s.size, t.size) else s.Bytes? && !FitsSize(s.size, t.size)
  {
  }

  lemma NarrowingInteger(s: DataType, t: DataType)
    requires IsFixedInt(t)
    ensures NarrowingArm(s, t) <==> IsFloat(s) || (IsFixedInt(s) && !KeepsInteger(s, t) && !Unflagged(s, t))
  {
    hide KeepsInteger;
    IntegersKeptByEnds(s, t);
  }

  ghost predicate LeafFlagged(s: DataType, t: DataType) {
    if s.Array? && t.Array? then
      || (s.elementNullable && !t.elementNullable)
      || (s.element.Some? && t.element.Some? && IsNarrowing(s.element.value, t.element.value))
    else Flagged(s, t)
  }

  /** The hint on every pair: each leaf of the source must be flagged. */
  lemma {:induction false} NarrowingByLeaves(s: DataType, t: DataType)
    ensures IsNarrowing(s, t) <==> forall l :: Leaf(l, s) ==> LeafFlagged(l, t)
    decreases s
  {
    if s.Union? {
      hide LeafFlagged;
      forall m | m in s.members ensures IsNarrowing(m, t) <==> forall l :: Leaf(l, m) ==> LeafFlagged(l, t) {
        NarrowingByLeaves(m, t);
      }
      if forall l :: Leaf(l, s) ==> LeafFlagged(l, t) {
        forall m | m in s.members ensures IsNarrowing(m, t) {
          assert forall l :: Leaf(l, m) ==> Leaf(l, s);
        }
      }
    } else {
      NarrowingLeaf(s, t);
    }
  }

  lemma NarrowingLeaf(s: DataType, t: DataType)
    requires !s.Union?
    ensures IsNarrowing(s, t) <==> LeafFlagged(s, t)
  {
    hide Flagged, NarrowingArm;
    NarrowingArmFlagged(s, t);
    if t.Union? {
      NarrowingArmIntoUnion(s, t);
    }
  }

  lemma NarrowingArmIntoUnion(s: DataType, t: DataType)
    requires t.Union?
    ensures !NarrowingArm(s, t)
  {
  }

  lemma IntegerMatrix(s: DataType, t: DataType)
    requires IsFixedInt(s) && IsFixedInt(t)
    ensures IsCompatibleWithTruncate(s, t)
  {
    hide Keeps, Cuts;
    LeafVerdict(true, s, t);
    IntegersCut(s, t);
  }

  lemma IntegersCut(s: DataType, t: DataType)
    requires IsFixedInt(s) && IsFixedInt(t)
    ensures Cuts(s, t)
  {
  }

  lemma IntegersFlagged(s: DataType, t: DataType)
    requires IsFixedInt(s) && IsFixedInt(t)
    ensures IsNarrowing(s, t) <==> !KeepsInteger(s, t) && !Unflagged(s, t)
  {
    hide KeepsInteger, NarrowingArm, Unflagged;
    NarrowingInteger(s, t);
  }

  lemma UnsignedMin(s: DataType, t: DataType)
    requires IsUnsigned(s) && IsSigned(t)
    ensures FixedMin(t) <= FixedMin(s)
  {
  }

  /**
   The fixed-width pairs that lose numbers, are open to consent and yet draw no hint are exactly the unsigned ones
   wider than eight bits into a signed column that cannot hold them all.
   */
  lemma LossWithoutHint(s: DataType, t: DataType)
    requires IsFixedInt(s) && IsFixedInt(t)
    ensures !IsCompatible(s, t) && IsCompatibleWithTruncate(s, t) && !IsNarrowing(s, t) <==>
            IsUnsigned(s) && !s.UInt8? && IsSigned(t) && FixedMax(s) > FixedMax(t)
  {
    hide IsCompatible, IsCompatibleWithTruncate, IsNarrowing, KeepsInteger, FixedMin, FixedMax;
    IntegerMatrix(s, t);
    IntegersFlagged(s, t);
    IntegersKeptByEnds(s, t);
    FixedArm(s, t);
    if IsUnsigned(s) && IsSigned(t) {
      UnsignedMin(s, t);
    }
  }

  /** 40000 in an unsigned 16-bit column does not fit a signed one, and nothing is flagged. */
  lemma UnsignedLossUnflagged()
    ensures !IsCompatible(UInt16, Int16) && IsCompatibleWithTruncate(UInt16, Int16) && !IsNarrowing(UInt16, Int16)
    ensures HasInteger(UInt16, 40000) && !HasInteger(Int16, 40000)
  {
    LossWithoutHint(UInt16, Int16);
  }
}
