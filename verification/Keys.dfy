/** Hashable, ordered projections of values (crates/types/src/key.rs). */
module Keys {
  import opened Basics
  import opened Floats
  import opened Decimals
  import opened Values
  import opened Comparison

  datatype KeyError = UnsupportedType(name: string) | EmptyComposite

  /** `canonicalise` */
  function Canonicalise(v: Value): Result<Value, KeyError> {
    match v
    case Null => Err(UnsupportedType("Null"))
    case Json(_) => Err(UnsupportedType("Json"))
    case Object(_) => Err(UnsupportedType("Object"))
    case Array(_) => Err(UnsupportedType("Array"))
    case Interval(_) => Err(UnsupportedType("Interval"))
    case Int8(n) => Ok(Int64(n))
    case Int16(n) => Ok(Int64(n))
    case Int32(n) => Ok(Int64(n))
    case UInt8(n) => Ok(Int64(n))
    case UInt16(n) => Ok(Int64(n))
    case UInt32(n) => Ok(Int64(n))
    case UInt64(n) => if n < 0x8000_0000_0000_0000 then Ok(Int64(n)) else Ok(BigInt(n))
    case Float32(bits) => Ok(Float64(WidenFloat(bits)))
    case _ => Ok(v)
  }

  /** What canonicalisation can leave in a key. */
  predicate IsElement(v: Value) {
    || v.Bool? || v.Int64? || v.BigInt? || v.Float64? || v.Decimal? || v.Text? || v.Bytes?
    || v.Date? || v.Timestamp? || v.Uuid? || v.Ipv4? || v.Ipv6?
  }

  lemma CanonicaliseElement(v: Value)
    ensures Canonicalise(v).Ok? <==> !(v.Null? || v.Json? || v.Object? || v.Array? || v.Interval?)
    ensures Canonicalise(v).Ok? ==> IsElement(Canonicalise(v).value)
  {
  }

  /**
   The canonical form: integers of any width become `Int64` when they fit sixty-four signed bits and `BigInt` otherwise,
   a float keeps its number, anything else is kept as it is or refused by name.
   */
  lemma CanonicalForm(v: Value)
    ensures IsSmallInt(v) || v.UInt64? ==>
              var n := IntegerOf(v).value;
              Canonicalise(v) == Ok(if -0x8000_0000_0000_0000 <= n < 0x8000_0000_0000_0000 then Int64(n) else BigInt(n))
    ensures v.Float32? && Magnitude32(v.bits32) < INFINITY32 ==>
              Canonicalise(v).Ok? && Canonicalise(v).value.Float64? &&
              FloatValue(Canonicalise(v).value.bits64) == Float32Value(v.bits32) * Two(925)
    ensures IsElement(v) ==> Canonicalise(v) == Ok(v)
    ensures v.Null? ==> Canonicalise(v) == Err(UnsupportedType("Null"))
    ensures v.Json? ==> Canonicalise(v) == Err(UnsupportedType("Json"))
    ensures v.Object? ==> Canonicalise(v) == Err(UnsupportedType("Object"))
    ensures v.Array? ==> Canonicalise(v) == Err(UnsupportedType("Array"))
    ensures v.Interval? ==> Canonicalise(v) == Err(UnsupportedType("Interval"))
  {
    hide WidenFloat, FloatValue, Float32Value, Pow;
    if v.Float32? && Magnitude32(v.bits32) < INFINITY32 {
      WidenKeepsValue(v.bits32);
    }
  }

  /** Canonicalising does not change what a value compares equal to. */
  lemma CanonicaliseKeepsComparison(v: Value, w: Value)
    requires Canonicalise(v).Ok?
    ensures CompareValues(Canonicalise(v).value, w) == CompareValues(v, w)
  {
    var c := Canonicalise(v).value;
    ComparePromoted(c, w);
    ComparePromoted(v, w);
    if v.UInt64? && v.uint64 < 0x8000_0000_0000_0000 {
      SameInteger(v.uint64, Promote(w));
    }
  }

  lemma SameInteger(n: i64, w: Value)
    requires !Pending(w)
    ensures Settled(Int64(n), w) == Settled(BigInt(n), w)
  {
  }

  type Key = k: seq<Value> | k != [] && forall v | v in k :: IsElement(v) witness [Bool(false)]

  /** Every value before position `i` can be a key element, the one at `i` cannot. */
  predicate FirstFailure(raw: seq<Value>, i: nat)
    requires i < |raw|
  {
    Canonicalise(raw[i]).Err? && forall k | 0 <= k < i :: Canonicalise(raw[k]).Ok?
  }

  /** `Key::composite` */
  method Composite(raw: seq<Value>) returns (r: Result<Key, KeyError>)
    ensures raw == [] ==> r == Err(EmptyComposite)
    ensures raw != [] ==> (r.Ok? <==> forall v | v in raw :: Canonicalise(v).Ok?)
    ensures r.Ok? ==> |r.value| == |raw| && forall i | 0 <= i < |raw| :: Canonicalise(raw[i]) == Ok(r.value[i])
    ensures raw != [] && r.Err? ==> exists i | 0 <= i < |raw| :: FirstFailure(raw, i) && Canonicalise(raw[i]) == Err(r.error)
  {
    if raw == [] {
      return Err(EmptyComposite);
    }
    var values: seq<Value> := [];
    for i := 0 to |raw|
      invariant |values| == i && forall v | v in values :: IsElement(v)
      invariant forall k | 0 <= k < i :: Canonicalise(raw[k]) == Ok(values[k])
    {
      CanonicaliseElement(raw[i]);
      var c := Canonicalise(raw[i]);
      if c.Err? {
        assert raw[i] in raw && FirstFailure(raw, i);
        return Err(c.error);
      }
      values := values + [c.value];
    }
    r := Ok(values);
  }

  // ---- Element order, equality and hash ----

  function TypeOrder(v: Value): nat {
    match v
    case Bool(_) => 0
    case Int64(_) => 1
    case BigInt(_) => 1
    case Float64(_) => 2
    case Decimal(_, _) => 3
    case Text(_) => 4
    case Bytes(_) => 5
    case Date(_) => 6
    case Timestamp(_) => 7
    case Uuid(_) => 8
    case Ipv4(_) => 9
    case Ipv6(_) => 9
    case _ => 255
  }

  predicate IsNaNValue(v: Value) {
    v.Float64? && IsNaN(v.bits64)
  }

  /** `cmp_element` */
  function CmpElement(a: Value, b: Value): Ordering {
    var compared := CompareValues(a, b);
    if compared.Some? then compared.value
    else if a.Float64? && b.Float64? then
      match (IsNaN(a.bits64), IsNaN(b.bits64))
      case (true, true) => Equal
      case (true, false) => Greater
      case (false, true) => Less
      case (false, false) => Equal
    else CompareInt(TypeOrder(a), TypeOrder(b))
  }

  /** `eq_element` */
  predicate EqElement(a: Value, b: Value) {
    var compared := CompareValues(a, b);
    if compared.Some? then compared == Some(Equal)
    else a.Float64? && b.Float64? && IsNaN(a.bits64) && IsNaN(b.bits64)
  }

  /** `normalise_float_bits` */
  function NormaliseFloatBits(bits: u64): u64 {
    if IsNaN(bits) then CANONICAL_NAN
    else if Magnitude(bits) == 0 then 0
    else bits
  }

  /** What is fed to the hasher, one token per `hash` call. */
  datatype Token =
    | Length(n: nat)
    | Tag(tag: nat)
    | Bits(bits: u64)
    | Flag(flag: bool)
    | Raw(raw: seq<byte>)
    | Number(number: int)
    | Digits(mantissa: int, scale: int)

  /** `hash_element` */
  function HashElement(v: Value): seq<Token>
    requires IsElement(v)
  {
    match v
    case Int64(n) => [Tag(0), Bits(NormaliseFloatBits(IntToFloat(n)))]
    case BigInt(n) => [Tag(0), Bits(NormaliseFloatBits(IntToFloat(n)))]
    case Float64(bits) => [Tag(0), Bits(NormaliseFloatBits(bits))]
    case Bool(b) => [Tag(1), Flag(b)]
    case Text(s) => [Tag(3), Raw(s)]
    case Bytes(s) => [Tag(4), Raw(s)]
    case Date(d) => [Tag(5), Number(d)]
    case Timestamp(t) => [Tag(6), Number(t)]
    case Uuid(s) => [Tag(7), Raw(s)]
    case Decimal(m, s) => var r := Normalized(m, s); [Tag(8), Digits(r.0, r.1)]
    case Ipv4(s) => [Tag(9), Raw(MappedIpv6(s))]
    case Ipv6(s) => [Tag(9), Raw(s)]
  }

  /** The tags: one for all numbers, one for both address families, 2 unused. */
  lemma ElementTags(v: Value)
    requires IsElement(v)
    ensures HashElement(v)[..1] ==
            [Tag(if v.Bool? then 1 else if v.Text? then 3 else if v.Bytes? then 4 else if v.Date? then 5
                 else if v.Timestamp? then 6 else if v.Uuid? then 7 else if v.Decimal? then 8
                 else if v.Ipv4? || v.Ipv6? then 9 else 0)]
  {
  }

  // ---- Keys ----

  function CmpKey(a: seq<Value>, b: seq<Value>): Ordering {
    if a == [] && b == [] then Equal
    else if a == [] then Less
    else if b == [] then Greater
    else CmpElement(a[0], b[0]).Then(CmpKey(a[1..], b[1..]))
  }

  /** `Ord::cmp for Key`: the first difference decides, then the length. */
  method CompareKeys(a: Key, b: Key) returns (r: Ordering)
    ensures r == CmpKey(a, b)
  {
    var i := 0;
    while i < |a| && i < |b|
      invariant 0 <= i <= |a| && i <= |b|
      invariant CmpKey(a, b) == CmpKey(a[i..], b[i..])
    {
      var ord := CmpElement(a[i], b[i]);
      if ord != Equal {
        return ord;
      }
      i := i + 1;
    }
    r := CompareInt(|a|, |b|);
  }

  /** `PartialEq for Key` */
  predicate EqKey(a: seq<Value>, b: seq<Value>) {
    |a| == |b| && forall i | 0 <= i < |a| :: EqElement(a[i], b[i])
  }

  /** The tokens of the first `i` elements. */
  function ElementTokens(k: Key, i: nat): seq<Token>
    requires i <= |k|
  {
    if i == 0 then [] else ElementTokens(k, i - 1) + HashElement(k[i - 1])
  }

  /** The tokens of a key: its length, then its elements. */
  function KeyTokens(k: Key): seq<Token> {
    [Length(|k|)] + ElementTokens(k, |k|)
  }

  class Hasher {
    var fed: seq<Token>

    constructor ()
      ensures fed == []
    {
      fed := [];
    }

    method Feed(tokens: seq<Token>)
      modifies this
      ensures fed == old(fed) + tokens
    {
      fed := fed + tokens;
    }
  }

  /** `Hash for Key` */
  method HashKey(k: Key, state: Hasher)
    modifies state
    ensures state.fed == old(state.fed) + KeyTokens(k)
  {
    hide HashElement;
    state.Feed([Length(|k|)]);
    for i := 0 to |k|
      invariant state.fed == old(state.fed) + ([Length(|k|)] + ElementTokens(k, i))
    {
      state.Feed(HashElement(k[i]));
    }
  }

  // ---- Equal keys hash equally ----

  /** Two floats that compare equal are hashed from the same bits. */
  lemma EqualFloatsSameBits(x: u64, y: u64)
    requires CompareFloat(x, y) == Some(Equal)
    ensures NormaliseFloatBits(x) == NormaliseFloatBits(y)
  {
    assert MagnitudeValue(0) == 0;
    MagnitudeInjective(Magnitude(x), Magnitude(y)) by {
      if MagnitudeValue(Magnitude(x)) == 0 {
        MagnitudeInjective(Magnitude(x), 0);
      }
    }
  }

  /** The float an element of the numeric family is hashed from. */
  function FloatOf(v: Value): u64
    requires v.Int64? || v.BigInt? || v.Float64?
  {
    match v
    case Int64(n) => IntToFloat(n)
    case BigInt(n) => IntToFloat(n)
    case Float64(bits) => bits
  }

  predicate IsNumericElement(v: Value) {
    v.Int64? || v.BigInt? || v.Float64?
  }

  function IntOf(v: Value): int
    requires v.Int64? || v.BigInt?
  {
    if v.Int64? then v.int64 else v.big
  }

  predicate IsIntElement(v: Value) {
    v.Int64? || v.BigInt?
  }

  /** How two elements of the numeric family compare. */
  lemma CompareNumeric(a: Value, b: Value)
    requires IsNumericElement(a) && IsNumericElement(b)
    ensures CompareValues(a, b) ==
              if IsIntElement(a) && IsIntElement(b) then Some(CompareInt(IntOf(a), IntOf(b)))
              else CompareFloat(FloatOf(a), FloatOf(b))
  {
    ComparePromoted(a, b);
  }

  /** Elements of different families never compare. */
  lemma DifferentFamilies(a: Value, b: Value)
    requires IsElement(a) && IsElement(b)
    requires TypeOrder(a) != TypeOrder(b) && !(IsNumericElement(a) && IsNumericElement(b))
    ensures CompareValues(a, b) == None
  {
    ComparePromoted(a, b);
  }

  lemma EqualElementsSameTokens(a: Value, b: Value)
    requires IsElement(a) && IsElement(b) && EqElement(a, b)
    ensures HashElement(a) == HashElement(b)
  {
    if IsNumericElement(a) && IsNumericElement(b) {
      CompareNumeric(a, b);
      if CompareFloat(FloatOf(a), FloatOf(b)) == Some(Equal) {
        EqualFloatsSameBits(FloatOf(a), FloatOf(b));
      }
    } else if TypeOrder(a) != TypeOrder(b) {
      DifferentFamilies(a, b);
    } else {
      EqualSameFamily(a, b);
    }
  }

  lemma EqualSameFamily(a: Value, b: Value)
    requires IsElement(a) && IsElement(b) && TypeOrder(a) == TypeOrder(b) && !IsNumericElement(a)
    requires CompareValues(a, b) == Some(Equal)
    ensures HashElement(a) == HashElement(b)
  {
    ComparePromoted(a, b);
    match a
    case Text(s) => CompareBytesEqual(s, b.utf8);
    case Bytes(s) => CompareBytesEqual(s, b.bytes);
    case Uuid(s) => CompareBytesEqual(s, b.uuid);
    case Decimal(m, s) => NormalizedDecides(m, s, b.mantissa, b.scale);
    case Ipv4(s) =>
      if b.Ipv4? {
        CompareBytesEqual(s, b.ipv4);
      } else {
        CompareBytesEqual(MappedIpv6(s), b.ipv6);
      }
    case Ipv6(s) =>
      if b.Ipv4? {
        CompareBytesEqual(s, MappedIpv6(b.ipv4));
      } else {
        CompareBytesEqual(s, b.ipv6);
      }
    case _ => {}
  }

  /** The Eq/Hash contract: equal keys feed identical tokens to the hasher. */
  lemma EqualKeysSameTokens(a: Key, b: Key)
    requires EqKey(a, b)
    ensures KeyTokens(a) == KeyTokens(b)
  {
    EqualPrefixTokens(a, b, |a|);
  }

  lemma {:induction false} EqualPrefixTokens(a: Key, b: Key, i: nat)
    requires EqKey(a, b) && i <= |a|
    ensures ElementTokens(a, i) == ElementTokens(b, i)
  {
    hide HashElement, EqElement;
    if i == 0 {
    } else {
      EqualPrefixTokens(a, b, i - 1);
      EqualElementsSameTokens(a[i - 1], b[i - 1]);
    }
  }

  // ---- The order of keys ----

  lemma CmpElementReverse(a: Value, b: Value)
    ensures CmpElement(b, a) == CmpElement(a, b).Reverse()
  {
    CompareAntisymmetric(a, b);
  }

  /** `cmp` returns Equal exactly when `eq` holds. */
  lemma CmpElementEqual(a: Value, b: Value)
    requires IsElement(a) && IsElement(b)
    ensures CmpElement(a, b) == Equal <==> EqElement(a, b)
  {
    if TypeOrder(a) == TypeOrder(b) {
      ComparePromoted(a, b);
    }
  }

  lemma {:induction false} CmpKeyReverse(a: seq<Value>, b: seq<Value>)
    ensures CmpKey(b, a) == CmpKey(a, b).Reverse()
  {
    if a == [] || b == [] {
    } else {
      CmpElementReverse(a[0], b[0]);
      CmpKeyReverse(a[1..], b[1..]);
    }
  }

  lemma {:induction false} CmpKeyEqual(a: seq<Value>, b: seq<Value>)
    requires (forall v | v in a :: IsElement(v)) && (forall v | v in b :: IsElement(v))
    ensures CmpKey(a, b) == Equal <==> EqKey(a, b)
  {
    if a == [] || b == [] {
    } else {
      CmpElementEqual(a[0], b[0]);
      CmpKeyEqual(a[1..], b[1..]);
      if EqKey(a[1..], b[1..]) && EqElement(a[0], b[0]) {
        forall i | 0 <= i < |a| ensures EqElement(a[i], b[i]) {
          assert i > 0 ==> EqElement(a[1..][i - 1], b[1..][i - 1]);
        }
      }
    }
  }

  /** The position of an element's family: numbers interleave, NaN sits above them. */
  function FamilyRank(v: Value): nat {
    if IsIntElement(v) || (v.Float64? && !IsNaN(v.bits64)) then 1
    else TypeOrder(v)
  }

  lemma FamiliesDecide(a: Value, b: Value)
    requires IsElement(a) && IsElement(b) && FamilyRank(a) != FamilyRank(b)
    ensures CmpElement(a, b) == CompareInt(FamilyRank(a), FamilyRank(b))
  {
    hide IntToFloat, FloatValue, CompareValues;
    if IsNumericElement(a) && IsNumericElement(b) {
      CompareNumeric(a, b);
    } else {
      DifferentFamilies(a, b);
    }
  }

  /** Two different integers that the comparison with `f` cannot tell apart. */
  predicate Collide(n: Value, m: Value, f: Value) {
    && IsIntElement(n) && IsIntElement(m) && f.Float64? && IntOf(n) != IntOf(m)
    && CompareFloat(IntToFloat(IntOf(n)), f.bits64) == Some(Equal)
    && CompareFloat(IntToFloat(IntOf(m)), f.bits64) == Some(Equal)
  }

  predicate Collision(a: Value, b: Value, c: Value) {
    Collide(a, b, c) || Collide(a, c, b) || Collide(b, c, a)
  }

  /** A number as the order sees it: its float, and its integer if it has one. */
  datatype Number = IntNumber(n: int, float: int) | FloatNumber(float: int)

  function NumberOf(v: Value): Number
    requires IsNumericElement(v)
  {
    if IsIntElement(v) then IntNumber(IntOf(v), FloatValue(FloatOf(v))) else FloatNumber(FloatValue(FloatOf(v)))
  }

  function CmpNumber(x: Number, y: Number): Ordering {
    if x.IntNumber? && y.IntNumber? then CompareInt(x.n, y.n) else CompareInt(x.float, y.float)
  }

  /** Rounding keeps the order of integers. */
  predicate RoundsInOrder(x: Number, y: Number) {
    x.IntNumber? && y.IntNumber? ==>
      (x.n <= y.n ==> x.float <= y.float) && (y.n <= x.n ==> y.float <= x.float)
  }

  predicate NumbersCollide(x: Number, y: Number, f: Number) {
    x.IntNumber? && y.IntNumber? && f.FloatNumber? && x.n != y.n && x.float == f.float && y.float == f.float
  }

  lemma NumberOrder(x: Number, y: Number, z: Number)
    requires RoundsInOrder(x, y) && RoundsInOrder(y, z) && RoundsInOrder(x, z)
    requires CmpNumber(x, y) != Greater && CmpNumber(y, z) != Greater
    ensures CmpNumber(x, z) == CmpNumber(x, y).Then(CmpNumber(y, z)) <==>
            !(NumbersCollide(x, y, z) || NumbersCollide(x, z, y) || NumbersCollide(y, z, x))
  {
  }

  lemma CmpIsNumberOrder(a: Value, b: Value)
    requires IsNumericElement(a) && IsNumericElement(b) && !IsNaNValue(a) && !IsNaNValue(b)
    ensures CmpElement(a, b) == CmpNumber(NumberOf(a), NumberOf(b))
    ensures RoundsInOrder(NumberOf(a), NumberOf(b))
  {
    CompareNumeric(a, b);
    if IsIntElement(a) && IsIntElement(b) {
      if IntOf(a) <= IntOf(b) {
        IntToFloatMonotone(IntOf(a), IntOf(b));
      }
      if IntOf(b) <= IntOf(a) {
        IntToFloatMonotone(IntOf(b), IntOf(a));
      }
    }
  }

  lemma CollideIsNumbersCollide(n: Value, m: Value, f: Value)
    requires IsNumericElement(n) && IsNumericElement(m) && IsNumericElement(f) && !IsNaNValue(f)
    ensures Collide(n, m, f) <==> NumbersCollide(NumberOf(n), NumberOf(m), NumberOf(f))
  {
  }

  /** Inside the numeric family. */
  lemma NumbersTransitive(a: Value, b: Value, c: Value)
    requires IsNumericElement(a) && IsNumericElement(b) && IsNumericElement(c)
    requires !IsNaNValue(a) && !IsNaNValue(b) && !IsNaNValue(c)
    requires CmpElement(a, b) != Greater && CmpElement(b, c) != Greater
    ensures CmpElement(a, c) == CmpElement(a, b).Then(CmpElement(b, c)) <==> !Collision(a, b, c)
  {
    CmpIsNumberOrder(a, b);
    CmpIsNumberOrder(b, c);
    CmpIsNumberOrder(a, c);
    CollideIsNumbersCollide(a, b, c);
    CollideIsNumbersCollide(a, c, b);
    CollideIsNumbersCollide(b, c, a);
    NumberOrder(NumberOf(a), NumberOf(b), NumberOf(c));
  }

  /** The kinds of element that are neither numbers nor addresses. */
  predicate SameKind(a: Value, b: Value) {
    && (a.Text? <==> b.Text?) && (a.Bytes? <==> b.Bytes?) && (a.Uuid? <==> b.Uuid?) && (a.Decimal? <==> b.Decimal?)
    && (a.Bool? <==> b.Bool?) && (a.Date? <==> b.Date?) && (a.Timestamp? <==> b.Timestamp?)
    && (a.Ipv4? || a.Ipv6? <==> b.Ipv4? || b.Ipv6?) && (IsNaNValue(a) <==> IsNaNValue(b))
  }

  lemma RankIsKind(a: Value, b: Value)
    requires IsElement(a) && IsElement(b) && FamilyRank(a) == FamilyRank(b) != 1
    ensures SameKind(a, b)
    ensures a.Text? || a.Bytes? || a.Uuid? || a.Decimal? || a.Bool? || a.Date? || a.Timestamp? || a.Ipv4? || a.Ipv6? ||
            IsNaNValue(a)
  {
  }

  /** How two elements of one kind compare. */
  lemma CmpOneKind(a: Value, b: Value)
    ensures a.Text? && b.Text? ==> CmpElement(a, b) == CompareBytes(a.utf8, b.utf8)
    ensures a.Bytes? && b.Bytes? ==> CmpElement(a, b) == CompareBytes(a.bytes, b.bytes)
    ensures a.Uuid? && b.Uuid? ==> CmpElement(a, b) == CompareBytes(a.uuid, b.uuid)
    ensures a.Decimal? && b.Decimal? ==> CmpElement(a, b) == CompareDecimal(a.mantissa, a.scale, b.mantissa, b.scale)
    ensures a.Bool? && b.Bool? ==> CmpElement(a, b) == CompareBool(a.flag, b.flag)
    ensures a.Date? && b.Date? ==> CmpElement(a, b) == CompareInt(a.days, b.days)
    ensures a.Timestamp? && b.Timestamp? ==> CmpElement(a, b) == CompareInt(a.nanos, b.nanos)
    ensures IsNaNValue(a) && IsNaNValue(b) ==> CmpElement(a, b) == Equal
  {
    hide CompareValues, CompareBytes, CompareDecimal, FloatValue;
    ComparePromoted(a, b);
  }

  lemma SameFamilyTransitive(a: Value, b: Value, c: Value)
    requires IsElement(a) && IsElement(b) && IsElement(c)
    requires FamilyRank(a) == FamilyRank(b) == FamilyRank(c) && FamilyRank(a) != 1
    requires CmpElement(a, b) != Greater && CmpElement(b, c) != Greater
    ensures CmpElement(a, c) == CmpElement(a, b).Then(CmpElement(b, c))
  {
    hide CmpElement, IsElement, FamilyRank, CompareDecimal, CompareBytes;
    RankIsKind(a, b);
    RankIsKind(b, c);
    if a.Ipv4? || a.Ipv6? {
      AddressesTransitive(a, b, c);
    } else {
      CmpOneKind(a, b);
      CmpOneKind(b, c);
      CmpOneKind(a, c);
      if a.Text? {
        CompareBytesTransitive(a.utf8, b.utf8, c.utf8);
      } else if a.Bytes? {
        CompareBytesTransitive(a.bytes, b.bytes, c.bytes);
      } else if a.Uuid? {
        CompareBytesTransitive(a.uuid, b.uuid, c.uuid);
      } else if a.Decimal? {
        CompareDecimalTransitive(a.mantissa, a.scale, b.mantissa, b.scale, c.mantissa, c.scale);
      }
    }
  }

  function AddressOf(v: Value): Octets16
    requires v.Ipv4? || v.Ipv6?
  {
    if v.Ipv4? then MappedIpv6(v.ipv4) else v.ipv6
  }

  lemma CompareAddresses(a: Value, b: Value)
    requires (a.Ipv4? || a.Ipv6?) && (b.Ipv4? || b.Ipv6?)
    ensures CompareValues(a, b) == Some(CompareBytes(AddressOf(a), AddressOf(b)))
  {
    ComparePromoted(a, b);
    if a.Ipv4? && b.Ipv4? {
      MappedIpv6Order(a.ipv4, b.ipv4);
    }
  }

  lemma AddressesTransitive(a: Value, b: Value, c: Value)
    requires (a.Ipv4? || a.Ipv6?) && (b.Ipv4? || b.Ipv6?) && (c.Ipv4? || c.Ipv6?)
    requires CmpElement(a, b) != Greater && CmpElement(b, c) != Greater
    ensures CmpElement(a, c) == CmpElement(a, b).Then(CmpElement(b, c))
  {
    CompareAddresses(a, b);
    CompareAddresses(b, c);
    CompareAddresses(a, c);
    CompareBytesTransitive(AddressOf(a), AddressOf(b), AddressOf(c));
  }

  /**
   The order of elements is transitive on a triple exactly when the triple does not hold two
   different integers that both compare equal to its float.
   */
  lemma ElementsTransitive(a: Value, b: Value, c: Value)
    requires IsElement(a) && IsElement(b) && IsElement(c)
    requires CmpElement(a, b) != Greater && CmpElement(b, c) != Greater
    ensures CmpElement(a, c) == CmpElement(a, b).Then(CmpElement(b, c)) <==> !Collision(a, b, c)
  {
    hide CmpElement, IsElement, Collision;
    if Collision(a, b, c) {
      CollisionIsNumeric(a, b, c);
    }
    if FamilyRank(a) == FamilyRank(b) == FamilyRank(c) {
      if FamilyRank(a) == 1 {
        RankOneIsNumber(a);
        RankOneIsNumber(b);
        RankOneIsNumber(c);
        NumbersTransitive(a, b, c);
      } else {
        SameFamilyTransitive(a, b, c);
      }
    } else {
      AcrossFamilies(a, b, c);
    }
  }

  lemma RankOneIsNumber(v: Value)
    requires IsElement(v) && FamilyRank(v) == 1
    ensures IsNumericElement(v) && !IsNaNValue(v)
  {
  }

  lemma CollisionIsNumeric(a: Value, b: Value, c: Value)
    requires Collision(a, b, c)
    ensures FamilyRank(a) == FamilyRank(b) == FamilyRank(c) == 1
  {
    hide Collide;
    if Collide(a, b, c) {
      CollideIsNumeric(a, b, c);
    } else if Collide(a, c, b) {
      CollideIsNumeric(a, c, b);
    } else {
      CollideIsNumeric(b, c, a);
    }
  }

  lemma CollideIsNumeric(n: Value, m: Value, f: Value)
    requires Collide(n, m, f)
    ensures FamilyRank(n) == FamilyRank(m) == FamilyRank(f) == 1
  {
    hide IntToFloat, FloatValue, TypeOrder;
  }

  lemma AcrossFamilies(a: Value, b: Value, c: Value)
    requires IsElement(a) && IsElement(b) && IsElement(c)
    requires !(FamilyRank(a) == FamilyRank(b) == FamilyRank(c))
    requires CmpElement(a, b) != Greater && CmpElement(b, c) != Greater
    ensures CmpElement(a, c) == CmpElement(a, b).Then(CmpElement(b, c))
  {
    RankDecides(a, b);
    RankDecides(b, c);
    RankDecides(a, c);
    RankChain(FamilyRank(a), FamilyRank(b), FamilyRank(c), CmpElement(a, b), CmpElement(b, c), CmpElement(a, c));
  }

  lemma RankDecides(a: Value, b: Value)
    requires IsElement(a) && IsElement(b)
    ensures FamilyRank(a) != FamilyRank(b) ==> CmpElement(a, b) == CompareInt(FamilyRank(a), FamilyRank(b))
  {
    if FamilyRank(a) != FamilyRank(b) {
      FamiliesDecide(a, b);
    }
  }

  lemma RankChain(ra: nat, rb: nat, rc: nat, ab: Ordering, bc: Ordering, ac: Ordering)
    requires ra != rb ==> ab == CompareInt(ra, rb)
    requires rb != rc ==> bc == CompareInt(rb, rc)
    requires ra != rc ==> ac == CompareInt(ra, rc)
    requires ab != Greater && bc != Greater && !(ra == rb == rc)
    ensures ac == ab.Then(bc)
  {
  }

  /** Integers that binary64 holds exactly never collide. */
  predicate IsExact(v: Value) {
    IsIntElement(v) ==> Representable(IntOf(v))
  }

  lemma ExactNeverCollides(n: Value, m: Value, f: Value)
    requires IsExact(n) && IsExact(m)
    ensures !Collide(n, m, f)
  {
    if Collide(n, m, f) {
      MulCancel(IntOf(n), IntOf(m), Two(1074));
    }
  }

  lemma WithinTwoTo53IsExact(v: Value)
    requires IsIntElement(v) && -0x20_0000_0000_0000 <= IntOf(v) <= 0x20_0000_0000_0000
    ensures IsExact(v)
  {
    SmallIntRepresentable(IntOf(v));
  }

  /** The key order is transitive, lexicographically, on keys that do not collide at any position. */
  lemma {:induction false} CmpKeyTransitive(a: seq<Value>, b: seq<Value>, c: seq<Value>)
    requires forall v | v in a + b + c :: IsElement(v)
    requires forall i | 0 <= i < |a| && i < |b| && i < |c| :: !Collision(a[i], b[i], c[i])
    requires CmpKey(a, b) != Greater && CmpKey(b, c) != Greater
    ensures CmpKey(a, c) == CmpKey(a, b).Then(CmpKey(b, c))
  {
    hide CmpElement, IsElement, Collision;
    if a == [] || b == [] || c == [] {
    } else {
      var x, y, z := a[0], b[0], c[0];
      assert x in a + b + c && y in a + b + c && z in a + b + c;
      ElementsTransitive(x, y, z);
      if CmpElement(x, y) == Equal && CmpElement(y, z) == Equal {
        forall v | v in a[1..] + b[1..] + c[1..] ensures v in a + b + c {
        }
        CmpKeyTransitive(a[1..], b[1..], c[1..]);
      }
    }
  }

  /** Keys whose integers binary64 holds exactly are totally preordered. */
  lemma ExactKeysTransitive(a: seq<Value>, b: seq<Value>, c: seq<Value>)
    requires forall v | v in a + b + c :: IsElement(v) && IsExact(v)
    requires CmpKey(a, b) != Greater && CmpKey(b, c) != Greater
    ensures CmpKey(a, c) == CmpKey(a, b).Then(CmpKey(b, c))
  {
    forall i | 0 <= i < |a| && i < |b| && i < |c| ensures !Collision(a[i], b[i], c[i]) {
      assert a[i] in a + b + c && b[i] in a + b + c && c[i] in a + b + c;
      ExactNeverCollides(a[i], b[i], c[i]);
      ExactNeverCollides(a[i], c[i], b[i]);
      ExactNeverCollides(b[i], c[i], a[i]);
    }
    CmpKeyTransitive(a, b, c);
  }

  /** NaN is above every number, all NaNs are equal. */
  lemma NaNOnTop(nan: Value, v: Value)
    requires IsNaNValue(nan) && IsNumericElement(v)
    ensures CmpElement(v, nan) == if IsNaNValue(v) then Equal else Less
  {
    CompareNumeric(v, nan);
  }

  /** Exact integers and floats are ordered by the numbers they stand for, in units of 2^-1074, although their type orders differ. */
  lemma NumbersInterleave(n: Value, f: Value)
    requires IsIntElement(n) && IsExact(n) && f.Float64? && !IsNaNValue(f)
    ensures CmpElement(n, f) == CompareInt(IntOf(n) * Two(1074), FloatValue(f.bits64))
  {
    CompareNumeric(n, f);
  }

  /** 2^53 + 1 and 2^53 both equal the float 2^53, and differ: the order is not transitive. */
  lemma NotTransitive()
    ensures var a, b, c := Int64(0x20_0000_0000_0001), Float64(IntToFloat(0x20_0000_0000_0000)), Int64(0x20_0000_0000_0000);
            CmpElement(a, b) == Equal && CmpElement(b, c) == Equal && CmpElement(a, c) == Greater
  {
    var a, b, c := Int64(0x20_0000_0000_0001), Float64(IntToFloat(0x20_0000_0000_0000)), Int64(0x20_0000_0000_0000);
    RoundsDown();
    hide IntToFloat, CompareValues, FloatValue;
    CompareNumeric(a, b);
    CompareNumeric(b, c);
    CompareNumeric(a, c);
  }

  lemma RoundsDown()
    ensures !IsNaN(IntToFloat(0x20_0000_0000_0000))
    ensures IntToFloat(0x20_0000_0000_0001) == IntToFloat(0x20_0000_0000_0000)
  {
    OddAboveTwoTo53(1074);
  }

  // ---- Unequal keys feed different tokens ----

  /** Numbers whose binary64 images are one float; the only unequal elements that hash alike. */
  predicate RoundAlike(a: Value, b: Value) {
    && (a.Int64? || a.BigInt? || a.Float64?) && (b.Int64? || b.BigInt? || b.Float64?)
    && CompareFloat(if a.Float64? then a.bits64 else IntToFloat(IntOf(a)),
                    if b.Float64? then b.bits64 else IntToFloat(IntOf(b))) == Some(Equal)
  }

  /** The normalised bits tell floats apart, up to NaN and the sign of zero. */
  lemma SameBitsEqualFloats(x: u64, y: u64)
    requires NormaliseFloatBits(x) == NormaliseFloatBits(y)
    ensures CompareFloat(x, y) == Some(Equal) || (IsNaN(x) && IsNaN(y))
  {
    assert MagnitudeValue(0) == 0;
  }

  lemma NumbersSameTokens(a: Value, b: Value)
    requires IsNumericElement(a) && IsNumericElement(b)
    ensures HashElement(a) == HashElement(b) <==> EqElement(a, b) || RoundAlike(a, b)
  {
    hide IntToFloat, NormaliseFloatBits, CompareFloat, CompareValues, IsNaN;
    CompareNumeric(a, b);
    var x, y := FloatOf(a), FloatOf(b);
    NaNIsFloat(a);
    NaNIsFloat(b);
    if NormaliseFloatBits(x) == NormaliseFloatBits(y) {
      SameBitsEqualFloats(x, y);
    }
    if CompareFloat(x, y) == Some(Equal) {
      EqualFloatsSameBits(x, y);
    }
    if IsNaN(x) && IsNaN(y) {
      NaNsSameBits(x, y);
    }
    if IsIntElement(a) && IsIntElement(b) && IntOf(a) == IntOf(b) {
      assert x == y;
    }
  }

  lemma NaNIsFloat(v: Value)
    requires IsNumericElement(v)
    ensures IsNaN(FloatOf(v)) ==> v.Float64?
  {
  }

  lemma NaNsSameBits(x: u64, y: u64)
    requires IsNaN(x) && IsNaN(y)
    ensures NormaliseFloatBits(x) == NormaliseFloatBits(y) && CompareFloat(x, y) == None
  {
  }

  lemma TokensNameTheFamily(a: Value, b: Value)
    requires IsElement(a) && IsElement(b) && HashElement(a) == HashElement(b)
    ensures IsNumericElement(a) <==> IsNumericElement(b)
    ensures !IsNumericElement(a) ==> SameKind(a, b)
  {
  }

  lemma OneKindSameTokens(a: Value, b: Value)
    requires IsElement(a) && IsElement(b) && SameKind(a, b) && !IsNumericElement(a) && !IsNumericElement(b)
    requires HashElement(a) == HashElement(b)
    ensures EqElement(a, b)
  {
    hide CompareBytes, CompareDecimal, Normalized, CompareValues, MappedIpv6;
    ComparePromoted(a, b);
    if a.Ipv4? || a.Ipv6? {
      CompareAddresses(a, b);
      CompareBytesEqual(AddressOf(a), AddressOf(b));
    } else if a.Decimal? {
      NormalizedDecides(a.mantissa, a.scale, b.mantissa, b.scale);
    } else if a.Text? {
      CompareBytesEqual(a.utf8, b.utf8);
    } else if a.Bytes? {
      CompareBytesEqual(a.bytes, b.bytes);
    } else if a.Uuid? {
      CompareBytesEqual(a.uuid, b.uuid);
    }
  }

  lemma RoundAlikeIsNumeric(a: Value, b: Value)
    requires RoundAlike(a, b)
    ensures IsNumericElement(a) && IsNumericElement(b)
  {
  }

  lemma ElementTokensExactly(a: Value, b: Value)
    requires IsElement(a) && IsElement(b)
    ensures HashElement(a) == HashElement(b) <==> EqElement(a, b) || RoundAlike(a, b)
  {
    hide RoundAlike, EqElement;
    if RoundAlike(a, b) {
      RoundAlikeIsNumeric(a, b);
    }
    if EqElement(a, b) {
      EqualElementsSameTokens(a, b);
    }
    if HashElement(a) == HashElement(b) {
      TokensNameTheFamily(a, b);
      if !IsNumericElement(a) {
        OneKindSameTokens(a, b);
      }
    }
    if IsNumericElement(a) && IsNumericElement(b) {
      NumbersSameTokens(a, b);
    }
  }

  lemma TwoTokens(v: Value)
    requires IsElement(v)
    ensures |HashElement(v)| == 2
  {
  }

  predicate HashAlike(a: Value, b: Value) {
    EqElement(a, b) || RoundAlike(a, b)
  }

  lemma {:induction false} TokensLength(k: Key, i: nat)
    requires i <= |k|
    ensures |ElementTokens(k, i)| == 2 * i
  {
    if i == 0 {
    } else {
      TokensLength(k, i - 1);
      TwoTokens(k[i - 1]);
    }
  }

  lemma LastTokens(a: Key, b: Key, i: nat)
    requires 0 < i <= |a| && i <= |b|
    ensures ElementTokens(a, i) == ElementTokens(b, i) <==>
            ElementTokens(a, i - 1) == ElementTokens(b, i - 1) && HashAlike(a[i - 1], b[i - 1])
  {
    hide HashElement, EqElement, RoundAlike;
    TokensLength(a, i - 1);
    TokensLength(b, i - 1);
    TwoTokens(a[i - 1]);
    TwoTokens(b[i - 1]);
    ElementTokensExactly(a[i - 1], b[i - 1]);
    SplitTokens(ElementTokens(a, i - 1), HashElement(a[i - 1]), ElementTokens(b, i - 1), HashElement(b[i - 1]));
  }

  predicate AllAlike(a: seq<Value>, b: seq<Value>, i: nat)
    requires i <= |a| && i <= |b|
  {
    forall j | 0 <= j < i :: HashAlike(a[j], b[j])
  }

  lemma AllAlikeStep(a: seq<Value>, b: seq<Value>, i: nat)
    requires 0 < i <= |a| && i <= |b|
    ensures AllAlike(a, b, i) <==> AllAlike(a, b, i - 1) && HashAlike(a[i - 1], b[i - 1])
  {
    hide HashAlike;
  }

  lemma {:induction false} PrefixTokensExactly(a: Key, b: Key, i: nat)
    requires i <= |a| && i <= |b|
    ensures ElementTokens(a, i) == ElementTokens(b, i) <==> AllAlike(a, b, i)
  {
    hide HashElement, HashAlike, IsElement;
    if i == 0 {
    } else {
      hide ElementTokens, AllAlike;
      PrefixTokensExactly(a, b, i - 1);
      LastTokens(a, b, i);
      AllAlikeStep(a, b, i);
    }
  }

  lemma SplitTokens(a: seq<Token>, x: seq<Token>, b: seq<Token>, y: seq<Token>)
    requires |a| == |b| && |x| == |y|
    ensures a + x == b + y <==> a == b && x == y
  {
    if a + x == b + y {
      assert a == (a + x)[..|a|] && b == (b + y)[..|b|];
      assert x == (a + x)[|a|..] && y == (b + y)[|b|..];
    }
  }

  /**
   Two keys feed the same tokens exactly when they have one length and at every position the elements are equal
   or are numbers with one binary64 image: rounding is the only source of collisions.
   */
  lemma TokensExactly(a: Key, b: Key)
    ensures KeyTokens(a) == KeyTokens(b) <==>
            |a| == |b| && forall i | 0 <= i < |a| :: EqElement(a[i], b[i]) || RoundAlike(a[i], b[i])
  {
    hide ElementTokens, EqElement, RoundAlike;
    if |a| == |b| {
      PrefixTokensExactly(a, b, |a|);
      assert forall i | 0 <= i < |a| :: HashAlike(a[i], b[i]) <==> EqElement(a[i], b[i]) || RoundAlike(a[i], b[i]);
    }
    if KeyTokens(a) == KeyTokens(b) {
      assert KeyTokens(a)[0] == Length(|a|) && KeyTokens(b)[0] == Length(|b|);
      assert KeyTokens(a)[1..] == ElementTokens(a, |a|) && KeyTokens(b)[1..] == ElementTokens(b, |b|);
    }
  }

  // ---- The order of the families ----

  /** Across families: booleans, numbers, NaN, decimals, text, bytes, dates, timestamps, UUIDs, addresses. */
  lemma FamiliesInOrder(flag: bool, number: Value, nan: u64, m: int, scale: int, text: seq<byte>, bytes: seq<byte>, days: int,
                        nanos: int, uuid: Octets16, address: Value)
    requires IsNumericElement(number) && !IsNaNValue(number) && IsNaN(nan) && (address.Ipv4? || address.Ipv6?)
    ensures CmpElement(Bool(flag), number) == Less
    ensures CmpElement(number, Float64(nan)) == Less
    ensures CmpElement(Float64(nan), Decimal(m, scale)) == Less
    ensures CmpElement(Decimal(m, scale), Text(text)) == Less
    ensures CmpElement(Text(text), Bytes(bytes)) == Less
    ensures CmpElement(Bytes(bytes), Date(days)) == Less
    ensures CmpElement(Date(days), Timestamp(nanos)) == Less
    ensures CmpElement(Timestamp(nanos), Uuid(uuid)) == Less
    ensures CmpElement(Uuid(uuid), address) == Less
  {
    hide CmpElement, IsNaN;
    FamiliesDecide(Bool(flag), number);
    FamiliesDecide(number, Float64(nan));
    FamiliesDecide(Float64(nan), Decimal(m, scale));
    FamiliesDecide(Decimal(m, scale), Text(text));
    FamiliesDecide(Text(text), Bytes(bytes));
    FamiliesDecide(Bytes(bytes), Date(days));
    FamiliesDecide(Date(days), Timestamp(nanos));
    FamiliesDecide(Timestamp(nanos), Uuid(uuid));
    FamiliesDecide(Uuid(uuid), address);
  }
}
