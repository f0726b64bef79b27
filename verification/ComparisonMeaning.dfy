/** What `compare_values` means: the verdicts in terms of the numbers, texts and structures compared. */
module ComparisonMeaning {
  import opened Basics
  import opened Floats
  import opened Decimals
  import opened Values
  import opened Comparison

  predicate IsFloatValue(v: Value) {
    v.Float32? || v.Float64?
  }

  predicate IsNumber(v: Value) {
    IsFloatValue(v) || IntegerOf(v).Some?
  }

  predicate IsAddress(v: Value) {
    v.Ipv4? || v.Ipv6?
  }

  /** The number a float comparison uses, in units of 2^-1074: integers are rounded to binary64 first. */
  function FloatNumber(v: Value): int
    requires IsNumber(v)
  {
    if v.Float64? then FloatValue(v.bits64)
    else if v.Float32? then FloatValue(WidenFloat(v.bits32))
    else FloatValue(IntToFloat(IntegerOf(v).value))
  }

  /** The 128-bit number of an address; IPv4 addresses are mapped. */
  function AddressNumber(v: Value): nat
    requires IsAddress(v)
  {
    if v.Ipv4? then 0xFFFF_0000_0000 + BigEndian(v.ipv4) else BigEndian(v.ipv6)
  }

  /** Which of the families a value belongs to; families do not compare with each other. */
  function Family(v: Value): nat {
    if IsNumber(v) then 0 else if IsAddress(v) then 1 else if v.Array? then 2 else if v.Object? then 3 else 4
  }

  predicate NumberBelow(a: Value, b: Value)
    requires IsNumber(a) && IsNumber(b)
  {
    if IntegerOf(a).Some? && IntegerOf(b).Some? then IntegerOf(a).value < IntegerOf(b).value
    else !HasNaN(a) && !HasNaN(b) && FloatNumber(a) < FloatNumber(b)
  }

  predicate NumberSame(a: Value, b: Value)
    requires IsNumber(a) && IsNumber(b)
  {
    if IntegerOf(a).Some? && IntegerOf(b).Some? then IntegerOf(a).value == IntegerOf(b).value
    else !HasNaN(a) && !HasNaN(b) && FloatNumber(a) == FloatNumber(b)
  }

  /** `a` is strictly below `b`. */
  ghost predicate Below(a: Value, b: Value) {
    && Family(a) == Family(b)
    && if IsNumber(a) then NumberBelow(a, b)
       else if IsAddress(a) then AddressNumber(a) < AddressNumber(b)
       else PlainBelow(a, b)
  }

  ghost predicate PlainBelow(a: Value, b: Value) {
    match (a, b)
    case (Bool(x), Bool(y)) => !x && y
    case (Decimal(m1, s1), Decimal(m2, s2)) => Amount(m1, s1) < Amount(m2, s2)
    case (Text(x), Text(y)) => DictionaryBefore(x, y)
    case (Bytes(x), Bytes(y)) => DictionaryBefore(x, y)
    case (Uuid(x), Uuid(y)) => DictionaryBefore(x, y)
    case (Date(x), Date(y)) => x < y
    case (Timestamp(x), Timestamp(y)) => x < y
    case (Interval(x), Interval(y)) => x < y
    case _ => false
  }

  /** `a` and `b` are the same value; arrays and objects position by position, keys included. */
  ghost predicate Same(a: Value, b: Value)
    decreases a
  {
    && Family(a) == Family(b)
    && if IsNumber(a) then NumberSame(a, b)
       else if IsAddress(a) then AddressNumber(a) == AddressNumber(b)
       else if a.Array? then |a.items| == |b.items| && forall i :: 0 <= i < |a.items| ==> Same(a.items[i], b.items[i])
       else if a.Object? then SameEntries(a.entries, b.entries)
       else PlainSame(a, b)
  }

  ghost predicate PlainSame(a: Value, b: Value) {
    match (a, b)
    case (Null, Null) => true
    case (Bool(x), Bool(y)) => x == y
    case (Decimal(m1, s1), Decimal(m2, s2)) => Amount(m1, s1) == Amount(m2, s2)
    case (Text(x), Text(y)) => x == y
    case (Bytes(x), Bytes(y)) => x == y
    case (Uuid(x), Uuid(y)) => x == y
    case (Date(x), Date(y)) => x == y
    case (Timestamp(x), Timestamp(y)) => x == y
    case (Interval(x), Interval(y)) => x == y
    case (Json(x), Json(y)) => x == y
    case _ => false
  }

  ghost predicate SameEntries(xs: seq<Entry>, ys: seq<Entry>)
    decreases xs
  {
    |xs| == |ys| &&
    forall i :: 0 <= i < |xs| ==>
      var x := xs[i];
      assert (xs decreases to x);
      x.key == ys[i].key && Same(x.value, ys[i].value)
  }

  /** The verdict that goes with a pair of meanings. */
  ghost predicate Means(verdict: Option<Ordering>, a: Value, b: Value) {
    && (verdict == Some(Less) <==> Below(a, b))
    && (verdict == Some(Greater) <==> Below(b, a))
    && (verdict == Some(Equal) <==> Same(a, b))
  }

  // ---- By kind ----

  lemma NumbersByMeaning(a: Value, b: Value)
    requires IsNumber(a) && IsNumber(b)
    ensures Below(a, b) <==> NumberBelow(a, b)
    ensures Same(a, b) <==> NumberSame(a, b)
  {
    hide NumberBelow, NumberSame, PlainBelow, PlainSame, IsNumber, IsAddress;
  }

  lemma IntegersMean(a: Value, b: Value)
    requires IntegerOf(a).Some? && IntegerOf(b).Some?
    ensures Means(CompareValues(a, b), a, b)
  {
    hide CompareValues, PlainBelow, PlainSame, FloatNumber, HasNaN, IntegerOf, IsFloatValue, IsAddress;
    CompareIntegersExactly(a, b);
    NumbersByMeaning(a, b);
    NumbersByMeaning(b, a);
  }

  /** Promotion keeps the number and whether it is one. */
  lemma PromotedNumber(v: Value)
    requires IsNumber(v)
    ensures var p := Promote(v); (p.Int64? || p.BigInt? || p.Float64?) && (p.Float64? <==> IsFloatValue(v))
    ensures IsNumber(Promote(v)) && FloatNumber(Promote(v)) == FloatNumber(v) && (HasNaN(Promote(v)) <==> HasNaN(v))
  {
    hide WidenFloat, IntToFloat, FloatValue;
    if v.Float32? {
      WidenNaN(v.bits32);
    }
  }

  lemma IntegersAreNotNaN(n: int)
    ensures !IsNaN(IntToFloat(n))
  {
  }

  /** What the arms do with two promoted numbers, at least one of them a float. */
  lemma SettledFloats(p: Value, q: Value)
    requires (p.Int64? || p.BigInt? || p.Float64?) && (q.Int64? || q.BigInt? || q.Float64?) && (p.Float64? || q.Float64?)
    ensures Settled(p, q) ==
            if HasNaN(p) || HasNaN(q) then None else Some(CompareInt(FloatNumber(p), FloatNumber(q)))
  {
    hide IntToFloat, FloatValue, IsNaN, HasNaN;
    NumberNaN(p);
    NumberNaN(q);
  }

  lemma NumberNaN(p: Value)
    requires p.Int64? || p.BigInt? || p.Float64?
    ensures HasNaN(p) <==> p.Float64? && IsNaN(p.bits64)
    ensures !p.Float64? ==> !IsNaN(IntToFloat(IntegerOf(p).value))
  {
    if !p.Float64? {
      IntegersAreNotNaN(IntegerOf(p).value);
    }
  }

  lemma FloatIsNoInteger(v: Value)
    requires IsFloatValue(v)
    ensures IntegerOf(v) == None
  {
  }

  lemma FloatsMean(a: Value, b: Value)
    requires IsNumber(a) && IsNumber(b) && (IsFloatValue(a) || IsFloatValue(b))
    ensures Means(CompareValues(a, b), a, b)
  {
    hide CompareValues, Settled, Promote, FloatNumber, HasNaN, Below, Same, IntegerOf;
    NumbersByMeaning(a, b);
    NumbersByMeaning(b, a);
    if IsFloatValue(a) {
      FloatIsNoInteger(a);
    }
    if IsFloatValue(b) {
      FloatIsNoInteger(b);
    }
    ComparePromoted(a, b);
    PromotedNumber(a);
    PromotedNumber(b);
    SettledFloats(Promote(a), Promote(b));
  }

  lemma AddressesMean(a: Value, b: Value)
    requires IsAddress(a) && IsAddress(b)
    ensures Means(CompareValues(a, b), a, b)
  {
    hide CompareBytes, BigEndian, MappedIpv6, CompareValues, PlainBelow, PlainSame;
    ComparePromoted(a, b);
    if a.Ipv4? && b.Ipv4? {
      OctetsOrder(a.ipv4, b.ipv4);
    } else if a.Ipv4? {
      MappedIpv6Number(a.ipv4);
      OctetsOrder(MappedIpv6(a.ipv4), b.ipv6);
    } else if b.Ipv4? {
      MappedIpv6Number(b.ipv4);
      OctetsOrder(a.ipv6, MappedIpv6(b.ipv4));
    } else {
      OctetsOrder(a.ipv6, b.ipv6);
    }
  }

  /** The kinds that compare with no other kind. */
  predicate IsPlain(v: Value) {
    v.Null? || v.Bool? || v.Decimal? || v.Text? || v.Bytes? || v.Uuid? || v.Date? || v.Timestamp? || v.Interval? || v.Json?
  }

  lemma PlainArms(a: Value, b: Value)
    requires IsPlain(a) && IsPlain(b)
    ensures CompareValues(a, b) == Settled(a, b)
    ensures Below(a, b) <==> PlainBelow(a, b)
    ensures Same(a, b) <==> PlainSame(a, b)
  {
    hide CompareValues, PlainBelow, PlainSame;
    ComparePromoted(a, b);
    hide Settled;
  }

  lemma OrderedPlain(a: Value, b: Value)
    requires IsPlain(a) && IsPlain(b)
    ensures Settled(a, b) == Some(Less) <==> PlainBelow(a, b)
  {
    hide CompareBytes, CompareDecimal, Amount, DictionaryBefore;
    PlainFacts(a, b);
  }

  lemma EqualPlain(a: Value, b: Value)
    requires IsPlain(a) && IsPlain(b)
    ensures Settled(a, b) == Some(Equal) <==> PlainSame(a, b)
  {
    hide CompareBytes, CompareDecimal, Amount, DictionaryBefore;
    PlainFacts(a, b);
  }

  lemma PlainFacts(a: Value, b: Value)
    ensures a.Text? && b.Text? ==> (CompareBytes(a.utf8, b.utf8) == Less <==> DictionaryBefore(a.utf8, b.utf8))
    ensures a.Text? && b.Text? ==> (CompareBytes(a.utf8, b.utf8) == Equal <==> a.utf8 == b.utf8)
    ensures a.Bytes? && b.Bytes? ==> (CompareBytes(a.bytes, b.bytes) == Less <==> DictionaryBefore(a.bytes, b.bytes))
    ensures a.Bytes? && b.Bytes? ==> (CompareBytes(a.bytes, b.bytes) == Equal <==> a.bytes == b.bytes)
    ensures a.Uuid? && b.Uuid? ==> (CompareBytes(a.uuid, b.uuid) == Less <==> DictionaryBefore(a.uuid, b.uuid))
    ensures a.Uuid? && b.Uuid? ==> (CompareBytes(a.uuid, b.uuid) == Equal <==> a.uuid == b.uuid)
    ensures a.Decimal? && b.Decimal? ==>
            && (CompareDecimal(a.mantissa, a.scale, b.mantissa, b.scale) == Less <==>
                Amount(a.mantissa, a.scale) < Amount(b.mantissa, b.scale))
            && (CompareDecimal(a.mantissa, a.scale, b.mantissa, b.scale) == Equal <==>
                Amount(a.mantissa, a.scale) == Amount(b.mantissa, b.scale))
  {
    hide CompareBytes, CompareDecimal, Amount, DictionaryBefore;
    if a.Text? && b.Text? {
      DictionaryVerdicts(a.utf8, b.utf8);
    } else if a.Bytes? && b.Bytes? {
      DictionaryVerdicts(a.bytes, b.bytes);
    } else if a.Uuid? && b.Uuid? {
      DictionaryVerdicts(a.uuid, b.uuid);
    } else if a.Decimal? && b.Decimal? {
      CompareDecimalMeans(a.mantissa, a.scale, b.mantissa, b.scale);
    }
  }

  lemma PlainMean(a: Value, b: Value)
    requires IsPlain(a) && IsPlain(b)
    ensures Means(CompareValues(a, b), a, b)
  {
    hide CompareValues, Settled, PlainBelow, PlainSame, Below, Same;
    PlainArms(a, b);
    PlainArms(b, a);
    OrderedPlain(a, b);
    OrderedPlain(b, a);
    EqualPlain(a, b);
    CompareAntisymmetric(a, b);
  }

  lemma PromoteKeepsFamily(v: Value)
    ensures Family(Promote(v)) == Family(v)
  {
    hide WidenFloat;
  }

  lemma SameApart(a: Value, b: Value)
    requires Family(a) != Family(b)
    ensures CompareSame(a, b) == None
  {
    hide CompareBytes, CompareDecimal, CompareFloat, Family;
    KindsOf(a);
    KindsOf(b);
  }

  /** Families of the variants that the arms name. */
  lemma KindsOf(v: Value)
    ensures v.Int64? || v.BigInt? || v.Float64? ==> Family(v) == 0
    ensures v.Ipv4? || v.Ipv6? ==> Family(v) == 1
    ensures v.Array? ==> Family(v) == 2
    ensures v.Object? ==> Family(v) == 3
    ensures IsPlain(v) ==> Family(v) == 4
  {
  }

  lemma CrossApart(a: Value, b: Value)
    requires Family(a) != Family(b)
    ensures CompareCross(a, b) == None
  {
    hide CompareBytes, CompareFloat, IntToFloat, MappedIpv6, Family;
    KindsOf(a);
    KindsOf(b);
  }

  lemma MeaningsApart(a: Value, b: Value)
    requires Family(a) != Family(b)
    ensures !Below(a, b) && !Same(a, b)
  {
    hide Family, NumberBelow, NumberSame, PlainBelow, PlainSame;
  }

  lemma FamiliesApart(a: Value, b: Value)
    requires Family(a) != Family(b)
    ensures CompareValues(a, b) == None && !Below(a, b) && !Below(b, a) && !Same(a, b)
  {
    MeaningsApart(a, b);
    MeaningsApart(b, a);
    hide CompareValues, CompareSame, CompareCross, Promote, Below, Same, Family;
    KindsOf(Promote(a));
    KindsOf(Promote(b));
    ComparePromoted(a, b);
    PromoteKeepsFamily(a);
    PromoteKeepsFamily(b);
    SameApart(Promote(a), Promote(b));
    CrossApart(Promote(a), Promote(b));
  }

  // ---- Structures ----

  lemma {:induction false} ItemsMean(xs: seq<Value>, ys: seq<Value>)
    ensures ItemsEqual(xs, ys) <==> |xs| == |ys| && forall i :: 0 <= i < |xs| ==> Same(xs[i], ys[i])
    decreases ItemsSize(xs) + ItemsSize(ys), 4
  {
    if xs == [] || ys == [] {
    } else {
      hide CompareValues, Same, Below;
      CompareMeans(xs[0], ys[0]);
      ItemsMean(xs[1..], ys[1..]);
      assert forall i :: 1 <= i < |xs| ==> xs[i] == xs[1..][i - 1];
      assert forall i :: 1 <= i < |ys| ==> ys[i] == ys[1..][i - 1];
    }
  }

  lemma {:induction false} EntriesMean(xs: seq<Entry>, ys: seq<Entry>)
    ensures EntriesEqual(xs, ys) <==> SameEntries(xs, ys)
    decreases EntriesSize(xs) + EntriesSize(ys), 4
  {
    if xs == [] || ys == [] {
    } else {
      hide CompareValues, Same, Below;
      CompareMeans(xs[0].value, ys[0].value);
      EntriesMean(xs[1..], ys[1..]);
      assert forall i :: 1 <= i < |xs| ==> xs[i] == xs[1..][i - 1];
      assert forall i :: 1 <= i < |ys| ==> ys[i] == ys[1..][i - 1];
    }
  }

  lemma StructuresAreUnordered(a: Value, b: Value)
    requires (a.Array? && b.Array?) || (a.Object? && b.Object?)
    ensures !Below(a, b)
    ensures CompareValues(a, b) == EqualOnly(if a.Array? then ItemsEqual(a.items, b.items) else EntriesEqual(a.entries, b.entries))
  {
    hide CompareValues;
    ComparePromoted(a, b);
  }

  lemma SameStructure(a: Value, b: Value)
    ensures a.Array? && b.Array? ==>
            (Same(a, b) <==> |a.items| == |b.items| && forall i :: 0 <= i < |a.items| ==> Same(a.items[i], b.items[i]))
    ensures a.Object? && b.Object? ==> (Same(a, b) <==> SameEntries(a.entries, b.entries))
  {
  }

  /** Less, Greater and Equal say exactly which value is below and which are the same; anything else is incomparable. */
  lemma {:induction false} CompareMeans(a: Value, b: Value)
    ensures Means(CompareValues(a, b), a, b)
    decreases Size(a) + Size(b), 3
  {
    hide CompareValues, Same, Below;
    if Family(a) != Family(b) {
      FamiliesApart(a, b);
    } else if a.Array? || a.Object? {
      StructuresAreUnordered(a, b);
      StructuresAreUnordered(b, a);
      SameStructure(a, b);
      if a.Array? {
        ItemsMean(a.items, b.items);
      } else {
        EntriesMean(a.entries, b.entries);
      }
    } else {
      LeavesMean(a, b);
    }
  }

  lemma LeavesMean(a: Value, b: Value)
    requires Family(a) == Family(b) && !a.Array? && !a.Object?
    ensures Means(CompareValues(a, b), a, b)
  {
    hide CompareValues, Means;
    if IntegerOf(a).Some? && IntegerOf(b).Some? {
      IntegersMean(a, b);
    } else if IsNumber(a) {
      FloatsMean(a, b);
    } else if IsAddress(a) {
      AddressesMean(a, b);
    } else {
      PlainMean(a, b);
    }
  }

  /** Objects are equal exactly when they have the same keys in the same places with equal values; otherwise incomparable. */
  lemma ObjectsByPosition(a: seq<Entry>, b: seq<Entry>)
    ensures CompareValues(Object(a), Object(b)) == Some(Equal) <==>
            && |a| == |b|
            && forall i :: 0 <= i < |a| ==> a[i].key == b[i].key && CompareValues(a[i].value, b[i].value) == Some(Equal)
    ensures CompareValues(Object(a), Object(b)) == Some(Equal) || CompareValues(Object(a), Object(b)) == None
  {
    StructuresAreUnordered(Object(a), Object(b));
    EntriesMean(a, b);
    hide CompareValues, Same, Below;
    forall i | 0 <= i < |a| && |a| == |b|
      ensures CompareValues(a[i].value, b[i].value) == Some(Equal) <==> Same(a[i].value, b[i].value)
    {
      CompareMeans(a[i].value, b[i].value);
    }
  }

  /** Arrays are equal exactly when they are equal position by position; otherwise incomparable. */
  lemma ArraysByPosition(a: seq<Value>, b: seq<Value>)
    ensures CompareValues(Array(a), Array(b)) == Some(Equal) <==>
            |a| == |b| && forall i :: 0 <= i < |a| ==> CompareValues(a[i], b[i]) == Some(Equal)
    ensures CompareValues(Array(a), Array(b)) == Some(Equal) || CompareValues(Array(a), Array(b)) == None
  {
    StructuresAreUnordered(Array(a), Array(b));
    ItemsMean(a, b);
    hide CompareValues, Same, Below;
    forall i | 0 <= i < |a| && |a| == |b| ensures CompareValues(a[i], b[i]) == Some(Equal) <==> Same(a[i], b[i]) {
      CompareMeans(a[i], b[i]);
    }
  }
}
