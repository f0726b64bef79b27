/** Cross-numeric comparison (crates/types/src/compare.rs). */
module Comparison {
  import opened Basics
  import opened Floats
  import opened Decimals
  import opened Values

  // ---- Termination measures: structure first, then promotions still to do ----

  function Size(v: Value): (n: nat)
    ensures n >= 1
  {
    match v
    case Array(items) => 1 + ItemsSize(items)
    case Object(entries) => 1 + EntriesSize(entries)
    case _ => 1
  }

  function ItemsSize(items: seq<Value>): nat {
    if items == [] then 0 else Size(items[0]) + ItemsSize(items[1..])
  }

  function EntriesSize(entries: seq<Entry>): nat {
    if entries == [] then 0
    else
      var e := entries[0];
      Size(e.value) + EntriesSize(entries[1..])
  }

  predicate IsSmallInt(v: Value) {
    v.Int8? || v.Int16? || v.Int32? || v.UInt8? || v.UInt16? || v.UInt32?
  }

  /** A variant that `compare_values` replaces before it compares. */
  predicate Pending(v: Value) {
    IsSmallInt(v) || v.UInt64? || v.Float32?
  }

  function PendingCount(v: Value): nat {
    if Pending(v) then 1 else 0
  }

  function SmallInt(v: Value): i64
    requires IsSmallInt(v)
  {
    match v
    case Int8(n) => n
    case Int16(n) => n
    case Int32(n) => n
    case UInt8(n) => n
    case UInt16(n) => n
    case UInt32(n) => n
  }

  /** One promotion: small integers to `Int64`, `UInt64` to `BigInt`, `Float32` to `Float64`. */
  function Promote(v: Value): Value {
    if IsSmallInt(v) then Int64(SmallInt(v))
    else if v.UInt64? then BigInt(v.uint64)
    else if v.Float32? then Float64(WidenFloat(v.bits32))
    else v
  }

  function EqualOnly(same: bool): Option<Ordering> {
    if same then Some(Equal) else None
  }

  /** The arms between two values of the same variant that need no promotion. */
  function CompareSame(a: Value, b: Value): Option<Option<Ordering>> {
    if a.Null? && b.Null? then Some(Some(Equal))
    else if a.Int64? && b.Int64? then Some(Some(CompareInt(a.int64, b.int64)))
    else if a.Float64? && b.Float64? then Some(CompareFloat(a.bits64, b.bits64))
    else if a.Text? && b.Text? then Some(Some(CompareBytes(a.utf8, b.utf8)))
    else if a.Bool? && b.Bool? then Some(Some(CompareBool(a.flag, b.flag)))
    else if a.BigInt? && b.BigInt? then Some(Some(CompareInt(a.big, b.big)))
    else if a.Decimal? && b.Decimal? then Some(Some(CompareDecimal(a.mantissa, a.scale, b.mantissa, b.scale)))
    else if a.Date? && b.Date? then Some(Some(CompareInt(a.days, b.days)))
    else if a.Timestamp? && b.Timestamp? then Some(Some(CompareInt(a.nanos, b.nanos)))
    else if a.Bytes? && b.Bytes? then Some(Some(CompareBytes(a.bytes, b.bytes)))
    else if a.Uuid? && b.Uuid? then Some(Some(CompareBytes(a.uuid, b.uuid)))
    else if a.Ipv4? && b.Ipv4? then Some(Some(CompareBytes(a.ipv4, b.ipv4)))
    else if a.Ipv6? && b.Ipv6? then Some(Some(CompareBytes(a.ipv6, b.ipv6)))
    else None
  }

  /** The arms between different variants that need no promotion. */
  function CompareCross(a: Value, b: Value): Option<Ordering> {
    if a.Int64? && b.BigInt? then Some(CompareInt(a.int64, b.big))
    else if a.BigInt? && b.Int64? then Some(CompareInt(a.big, b.int64))
    else if a.Int64? && b.Float64? then CompareFloat(IntToFloat(a.int64), b.bits64)
    else if a.Float64? && b.Int64? then CompareFloat(a.bits64, IntToFloat(b.int64))
    else if a.BigInt? && b.Float64? then CompareFloat(IntToFloat(a.big), b.bits64)
    else if a.Float64? && b.BigInt? then CompareFloat(a.bits64, IntToFloat(b.big))
    else if a.Ipv4? && b.Ipv6? then Some(CompareBytes(MappedIpv6(a.ipv4), b.ipv6))
    else if a.Ipv6? && b.Ipv4? then Some(CompareBytes(a.ipv6, MappedIpv6(b.ipv4)))
    else if a.Json? && b.Json? then EqualOnly(a.json == b.json)
    else if a.Interval? && b.Interval? then Some(CompareInt(a.span, b.span))
    else None
  }

  /** The promotion arms, in the original's order; an arm promotes one side. */
  function PromoteOne(a: Value, b: Value): (r: Option<(Value, Value)>)
    ensures r.None? <==> !Pending(a) && !Pending(b)
    ensures r.Some? ==> (Pending(a) && r.value == (Promote(a), b)) || (Pending(b) && r.value == (a, Promote(b)))
  {
    if a.Int8? then Some((Int64(a.int8), b))
    else if b.Int8? then Some((a, Int64(b.int8)))
    else if a.Int16? then Some((Int64(a.int16), b))
    else if b.Int16? then Some((a, Int64(b.int16)))
    else if a.Int32? then Some((Int64(a.int32), b))
    else if b.Int32? then Some((a, Int64(b.int32)))
    else if a.UInt8? then Some((Int64(a.uint8), b))
    else if b.UInt8? then Some((a, Int64(b.uint8)))
    else if a.UInt16? then Some((Int64(a.uint16), b))
    else if b.UInt16? then Some((a, Int64(b.uint16)))
    else if a.UInt32? then Some((Int64(a.uint32), b))
    else if b.UInt32? then Some((a, Int64(b.uint32)))
    else if a.Float32? then Some((Float64(WidenFloat(a.bits32)), b))
    else if b.Float32? then Some((a, Float64(WidenFloat(b.bits32))))
    else if a.UInt64? then Some((BigInt(a.uint64), b))
    else if b.UInt64? then Some((a, BigInt(b.uint64)))
    else None
  }

  lemma PromotedIsDone(v: Value)
    ensures !Pending(Promote(v)) && Promote(Promote(v)) == Promote(v)
    ensures Size(Promote(v)) == Size(v)
  {
  }

  /** `compare_values`: same variant, then promotions, then the cross-variant and the structural arms. */
  function CompareValues(a: Value, b: Value): Option<Ordering>
    decreases Size(a) + Size(b), PendingCount(a) + PendingCount(b)
  {
    var same, promoted := CompareSame(a, b), PromoteOne(a, b);
    if same.Some? then same.value
    else if promoted.Some? then
      PromotedIsDone(a);
      PromotedIsDone(b);
      CompareValues(promoted.value.0, promoted.value.1)
    else if a.Object? && b.Object? then EqualOnly(EntriesEqual(a.entries, b.entries))
    else if a.Array? && b.Array? then EqualOnly(ItemsEqual(a.items, b.items))
    else CompareCross(a, b)
  }

  /** `values_equal`, which is also `PartialEq for Value`. */
  predicate ValuesEqual(a: Value, b: Value)
    decreases Size(a) + Size(b), 3
  {
    CompareValues(a, b) == Some(Equal)
  }

  predicate ItemsEqual(a: seq<Value>, b: seq<Value>)
    decreases ItemsSize(a) + ItemsSize(b), 4
  {
    if a == [] || b == [] then a == b
    else ValuesEqual(a[0], b[0]) && ItemsEqual(a[1..], b[1..])
  }

  predicate EntriesEqual(a: seq<Entry>, b: seq<Entry>)
    decreases EntriesSize(a) + EntriesSize(b), 4
  {
    if a == [] || b == [] then a == b
    else a[0].key == b[0].key && ValuesEqual(a[0].value, b[0].value) && EntriesEqual(a[1..], b[1..])
  }

  // ---- The chain of arms is one table over promoted values ----

  function Settled(a: Value, b: Value): Option<Ordering> {
    var same := CompareSame(a, b);
    if same.Some? then same.value
    else if a.Object? && b.Object? then EqualOnly(EntriesEqual(a.entries, b.entries))
    else if a.Array? && b.Array? then EqualOnly(ItemsEqual(a.items, b.items))
    else CompareCross(a, b)
  }

  lemma PendingIsNotSame(a: Value, b: Value)
    requires Pending(a) || Pending(b)
    ensures CompareSame(a, b) == None
  {
  }

  lemma PendingStep(a: Value, b: Value)
    requires Pending(a) || Pending(b)
    ensures CompareValues(a, b) == CompareValues(PromoteOne(a, b).value.0, PromoteOne(a, b).value.1)
  {
    PendingIsNotSame(a, b);
  }

  lemma SettledStep(a: Value, b: Value)
    requires !Pending(a) && !Pending(b)
    ensures CompareValues(a, b) == Settled(a, b)
  {
  }

  /** Promotions commute with the comparison, whichever side the arms promote first. */
  lemma {:induction false} ComparePromoted(a: Value, b: Value)
    ensures CompareValues(a, b) == Settled(Promote(a), Promote(b))
    decreases PendingCount(a) + PendingCount(b)
  {
    hide CompareValues, Settled, Promote, Pending, PromoteOne;
    PromotedIsDone(a);
    PromotedIsDone(b);
    if Pending(a) || Pending(b) {
      PendingStep(a, b);
      var promoted := PromoteOne(a, b).value;
      ComparePromoted(promoted.0, promoted.1);
    } else {
      NothingPending(a);
      NothingPending(b);
      SettledStep(a, b);
    }
  }

  lemma NothingPending(v: Value)
    requires !Pending(v)
    ensures Promote(v) == v
  {
  }

  function Flip(o: Option<Ordering>): Option<Ordering> {
    if o.Some? then Some(o.value.Reverse()) else None
  }

  lemma CompareFloatReverse(x: u64, y: u64)
    ensures CompareFloat(y, x) == Flip(CompareFloat(x, y))
  {
  }

  lemma CompareSameReverse(a: Value, b: Value)
    ensures CompareSame(a, b).Some? == CompareSame(b, a).Some?
    ensures CompareSame(a, b).Some? ==> CompareSame(b, a).value == Flip(CompareSame(a, b).value)
  {
    hide CompareBytes, CompareDecimal, CompareFloat;
    if a.Decimal? && b.Decimal? {
      CompareDecimalReverse(a.mantissa, a.scale, b.mantissa, b.scale);
    } else if a.Float64? && b.Float64? {
      CompareFloatReverse(a.bits64, b.bits64);
    } else if a.Text? && b.Text? {
      CompareBytesReverse(a.utf8, b.utf8);
    } else if a.Bytes? && b.Bytes? {
      CompareBytesReverse(a.bytes, b.bytes);
    } else if a.Uuid? && b.Uuid? {
      CompareBytesReverse(a.uuid, b.uuid);
    } else if a.Ipv4? && b.Ipv4? {
      CompareBytesReverse(a.ipv4, b.ipv4);
    } else if a.Ipv6? && b.Ipv6? {
      CompareBytesReverse(a.ipv6, b.ipv6);
    }
  }

  lemma CompareCrossReverse(a: Value, b: Value)
    ensures CompareCross(b, a) == Flip(CompareCross(a, b))
  {
    if a.Ipv4? && b.Ipv6? {
      CompareBytesReverse(MappedIpv6(a.ipv4), b.ipv6);
    } else if a.Ipv6? && b.Ipv4? {
      CompareBytesReverse(a.ipv6, MappedIpv6(b.ipv4));
    }
  }

  /** Swapping the arguments reverses the verdict, through arrays and objects. */
  lemma {:induction false} CompareAntisymmetric(a: Value, b: Value)
    ensures CompareValues(b, a) == Flip(CompareValues(a, b))
    decreases Size(a) + Size(b), 0
  {
    ComparePromoted(a, b);
    ComparePromoted(b, a);
    var p, q := Promote(a), Promote(b);
    CompareSameReverse(p, q);
    CompareCrossReverse(p, q);
    if p.Array? && q.Array? {
      ItemsEqualSymmetric(p.items, q.items);
    } else if p.Object? && q.Object? {
      EntriesEqualSymmetric(p.entries, q.entries);
    }
  }

  lemma {:induction false} ItemsEqualSymmetric(a: seq<Value>, b: seq<Value>)
    ensures ItemsEqual(a, b) == ItemsEqual(b, a)
    decreases ItemsSize(a) + ItemsSize(b), 1
  {
    if a == [] || b == [] {
    } else {
      CompareAntisymmetric(a[0], b[0]);
      ItemsEqualSymmetric(a[1..], b[1..]);
    }
  }

  lemma {:induction false} EntriesEqualSymmetric(a: seq<Entry>, b: seq<Entry>)
    ensures EntriesEqual(a, b) == EntriesEqual(b, a)
    decreases EntriesSize(a) + EntriesSize(b), 1
  {
    if a == [] || b == [] {
    } else {
      CompareAntisymmetric(a[0].value, b[0].value);
      EntriesEqualSymmetric(a[1..], b[1..]);
    }
  }

  // ---- Integers ----

  /** The integer carried by any of the eight fixed-width variants or `BigInt`. */
  function IntegerOf(v: Value): Option<int> {
    match v
    case Int8(n) => Some(n)
    case Int16(n) => Some(n)
    case Int32(n) => Some(n)
    case Int64(n) => Some(n)
    case UInt8(n) => Some(n)
    case UInt16(n) => Some(n)
    case UInt32(n) => Some(n)
    case UInt64(n) => Some(n)
    case BigInt(n) => Some(n)
    case _ => None
  }

  lemma PromoteKeepsInteger(v: Value)
    requires IntegerOf(v).Some?
    ensures IntegerOf(Promote(v)) == IntegerOf(v) && (Promote(v).Int64? || Promote(v).BigInt?)
  {
  }

  /** On any mix of integer variants the comparison is exact integer comparison. */
  lemma CompareIntegersExactly(a: Value, b: Value)
    requires IntegerOf(a).Some? && IntegerOf(b).Some?
    ensures CompareValues(a, b) == Some(CompareInt(IntegerOf(a).value, IntegerOf(b).value))
  {
    ComparePromoted(a, b);
    PromoteKeepsInteger(a);
    PromoteKeepsInteger(b);
  }

  // ---- Reflexivity ----

  /** Some float inside the value is a NaN. */
  predicate HasNaN(v: Value) {
    match v
    case Float32(bits) => Magnitude32(bits) > INFINITY32
    case Float64(bits) => IsNaN(bits)
    case Array(items) => exists x | x in items :: HasNaN(x)
    case Object(entries) => exists e | e in entries :: HasNaN(e.value)
    case _ => false
  }

  lemma WidenNaN(bits: u32)
    ensures IsNaN(WidenFloat(bits)) <==> Magnitude32(bits) > INFINITY32
  {
    if Magnitude32(bits) < INFINITY32 {
      WidenExact(bits);
    }
  }

  /** A value equals itself exactly when it holds no NaN. */
  lemma {:induction false} CompareReflexive(v: Value)
    ensures CompareValues(v, v) == if HasNaN(v) then None else Some(Equal)
    decreases Size(v), 0
  {
    ComparePromoted(v, v);
    match v
    case Float32(bits) => WidenNaN(bits);
    case Text(s) => CompareBytesEqual(s, s);
    case Bytes(s) => CompareBytesEqual(s, s);
    case Uuid(s) => CompareBytesEqual(s, s);
    case Ipv4(s) => CompareBytesEqual(s, s);
    case Ipv6(s) => CompareBytesEqual(s, s);
    case Array(items) => ItemsReflexive(items);
    case Object(entries) => EntriesReflexive(entries);
    case _ => {}
  }

  lemma {:induction false} ItemsReflexive(items: seq<Value>)
    ensures ItemsEqual(items, items) <==> !exists x | x in items :: HasNaN(x)
    decreases ItemsSize(items), 1
  {
    if items == [] {
    } else {
      CompareReflexive(items[0]);
      ItemsReflexive(items[1..]);
      assert items == [items[0]] + items[1..];
    }
  }

  lemma {:induction false} EntriesReflexive(entries: seq<Entry>)
    ensures EntriesEqual(entries, entries) <==> !exists e | e in entries :: HasNaN(e.value)
    decreases EntriesSize(entries), 1
  {
    if entries == [] {
    } else {
      CompareReflexive(entries[0].value);
      EntriesReflexive(entries[1..]);
      assert entries == [entries[0]] + entries[1..];
    }
  }
}
