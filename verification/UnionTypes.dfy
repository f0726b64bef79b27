/**
 Folding observed types into one (crates/types/src/union_types.rs).

 The reference is order-free: the result lists, in ascending order, the maximal elements of
 the set of observed leaves under the widening order `FitsIn`.
 */
module UnionTypes {
  import opened Basics
  import opened DataTypes
  import opened Orders

  // ---- The code's own rules ----

  function IntWidth(t: DataType): nat {
    match t
    case Int8 => 1
    case Int16 => 2
    case Int32 => 4
    case Int64 => 8
    case _ => 0
  }

  function UIntWidth(t: DataType): nat {
    match t
    case UInt8 => 1
    case UInt16 => 2
    case UInt32 => 4
    case UInt64 => 8
    case _ => 0
  }

  function WidenInt(width: nat): DataType {
    if width == 1 then Int8 else if width == 2 then Int16 else if width == 4 then Int32 else Int64
  }

  function WidenUInt(width: nat): DataType {
    if width == 1 then UInt8 else if width == 2 then UInt16 else if width == 4 then UInt32 else UInt64
  }

  function WidenBound(a: Option<u32>, b: Option<u32>): Option<u32> {
    if a.None? || b.None? then None else Some(Max(a.value, b.value))
  }

  /** `try_widen`: absorb `incoming` into `acc`, or hand both back. */
  function TryWiden(acc: DataType, incoming: DataType): Result<DataType, (DataType, DataType)> {
    if acc == incoming then Ok(acc)
    else if IsSigned(acc) && IsSigned(incoming) then Ok(WidenInt(Max(IntWidth(acc), IntWidth(incoming))))
    else if IsUnsigned(acc) && IsUnsigned(incoming) then Ok(WidenUInt(Max(UIntWidth(acc), UIntWidth(incoming))))
    else if IsFloat(acc) && IsFloat(incoming) then
      Ok(if acc.Float64? || incoming.Float64? then Float64 else Float32)
    else if acc.Text? && incoming.Text? then Ok(Text(WidenBound(acc.size, incoming.size)))
    else if acc.Bytes? && incoming.Bytes? then Ok(Bytes(WidenBound(acc.size, incoming.size)))
    else Err((acc, incoming))
  }

  /** `into_leaves`: one level of `Union` is unpacked. */
  function IntoLeaves(t: DataType): seq<DataType> {
    if t.Union? then t.members else [t]
  }

  function Flatten(types: seq<DataType>): seq<DataType> {
    if types == [] then [] else IntoLeaves(types[0]) + Flatten(types[1..])
  }

  function Pack(reduced: seq<DataType>): DataType {
    if |reduced| == 1 then reduced[0] else Union(reduced)
  }

  // ---- The widening order ----

  /** Which widening family a type belongs to, and how wide it is there. */
  datatype Place = Alone | Member(family: nat, rank: nat)

  function PlaceOf(t: DataType): Place {
    if IsSigned(t) then Member(1, IntWidth(t))
    else if IsUnsigned(t) then Member(2, UIntWidth(t))
    else if IsFloat(t) then Member(3, if t.Float32? then 0 else 1)
    else if t.Text? then Member(4, BoundRank(t.size))
    else if t.Bytes? then Member(5, BoundRank(t.size))
    else Alone
  }

  /** An absent bound is wider than every `u32`. */
  function BoundRank(size: Option<u32>): nat {
    if size.Some? then size.value else 0x1_0000_0000
  }

  predicate PlaceFits(a: Place, b: Place) {
    a.Member? && b.Member? && a.family == b.family && a.rank <= b.rank
  }

  /** The widening order: `a` and `b` belong to one family and `b` is at least as wide. */
  predicate FitsIn(a: DataType, b: DataType) {
    a == b || PlaceFits(PlaceOf(a), PlaceOf(b))
  }

  lemma PlaceInjective(a: DataType, b: DataType)
    requires PlaceOf(a) == PlaceOf(b) && PlaceOf(a).Member?
    ensures a == b
  {
  }

  lemma FitsInIsWideningOrder()
    ensures WideningOrder(FitsIn)
  {
    forall a, b | FitsIn(a, b) && FitsIn(b, a) ensures a == b {
      if a != b {
        PlaceInjective(a, b);
      }
    }
    forall a, b, c | FitsIn(a, b) && FitsIn(b, c) ensures FitsIn(a, c) {
      FitsInTransitive(a, b, c);
    }
    forall a, b, c | Related(FitsIn, a, b) && Related(FitsIn, b, c) ensures Related(FitsIn, a, c) {
      RelatedTransitive(a, b, c);
    }
  }

  lemma FitsInTransitive(a: DataType, b: DataType, c: DataType)
    requires FitsIn(a, b) && FitsIn(b, c)
    ensures FitsIn(a, c)
  {
  }

  predicate OnePlace(a: DataType, b: DataType) {
    PlaceOf(a).Member? && PlaceOf(b).Member? && PlaceOf(a).family == PlaceOf(b).family
  }

  lemma RelatedPlaces(a: DataType, b: DataType)
    ensures Related(FitsIn, a, b) <==> a == b || OnePlace(a, b)
  {
  }

  lemma RelatedTransitive(a: DataType, b: DataType, c: DataType)
    requires Related(FitsIn, a, b) && Related(FitsIn, b, c)
    ensures Related(FitsIn, a, c)
  {
    RelatedPlaces(a, b);
    RelatedPlaces(b, c);
    RelatedPlaces(a, c);
  }

  /** The outcome the order prescribes: the join inside a family, both types back outside. */
  function Widened(a: DataType, b: DataType): Result<DataType, (DataType, DataType)> {
    if Related(FitsIn, a, b) then Ok(Join(FitsIn, a, b)) else Err((a, b))
  }

  lemma WidenInts(a: DataType, b: DataType)
    requires IsSigned(a) && IsSigned(b)
    ensures TryWiden(a, b) == Widened(a, b)
  {
  }

  lemma WidenUInts(a: DataType, b: DataType)
    requires IsUnsigned(a) && IsUnsigned(b)
    ensures TryWiden(a, b) == Widened(a, b)
  {
  }

  lemma WidenFloats(a: DataType, b: DataType)
    requires IsFloat(a) && IsFloat(b)
    ensures TryWiden(a, b) == Widened(a, b)
  {
  }

  lemma WidenSized(a: DataType, b: DataType)
    requires (a.Text? && b.Text?) || (a.Bytes? && b.Bytes?)
    ensures TryWiden(a, b) == Widened(a, b)
  {
  }

  /** The pairs `TryWiden` has an arm for. */
  predicate HasArm(a: DataType, b: DataType) {
    || (IsSigned(a) && IsSigned(b)) || (IsUnsigned(a) && IsUnsigned(b)) || (IsFloat(a) && IsFloat(b))
    || (a.Text? && b.Text?) || (a.Bytes? && b.Bytes?)
  }

  lemma WidenOthers(a: DataType, b: DataType)
    requires a != b && !HasArm(a, b)
    ensures TryWiden(a, b) == Err((a, b))
  {
  }

  lemma ArmsAreFamilies(a: DataType, b: DataType)
    ensures HasArm(a, b) <==> OnePlace(a, b)
  {
  }

  lemma WidenArm(a: DataType, b: DataType)
    requires HasArm(a, b)
    ensures TryWiden(a, b) == Widened(a, b)
  {
    hide TryWiden, Widened, IsSigned, IsUnsigned, IsFloat;
    if IsSigned(a) && IsSigned(b) {
      WidenInts(a, b);
    } else if IsUnsigned(a) && IsUnsigned(b) {
      WidenUInts(a, b);
    } else if IsFloat(a) && IsFloat(b) {
      WidenFloats(a, b);
    } else {
      WidenSized(a, b);
    }
  }

  /** `TryWiden` succeeds exactly inside a family, and then it is the join. */
  lemma WidenIsJoin(a: DataType, b: DataType)
    ensures TryWiden(a, b) == if Related(FitsIn, a, b) then Ok(Join(FitsIn, a, b)) else Err((a, b))
  {
    hide TryWiden, HasArm, OnePlace, FitsIn;
    if a == b {
      WidenSame(a);
    } else if HasArm(a, b) {
      WidenArm(a, b);
    } else {
      ArmsAreFamilies(a, b);
      RelatedPlaces(a, b);
      WidenOthers(a, b);
    }
  }

  lemma WidenSame(a: DataType)
    ensures TryWiden(a, a) == Ok(a) && FitsIn(a, a)
  {
  }

  lemma CompareIsTotalOrder()
    ensures TotalOrder(Compare)
  {
    forall a, b ensures Compare(a, b) == Equal <==> a == b {
      CompareEqual(a, b);
    }
    forall a, b ensures Compare(b, a) == Compare(a, b).Reverse() {
      CompareReverse(a, b);
    }
    forall a, b, c | Compare(a, b) != Greater && Compare(b, c) != Greater ensures Compare(a, c) != Greater {
      CompareTransitive(a, b, c);
    }
  }

  /** Sorting makes every family adjacent. */
  lemma FamiliesAreConvex()
    ensures Convex(Compare, FitsIn)
  {
    forall low, mid, high | Compare(low, mid) != Greater && Compare(mid, high) != Greater && Related(FitsIn, low, high)
      ensures Related(FitsIn, low, mid)
    {
      RelatedPlaces(low, high);
      RelatedPlaces(low, mid);
      if low == high {
        CompareReverse(low, mid);
        CompareEqual(low, mid);
      } else {
        FamilyVariants(low, mid, high);
      }
    }
  }

  /** The family of a variant, 0 for those that never widen: each family is an interval. */
  function VariantFamily(variant: nat): nat {
    if 1 <= variant <= 4 then 1
    else if 5 <= variant <= 8 then 2
    else if 9 <= variant <= 10 then 3
    else if variant == 13 then 4
    else if variant == 14 then 5
    else 0
  }

  lemma PlaceVariant(t: DataType)
    ensures if PlaceOf(t).Member? then VariantFamily(VariantOrder(t)) == PlaceOf(t).family != 0
            else VariantFamily(VariantOrder(t)) == 0
  {
  }

  lemma FamilyVariants(low: DataType, mid: DataType, high: DataType)
    requires VariantOrder(low) <= VariantOrder(mid) <= VariantOrder(high)
    requires OnePlace(low, high)
    ensures OnePlace(low, mid)
  {
    hide PlaceOf, VariantOrder;
    PlaceVariant(low);
    PlaceVariant(mid);
    PlaceVariant(high);
  }

  lemma OrderFacts()
    ensures TotalOrder(Compare) && WideningOrder(FitsIn) && Convex(Compare, FitsIn)
  {
    CompareIsTotalOrder();
    FitsInIsWideningOrder();
    FamiliesAreConvex();
  }

  // ---- The reference: maximal leaves in ascending order ----

  ghost function NormalForm(leaves: seq<DataType>): DataType {
    CompareIsTotalOrder();
    Pack(Listing(Compare, Maxima(FitsIn, Elements(leaves))))
  }

  predicate OneFamily(leaves: seq<DataType>) {
    forall a, b | a in leaves && b in leaves :: Related(FitsIn, a, b)
  }

  /** At most one level of `Union` in every observed type. */
  predicate OneLevel(types: seq<DataType>) {
    forall t | t in types && t.Union? :: forall m | m in t.members :: !m.Union?
  }

  /** The leaves the fold compares: the fallback unpacks one more level than the greedy pass. */
  function FoldedLeaves(types: seq<DataType>): seq<DataType> {
    var leaves := Flatten(types);
    if OneFamily(leaves) then leaves else Flatten(leaves)
  }

  /** What `collapse_union` yields on any input, nested unions included. */
  ghost function Collapsed(types: seq<DataType>): DataType {
    NormalForm(FoldedLeaves(types))
  }

  lemma SingletonNormal(t: DataType)
    ensures NormalForm([t]) == t
    ensures Maxima(FitsIn, Elements([t])) == {t}
  {
    OrderFacts();
    assert Elements([t]) == {t};
    assert IsMaximal(FitsIn, t, {t});
    assert Maxima(FitsIn, Elements([t])) == {t};
    AscendingUnique(Compare, [t], Listing(Compare, {t}));
  }

  // ---- Flattening ----

  lemma ConcatAssociative(a: seq<DataType>, b: seq<DataType>, c: seq<DataType>)
    ensures (a + b) + c == a + (b + c)
  {
  }

  lemma {:induction false} FlattenAppend(a: seq<DataType>, b: seq<DataType>)
    ensures Flatten(a + b) == Flatten(a) + Flatten(b)
  {
    if a == [] {
      assert a + b == b;
    } else {
      FlattenAppend(a[1..], b);
      assert (a + b)[0] == a[0] && (a + b)[1..] == a[1..] + b;
      ConcatAssociative(IntoLeaves(a[0]), Flatten(a[1..]), Flatten(b));
    }
  }

  lemma {:induction false} FlattenMember(types: seq<DataType>, t: DataType)
    ensures t in Flatten(types) <==>
            exists x :: x in types && t in IntoLeaves(x)
  {
    if types == [] {
    } else {
      FlattenMember(types[1..], t);
      assert types == [types[0]] + types[1..];
    }
  }

  lemma {:induction false} FlattenPlain(types: seq<DataType>)
    requires forall t | t in types :: !t.Union?
    ensures Flatten(types) == types
  {
    if types == [] {
    } else {
      FlattenPlain(types[1..]);
      assert types == [types[0]] + types[1..];
    }
  }

  lemma OneLevelLeaves(types: seq<DataType>)
    requires OneLevel(types)
    ensures forall t | t in Flatten(types) :: !t.Union?
    ensures Flatten(Flatten(types)) == Flatten(types)
  {
    forall t | t in Flatten(types) ensures !t.Union? {
      FlattenMember(types, t);
    }
    FlattenPlain(Flatten(types));
  }

  // ---- The algorithm ----

  /** `Vec::dedup` on a sorted list. */
  method Dedup(sorted: seq<DataType>) returns (r: seq<DataType>)
    requires Sorted(Compare, sorted)
    ensures Ascending(Compare, r) && Elements(r) == Elements(sorted)
  {
    r := [];
    for i := 0 to |sorted|
      invariant if i == 0 then r == [] else Deduped(sorted[..i], r)
    {
      DedupStep(sorted, i, r);
      if r == [] || sorted[i] != r[|r| - 1] {
        r := r + [sorted[i]];
      }
    }
    assert sorted[..|sorted|] == sorted;
  }

  predicate Deduped(seen: seq<DataType>, r: seq<DataType>) {
    && seen != [] && r != [] && r[|r| - 1] == seen[|seen| - 1]
    && Ascending(Compare, r) && Elements(r) == Elements(seen)
  }

  lemma DedupStep(sorted: seq<DataType>, i: nat, r: seq<DataType>)
    requires Sorted(Compare, sorted) && i < |sorted|
    requires if i == 0 then r == [] else Deduped(sorted[..i], r)
    ensures Deduped(sorted[..i + 1], if r == [] || sorted[i] != r[|r| - 1] then r + [sorted[i]] else r)
  {
    assert sorted[..i + 1] == sorted[..i] + [sorted[i]];
    ElementsAppend(sorted[..i], sorted[i]);
    ElementsAppend(r, sorted[i]);
    if i == 0 {
      AscendingSingle(sorted[i]);
    } else if sorted[i] != r[|r| - 1] {
      AscendingExtend(r, sorted[i]);
    }
  }

  lemma AscendingSingle(t: DataType)
    ensures Ascending(Compare, [t])
  {
  }

  lemma ElementsAppend(s: seq<DataType>, t: DataType)
    ensures Elements(s + [t]) == Elements(s) + {t}
  {
  }

  lemma AscendingExtend(r: seq<DataType>, t: DataType)
    requires Ascending(Compare, r) && r != [] && r[|r| - 1] != t && Compare(r[|r| - 1], t) != Greater
    ensures Ascending(Compare, r + [t])
  {
    CompareEqual(r[|r| - 1], t);
    forall k | 0 <= k < |r| ensures Compare(r[k], t) == Less {
      if k < |r| - 1 {
        CompareTransitive(r[k], r[|r| - 1], t);
      }
    }
  }

  /** The stack lists the maxima of what was seen; `StackStep` for the type orders. */
  lemma TypeStackStep(seen: seq<DataType>, next: DataType, stack: seq<DataType>)
    requires Ascending(Compare, seen + [next])
    requires StackInvariant(Compare, FitsIn, seen, stack)
    ensures StackInvariant(Compare, FitsIn, seen + [next], Stacked(FitsIn, stack, next))
  {
    OrderFacts();
    StackStep(Compare, FitsIn, seen, next, stack);
  }

  lemma TypeStackStart(t: DataType)
    ensures StackInvariant(Compare, FitsIn, [t], [t])
  {
    SingletonNormal(t);
    assert Elements([t]) == {t};
  }

  lemma TypeStackEnd(leaves: seq<DataType>, stack: seq<DataType>)
    requires StackInvariant(Compare, FitsIn, leaves, stack)
    ensures Pack(stack) == NormalForm(leaves)
  {
    CompareIsTotalOrder();
    AscendingUnique(Compare, stack, Listing(Compare, Maxima(FitsIn, Elements(leaves))));
  }

  lemma TypeSort(types: seq<DataType>)
    ensures Sorted(Compare, Sort(Compare, types)) && Elements(Sort(Compare, types)) == Elements(types)
  {
    CompareIsTotalOrder();
    SortSorts(Compare, types);
    SameMultisetSameElements(Sort(Compare, types), types);
  }

  /** One turn of the stack loop: pop the top, try to widen it, push the outcome. */
  method Absorb(stack: seq<DataType>, next: DataType) returns (grown: seq<DataType>)
    requires stack != []
    ensures grown == Stacked(FitsIn, stack, next)
  {
    var top, below := stack[|stack| - 1], stack[..|stack| - 1];
    WidenIsJoin(top, next);
    match TryWiden(top, next)
    case Ok(widened) =>
      grown := below + [widened];
    case Err((topBack, nextBack)) =>
      grown := below + [topBack, nextBack];
  }

  /** The stack pass over a sorted, duplicate-free list. */
  method StackPass(collected: seq<DataType>) returns (reduced: seq<DataType>)
    requires Ascending(Compare, collected)
    ensures Pack(reduced) == NormalForm(collected)
  {
    reduced := [];
    for i := 0 to |collected|
      invariant if i == 0 then reduced == [] else StackInvariant(Compare, FitsIn, collected[..i], reduced)
    {
      var next := collected[i];
      PrefixStep(collected, i);
      if reduced == [] {
        TypeStackStart(next);
        reduced := [next];
      } else {
        TypeStackStep(collected[..i], next, reduced);
        reduced := Absorb(reduced, next);
      }
    }
    assert collected[..|collected|] == collected;
    if collected == [] {
      EmptyNormal();
    } else {
      TypeStackEnd(collected, reduced);
    }
  }

  lemma PrefixStep(s: seq<DataType>, i: nat)
    requires i < |s|
    ensures s[..i + 1] == s[..i] + [s[i]]
    ensures i == 0 ==> s[..i + 1] == [s[i]]
    ensures Ascending(Compare, s) ==> Ascending(Compare, s[..i] + [s[i]])
  {
  }

  /** `fallback`: flatten, sort, dedup, then one stack pass. */
  method Fallback(acc: DataType, offending: DataType, rest: seq<DataType>) returns (r: DataType)
    ensures r == NormalForm(Flatten([acc] + ([offending] + rest)))
  {
    var leaves := Flatten([acc] + ([offending] + rest));
    TypeSort(leaves);
    var collected := Dedup(Sort(Compare, leaves));
    var reduced := StackPass(collected);
    r := if |reduced| == 1 then reduced[0] else Union(reduced);
  }

  /** `collapse_union`: greedy while everything widens, `Fallback` at the first mismatch. */
  method CollapseUnion(types: seq<DataType>) returns (r: DataType)
    ensures r == Collapsed(types)
    ensures OneLevel(types) ==> r == NormalForm(Flatten(types))
  {
    var leaves := Flatten(types);
    if leaves == [] {
      EmptyNormal();
      return Union([]);
    }
    var acc := leaves[0];
    var i := 1;
    GreedyStart(leaves);
    while i < |leaves|
      invariant 1 <= i <= |leaves|
      invariant Greedy(leaves[..i], acc)
    {
      var next := leaves[i];
      WidenIsJoin(acc, next);
      match TryWiden(acc, next)
      case Ok(widened) =>
        GreedyStep(leaves, i, acc);
        acc := widened;
        i := i + 1;
      case Err((accBack, offending)) =>
        r := Fallback(accBack, offending, leaves[i + 1..]);
        MismatchCollapses(leaves, i, acc);
        if OneLevel(types) {
          OneLevelLeaves(types);
        }
        return;
    }
    GreedyEnd(leaves, acc);
    r := acc;
  }

  /** The accumulator of the greedy pass: everything seen fits in it and it was seen. */
  predicate Greedy(seen: seq<DataType>, acc: DataType) {
    acc in seen && forall t | t in seen :: FitsIn(t, acc)
  }

  lemma EmptyNormal()
    ensures NormalForm([]) == Union([])
  {
    assert Maxima(FitsIn, Elements<DataType>([])) == {};
  }

  lemma GreedyStart(leaves: seq<DataType>)
    requires leaves != []
    ensures Greedy(leaves[..1], leaves[0])
  {
    assert leaves[..1] == [leaves[0]];
  }

  lemma GreedyStep(leaves: seq<DataType>, i: nat, acc: DataType)
    requires i < |leaves| && Greedy(leaves[..i], acc) && Related(FitsIn, acc, leaves[i])
    ensures Greedy(leaves[..i + 1], Join(FitsIn, acc, leaves[i]))
  {
    var next := leaves[i];
    assert leaves[..i + 1] == leaves[..i] + [next];
    forall t | t in leaves[..i] ensures FitsIn(t, Join(FitsIn, acc, next)) {
      if FitsIn(acc, next) {
        FitsInTransitive(t, acc, next);
      }
    }
  }

  lemma GreedyMaxima(seen: seq<DataType>, acc: DataType)
    requires Greedy(seen, acc)
    ensures Maxima(FitsIn, Elements(seen)) == {acc}
  {
    FitsInIsWideningOrder();
    forall t ensures t in Maxima(FitsIn, Elements(seen)) <==> t == acc {
      assert t in Elements(seen) ==> FitsIn(t, acc);
    }
  }

  lemma GreedyEnd(leaves: seq<DataType>, acc: DataType)
    requires leaves != [] && Greedy(leaves[..|leaves|], acc)
    ensures OneFamily(leaves) && NormalForm(leaves) == acc
  {
    assert leaves[..|leaves|] == leaves;
    GreedyMaxima(leaves, acc);
    SingletonNormal(acc);
    FitsInIsWideningOrder();
    forall a, b | a in leaves && b in leaves ensures Related(FitsIn, a, b) {
      assert Related(FitsIn, a, acc) && Related(FitsIn, acc, b);
    }
  }

  /** The accumulated prefix may be replaced by its accumulator. */
  lemma MismatchCollapses(leaves: seq<DataType>, i: nat, acc: DataType)
    requires i < |leaves| && Greedy(leaves[..i], acc) && !Related(FitsIn, acc, leaves[i])
    ensures !OneFamily(leaves)
    ensures NormalForm(Flatten([acc] + ([leaves[i]] + leaves[i + 1..]))) == NormalForm(Flatten(leaves))
  {
    var before, after := leaves[..i], leaves[i..];
    assert leaves == before + after && after == [leaves[i]] + leaves[i + 1..];
    assert acc in leaves && leaves[i] in leaves;
    PrefixMaxima(before, acc);
    SamePrefixMaxima(before, [acc], after);
  }

  lemma SamePrefixMaxima(a: seq<DataType>, b: seq<DataType>, after: seq<DataType>)
    requires Maxima(FitsIn, Elements(Flatten(a))) == Maxima(FitsIn, Elements(Flatten(b)))
    ensures NormalForm(Flatten(a + after)) == NormalForm(Flatten(b + after))
  {
    FlattenAppend(a, after);
    FlattenAppend(b, after);
    ElementsConcat(Flatten(a), Flatten(after));
    ElementsConcat(Flatten(b), Flatten(after));
    FitsInIsWideningOrder();
    MaximaAbsorb(FitsIn, Elements(Flatten(a)), Elements(Flatten(after)));
    MaximaAbsorb(FitsIn, Elements(Flatten(b)), Elements(Flatten(after)));
  }

  lemma ElementsConcat(a: seq<DataType>, b: seq<DataType>)
    ensures Elements(a + b) == Elements(a) + Elements(b)
  {
  }

  lemma PrefixMaxima(before: seq<DataType>, acc: DataType)
    requires Greedy(before, acc)
    ensures Maxima(FitsIn, Elements(Flatten(before))) == Maxima(FitsIn, Elements(Flatten([acc])))
  {
    if acc.Union? {
      forall t ensures t in Flatten(before) <==> t in Flatten([acc]) {
        FlattenMember(before, t);
        FlattenMember([acc], t);
      }
      assert Elements(Flatten(before)) == Elements(Flatten([acc]));
    } else {
      FlattenPlain(before);
      FlattenPlain([acc]);
      GreedyMaxima(before, acc);
      SingletonNormal(acc);
    }
  }
}
