/** The laws the fold of observed types is for, on every input: where they hold and exactly where they stop. */
module UnionLaws {
  import opened Basics
  import opened DataTypes
  import opened Orders
  import opened UnionTypes

  // ---- The order of observation ----

  lemma SameElementsFlatten(xs: seq<DataType>, ys: seq<DataType>)
    requires Elements(xs) == Elements(ys)
    ensures Elements(Flatten(xs)) == Elements(Flatten(ys))
  {
    forall t ensures t in xs <==> t in ys {
      assert t in Elements(xs) <==> t in Elements(ys);
    }
    forall t ensures t in Flatten(xs) <==> t in Flatten(ys) {
      FlattenMember(xs, t);
      FlattenMember(ys, t);
    }
  }

  lemma SameElementsFamily(xs: seq<DataType>, ys: seq<DataType>)
    requires Elements(xs) == Elements(ys)
    ensures OneFamily(xs) <==> OneFamily(ys)
  {
    forall t ensures t in xs <==> t in ys {
      assert t in Elements(xs) <==> t in Elements(ys);
    }
  }

  /** Only the set of observed types matters: neither their order nor how often each was seen. */
  lemma CollapseSameElements(xs: seq<DataType>, ys: seq<DataType>)
    requires Elements(xs) == Elements(ys)
    ensures Collapsed(xs) == Collapsed(ys)
  {
    SameElementsFlatten(xs, ys);
    SameElementsFamily(Flatten(xs), Flatten(ys));
    SameElementsFlatten(Flatten(xs), Flatten(ys));
  }

  lemma CollapsePermutation(xs: seq<DataType>, ys: seq<DataType>)
    requires multiset(xs) == multiset(ys)
    ensures Collapsed(xs) == Collapsed(ys)
  {
    SameMultisetSameElements(xs, ys);
    CollapseSameElements(xs, ys);
  }

  // ---- Types the fold leaves alone ----

  predicate NoUnion(leaves: seq<DataType>) {
    forall l | l in leaves :: !l.Union?
  }

  predicate Unrelated(leaves: seq<DataType>) {
    forall i, j | 0 <= i < j < |leaves| :: !Related(FitsIn, leaves[i], leaves[j])
  }

  /** A union in final shape: not of one member, sorted, no two members of one family, none itself a union. */
  predicate Settled(t: DataType) {
    t.Union? ==> |t.members| != 1 && Ascending(Compare, t.members) && Unrelated(t.members) && NoUnion(t.members)
  }

  /** How many unions are nested, at most, from the top of a type. */
  function Height(t: DataType): nat
    decreases t
  {
    if t.Union? then 1 + TopHeight(t.members) else 0
  }

  function TopHeight(members: seq<DataType>): nat
    decreases members
  {
    if members == [] then 0 else Max(Height(members[0]), TopHeight(members[1..]))
  }

  lemma {:induction false} MemberHeight(members: seq<DataType>, t: DataType)
    requires t in members
    ensures Height(t) <= TopHeight(members)
  {
    if t != members[0] {
      assert t in members[1..];
      MemberHeight(members[1..], t);
    }
  }

  lemma {:induction false} Highest(members: seq<DataType>) returns (t: DataType)
    requires members != []
    ensures t in members && Height(t) == TopHeight(members)
  {
    t := members[0];
    if |members| > 1 {
      var u := Highest(members[1..]);
      if Height(u) > Height(t) {
        t := u;
      }
    }
  }

  lemma LeafHeight(members: seq<DataType>, t: DataType)
    requires t in Flatten(members)
    ensures Height(t) <= TopHeight(members)
  {
    FlattenMember(members, t);
    var x :| x in members && t in IntoLeaves(x);
    MemberHeight(members, x);
    if x.Union? {
      MemberHeight(x.members, t);
    }
  }

  /** No type is among its own members, or among theirs. */
  lemma NotInItself(t: DataType)
    requires t.Union?
    ensures t !in t.members && t !in Flatten(t.members)
  {
    forall u | u in t.members ensures u != t {
      MemberHeight(t.members, u);
    }
    forall u | u in Flatten(t.members) ensures u != t {
      LeafHeight(t.members, u);
    }
  }

  /** A list that flattens to itself, as a set, holds no union. */
  lemma FlatHasNoUnion(ms: seq<DataType>)
    requires forall m | m in ms :: m in Flatten(ms)
    ensures NoUnion(ms)
  {
    if !NoUnion(ms) {
      var top := Highest(ms);
      var u :| u in ms && u.Union?;
      MemberHeight(ms, u);
      FlattenMember(ms, top);
      var x :| x in ms && top in IntoLeaves(x);
      MemberHeight(ms, x);
      MemberHeight(x.members, top);
    }
  }

  lemma UnrelatedIndices(leaves: seq<DataType>, i: nat, j: nat)
    requires Unrelated(leaves) && i < |leaves| && j < |leaves| && Related(FitsIn, leaves[i], leaves[j])
    ensures i == j
  {
  }

  lemma UnrelatedMaxima(ms: seq<DataType>)
    requires Ascending(Compare, ms)
    ensures Maxima(FitsIn, Elements(ms)) == Elements(ms) <==> Unrelated(ms)
  {
    FitsInIsWideningOrder();
    if Unrelated(ms) {
      forall t | t in Elements(ms) ensures IsMaximal(FitsIn, t, Elements(ms)) {
        forall u | u in Elements(ms) && FitsIn(t, u) ensures u == t {
          var i, j :| 0 <= i < |ms| && 0 <= j < |ms| && ms[i] == t && ms[j] == u;
          UnrelatedIndices(ms, i, j);
        }
      }
    } else if Maxima(FitsIn, Elements(ms)) == Elements(ms) {
      var i, j :| 0 <= i < j < |ms| && Related(FitsIn, ms[i], ms[j]);
      assert ms[i] in Maxima(FitsIn, Elements(ms)) && ms[j] in Maxima(FitsIn, Elements(ms));
      CompareEqual(ms[i], ms[j]);
    }
  }

  /** The reference lists `ms` itself exactly when `ms` is sorted and of pairwise different families. */
  lemma ListingIsItself(ms: seq<DataType>)
    ensures TotalOrder(Compare)
    ensures Listing(Compare, Maxima(FitsIn, Elements(ms))) == ms <==> Ascending(Compare, ms) && Unrelated(ms)
  {
    CompareIsTotalOrder();
    if Ascending(Compare, ms) {
      UnrelatedMaxima(ms);
      if Unrelated(ms) {
        AscendingUnique(Compare, ms, Listing(Compare, Elements(ms)));
      }
    }
  }

  /** `Pack` undone, when the packed list is not a lone union. */
  lemma PackedUnion(r: seq<DataType>, ms: seq<DataType>)
    requires |r| == 1 ==> r[0] != Union(ms)
    ensures Pack(r) == Union(ms) <==> r == ms && |ms| != 1
  {
  }

  /** A settled union comes out of the reference as it went in; no other union does. */
  lemma FixedWithinFamilies(ms: seq<DataType>)
    requires !OneFamily(ms)
    ensures NormalForm(Flatten(ms)) == Union(ms) <==> Settled(Union(ms))
  {
    CompareIsTotalOrder();
    var leaves := Flatten(ms);
    var r := Listing(Compare, Maxima(FitsIn, Elements(leaves)));
    NotInItself(Union(ms));
    assert |r| == 1 ==> r[0] in Elements(r);
    PackedUnion(r, ms);
    if r == ms {
      forall m | m in ms ensures m in leaves {
        assert m in Elements(r);
      }
      FlatHasNoUnion(ms);
    }
    if NoUnion(ms) {
      FlattenPlain(ms);
      ListingIsItself(ms);
    }
  }

  lemma FamilyOfSeveral(ms: seq<DataType>)
    requires OneFamily(ms) && |ms| > 1
    ensures !Unrelated(ms)
  {
    assert Related(FitsIn, ms[0], ms[1]);
  }

  /** A list of one family is folded into its widest member, which is in it. */
  lemma FamilyNormal(ms: seq<DataType>)
    requires OneFamily(ms) && ms != []
    ensures NormalForm(ms) in ms && Greedy(ms, NormalForm(ms))
  {
    FitsInIsWideningOrder();
    var m := Dominated(FitsIn, Elements(ms), ms[0]);
    forall t | t in ms ensures FitsIn(t, m) {
      assert Related(FitsIn, t, m);
      assert t in Elements(ms);
    }
    assert ms[..|ms|] == ms;
    GreedyEnd(ms, m);
  }

  /** The types the fold leaves alone are the settled ones. */
  lemma CollapseFixed(t: DataType)
    ensures Collapsed([t]) == t <==> Settled(t)
  {
    assert Flatten([t]) == IntoLeaves(t) by {
      assert IntoLeaves(t) + [] == IntoLeaves(t);
    }
    if !t.Union? {
      SingletonNormal(t);
      FitsInIsWideningOrder();
    } else if !OneFamily(t.members) {
      FixedWithinFamilies(t.members);
    } else if t.members == [] {
      EmptyNormal();
    } else {
      FamilyNormal(t.members);
      NotInItself(t);
      if |t.members| > 1 {
        FamilyOfSeveral(t.members);
      }
    }
  }

  // ---- Idempotence ----

  /** A union among the leaves is settled, and then it is the only leaf. */
  predicate SettledLeaves(leaves: seq<DataType>) {
    forall l | l in leaves && l.Union? :: Settled(l) && forall k | k in leaves :: k == l
  }

  lemma UnionIsMaximal(leaves: seq<DataType>, u: DataType)
    requires u in leaves && u.Union?
    ensures u in Maxima(FitsIn, Elements(leaves))
  {
  }

  /** A union that everything fits in is everything there is. */
  lemma LoneUnion(leaves: seq<DataType>, u: DataType)
    requires u.Union? && Maxima(FitsIn, Elements(leaves)) == {u}
    ensures u in leaves && forall k | k in leaves :: k == u
  {
    FitsInIsWideningOrder();
    assert u in Maxima(FitsIn, Elements(leaves));
    forall k | k in leaves ensures k == u {
      var m := Dominated(FitsIn, Elements(leaves), k);
      assert m in Maxima(FitsIn, Elements(leaves));
    }
  }

  lemma {:induction false} SingleElement(r: seq<DataType>, s: set<DataType>)
    requires Ascending(Compare, r) && Elements(r) == s
    ensures |r| == 1 <==> exists m :: s == {m}
    ensures |r| == 1 ==> s == {r[0]}
  {
    if |r| == 1 {
      assert Elements(r) == {r[0]};
    } else if |r| > 1 {
      assert r[0] in Elements(r) && r[1] in Elements(r);
      CompareEqual(r[0], r[1]);
    } else {
      assert Elements(r) == {};
    }
  }

  lemma NormalFormSettled(leaves: seq<DataType>)
    ensures Settled(NormalForm(leaves)) <==> SettledLeaves(leaves)
  {
    CompareIsTotalOrder();
    FitsInIsWideningOrder();
    var maxima := Maxima(FitsIn, Elements(leaves));
    var r := Listing(Compare, maxima);
    SingleElement(r, maxima);
    if |r| == 1 {
      if r[0].Union? {
        LoneUnion(leaves, r[0]);
      } else {
        OnlyPlainLeaves(leaves, r[0]);
      }
    } else {
      ListedUnion(leaves, r);
    }
  }

  lemma OnlyPlainLeaves(leaves: seq<DataType>, m: DataType)
    requires Maxima(FitsIn, Elements(leaves)) == {m} && !m.Union?
    ensures NoUnion(leaves)
  {
    forall l | l in leaves ensures !l.Union? {
      if l.Union? {
        UnionIsMaximal(leaves, l);
      }
    }
  }

  lemma MaximaUnrelated(leaves: seq<DataType>, r: seq<DataType>)
    requires Ascending(Compare, r) && Elements(r) == Maxima(FitsIn, Elements(leaves))
    ensures Unrelated(r)
  {
    forall i, j | 0 <= i < j < |r| ensures !Related(FitsIn, r[i], r[j]) {
      assert r[i] in Elements(r) && r[j] in Elements(r);
      CompareEqual(r[i], r[j]);
    }
  }

  /** A listing of several maxima is settled exactly when no leaf is a union. */
  lemma ListedUnion(leaves: seq<DataType>, r: seq<DataType>)
    requires Ascending(Compare, r) && Elements(r) == Maxima(FitsIn, Elements(leaves)) && |r| != 1
    ensures Settled(Union(r)) <==> SettledLeaves(leaves)
    ensures SettledLeaves(leaves) <==> NoUnion(leaves)
  {
    MaximaUnrelated(leaves, r);
    assert NoUnion(r) <==> NoUnion(leaves) by {
      forall l | l in leaves && l.Union? ensures l in r {
        UnionIsMaximal(leaves, l);
        assert l in Elements(r);
      }
      forall l | l in r ensures l in leaves {
        assert l in Elements(r);
      }
    }
    if SettledLeaves(leaves) && !NoUnion(leaves) {
      var u :| u in leaves && u.Union?;
      UnionIsMaximal(leaves, u);
      assert Elements(r) == {u};
      SingleElement(r, {u});
    }
  }

  /** Folding the fold again changes nothing exactly when its leaves are settled. */
  lemma CollapseIdempotent(xs: seq<DataType>)
    ensures Collapsed([Collapsed(xs)]) == Collapsed(xs) <==> SettledLeaves(FoldedLeaves(xs))
  {
    CollapseFixed(Collapsed(xs));
    NormalFormSettled(FoldedLeaves(xs));
  }

  /** In particular whenever no observed union holds a union. */
  lemma OneLevelIdempotent(xs: seq<DataType>)
    requires OneLevel(xs)
    ensures NoUnion(FoldedLeaves(xs)) && Collapsed([Collapsed(xs)]) == Collapsed(xs)
  {
    OneLevelLeaves(xs);
    CollapseIdempotent(xs);
  }

  lemma SingletonUnionCollapse(leaf: DataType)
    ensures Collapsed([Union([leaf])]) == leaf
  {
    assert Flatten([Union([leaf])]) == [leaf] + Flatten([]);
    assert [leaf] + [] == [leaf];
    SingletonNormal(leaf);
    FitsInIsWideningOrder();
  }

  /** A union of one union of one type needs a second fold. */
  lemma NestedUnionNotIdempotent()
    ensures var xs := [Union([Union([Int8])])];
            Collapsed(xs) == Union([Int8]) && Collapsed([Collapsed(xs)]) == Int8
  {
    SingletonUnionCollapse(Union([Int8]));
    SingletonUnionCollapse(Int8);
  }

  // ---- Folding in batches ----

  /** Nothing but copies of one union. */
  predicate IsLoneUnion(leaves: seq<DataType>) {
    leaves != [] && leaves[0].Union? && forall k | k in leaves :: k == leaves[0]
  }

  lemma CopiesMaxima(leaves: seq<DataType>, u: DataType)
    requires u in leaves && forall k | k in leaves :: k == u
    ensures Elements(leaves) == {u} && Maxima(FitsIn, Elements(leaves)) == {u} && NormalForm(leaves) == u
  {
    assert Elements(leaves) == {u} && Elements([u]) == {u};
    SingletonNormal(u);
  }

  /** The fold, unpacked, lists the maximal leaves, save when all it saw is one union. */
  lemma CollapsedLeaves(xs: seq<DataType>)
    ensures Elements(IntoLeaves(Collapsed(xs))) == Maxima(FitsIn, Elements(FoldedLeaves(xs))) <==>
            !IsLoneUnion(FoldedLeaves(xs))
  {
    CompareIsTotalOrder();
    var leaves := FoldedLeaves(xs);
    var maxima := Maxima(FitsIn, Elements(leaves));
    var r := Listing(Compare, maxima);
    SingleElement(r, maxima);
    if |r| == 1 && r[0].Union? {
      LoneUnion(leaves, r[0]);
      assert leaves[0] in leaves;
    }
    if IsLoneUnion(leaves) {
      var u := leaves[0];
      CopiesMaxima(leaves, u);
      NotInItself(u);
      assert u in {u} && u !in Elements(IntoLeaves(u));
    }
  }

  /** Unpacking the fold of a batch and adding more leaves leaves the maxima as they were. */
  lemma AbsorbedFold(xs: seq<DataType>, more: seq<DataType>)
    requires !IsLoneUnion(FoldedLeaves(xs))
    ensures NormalForm(IntoLeaves(Collapsed(xs)) + more) == NormalForm(FoldedLeaves(xs) + more)
  {
    var leaves, fold := FoldedLeaves(xs), IntoLeaves(Collapsed(xs));
    CollapsedLeaves(xs);
    ElementsConcat(fold, more);
    ElementsConcat(leaves, more);
    FitsInIsWideningOrder();
    MaximaAbsorb(FitsIn, Elements(leaves), Elements(more));
  }

  lemma RelatedToPlain(a: DataType, b: DataType)
    requires Related(FitsIn, a, b) && !a.Union?
    ensures !b.Union?
  {
  }

  lemma FamilyAppend(a: seq<DataType>, m: DataType, b: seq<DataType>)
    requires Greedy(a, m)
    ensures OneFamily([m] + b) <==> OneFamily(a + b)
  {
    FitsInIsWideningOrder();
    if OneFamily([m] + b) {
      forall x, y | x in a + b && y in a + b ensures Related(FitsIn, x, y) {
        assert m in [m] + b;
        assert x in b ==> x in [m] + b;
        assert y in b ==> y in [m] + b;
        assert Related(FitsIn, x, m) && Related(FitsIn, m, y);
      }
    }
    if OneFamily(a + b) {
      forall x, y | x in [m] + b && y in [m] + b ensures Related(FitsIn, x, y) {
        assert x in a + b && y in a + b;
      }
    }
  }

  lemma FirstFlattened(c: DataType, ys: seq<DataType>)
    ensures Flatten([c] + ys) == IntoLeaves(c) + Flatten(ys)
  {
    FlattenAppend([c], ys);
    assert Flatten([c]) == IntoLeaves(c) + [];
  }

  /** A batch whose fold may stand for it in any later fold. */
  predicate Absorbable(xs: seq<DataType>) {
    var leaves := Flatten(xs);
    if OneFamily(leaves) then SettledLeaves(leaves) && Union([]) !in leaves else NoUnion(Flatten(leaves))
  }

  lemma PlainIncremental(xs: seq<DataType>, ys: seq<DataType>)
    requires NoUnion(FoldedLeaves(xs))
    ensures Collapsed([Collapsed(xs)] + ys) == Collapsed(xs + ys)
  {
    var a, b, c := Flatten(xs), Flatten(ys), Collapsed(xs);
    FirstFlattened(c, ys);
    FlattenAppend(xs, ys);
    if OneFamily(a) {
      PlainFamily(xs, ys);
    } else {
      PlainFallback(xs, ys);
    }
  }

  lemma PlainFamily(xs: seq<DataType>, ys: seq<DataType>)
    requires OneFamily(Flatten(xs)) && NoUnion(Flatten(xs))
    ensures var a, b, c := Flatten(xs), Flatten(ys), Collapsed(xs);
            var one, two := IntoLeaves(c) + b, a + b;
            && (OneFamily(one) <==> OneFamily(two))
            && NormalForm(one) == NormalForm(two) && NormalForm(Flatten(one)) == NormalForm(Flatten(two))
  {
    var a, b, c := Flatten(xs), Flatten(ys), Collapsed(xs);
    AbsorbedFold(xs, b);
    AbsorbedFold(xs, Flatten(b));
    FlattenPlain(a);
    FlattenAppend(a, b);
    if a == [] {
      EmptyNormal();
      FlattenAppend([], b);
      assert [] + b == b;
    } else {
      FamilyNormal(a);
      FlattenAppend([c], b);
      FlattenPlain([c]);
      FamilyAppend(a, c, b);
    }
  }

  lemma NotFamilyAppend(a: seq<DataType>, b: seq<DataType>)
    requires !OneFamily(a)
    ensures !OneFamily(a + b)
  {
    var x, y :| x in a && y in a && !Related(FitsIn, x, y);
    assert x in a + b && y in a + b;
  }

  /** A family with a plain member is all plain. */
  lemma PlainFamilyMembers(a: seq<DataType>, b: seq<DataType>)
    requires a != [] && !a[0].Union? && OneFamily(a + b)
    ensures Flatten(b) == b
  {
    forall y | y in b ensures !y.Union? {
      assert a[0] in a + b && y in a + b;
      RelatedToPlain(a[0], y);
    }
    FlattenPlain(b);
  }

  lemma PlainFallback(xs: seq<DataType>, ys: seq<DataType>)
    requires !OneFamily(Flatten(xs)) && NoUnion(FoldedLeaves(xs))
    ensures var one := IntoLeaves(Collapsed(xs)) + Flatten(ys);
            NormalForm(if OneFamily(one) then one else Flatten(one)) == NormalForm(FoldedLeaves(xs + ys))
  {
    var a, b, c := Flatten(xs), Flatten(ys), Collapsed(xs);
    var g, l := Flatten(a), IntoLeaves(c);
    FlattenAppend(xs, ys);
    NotFamilyAppend(a, b);
    FlattenAppend(a, b);
    FoldIsPlain(xs);
    AbsorbedFold(xs, Flatten(b));
    if OneFamily(l + b) {
      PlainFamilyMembers(l, b);
    } else {
      FlattenAppend(l, b);
      FlattenPlain(l);
    }
  }

  lemma FallbackNotEmpty(a: seq<DataType>)
    requires !OneFamily(a)
    ensures Flatten(a) != []
  {
    FitsInIsWideningOrder();
    var x, y :| x in a && y in a && !Related(FitsIn, x, y);
    assert x != y;
    var z := if x == Union([]) then y else x;
    var w := IntoLeaves(z)[0];
    FlattenMember(a, w);
  }

  lemma FoldIsPlain(xs: seq<DataType>)
    requires !OneFamily(Flatten(xs)) && NoUnion(FoldedLeaves(xs))
    ensures IntoLeaves(Collapsed(xs)) != [] && NoUnion(IntoLeaves(Collapsed(xs)))
  {
    var g, l := FoldedLeaves(xs), IntoLeaves(Collapsed(xs));
    FallbackNotEmpty(Flatten(xs));
    CollapsedLeaves(xs);
    FitsInIsWideningOrder();
    var m := Dominated(FitsIn, Elements(g), g[0]);
    assert m in Maxima(FitsIn, Elements(g));
    assert m in Elements(l);
    forall t | t in l ensures !t.Union? {
      assert t in Elements(l);
    }
  }

  lemma CopiesFlatten(leaves: seq<DataType>, u: DataType)
    requires u in leaves && u.Union? && forall k | k in leaves :: k == u
    ensures Elements(Flatten(leaves)) == Elements(u.members)
  {
    forall t ensures t in Flatten(leaves) <==> t in u.members {
      FlattenMember(leaves, t);
    }
  }

  /** What a settled union of several families becomes in the reference. */
  lemma SettledNormal(u: DataType, more: seq<DataType>)
    requires u.Union? && Settled(u) && u.members != [] && forall k | k in more :: k in u.members
    ensures NormalForm(u.members + more) == u
  {
    assert Elements(u.members + more) == Elements(u.members);
    ListingIsItself(u.members);
  }

  lemma SettledNotFamily(u: DataType, more: seq<DataType>)
    requires u.Union? && Settled(u) && u.members != []
    ensures !OneFamily(u.members + more) && Flatten(u.members) == u.members
  {
    var ms := u.members;
    assert ms[0] in ms + more && ms[1] in ms + more;
    FlattenPlain(ms);
  }

  lemma UnionIncremental(xs: seq<DataType>, ys: seq<DataType>, u: DataType)
    requires u in Flatten(xs) && u.Union? && Settled(u) && u.members != []
    requires forall k | k in Flatten(xs) :: k == u
    ensures Collapsed([Collapsed(xs)] + ys) == Collapsed(xs + ys)
  {
    var a, b := Flatten(xs), Flatten(ys);
    FitsInIsWideningOrder();
    CopiesMaxima(a, u);
    FirstFlattened(u, ys);
    FlattenAppend(xs, ys);
    SettledNotFamily(u, b);
    FlattenAppend(u.members, b);
    if OneFamily(a + b) {
      OnlyCopies(a + b, u);
      CopiesMaxima(a + b, u);
      forall k | k in Flatten(b) ensures k in u.members {
        FlattenMember(b, k);
        var x :| x in b && k in IntoLeaves(x);
        assert x in a + b;
      }
      SettledNormal(u, Flatten(b));
    } else {
      FlattenAppend(a, b);
      CopiesFlatten(a, u);
      ElementsConcat(u.members, Flatten(b));
      ElementsConcat(Flatten(a), Flatten(b));
    }
  }

  /** A union's family is itself. */
  lemma OnlyCopies(leaves: seq<DataType>, u: DataType)
    requires OneFamily(leaves) && u in leaves && u.Union?
    ensures forall k | k in leaves :: k == u
  {
    forall k | k in leaves ensures k == u {
      assert Related(FitsIn, k, u);
    }
  }

  /** Folding in two batches equals folding at once, whatever the second batch holds. */
  lemma CollapseIncremental(xs: seq<DataType>, ys: seq<DataType>)
    requires Absorbable(xs)
    ensures Collapsed([Collapsed(xs)] + ys) == Collapsed(xs + ys)
  {
    var a := Flatten(xs);
    if OneFamily(a) && !NoUnion(a) {
      var u :| u in a && u.Union?;
      UnionIncremental(xs, ys, u);
    } else {
      PlainIncremental(xs, ys);
    }
  }

  // ---- The batches for which it fails ----

  /** An unsettled fold is already changed by the empty batch. */
  lemma UnsettledNotIncremental(xs: seq<DataType>)
    requires !SettledLeaves(FoldedLeaves(xs))
    ensures Collapsed([Collapsed(xs)] + []) != Collapsed(xs + [])
  {
    CollapseIdempotent(xs);
    assert [Collapsed(xs)] + [] == [Collapsed(xs)] && xs + [] == xs;
  }

  /** A batch of one doubly wrapped type. */
  function Wrapped(t: DataType): seq<DataType> {
    [Union([Union([t])])]
  }

  lemma WrappedLeaves(t: DataType)
    ensures Flatten(Wrapped(t)) == [Union([t])] && Flatten([Union([t])]) == [t]
    ensures Collapsed(Wrapped(t)) == Union([t])
  {
    assert Flatten(Wrapped(t)) == [Union([t])] + Flatten([]);
    assert Flatten([Union([t])]) == [t] + Flatten([]);
    SingletonUnionCollapse(Union([t]));
  }

  lemma AfterHollow()
    ensures Collapsed([Union([])] + Wrapped(Int8)) == Union([Int8])
  {
    WrappedLeaves(Int8);
    FirstFlattened(Union([]), Wrapped(Int8));
    assert [] + [Union([Int8])] == [Union([Int8])];
  }

  lemma WrappedFold(xs: seq<DataType>, t: DataType)
    requires !OneFamily(Flatten(xs) + [Union([t])])
    ensures FoldedLeaves(xs + Wrapped(t)) == Flatten(Flatten(xs)) + [t]
  {
    hide OneFamily;
    WrappedLeaves(t);
    FlattenAppend(xs, Wrapped(t));
    FlattenAppend(Flatten(xs), [Union([t])]);
  }

  lemma HollowFamily(xs: seq<DataType>)
    requires Union([]) in Flatten(xs) && forall k | k in Flatten(xs) :: k == Union([])
    ensures Collapsed(xs + Wrapped(Int8)) == Int8
  {
    var a, w := Flatten(xs), Union([Int8]);
    assert !OneFamily(a + [w]) by {
      assert Union([]) in a + [w] && w in a + [w] && !Related(FitsIn, Union([]), w);
    }
    WrappedFold(xs, Int8);
    CopiesFlatten(a, Union([]));
    hide OneFamily, Flatten;
    ElementsAppend(Flatten(a), Int8);
    assert Elements(Flatten(a) + [Int8]) == {Int8} && Elements([Int8]) == {Int8};
    SingletonNormal(Int8);
  }

  lemma HollowFallback(xs: seq<DataType>)
    requires !OneFamily(Flatten(xs))
    requires Union([]) in Flatten(Flatten(xs)) && forall k | k in Flatten(Flatten(xs)) :: k == Union([])
    ensures Collapsed(xs + Wrapped(Int8)) != Union([Int8])
  {
    hide OneFamily, Flatten;
    var a := Flatten(xs);
    NotFamilyAppend(a, [Union([Int8])]);
    WrappedFold(xs, Int8);
    CopiesMaxima(Flatten(a), Union([]));
    ElementsAppend(Flatten(a), Int8);
    HollowAndInt(Flatten(a) + [Int8]);
  }

  /** Empty unions vanish in the fold of a batch, and with them the reason to unpack a later union. */
  lemma HollowNotIncremental(xs: seq<DataType>)
    requires Union([]) in FoldedLeaves(xs) && forall k | k in FoldedLeaves(xs) :: k == Union([])
    ensures Collapsed([Collapsed(xs)] + Wrapped(Int8)) != Collapsed(xs + Wrapped(Int8))
  {
    CopiesMaxima(FoldedLeaves(xs), Union([]));
    AfterHollow();
    if OneFamily(Flatten(xs)) {
      HollowFamily(xs);
    } else {
      HollowFallback(xs);
    }
  }

  lemma HollowAndInt(leaves: seq<DataType>)
    requires Elements(leaves) == {Union([]), Int8}
    ensures NormalForm(leaves) != Union([Int8])
  {
    CompareIsTotalOrder();
    assert Maxima(FitsIn, Elements(leaves)) == {Union([]), Int8};
    var r := Listing(Compare, Maxima(FitsIn, Elements(leaves)));
    assert Union([]) in Elements(r) && Int8 in Elements(r);
  }

  lemma SettledBesideItself(u: DataType)
    requires u.Union? && Settled(u) && u.members != []
    ensures NormalForm(u.members + [u]) != u
  {
    CompareIsTotalOrder();
    var leaves := u.members + [u];
    var r := Listing(Compare, Maxima(FitsIn, Elements(leaves)));
    NotInItself(u);
    UnionIsMaximal(leaves, u);
    assert u in Elements(r) && u.members[0] in leaves;
    if |r| == 1 {
      LoneListing(leaves, r);
    }
  }

  lemma LoneListing(leaves: seq<DataType>, r: seq<DataType>)
    requires |r| == 1 && Elements(r) == Maxima(FitsIn, Elements(leaves)) && r[0].Union?
    ensures forall k | k in leaves :: k == r[0]
  {
    assert Elements(r) == {r[0]};
    LoneUnion(leaves, r[0]);
  }

  /** A union the fallback meets as a leaf stays wrapped at once, but is unpacked in a second batch. */
  lemma CopiesNotIncremental(xs: seq<DataType>, u: DataType)
    requires !OneFamily(Flatten(xs)) && u.Union? && Settled(u) && u.members != []
    requires u in FoldedLeaves(xs) && forall k | k in FoldedLeaves(xs) :: k == u
    ensures Collapsed([Collapsed(xs)] + Wrapped(u)) != Collapsed(xs + Wrapped(u))
  {
    hide OneFamily, Flatten, Settled;
    var a := Flatten(xs);
    CopiesMaxima(Flatten(a), u);
    AfterSettled(u);
    NotFamilyAppend(a, [Union([u])]);
    WrappedFold(xs, u);
    CopiesMaxima(Flatten(a) + [u], u);
  }

  lemma AfterSettled(u: DataType)
    requires u.Union? && Settled(u) && u.members != []
    ensures Collapsed([u] + Wrapped(u)) != u
  {
    hide OneFamily, Flatten, Settled;
    WrappedLeaves(u);
    FirstFlattened(u, Wrapped(u));
    SettledNotFamily(u, [Union([u])]);
    FlattenAppend(u.members, [Union([u])]);
    SettledBesideItself(u);
  }

  lemma NotIncremental(xs: seq<DataType>) returns (ys: seq<DataType>)
    requires !Absorbable(xs)
    ensures Collapsed([Collapsed(xs)] + ys) != Collapsed(xs + ys)
  {
    var leaves := FoldedLeaves(xs);
    if !SettledLeaves(leaves) {
      ys := [];
      UnsettledNotIncremental(xs);
    } else {
      var u :| u in leaves && u.Union? && (OneFamily(Flatten(xs)) ==> u == Union([]));
      if u == Union([]) {
        ys := Wrapped(Int8);
        HollowNotIncremental(xs);
      } else {
        ys := Wrapped(u);
        CopiesNotIncremental(xs, u);
      }
    }
  }

  /** The fold of a batch may stand for the batch in every later fold exactly when it is absorbable. */
  lemma IncrementalExactly(xs: seq<DataType>)
    ensures (forall ys :: Collapsed([Collapsed(xs)] + ys) == Collapsed(xs + ys)) <==> Absorbable(xs)
  {
    if Absorbable(xs) {
      forall ys ensures Collapsed([Collapsed(xs)] + ys) == Collapsed(xs + ys) {
        CollapseIncremental(xs, ys);
      }
    } else {
      var ys := NotIncremental(xs);
    }
  }

  lemma OneLevelAbsorbable(xs: seq<DataType>)
    requires OneLevel(xs)
    ensures Absorbable(xs)
  {
    OneLevelLeaves(xs);
  }
}
