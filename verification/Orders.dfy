/**
 Generic order theory used by the type fold: listings of finite sets under a total order,
 and maximal elements under a partial order whose comparable elements form families.
 */
module Orders {
  import opened Basics

  function Elements<T>(s: seq<T>): set<T> {
    set t | t in s
  }

  // ---- Total orders ----

  ghost predicate TotalOrder<T(!new)>(cmp: (T, T) -> Ordering) {
    && (forall a, b :: cmp(a, b) == Equal <==> a == b)
    && (forall a, b :: cmp(b, a) == cmp(a, b).Reverse())
    && (forall a, b, c :: cmp(a, b) != Greater && cmp(b, c) != Greater ==> cmp(a, c) != Greater)
  }

  predicate Ascending<T>(cmp: (T, T) -> Ordering, s: seq<T>) {
    forall i, j | 0 <= i < j < |s| :: cmp(s[i], s[j]) == Less
  }

  predicate Sorted<T>(cmp: (T, T) -> Ordering, s: seq<T>) {
    forall i, j | 0 <= i < j < |s| :: cmp(s[i], s[j]) != Greater
  }

  predicate IsLeast<T(==)>(cmp: (T, T) -> Ordering, m: T, s: set<T>) {
    m in s && forall t | t in s :: cmp(m, t) != Greater
  }

  lemma {:induction false} LeastExists<T(!new)>(cmp: (T, T) -> Ordering, s: set<T>)
    requires TotalOrder(cmp) && s != {}
    ensures exists m :: IsLeast(cmp, m, s)
    decreases |s|
  {
    var t :| t in s;
    if s == {t} {
      assert IsLeast(cmp, t, s);
    } else {
      LeastExists(cmp, s - {t});
      var m :| IsLeast(cmp, m, s - {t});
      if cmp(m, t) != Greater {
        assert IsLeast(cmp, m, s);
      } else {
        assert cmp(t, m) == Less;
        forall u | u in s ensures cmp(t, u) != Greater {
          assert u != t ==> cmp(m, u) != Greater;
        }
        assert IsLeast(cmp, t, s);
      }
    }
  }

  /** The elements of a finite set in ascending order. */
  ghost function Listing<T(!new)>(cmp: (T, T) -> Ordering, s: set<T>): (r: seq<T>)
    requires TotalOrder(cmp)
    ensures Ascending(cmp, r) && Elements(r) == s
    decreases |s|
  {
    if s == {} then []
    else
      LeastExists(cmp, s);
      var m :| IsLeast(cmp, m, s);
      var rest := Listing(cmp, s - {m});
      ListingStep(cmp, s, m, rest);
      [m] + rest
  }

  lemma ListingStep<T(!new)>(cmp: (T, T) -> Ordering, s: set<T>, m: T, rest: seq<T>)
    requires TotalOrder(cmp) && IsLeast(cmp, m, s)
    requires Ascending(cmp, rest) && Elements(rest) == s - {m}
    ensures Ascending(cmp, [m] + rest) && Elements([m] + rest) == s
  {
    forall i | 0 <= i < |rest| ensures cmp(m, rest[i]) == Less {
      assert rest[i] in Elements(rest);
      assert cmp(m, rest[i]) != Greater && rest[i] != m;
    }
    assert Elements([m] + rest) == {m} + Elements(rest);
  }

  /** An ascending list is determined by its elements. */
  lemma {:induction false} AscendingUnique<T(!new)>(cmp: (T, T) -> Ordering, r: seq<T>, s: seq<T>)
    requires TotalOrder(cmp) && Ascending(cmp, r) && Ascending(cmp, s) && Elements(r) == Elements(s)
    ensures r == s
  {
    assert r != [] ==> r[0] in Elements(r);
    assert s != [] ==> s[0] in Elements(s);
    if r == [] {
    } else {
      assert r[0] in Elements(s) && s[0] in Elements(r);
      assert cmp(r[0], s[0]) != Greater && cmp(s[0], r[0]) != Greater;
      TailElements(cmp, r);
      TailElements(cmp, s);
      AscendingUnique(cmp, r[1..], s[1..]);
      assert r == [r[0]] + r[1..] && s == [s[0]] + s[1..];
    }
  }

  lemma TailElements<T(!new)>(cmp: (T, T) -> Ordering, r: seq<T>)
    requires TotalOrder(cmp) && Ascending(cmp, r) && r != []
    ensures Elements(r[1..]) == Elements(r) - {r[0]}
  {
    forall i | 1 <= i < |r| ensures r[i] != r[0] {
      assert cmp(r[0], r[i]) == Less;
    }
  }

  lemma LastElement<T(!new)>(cmp: (T, T) -> Ordering, r: seq<T>)
    requires TotalOrder(cmp) && Ascending(cmp, r) && r != []
    ensures Elements(r[..|r| - 1]) == Elements(r) - {r[|r| - 1]}
  {
    forall i | 0 <= i < |r| - 1 ensures r[i] != r[|r| - 1] {
      assert cmp(r[i], r[|r| - 1]) == Less;
    }
  }

  // ---- Insertion sort ----

  function Insert<T>(cmp: (T, T) -> Ordering, t: T, sorted: seq<T>): seq<T> {
    if sorted == [] then [t]
    else if cmp(t, sorted[0]) != Greater then [t] + sorted
    else [sorted[0]] + Insert(cmp, t, sorted[1..])
  }

  function Sort<T>(cmp: (T, T) -> Ordering, s: seq<T>): seq<T> {
    if s == [] then [] else Insert(cmp, s[0], Sort(cmp, s[1..]))
  }

  lemma {:induction false} InsertPermutes<T>(cmp: (T, T) -> Ordering, t: T, s: seq<T>)
    ensures multiset(Insert(cmp, t, s)) == multiset(s) + multiset{t}
  {
    if s == [] {
    } else {
      assert s == [s[0]] + s[1..];
      InsertPermutes(cmp, t, s[1..]);
    }
  }

  lemma {:induction false} InsertSorted<T(!new)>(cmp: (T, T) -> Ordering, t: T, s: seq<T>)
    requires TotalOrder(cmp) && Sorted(cmp, s)
    ensures Sorted(cmp, Insert(cmp, t, s))
  {
    if s == [] {
    } else {
      if cmp(t, s[0]) != Greater {
        forall i | 0 <= i < |s| ensures cmp(t, s[i]) != Greater {
          assert i > 0 ==> cmp(s[0], s[i]) != Greater;
        }
      } else {
        InsertSorted(cmp, t, s[1..]);
        InsertPermutes(cmp, t, s[1..]);
        var rest := Insert(cmp, t, s[1..]);
        forall i | 0 <= i < |rest| ensures cmp(s[0], rest[i]) != Greater {
          assert rest[i] in multiset(rest);
          assert rest[i] == t || rest[i] in s[1..];
        }
      }
    }
  }

  /** `Sort` is a sorted permutation. */
  lemma {:induction false} SortSorts<T(!new)>(cmp: (T, T) -> Ordering, s: seq<T>)
    requires TotalOrder(cmp)
    ensures Sorted(cmp, Sort(cmp, s)) && multiset(Sort(cmp, s)) == multiset(s)
  {
    if s == [] {
    } else {
      SortSorts(cmp, s[1..]);
      InsertSorted(cmp, s[0], Sort(cmp, s[1..]));
      InsertPermutes(cmp, s[0], Sort(cmp, s[1..]));
      assert s == [s[0]] + s[1..];
    }
  }

  lemma SameMultisetSameElements<T>(r: seq<T>, s: seq<T>)
    requires multiset(r) == multiset(s)
    ensures Elements(r) == Elements(s)
  {
    forall t ensures t in r <==> t in s {
      assert t in multiset(r) <==> t in multiset(s);
    }
  }

  // ---- Widening orders ----

  /** A partial order whose comparability is transitive: comparable elements form families. */
  ghost predicate WideningOrder<T(!new)>(fits: (T, T) -> bool) {
    && (forall a :: fits(a, a))
    && (forall a, b :: fits(a, b) && fits(b, a) ==> a == b)
    && (forall a, b, c :: fits(a, b) && fits(b, c) ==> fits(a, c))
    && (forall a, b, c :: Related(fits, a, b) && Related(fits, b, c) ==> Related(fits, a, c))
  }

  predicate Related<T>(fits: (T, T) -> bool, a: T, b: T) {
    fits(a, b) || fits(b, a)
  }

  function Join<T>(fits: (T, T) -> bool, a: T, b: T): T {
    if fits(a, b) then b else a
  }

  /** No other element of `s` is wider. */
  predicate IsMaximal<T(==)>(fits: (T, T) -> bool, t: T, s: set<T>) {
    t in s && forall u | u in s :: fits(t, u) ==> u == t
  }

  function Maxima<T(==)>(fits: (T, T) -> bool, s: set<T>): set<T> {
    set t | t in s && IsMaximal(fits, t, s)
  }

  lemma {:induction false} Dominated<T(!new)>(fits: (T, T) -> bool, s: set<T>, t: T) returns (m: T)
    requires WideningOrder(fits) && t in s
    ensures IsMaximal(fits, m, s) && fits(t, m)
    decreases |s|
  {
    if IsMaximal(fits, t, s) {
      m := t;
    } else {
      var u :| u in s && fits(t, u) && u != t;
      m := Dominated(fits, s - {t}, u);
    }
  }

  /** Replacing a set by its maxima does not change later maxima. */
  lemma MaximaAbsorb<T(!new)>(fits: (T, T) -> bool, s: set<T>, more: set<T>)
    requires WideningOrder(fits)
    ensures Maxima(fits, Maxima(fits, s) + more) == Maxima(fits, s + more)
  {
    var left, right := Maxima(fits, s) + more, s + more;
    forall t | IsMaximal(fits, t, left) ensures IsMaximal(fits, t, right) {
      forall u | u in right && fits(t, u) ensures u == t {
        if u in s {
          var m := Dominated(fits, s, u);
          assert m in left && fits(t, m);
        }
      }
    }
    forall t | IsMaximal(fits, t, right) ensures IsMaximal(fits, t, left) {
      assert t in s ==> IsMaximal(fits, t, s);
    }
  }

  lemma MaximaNewFamily<T(!new)>(fits: (T, T) -> bool, s: set<T>, t: T)
    requires WideningOrder(fits) && forall u | u in s :: !Related(fits, u, t)
    ensures Maxima(fits, s + {t}) == Maxima(fits, s) + {t}
  {
    forall u | u in s ensures IsMaximal(fits, u, s + {t}) <==> IsMaximal(fits, u, s) {
      assert !Related(fits, u, t);
    }
  }

  lemma MaximaSameFamily<T(!new)>(fits: (T, T) -> bool, s: set<T>, top: T, t: T)
    requires WideningOrder(fits) && top in Maxima(fits, s) && Related(fits, top, t)
    ensures Maxima(fits, s + {t}) == Maxima(fits, s) - {top} + {Join(fits, top, t)}
  {
    var grown, joined := s + {t}, Join(fits, top, t);
    assert IsMaximal(fits, joined, grown);
    forall u | u in s && u != top && u != t
      ensures IsMaximal(fits, u, grown) <==> IsMaximal(fits, u, s)
    {
      assert Related(fits, t, top);
      assert Related(fits, u, t) ==> Related(fits, u, top);
    }
  }

  // ---- The stack pass ----

  /** Families are intervals of the total order. */
  ghost predicate Convex<T(!new)>(cmp: (T, T) -> Ordering, fits: (T, T) -> bool) {
    forall low, mid, high {:trigger cmp(low, mid), cmp(mid, high)} ::
      cmp(low, mid) != Greater && cmp(mid, high) != Greater && Related(fits, low, high) ==>
        Related(fits, low, mid)
  }

  /** The stack after absorbing `next`. */
  function Stacked<T>(fits: (T, T) -> bool, stack: seq<T>, next: T): (grown: seq<T>)
    requires stack != []
  {
    var top, below := stack[|stack| - 1], stack[..|stack| - 1];
    if Related(fits, top, next) then below + [Join(fits, top, next)] else below + [top, next]
  }

  /** The stack lists the maxima seen so far, and its top belongs to the latest family. */
  predicate StackInvariant<T(==)>(cmp: (T, T) -> Ordering, fits: (T, T) -> bool, seen: seq<T>, stack: seq<T>) {
    && seen != [] && stack != []
    && Ascending(cmp, stack)
    && Elements(stack) == Maxima(fits, Elements(seen))
    && Related(fits, stack[|stack| - 1], seen[|seen| - 1])
  }

  lemma StackStep<T(!new)>(cmp: (T, T) -> Ordering, fits: (T, T) -> bool, seen: seq<T>, next: T, stack: seq<T>)
    requires TotalOrder(cmp) && WideningOrder(fits) && Convex(cmp, fits)
    requires Ascending(cmp, seen + [next])
    requires StackInvariant(cmp, fits, seen, stack)
    ensures StackInvariant(cmp, fits, seen + [next], Stacked(fits, stack, next))
  {
    hide Maxima, WideningOrder, TotalOrder, Convex;
    var top, below := stack[|stack| - 1], stack[..|stack| - 1];
    var grown := Stacked(fits, stack, next);
    assert Elements(seen + [next]) == Elements(seen) + {next};
    assert stack == below + [top];
    StackBelow(cmp, fits, seen, next, stack);
    RelatedReflexive(fits, next);
    if Related(fits, top, next) {
      assert top in Elements(stack);
      MaximaSameFamily(fits, Elements(seen), top, next);
      LastElement(cmp, stack);
      assert Elements(grown) == Elements(below) + {Join(fits, top, next)};
    } else {
      NextIsNewFamily(cmp, fits, seen, next, stack);
      MaximaNewFamily(fits, Elements(seen), next);
      assert grown == stack + [next];
      assert Elements(grown) == Elements(stack) + {next};
    }
  }

  lemma RelatedReflexive<T(!new)>(fits: (T, T) -> bool, t: T)
    requires WideningOrder(fits)
    ensures Related(fits, t, t)
  {
  }

  lemma StackBelow<T(!new)>(cmp: (T, T) -> Ordering, fits: (T, T) -> bool, seen: seq<T>, next: T, stack: seq<T>)
    requires Ascending(cmp, seen + [next]) && StackInvariant(cmp, fits, seen, stack)
    ensures forall i | 0 <= i < |stack| :: cmp(stack[i], next) == Less
  {
    var all := seen + [next];
    forall i | 0 <= i < |stack| ensures cmp(stack[i], next) == Less {
      assert stack[i] in Elements(stack);
      var j :| 0 <= j < |seen| && seen[j] == stack[i];
      assert cmp(all[j], all[|seen|]) == Less;
    }
  }

  lemma NextIsNewFamily<T(!new)>(cmp: (T, T) -> Ordering, fits: (T, T) -> bool, seen: seq<T>, next: T, stack: seq<T>)
    requires TotalOrder(cmp) && WideningOrder(fits) && Convex(cmp, fits)
    requires Ascending(cmp, seen + [next]) && StackInvariant(cmp, fits, seen, stack)
    requires !Related(fits, stack[|stack| - 1], next)
    ensures forall u | u in Elements(seen) :: !Related(fits, u, next)
  {
    var all, top, last := seen + [next], stack[|stack| - 1], seen[|seen| - 1];
    forall u | u in Elements(seen) ensures !Related(fits, u, next) {
      var j :| 0 <= j < |seen| && seen[j] == u;
      assert all[j] == u && all[|seen| - 1] == last && all[|seen|] == next;
      assert cmp(u, last) != Greater && cmp(last, next) != Greater;
      assert Related(fits, top, last);
      assert Related(fits, u, last) ==> Related(fits, last, u);
      assert Related(fits, last, u) ==> Related(fits, top, u);
    }
  }
}
