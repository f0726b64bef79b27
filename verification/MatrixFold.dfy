/** Folding observed types never changes a compatibility verdict. */
module MatrixFold {
  import opened Basics
  import opened DataTypes
  import opened Orders
  import opened UnionTypes
  import opened Matrix

  predicate Accepts(truncate: bool, s: DataType, t: DataType) {
    if truncate then IsCompatibleWithTruncate(s, t) else IsCompatible(s, t)
  }

  // The arms alone: what the wider type may enter, the narrower one may.

  predicate LosslessCarries(narrow: DataType, wide: DataType, t: DataType) {
    wide == t || LosslessArm(wide, t) ==> LosslessArm(narrow, t)
  }

  predicate TruncateCarries(narrow: DataType, wide: DataType, t: DataType) {
    TruncateArm(wide, t) ==> narrow == t || LosslessArm(narrow, t) || TruncateArm(narrow, t)
  }

  predicate ArmsCarry(narrow: DataType, wide: DataType, t: DataType) {
    LosslessCarries(narrow, wide, t) && TruncateCarries(narrow, wide, t)
  }

  lemma IntLossless(narrow: DataType, wide: DataType, t: DataType)
    requires IsSigned(narrow) && IsSigned(wide) && IntWidth(narrow) < IntWidth(wide)
    ensures LosslessCarries(narrow, wide, t)
  {
  }

  lemma IntTruncate(narrow: DataType, wide: DataType, t: DataType)
    requires IsSigned(narrow) && IsSigned(wide) && IntWidth(narrow) < IntWidth(wide)
    ensures TruncateCarries(narrow, wide, t)
  {
  }

  lemma UIntLossless(narrow: DataType, wide: DataType, t: DataType)
    requires IsUnsigned(narrow) && IsUnsigned(wide) && UIntWidth(narrow) < UIntWidth(wide)
    ensures LosslessCarries(narrow, wide, t)
  {
  }

  lemma UIntTruncate(narrow: DataType, wide: DataType, t: DataType)
    requires IsUnsigned(narrow) && IsUnsigned(wide) && UIntWidth(narrow) < UIntWidth(wide)
    ensures TruncateCarries(narrow, wide, t)
  {
  }

  lemma SizedArms(narrow: DataType, wide: DataType, t: DataType)
    requires (narrow.Text? && wide.Text?) || (narrow.Bytes? && wide.Bytes?)
    requires BoundRank(narrow.size) <= BoundRank(wide.size) && !IsIdentifier(t)
    ensures ArmsCarry(narrow, wide, t)
  {
  }

  lemma ArmsCarryDown(narrow: DataType, wide: DataType, t: DataType)
    requires PlaceFits(PlaceOf(narrow), PlaceOf(wide)) && narrow != wide && !IsIdentifier(t)
    ensures ArmsCarry(narrow, wide, t)
  {
    if IsSigned(narrow) {
      IntLossless(narrow, wide, t);
      IntTruncate(narrow, wide, t);
    } else if IsUnsigned(narrow) {
      UIntLossless(narrow, wide, t);
      UIntTruncate(narrow, wide, t);
    } else if IsFloat(narrow) {
      assert narrow == Float32 && wide == Float64;
    } else {
      SizedArms(narrow, wide, t);
    }
  }

  /** A sink that takes the wider type takes the narrower one. */
  lemma NarrowerIsAccepted(truncate: bool, narrow: DataType, wide: DataType, t: DataType)
    requires FitsIn(narrow, wide) && !t.Union? && !IsIdentifier(t)
    requires Accepts(truncate, wide, t)
    ensures Accepts(truncate, narrow, t)
  {
    if narrow != wide {
      ArmsCarryDown(narrow, wide, t);
      PlainAccepts(truncate, narrow, t);
      PlainAccepts(truncate, wide, t);
    }
  }

  predicate ArmsAccept(truncate: bool, s: DataType, t: DataType) {
    s == t || LosslessArm(s, t) || (truncate && TruncateArm(s, t))
  }

  lemma PlainAccepts(truncate: bool, s: DataType, t: DataType)
    requires !s.Union? && !s.Array? && !t.Union?
    ensures Accepts(truncate, s, t) <==> ArmsAccept(truncate, s, t)
  {
    hide IsCompatible, LosslessArm, TruncateArm;
    PlainLossless(s, t);
  }

  lemma PlainLossless(s: DataType, t: DataType)
    requires !s.Union? && !s.Array? && !t.Union?
    ensures IsCompatible(s, t) <==> s == t || LosslessArm(s, t)
  {
  }

  /** Over leaves: every leaf is accepted iff the maximal ones are. */
  lemma MaximaDecide(truncate: bool, leaves: set<DataType>, t: DataType)
    requires !t.Union? && !IsIdentifier(t)
    ensures (forall m | m in Maxima(FitsIn, leaves) :: Accepts(truncate, m, t)) <==>
            (forall l | l in leaves :: Accepts(truncate, l, t))
  {
    if forall m | m in Maxima(FitsIn, leaves) :: Accepts(truncate, m, t) {
      FitsInIsWideningOrder();
      forall l | l in leaves ensures Accepts(truncate, l, t) {
        var m := Dominated(FitsIn, leaves, l);
        NarrowerIsAccepted(truncate, l, m, t);
      }
    }
  }

  /** A type is accepted iff all its leaves are, for sinks other than unions. */
  lemma LeavesDecide(truncate: bool, s: DataType, t: DataType)
    requires !t.Union?
    ensures Accepts(truncate, s, t) <==> forall l | l in IntoLeaves(s) :: Accepts(truncate, l, t)
  {
  }

  lemma FlattenDecides(truncate: bool, xs: seq<DataType>, t: DataType)
    requires !t.Union?
    ensures (forall x | x in xs :: Accepts(truncate, x, t)) <==>
            (forall l | l in Elements(Flatten(xs)) :: Accepts(truncate, l, t))
  {
    forall x | x in xs ensures Accepts(truncate, x, t) <==> forall l | l in IntoLeaves(x) :: Accepts(truncate, l, t) {
      LeavesDecide(truncate, x, t);
    }
    forall l ensures l in Elements(Flatten(xs)) <==> exists x :: x in xs && l in IntoLeaves(x) {
      FlattenMember(xs, l);
    }
    if forall l | l in Elements(Flatten(xs)) :: Accepts(truncate, l, t) {
      forall x | x in xs ensures Accepts(truncate, x, t) {
        forall l | l in IntoLeaves(x) ensures Accepts(truncate, l, t) {
          assert x in xs && l in IntoLeaves(x);
          assert l in Elements(Flatten(xs));
        }
      }
    }
  }

  /** A packed list is accepted iff every listed type is. */
  lemma NormalFormDecides(truncate: bool, leaves: seq<DataType>, t: DataType)
    requires !t.Union?
    ensures Accepts(truncate, NormalForm(leaves), t) <==>
            forall m | m in Maxima(FitsIn, Elements(leaves)) :: Accepts(truncate, m, t)
  {
    CompareIsTotalOrder();
    var r := Listing(Compare, Maxima(FitsIn, Elements(leaves)));
    LeavesDecide(truncate, Union(r), t);
    forall m ensures m in r <==> m in Maxima(FitsIn, Elements(leaves)) {
      assert m in Elements(r) <==> m in r;
    }
  }

  /** Unpacking one level or two, the leaves decide for the bag. */
  lemma FoldedDecides(truncate: bool, xs: seq<DataType>, t: DataType)
    requires !t.Union?
    ensures (forall x | x in xs :: Accepts(truncate, x, t)) <==>
            (forall l | l in Elements(FoldedLeaves(xs)) :: Accepts(truncate, l, t))
  {
    hide Accepts;
    FlattenDecides(truncate, xs, t);
    FlattenDecides(truncate, Flatten(xs), t);
    assert forall l | l in Flatten(xs) :: l in Elements(Flatten(xs));
  }

  /**
   The collapsed type is accepted iff every observed type is, losslessly and under truncation,
   for every sink other than a union, a uuid or an address.
   */
  lemma FoldKeepsVerdict(truncate: bool, xs: seq<DataType>, t: DataType)
    requires !t.Union? && !IsIdentifier(t)
    ensures Accepts(truncate, Collapsed(xs), t) <==> forall x | x in xs :: Accepts(truncate, x, t)
  {
    hide Accepts;
    NormalFormDecides(truncate, FoldedLeaves(xs), t);
    MaximaDecide(truncate, Elements(FoldedLeaves(xs)), t);
    FoldedDecides(truncate, xs, t);
  }

  /** For the minimum-length sinks the fold only ever turns a refusal into an acceptance. */
  lemma FoldKeepsAcceptance(truncate: bool, xs: seq<DataType>, t: DataType)
    requires !t.Union?
    requires forall x | x in xs :: Accepts(truncate, x, t)
    ensures Accepts(truncate, Collapsed(xs), t)
  {
    hide Accepts;
    NormalFormDecides(truncate, FoldedLeaves(xs), t);
    FoldedDecides(truncate, xs, t);
  }

  lemma PairCollapses(narrow: DataType, wide: DataType)
    requires !narrow.Union? && !wide.Union? && FitsIn(narrow, wide)
    ensures Collapsed([narrow, wide]) == wide
  {
    var xs := [narrow, wide];
    FlattenPlain(xs);
    assert xs[..|xs|] == xs && Greedy(xs, wide);
    GreedyEnd(xs, wide);
  }

  /** `Text(10)` is refused by a uuid sink, and hidden by a wider sibling. */
  lemma FoldHidesShortText()
    ensures var xs := [Text(Some(10)), Text(Some(36))];
            Accepts(false, Collapsed(xs), Uuid) && !Accepts(false, xs[0], Uuid)
  {
    var short, long := Text(Some(10)), Text(Some(36));
    hide Accepts, ArmsAccept;
    PairCollapses(short, long);
    PlainAccepts(false, short, Uuid);
    PlainAccepts(false, long, Uuid);
    SizedIntoMinimum(false, short, Uuid);
    SizedIntoMinimum(false, long, Uuid);
  }

  /** A text or byte column too short for what a minimum-length sink needs. */
  predicate TooShort(s: DataType, t: DataType) {
    var textNeeds, bytesNeeds := if t.Uuid? then 36 else if t.Ipv4? then 7 else 2, if t.Ipv4? then 4 else 16;
    (s.Text? && !AtLeast(s.size, textNeeds)) || (s.Bytes? && !AtLeast(s.size, bytesNeeds))
  }

  lemma NumbersRefused(truncate: bool, s: DataType, t: DataType)
    requires IsIdentifier(t) && (IsSigned(s) || IsUnsigned(s) || IsFloat(s))
    ensures !ArmsAccept(truncate, s, t)
  {
  }

  lemma SizedIntoMinimum(truncate: bool, s: DataType, t: DataType)
    requires IsIdentifier(t) && (s.Text? || s.Bytes?)
    ensures ArmsAccept(truncate, s, t) <==> !TooShort(s, t)
  {
  }

  lemma FamilyKinds(narrow: DataType, wide: DataType)
    requires FitsIn(narrow, wide) && narrow != wide
    ensures !narrow.Union? && !narrow.Array? && !wide.Union? && !wide.Array?
    ensures (narrow.Text? && wide.Text?) || (narrow.Bytes? && wide.Bytes?) || IsSigned(wide) || IsUnsigned(wide) || IsFloat(wide)
  {
  }

  lemma LongEnoughIsAccepted(truncate: bool, narrow: DataType, wide: DataType, t: DataType)
    requires IsIdentifier(t) && FitsIn(narrow, wide) && narrow != wide && Accepts(truncate, wide, t)
    ensures Accepts(truncate, narrow, t) <==> !TooShort(narrow, t)
  {
    hide Accepts, ArmsAccept, TooShort, FitsIn, IsSigned, IsUnsigned, IsFloat;
    FamilyKinds(narrow, wide);
    PlainAccepts(truncate, narrow, t);
    PlainAccepts(truncate, wide, t);
    if IsSigned(wide) || IsUnsigned(wide) || IsFloat(wide) {
      NumbersRefused(truncate, wide, t);
    } else {
      SizedIntoMinimum(truncate, narrow, t);
    }
  }

  lemma ShortIsRefused(truncate: bool, s: DataType, t: DataType)
    requires IsIdentifier(t) && TooShort(s, t)
    ensures !Accepts(truncate, s, t)
  {
    PlainAccepts(truncate, s, t);
  }

  /** Some leaf, at whatever union depth, is too short. */
  predicate HasShort(s: DataType, t: DataType)
    decreases s
  {
    if s.Union? then exists m | m in s.members :: HasShort(m, t) else TooShort(s, t)
  }

  lemma {:induction false} HasShortIsRefused(truncate: bool, s: DataType, t: DataType)
    requires IsIdentifier(t) && HasShort(s, t)
    ensures !Accepts(truncate, s, t)
    decreases s
  {
    hide TooShort;
    if s.Union? {
      var m :| m in s.members && HasShort(m, t);
      HasShortIsRefused(truncate, m, t);
    } else {
      ShortIsRefused(truncate, s, t);
    }
  }

  lemma FlattenHasShort(xs: seq<DataType>, t: DataType)
    requires forall x | x in xs :: !HasShort(x, t)
    ensures forall l | l in Flatten(xs) :: !HasShort(l, t)
  {
    forall l | l in Flatten(xs) ensures !HasShort(l, t) {
      FlattenMember(xs, l);
    }
  }

  /**
   For those sinks a bag is accepted exactly when its fold is and no leaf, however deep in unions, is
   shorter than the sink needs.
   */
  lemma MinimumLengthVerdict(truncate: bool, xs: seq<DataType>, t: DataType)
    requires IsIdentifier(t)
    ensures (forall x | x in xs :: Accepts(truncate, x, t)) <==>
            Accepts(truncate, Collapsed(xs), t) && forall x | x in xs :: !HasShort(x, t)
  {
    hide Accepts, HasShort, Collapsed, IsIdentifier;
    NotUnion(t);
    if forall x | x in xs :: Accepts(truncate, x, t) {
      FoldKeepsAcceptance(truncate, xs, t);
      forall x | x in xs ensures !HasShort(x, t) {
        if HasShort(x, t) {
          HasShortIsRefused(truncate, x, t);
        }
      }
    }
    if Accepts(truncate, Collapsed(xs), t) && forall x | x in xs :: !HasShort(x, t) {
      LongEnoughBag(truncate, xs, t);
    }
  }

  lemma LongEnoughBag(truncate: bool, xs: seq<DataType>, t: DataType)
    requires IsIdentifier(t) && !t.Union?
    requires Accepts(truncate, Collapsed(xs), t) && forall x | x in xs :: !HasShort(x, t)
    ensures forall x | x in xs :: Accepts(truncate, x, t)
  {
    var leaves := FoldedLeaves(xs);
    FlattenHasShort(xs, t);
    FlattenHasShort(Flatten(xs), t);
    NormalFormDecides(truncate, leaves, t);
    FitsInIsWideningOrder();
    hide Accepts, HasShort, IsIdentifier, FoldedLeaves;
    forall l | l in Elements(leaves) ensures Accepts(truncate, l, t) {
      var m := Dominated(FitsIn, Elements(leaves), l);
      assert m in Maxima(FitsIn, Elements(leaves));
      if l != m {
        FamilyKinds(l, m);
        NotShort(l, t);
        LongEnoughIsAccepted(truncate, l, m, t);
      }
    }
    FoldedDecides(truncate, xs, t);
  }

  lemma NotShort(s: DataType, t: DataType)
    requires !s.Union? && !HasShort(s, t)
    ensures !TooShort(s, t)
  {
  }

  lemma NotUnion(t: DataType)
    requires IsIdentifier(t)
    ensures !t.Union?
  {
  }
}
