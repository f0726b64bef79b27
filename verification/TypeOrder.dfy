/**
 The order of column types (crates/types/src/data_type.rs) said without rank numbers: variants stand in the order of
 their declaration, and equal variants are settled by their payload.
 */
module TypeOrder {
  import opened Basics
  import opened DataTypes
  import opened Orders

  /** One type of each variant, in the order of declaration, with any payloads. */
  predicate OneOfEach(c: seq<DataType>) {
    && |c| == 26
    && c[0] == Bool && c[1] == Int8 && c[2] == Int16 && c[3] == Int32 && c[4] == Int64
    && c[5] == UInt8 && c[6] == UInt16 && c[7] == UInt32 && c[8] == UInt64 && c[9] == Float32 && c[10] == Float64
    && c[11].BigInt? && c[12].Decimal? && c[13].Text? && c[14].Bytes? && c[15] == Date && c[16] == Timestamp
    && c[17] == Uuid && c[18] == Ipv4 && c[19] == Ipv6 && c[20] == Json && c[21] == Xml && c[22] == Object
    && c[23].Union? && c[24] == Interval && c[25].Array?
  }

  lemma RankAt(c: seq<DataType>, i: nat)
    requires OneOfEach(c) && i < |c|
    ensures VariantOrder(c[i]) == if i < 24 then i else i + 1
  {
  }

  /** Whatever the payloads, a variant declared earlier sorts first. */
  lemma DeclarationOrder(c: seq<DataType>)
    requires OneOfEach(c)
    ensures Ascending(Compare, c)
  {
    hide OneOfEach, VariantOrder, Compare;
    forall i, j | 0 <= i < j < |c| ensures Compare(c[i], c[j]) == Less {
      RankAt(c, i);
      RankAt(c, j);
      LowerRank(c[i], c[j]);
    }
  }

  lemma LowerRank(a: DataType, b: DataType)
    requires VariantOrder(a) < VariantOrder(b)
    ensures Compare(a, b) == Less
  {
    hide VariantOrder, ComparePayload;
  }

  // ---- Payloads ----

  /** An absent bound comes first, then bounds by number. */
  predicate BoundBefore(a: Option<u32>, b: Option<u32>) {
    b.Some? && (a.None? || a.value < b.value)
  }

  lemma BoundOrder(a: Option<u32>, b: Option<u32>)
    ensures CompareBound(a, b) == Less <==> BoundBefore(a, b)
    ensures CompareBound(a, b) == Equal <==> a == b
  {
  }

  /** An unknown element comes first. */
  predicate ElementBefore(a: Option<DataType>, b: Option<DataType>) {
    b.Some? && (a.None? || Compare(a.value, b.value) == Less)
  }

  /** The first different member decides, then the length. */
  ghost predicate MembersBefore(a: seq<DataType>, b: seq<DataType>) {
    exists k: nat :: MembersDifferAt(a, b, k)
  }

  predicate MembersDifferAt(a: seq<DataType>, b: seq<DataType>, k: nat) {
    && k <= |a| && k < |b| && a[..k] == b[..k]
    && (k == |a| || Compare(a[k], b[k]) == Less)
  }

  ghost predicate PayloadBefore(a: DataType, b: DataType)
    requires SameShape(a, b)
  {
    if a.BigInt? then BoundBefore(a.width, b.width)
    else if a.Decimal? then
      BoundBefore(a.precision, b.precision) || (a.precision == b.precision && BoundBefore(a.scale, b.scale))
    else if a.Text? || a.Bytes? then BoundBefore(a.size, b.size)
    else if a.Union? then MembersBefore(a.members, b.members)
    else if a.Array? then
      || ElementBefore(a.element, b.element)
      || (a.element == b.element && !a.elementNullable && b.elementNullable)
    else false
  }

  lemma {:induction false} MembersOrder(a: seq<DataType>, b: seq<DataType>)
    ensures CompareMembers(a, b) == Less <==> MembersBefore(a, b)
  {
    hide Compare;
    if a == [] || b == [] {
      assert a == [] && b != [] ==> MembersDifferAt(a, b, 0);
    } else {
      MembersOrder(a[1..], b[1..]);
      CompareEqual(a[0], b[0]);
      assert Compare(a[0], b[0]) == Less ==> MembersDifferAt(a, b, 0);
      assert a == [a[0]] + a[1..] && b == [b[0]] + b[1..];
      if a[0] == b[0] && MembersBefore(a[1..], b[1..]) {
        var k: nat :| MembersDifferAt(a[1..], b[1..], k);
        assert a[..k + 1] == [a[0]] + a[1..][..k] && b[..k + 1] == [b[0]] + b[1..][..k];
        assert MembersDifferAt(a, b, k + 1);
      }
      if MembersBefore(a, b) {
        var k: nat :| MembersDifferAt(a, b, k);
        if k > 0 {
          assert a[0] == a[..k][0] && b[0] == b[..k][0];
          assert a[1..][..k - 1] == a[..k][1..] && b[1..][..k - 1] == b[..k][1..];
          assert MembersDifferAt(a[1..], b[1..], k - 1);
        }
      }
    }
  }

  lemma ElementOrder(a: Option<DataType>, b: Option<DataType>)
    ensures CompareElement(a, b) == Less <==> ElementBefore(a, b)
    ensures CompareElement(a, b) == Equal <==> a == b
  {
    hide Compare;
    if a.Some? && b.Some? {
      CompareEqual(a.value, b.value);
    }
  }

  lemma SameRank(a: DataType, b: DataType)
    requires SameShape(a, b)
    ensures Compare(a, b) == ComparePayload(a, b)
  {
    hide ComparePayload;
  }

  /** Types of one variant: numbers of bounds, places of decimals, members in dictionary order, elements then nulls. */
  lemma PayloadOrder(a: DataType, b: DataType)
    requires SameShape(a, b)
    ensures Compare(a, b) == Less <==> PayloadBefore(a, b)
  {
    SameRank(a, b);
    hide CompareBound, CompareElement, CompareMembers, Compare, MembersBefore, ElementBefore, BoundBefore;
    if a.BigInt? {
      BoundOrder(a.width, b.width);
    } else if a.Decimal? {
      BoundOrder(a.precision, b.precision);
      BoundOrder(a.scale, b.scale);
    } else if a.Text? || a.Bytes? {
      BoundOrder(a.size, b.size);
    } else if a.Union? {
      MembersOrder(a.members, b.members);
    } else if a.Array? {
      ElementOrder(a.element, b.element);
    }
  }
}
