/** Runtime values (crates/types/src/value.rs). Connector-specific `Custom` values are not modelled here. */
module Values {
  import opened Basics

  type Octets4 = s: seq<byte> | |s| == 4 witness [0, 0, 0, 0]
  type Octets16 = s: seq<byte> | |s| == 16 witness [0, 0, 0, 0, 0, 0, 0, 0, 0, 0, 0, 0, 0, 0, 0, 0]

  datatype Entry = Entry(key: seq<byte>, value: Value)

  datatype Value =
    | Null
    | Bool(flag: bool)
    | Int8(int8: i8)
    | Int16(int16: i16)
    | Int32(int32: i32)
    | Int64(int64: i64)
    | UInt8(uint8: u8)
    | UInt16(uint16: u16)
    | UInt32(uint32: u32)
    | UInt64(uint64: u64)
    | Float32(bits32: u32)
    | Float64(bits64: u64)
    | BigInt(big: int)
    | Decimal(mantissa: int, scale: int)
    | Text(utf8: seq<byte>)
    | Bytes(bytes: seq<byte>)
    | Date(days: int)                           // days since 1970-01-01
    | Timestamp(nanos: int)                     // nanoseconds since the epoch
    | Uuid(uuid: Octets16)
    | Ipv4(ipv4: Octets4)
    | Ipv6(ipv6: Octets16)
    | Json(json: seq<byte>)                     // the document, identified by its canonical text
    | Object(entries: seq<Entry>)
    | Array(items: seq<Value>)
    | Interval(span: nat)

  /** `Ipv4Addr::to_ipv6_mapped`: ::ffff:a.b.c.d (section 2.5.5.2 of RFC 4291). */
  function MappedIpv6(v4: Octets4): Octets16 {
    [0, 0, 0, 0, 0, 0, 0, 0, 0, 0, 0xFF, 0xFF] + v4
  }

  /** Mapping preserves the order of addresses. */
  lemma MappedIpv6Order(a: Octets4, b: Octets4)
    ensures CompareBytes(MappedIpv6(a), MappedIpv6(b)) == CompareBytes(a, b)
  {
    CommonPrefix([0, 0, 0, 0, 0, 0, 0, 0, 0, 0, 0xFF, 0xFF], a, b);
  }

  lemma {:induction false} CommonPrefix(p: seq<int>, a: seq<int>, b: seq<int>)
    ensures CompareBytes(p + a, p + b) == CompareBytes(a, b)
  {
    if p == [] {
      assert p + a == a && p + b == b;
    } else {
      CommonPrefix(p[1..], a, b);
      assert (p + a)[1..] == p[1..] + a && (p + b)[1..] == p[1..] + b;
    }
  }

  /** Octets read as one number, most significant first. */
  function BigEndian(s: seq<byte>): nat {
    if s == [] then 0 else 256 * BigEndian(s[..|s| - 1]) + s[|s| - 1]
  }

  lemma {:induction false} BigEndianZeros(zeros: seq<byte>, s: seq<byte>)
    requires forall i :: 0 <= i < |zeros| ==> zeros[i] == 0
    ensures BigEndian(zeros + s) == BigEndian(s)
  {
    if s == [] {
      assert zeros + s == zeros;
      if zeros != [] {
        BigEndianZeros(zeros[..|zeros| - 1], []);
        assert zeros[..|zeros| - 1] + [] == zeros[..|zeros| - 1];
      }
    } else {
      BigEndianZeros(zeros, s[..|s| - 1]);
      assert (zeros + s)[..|zeros + s| - 1] == zeros + s[..|s| - 1];
    }
  }

  lemma {:induction false} BigEndianAppend(a: seq<byte>, b: seq<byte>)
    ensures BigEndian(a + b) == BigEndian(a) * Pow(256, |b|) + BigEndian(b)
  {
    if b == [] {
      assert a + b == a;
    } else {
      var rest := b[..|b| - 1];
      BigEndianAppend(a, rest);
      assert (a + b)[..|a + b| - 1] == a + rest;
      MulAssociative(256, BigEndian(a), Pow(256, |rest|));
      MulAssociative(BigEndian(a), 256, Pow(256, |rest|));
    }
  }

  lemma {:induction false} BigEndianBound(s: seq<byte>)
    ensures BigEndian(s) < Pow(256, |s|)
  {
    if s == [] {
    } else {
      BigEndianBound(s[..|s| - 1]);
    }
  }

  lemma FirstOctet(s: seq<byte>)
    requires s != []
    ensures BigEndian(s) == s[0] * Pow(256, |s| - 1) + BigEndian(s[1..])
  {
    assert s == [s[0]] + s[1..] && [s[0]][..0] == [];
    assert BigEndian([s[0]]) == s[0];
    BigEndianAppend([s[0]], s[1..]);
  }

  lemma SmallerLeads(x: nat, y: nat, p: nat, u: nat, w: nat)
    requires x < y && u < p
    ensures x * p + u < y * p + w
  {
    MulStep(x, p);
    MulMonotone(x + 1, y, p);
  }

  /** A larger leading digit outweighs everything after it. */
  lemma LeadingDigit(x: nat, y: nat, p: nat, u: nat, w: nat)
    requires u < p && w < p
    ensures CompareInt(x * p + u, y * p + w) == CompareInt(x, y).Then(CompareInt(u, w))
  {
    if x < y {
      SmallerLeads(x, y, p, u, w);
    } else if y < x {
      SmallerLeads(y, x, p, w, u);
    } else {
      assert x * p == y * p;
    }
  }

  /** The order of equally long octets is the order of the numbers. */
  lemma {:induction false} OctetsOrder(a: seq<byte>, b: seq<byte>)
    requires |a| == |b|
    ensures CompareBytes(a, b) == CompareInt(BigEndian(a), BigEndian(b))
  {
    if a == [] {
    } else {
      OctetsOrder(a[1..], b[1..]);
      BigEndianBound(a[1..]);
      BigEndianBound(b[1..]);
      FirstOctet(a);
      FirstOctet(b);
      hide BigEndian, Pow;
      LeadingDigit(a[0], b[0], Pow(256, |a| - 1), BigEndian(a[1..]), BigEndian(b[1..]));
    }
  }

  /** The 128-bit number of a mapped address: 0xFFFF above the 32 bits. */
  lemma MappedIpv6Number(v4: Octets4)
    ensures BigEndian(MappedIpv6(v4)) == 0xFFFF_0000_0000 + BigEndian(v4)
  {
    var zeros, mark := [0, 0, 0, 0, 0, 0, 0, 0, 0, 0], [0xFF, 0xFF];
    assert MappedIpv6(v4) == zeros + (mark + v4);
    BigEndianZeros(zeros, mark + v4);
    BigEndianAppend(mark, v4);
    assert BigEndian(mark) == 0xFFFF by {
      assert mark[..1] == [0xFF] && [0xFF][..0] == [];
      assert BigEndian([0xFF]) == 0xFF;
    }
  }
}
