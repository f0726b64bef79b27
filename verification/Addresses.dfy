/**
 The canonical text of identifiers and addresses, as `value_to_string` renders them
 (crates/types/src/convert/to_text.rs), and exactly how short and how long it gets.
 */
module Addresses {
  import opened Basics
  import opened Values

  // ---- Hexadecimal ----

  function HexDigit(n: nat): char
    requires n < 16
  {
    if n < 10 then Digit(n) else ('a' as int + n - 10) as char
  }

  /** `{:x}`: lower case, no leading zero. */
  function Hex(n: nat): string {
    if n < 16 then [HexDigit(n)] else Hex(n / 16) + [HexDigit(n % 16)]
  }

  /** Two digits per octet. */
  function HexPairs(octets: seq<byte>): (r: string)
    ensures |r| == 2 * |octets|
  {
    if octets == [] then "" else [HexDigit(octets[0] / 16), HexDigit(octets[0] % 16)] + HexPairs(octets[1..])
  }

  // ---- UUIDs (section 4 of RFC 9562) ----

  function UuidText(u: Octets16): (r: string)
    ensures |r| == 36
  {
    HexPairs(u[..4]) + "-" + HexPairs(u[4..6]) + "-" + HexPairs(u[6..8]) + "-" + HexPairs(u[8..10]) + "-" + HexPairs(u[10..])
  }

  // ---- IPv4 ----

  function Ipv4Text(a: Octets4): string {
    PrintNat(a[0]) + "." + PrintNat(a[1]) + "." + PrintNat(a[2]) + "." + PrintNat(a[3])
  }

  lemma OctetDigits(b: byte)
    ensures |PrintNat(b)| == if b < 10 then 1 else if b < 100 then 2 else 3
  {
    if b >= 10 {
      assert |PrintNat(b)| == |PrintNat(b / 10)| + 1;
    }
  }

  lemma Ipv4Lengths(a: Octets4)
    ensures 7 <= |Ipv4Text(a)| <= 15
  {
    OctetDigits(a[0]);
    OctetDigits(a[1]);
    OctetDigits(a[2]);
    OctetDigits(a[3]);
  }

  /** 0.0.0.0 and 255.255.255.255 reach the two bounds. */
  lemma Ipv4Bounds()
    ensures |Ipv4Text([0, 0, 0, 0])| == 7 && |Ipv4Text([255, 255, 255, 255])| == 15
  {
    OctetDigits(0);
    OctetDigits(255);
  }

  // ---- IPv6 (section 4 of RFC 5952) ----

  /** The eight 16-bit groups, most significant octet first. */
  function Groups(a: Octets16): (r: seq<u16>)
    ensures |r| == 8
  {
    seq(8, i requires 0 <= i < 8 => (a[2 * i] as int) * 256 + (a[2 * i + 1] as int))
  }

  /** Groups in hexadecimal, separated by colons. */
  function Colons(groups: seq<u16>): string {
    if groups == [] then ""
    else if |groups| == 1 then Hex(groups[0])
    else Hex(groups[0]) + ":" + Colons(groups[1..])
  }

  /** How many zero groups stand in a row at the front. */
  function ZeroRun(groups: seq<u16>): (r: nat)
    ensures r <= |groups|
  {
    if groups == [] || groups[0] != 0 then 0 else 1 + ZeroRun(groups[1..])
  }

  /** Where the first of the longest runs of zero groups starts. */
  function LongestRun(groups: seq<u16>): (start: nat)
    ensures start <= |groups|
  {
    if groups == [] then 0
    else
      var next := 1 + LongestRun(groups[1..]);
      if ZeroRun(groups) >= ZeroRun(groups[next..]) then 0 else next
  }

  /** An IPv4-mapped address keeps its dotted form; otherwise a longest run of two or more zero groups becomes `::`. */
  function Ipv6Text(a: Octets16): string {
    var groups := Groups(a);
    var start := LongestRun(groups);
    var end := start + ZeroRun(groups[start..]);
    if a == MappedIpv6(a[12..]) then "::ffff:" + Ipv4Text(a[12..])
    else if end - start >= 2 then Colons(groups[..start]) + "::" + Colons(groups[end..])
    else Colons(groups)
  }

  lemma HexLength(n: u16)
    ensures 1 <= |Hex(n)| <= 4
    ensures n >= 0x1000 ==> |Hex(n)| == 4
  {
    if n >= 16 {
      var m := n / 16;
      assert |Hex(n)| == |Hex(m)| + 1;
      if m >= 16 {
        assert |Hex(m)| == |Hex(m / 16)| + 1;
        if m / 16 >= 16 {
          assert |Hex(m / 16)| == |Hex(m / 16 / 16)| + 1;
        }
      }
    }
  }

  /** Between one and four digits a group, and a colon between neighbours. */
  lemma {:induction false} ColonsLength(groups: seq<u16>)
    requires groups != []
    ensures 2 * |groups| - 1 <= |Colons(groups)| <= 5 * |groups| - 1
    ensures (forall g | g in groups :: g >= 0x1000) ==> |Colons(groups)| == 5 * |groups| - 1
  {
    HexLength(groups[0]);
    assert groups[0] in groups;
    if |groups| == 1 {
    } else {
      ColonsLength(groups[1..]);
      assert forall g | g in groups[1..] :: g in groups;
    }
  }

  lemma Ipv6Lengths(a: Octets16)
    ensures 2 <= |Ipv6Text(a)| <= 39
  {
    hide Colons, Ipv4Text, MappedIpv6;
    var groups := Groups(a);
    var start := LongestRun(groups);
    var end := start + ZeroRun(groups[start..]);
    Ipv4Lengths(a[12..]);
    ColonsLength(groups);
    ShortColons(groups[..start]);
    ShortColons(groups[end..]);
  }

  lemma ShortColons(groups: seq<u16>)
    ensures |Colons(groups)| <= 5 * |groups|
  {
    if groups != [] {
      ColonsLength(groups);
    }
  }

  const UNSPECIFIED: Octets16 := [0, 0, 0, 0, 0, 0, 0, 0, 0, 0, 0, 0, 0, 0, 0, 0]
  const ALL_ONES: Octets16 := [0xFF, 0xFF, 0xFF, 0xFF, 0xFF, 0xFF, 0xFF, 0xFF, 0xFF, 0xFF, 0xFF, 0xFF, 0xFF, 0xFF, 0xFF, 0xFF]

  lemma {:induction false} AllZero(groups: seq<u16>)
    requires forall g | g in groups :: g == 0
    ensures ZeroRun(groups) == |groups| && LongestRun(groups) == 0
  {
    if groups == [] {
    } else {
      assert groups[0] in groups;
      assert forall g | g in groups[1..] :: g in groups;
      AllZero(groups[1..]);
    }
  }

  lemma {:induction false} NoneZero(groups: seq<u16>)
    requires forall g | g in groups :: g != 0
    ensures ZeroRun(groups) == 0
  {
    if groups == [] {
    } else {
      assert groups[0] in groups;
    }
  }

  /** `::` and ffff:…:ffff reach the two bounds. */
  lemma Ipv6Bounds()
    ensures Ipv6Text(UNSPECIFIED) == "::" && |Ipv6Text(ALL_ONES)| == 39
  {
    hide ZeroRun, LongestRun, Ipv4Text;
    var zeros, ones := Groups(UNSPECIFIED), Groups(ALL_ONES);
    assert UNSPECIFIED[10] != MappedIpv6(UNSPECIFIED[12..])[10];
    AllZero(zeros);
    assert zeros[0..] == zeros;
    assert Colons(zeros[..0]) == "" && Colons(zeros[8..]) == "";
    assert ALL_ONES[0] != MappedIpv6(ALL_ONES[12..])[0];
    assert forall g | g in ones :: g == 0xFFFF;
    NoneZero(ones[LongestRun(ones)..]);
    ColonsLength(ones);
  }
}
