/** Byte-level encodings used by RowBinary: little-endian integers and LEB128 lengths. */
module Wire {
  import opened Basics

  /** An output buffer (`&mut Vec<u8>`). */
  class Buffer {
    var bytes: seq<byte>

    constructor ()
      ensures bytes == []
    {
      bytes := [];
    }

    method Push(b: byte)
      modifies this
      ensures bytes == old(bytes) + [b]
    {
      bytes := bytes + [b];
    }

    method Extend(more: seq<byte>)
      modifies this
      ensures bytes == old(bytes) + more
    {
      bytes := bytes + more;
    }
  }

  // ---- Little-endian integers ----

  function Bytes256(width: nat): (r: nat)
    ensures r >= 1
  {
    PowPositive(256, width);
    Pow(256, width)
  }

  function LittleEndian(n: nat, width: nat): (s: seq<byte>)
    ensures |s| == width
  {
    if width == 0 then [] else [n % 256] + LittleEndian(n / 256, width - 1)
  }

  function FromLittleEndian(s: seq<byte>): nat {
    if s == [] then 0 else s[0] + 256 * FromLittleEndian(s[1..])
  }

  lemma {:induction false} LittleEndianRoundTrip(n: nat, width: nat)
    requires n < Bytes256(width)
    ensures FromLittleEndian(LittleEndian(n, width)) == n
  {
    if width == 0 {
    } else {
      LittleEndianRoundTrip(n / 256, width - 1);
      assert LittleEndian(n, width)[1..] == LittleEndian(n / 256, width - 1);
    }
  }

  lemma {:induction false} FromLittleEndianBound(s: seq<byte>)
    ensures FromLittleEndian(s) < Bytes256(|s|)
  {
    if s == [] {
    } else {
      FromLittleEndianBound(s[1..]);
    }
  }

  /** Does a signed integer fit in `width` bytes? */
  predicate FitsSigned(n: int, width: nat) {
    0 <= 2 * n + Bytes256(width) && 2 * n < Bytes256(width)
  }

  /** Two's complement, little-endian. */
  function SignedBytes(n: int, width: nat): (s: seq<byte>)
    requires FitsSigned(n, width)
    ensures |s| == width
  {
    LittleEndian(if n < 0 then n + Bytes256(width) else n, width)
  }

  function FromSignedBytes(s: seq<byte>): int {
    var n := FromLittleEndian(s);
    if 2 * n < Bytes256(|s|) then n else n - Bytes256(|s|)
  }

  lemma SignedRoundTrip(n: int, width: nat)
    requires FitsSigned(n, width)
    ensures FromSignedBytes(SignedBytes(n, width)) == n
  {
    LittleEndianRoundTrip(if n < 0 then n + Bytes256(width) else n, width);
  }

  lemma SignedWidths()
    ensures Bytes256(1) == 0x100 && Bytes256(2) == 0x1_0000 && Bytes256(4) == 0x1_0000_0000
    ensures Bytes256(8) == 0x1_0000_0000_0000_0000
  {
    PowAdd(256, 4, 4);
  }

  // ---- 256-bit integers ----

  lemma SignBit(s: seq<byte>)
    requires |s| > 0
    ensures 2 * FromLittleEndian(s) >= Bytes256(|s|) <==> s[|s| - 1] >= 0x80
    decreases |s|
  {
    if |s| > 1 {
      SignBit(s[1..]);
    }
  }

  /** `num_bigint`'s `to_signed_bytes_le`: the shortest two's complement form, at least one byte. */
  function ShortestWidth(n: int, width: nat): (w: nat)
    requires width >= 1
    ensures w >= width && FitsSigned(n, w)
    ensures forall k :: width <= k < w ==> !FitsSigned(n, k)
    decreases 2 * Abs(n) + 1 - Min(Bytes256(width), 2 * Abs(n) + 1)
  {
    if FitsSigned(n, width) then width else ShortestWidth(n, width + 1)
  }

  lemma {:induction false} SignExtend(n: int, k: nat, w: nat)
    requires 1 <= k <= w && FitsSigned(n, k)
    ensures FitsSigned(n, w)
    ensures SignedBytes(n, w) == SignedBytes(n, k) + seq(w - k, _ => if n < 0 then 0xFF else 0)
    decreases w - k
  {
    if k < w {
      SignExtend(n, k, w - 1);
      SignExtendOnce(n, w - 1);
      var fill := if n < 0 then 0xFF else 0;
      assert seq(w - k, _ => fill) == seq(w - 1 - k, _ => fill) + [fill];
    }
  }

  lemma SignExtendOnce(n: int, k: nat)
    requires k >= 1 && FitsSigned(n, k)
    ensures FitsSigned(n, k + 1)
    ensures SignedBytes(n, k + 1) == SignedBytes(n, k) + [if n < 0 then 0xFF else 0]
  {
    var p := Bytes256(k);
    assert Bytes256(k + 1) == 256 * p;
    if n < 0 {
      AppendByte(n + p, k, 0xFF);
    } else {
      AppendByte(n, k, 0);
    }
  }

  lemma AppendByteQuotient(n: nat, p: nat, top: byte)
    ensures (n + top * (256 * p)) / 256 == n / 256 + top * p && (n + top * (256 * p)) % 256 == n % 256
  {
    MulAssociative(top, 256, p);
    MulAssociative(256, top, p);
    DivModUnique(n + 256 * (top * p), 256, n / 256 + top * p, n % 256);
  }

  lemma {:induction false} AppendByte(n: nat, k: nat, top: byte)
    requires n < Bytes256(k)
    ensures LittleEndian(n + top * Bytes256(k), k + 1) == LittleEndian(n, k) + [top]
  {
    if k == 0 {
      assert Bytes256(0) == 1;
    } else {
      var p := Bytes256(k - 1);
      assert Bytes256(k) == 256 * p;
      AppendByteQuotient(n, p, top);
      AppendByte(n / 256, k - 1, top);
    }
  }

  /** `bigint_to_le32` */
  method BigIntToLe32(n: int) returns (r: Option<seq<byte>>)
    ensures r.Some? <==> FitsSigned(n, 32)
    ensures r.Some? ==> r.value == SignedBytes(n, 32)
  {
    var width := ShortestWidth(n, 1);
    if width > 32 {
      return None;
    }
    var fill := if n < 0 then 0xFF else 0;
    r := Some(SignedBytes(n, width) + seq(32 - width, _ => fill));
    SignExtend(n, width, 32);
  }

  function Inverted(s: seq<byte>): (r: seq<byte>)
    ensures |r| == |s|
  {
    seq(|s|, i requires 0 <= i < |s| => 0xFF - s[i])
  }

  lemma {:induction false} InvertedValue(s: seq<byte>)
    ensures FromLittleEndian(Inverted(s)) == Bytes256(|s|) - 1 - FromLittleEndian(s)
  {
    if s == [] {
    } else {
      assert Inverted(s)[1..] == Inverted(s[1..]);
      InvertedValue(s[1..]);
    }
  }

  /** `le32_to_bigint`: negate by inverting every byte and adding one. */
  method Le32ToBigInt(bytes: seq<byte>) returns (n: int)
    requires |bytes| == 32
    ensures n == FromSignedBytes(bytes)
  {
    SignBit(bytes);
    if bytes[31] >= 0x80 {
      var inverted := bytes;
      for i := 0 to 32
        invariant |inverted| == 32
        invariant forall j :: 0 <= j < 32 ==> inverted[j] == if j < i then 0xFF - bytes[j] else bytes[j]
      {
        inverted := inverted[i := 0xFF - inverted[i]];
      }
      assert inverted == Inverted(bytes);
      InvertedValue(bytes);
      n := -(FromLittleEndian(inverted) + 1);
    } else {
      n := FromLittleEndian(bytes);
    }
  }

  // ---- LEB128 ----

  /** Unsigned LEB128 (section 7.6 of DWARF Version 5). */
  function VarUint(n: nat): (s: seq<byte>)
    ensures |s| >= 1
  {
    if n < 0x80 then [n] else [n % 0x80 + 0x80] + VarUint(n / 0x80)
  }

  /** `write_var_uint` */
  method WriteVarUint(out: Buffer, value: nat)
    modifies out
    ensures out.bytes == old(out.bytes) + VarUint(value)
  {
    var v := value;
    while v >= 0x80
      invariant out.bytes + VarUint(v) == old(out.bytes) + VarUint(value)
    {
      ghost var before := out.bytes;
      out.Push(v % 0x80 + 0x80);
      assert out.bytes + VarUint(v / 0x80) == before + VarUint(v);
      v := v / 0x80;
    }
    out.Push(v);
  }

  function ReadVarUint(s: seq<byte>): Option<(nat, seq<byte>)> {
    if s == [] then None
    else if s[0] < 0x80 then Some((s[0], s[1..]))
    else
      var r := ReadVarUint(s[1..]);
      if r.None? then None else Some((s[0] - 0x80 + 0x80 * r.value.0, r.value.1))
  }

  /** A length is read back whatever follows it. */
  lemma {:induction false} VarUintRoundTrip(n: nat, rest: seq<byte>)
    ensures ReadVarUint(VarUint(n) + rest) == Some((n, rest))
  {
    if n >= 0x80 {
      VarUintRoundTrip(n / 0x80, rest);
      assert (VarUint(n) + rest)[1..] == VarUint(n / 0x80) + rest;
    } else {
      assert (VarUint(n) + rest)[1..] == rest;
    }
  }

  /** No byte sequence that reads as `n` is shorter. */
  lemma {:induction false} VarUintMinimal(s: seq<byte>, n: nat)
    requires ReadVarUint(s) == Some((n, []))
    ensures |VarUint(n)| <= |s|
  {
    if s[0] >= 0x80 {
      var m := ReadVarUint(s[1..]).value.0;
      VarUintMinimal(s[1..], m);
      if n >= 0x80 {
        assert n / 0x80 == m;
      }
    } else {
      assert s[1..] == [];
    }
  }

  lemma {:induction false} VarUintLength(n: nat, k: nat)
    requires k >= 1 && n < Pow(0x80, k)
    ensures |VarUint(n)| <= k
  {
    if n >= 0x80 {
      assert Pow(0x80, 1) == 0x80;
      VarUintLength(n / 0x80, k - 1);
    }
  }

  /** A `u64` takes at most ten bytes. */
  lemma VarUintTenBytes(n: u64)
    ensures |VarUint(n)| <= 10
  {
    PowAdd(0x80, 5, 5);
    VarUintLength(n, 10);
  }
}
