/** Shared vocabulary: options, results, orderings, machine integer ranges and powers. */
module Basics {

  datatype Option<+T> = None | Some(value: T)

  datatype Result<+T, +E> = Ok(value: T) | Err(error: E) {
    predicate IsFailure() {
      Err?
    }

    function PropagateFailure<U>(): Result<U, E>
      requires Err?
    {
      Err(error)
    }

    function Extract(): T
      requires Ok?
    {
      value
    }
  }

  /** `std::cmp::Ordering`. */
  datatype Ordering = Less | Equal | Greater {
    function Reverse(): Ordering {
      match this
      case Less => Greater
      case Equal => Equal
      case Greater => Less
    }

    function Then(next: Ordering): Ordering {
      if Equal? then next else this
    }
  }

  function CompareInt(a: int, b: int): Ordering {
    if a < b then Less else if a == b then Equal else Greater
  }

  /** `bool::cmp` */
  function CompareBool(a: bool, b: bool): Ordering {
    if a == b then Equal else if b then Less else Greater
  }

  // Fixed-width integers keep their range in the type; arithmetic on them is unbounded.
  type byte = n: int | 0 <= n < 0x100
  type i8 = n: int | -0x80 <= n < 0x80
  type i16 = n: int | -0x8000 <= n < 0x8000
  type i32 = n: int | -0x8000_0000 <= n < 0x8000_0000
  type i64 = n: int | -0x8000_0000_0000_0000 <= n < 0x8000_0000_0000_0000
  type u8 = n: int | 0 <= n < 0x100
  type u16 = n: int | 0 <= n < 0x1_0000
  type u32 = n: int | 0 <= n < 0x1_0000_0000
  type u64 = n: int | 0 <= n < 0x1_0000_0000_0000_0000

  function Pow(b: nat, e: nat): nat {
    if e == 0 then 1 else b * Pow(b, e - 1)
  }

  function Max(a: int, b: int): int {
    if a < b then b else a
  }

  function Min(a: int, b: int): int {
    if a < b then a else b
  }

  function Abs(n: int): nat {
    if n < 0 then -n else n
  }

  lemma {:induction false} PowPositive(b: nat, e: nat)
    requires b >= 1
    ensures Pow(b, e) >= 1
  {
    if e == 0 {
    } else {
      PowPositive(b, e - 1);
      assert b * Pow(b, e - 1) >= 1 * 1;
    }
  }

  lemma {:induction false} PowAdd(b: nat, d: nat, e: nat)
    ensures Pow(b, d + e) == Pow(b, d) * Pow(b, e)
  {
    if d == 0 {
    } else {
      PowAdd(b, d - 1, e);
      MulAssociative(b, Pow(b, d - 1), Pow(b, e));
    }
  }

  lemma {:induction false} PowMonotone(b: nat, d: nat, e: nat)
    requires b >= 1 && d <= e
    ensures Pow(b, d) <= Pow(b, e)
  {
    PowAdd(b, d, e - d);
    PowPositive(b, d);
    PowPositive(b, e - d);
    MulMonotone(1, Pow(b, e - d), Pow(b, d));
  }

  lemma {:induction false} PowStrict(b: nat, d: nat, e: nat)
    requires b >= 2 && d < e
    ensures Pow(b, d) < Pow(b, e)
  {
    PowMonotone(b, d, e - 1);
    PowPositive(b, e - 1);
    MulMonotone(2, b, Pow(b, e - 1));
  }

  function Ten(e: nat): (r: nat)
    ensures r >= 1
  {
    PowPositive(10, e);
    Pow(10, e)
  }

  function Two(e: nat): (r: nat)
    ensures r >= 1
  {
    PowPositive(2, e);
    Pow(2, e)
  }

  // ---- Nonlinear steps, isolated so that callers stay linear ----

  lemma MulAssociative(x: int, y: int, z: int)
    ensures x * (y * z) == (x * y) * z
  {
  }

  lemma MulStep(x: int, k: nat)
    ensures (x + 1) * k == x * k + k
  {
  }

  lemma MulMonotone(x: int, y: int, k: nat)
    requires x <= y
    ensures x * k <= y * k
  {
  }

  lemma MulStrict(x: int, y: int, k: nat)
    requires x < y && k >= 1
    ensures x * k < y * k
  {
  }

  lemma MulCancel(x: int, y: int, k: nat)
    requires k >= 1 && x * k == y * k
    ensures x == y
  {
    if x < y {
      MulStrict(x, y, k);
    } else if y < x {
      MulStrict(y, x, k);
    }
  }

  /** Multiplying both sides by a positive factor keeps the comparison. */
  lemma CompareScaled(x: int, y: int, k: nat)
    requires k >= 1
    ensures CompareInt(x * k, y * k) == CompareInt(x, y)
  {
    if x < y {
      MulStrict(x, y, k);
    } else if y < x {
      MulStrict(y, x, k);
    }
  }

  lemma DivModUnique(n: int, k: int, q: int, r: int)
    requires k >= 1 && n == q * k + r && 0 <= r < k
    ensures n / k == q && n % k == r
  {
    var d := n / k - q;
    assert d * k == r - n % k by {
      assert n == (n / k) * k + n % k;
      assert (n / k - q) * k == (n / k) * k - q * k;
    }
    if d >= 1 {
      MulMonotone(1, d, k);
    } else if d <= -1 {
      MulMonotone(d, -1, k);
    }
  }

  // ---- Lexicographic order on byte strings ----

  /** The order of `[u8]` and `str`: the first difference decides, then the length. */
  function CompareBytes(a: seq<int>, b: seq<int>): Ordering {
    if a == [] && b == [] then Equal
    else if a == [] then Less
    else if b == [] then Greater
    else CompareInt(a[0], b[0]).Then(CompareBytes(a[1..], b[1..]))
  }

  lemma {:induction false} CompareBytesEqual(a: seq<int>, b: seq<int>)
    ensures CompareBytes(a, b) == Equal <==> a == b
  {
    if a == [] || b == [] {
    } else {
      CompareBytesEqual(a[1..], b[1..]);
      assert a == [a[0]] + a[1..] && b == [b[0]] + b[1..];
    }
  }

  lemma {:induction false} CompareBytesReverse(a: seq<int>, b: seq<int>)
    ensures CompareBytes(b, a) == CompareBytes(a, b).Reverse()
  {
    if a == [] || b == [] {
    } else {
      CompareBytesReverse(a[1..], b[1..]);
    }
  }

  lemma {:induction false} CompareBytesTransitive(a: seq<int>, b: seq<int>, c: seq<int>)
    requires CompareBytes(a, b) != Greater && CompareBytes(b, c) != Greater
    ensures CompareBytes(a, c) == CompareBytes(a, b).Then(CompareBytes(b, c))
  {
    if a != [] && b != [] && c != [] && a[0] == b[0] && b[0] == c[0] {
      CompareBytesTransitive(a[1..], b[1..], c[1..]);
    }
  }

  /** `a` comes before `b` in a dictionary: at the first difference it is smaller, or it is a proper prefix. */
  ghost predicate DictionaryBefore(a: seq<int>, b: seq<int>) {
    exists k: nat :: DiffersAt(a, b, k)
  }

  ghost predicate DiffersAt(a: seq<int>, b: seq<int>, k: nat) {
    && k <= |a| && k < |b| && a[..k] == b[..k]
    && (k == |a| || a[k] < b[k])
  }

  lemma {:induction false} DictionaryOrder(a: seq<int>, b: seq<int>)
    ensures CompareBytes(a, b) == Less <==> DictionaryBefore(a, b)
  {
    if a == [] || b == [] {
      assert a == [] && b != [] ==> DiffersAt(a, b, 0);
    } else {
      DictionaryOrder(a[1..], b[1..]);
      assert a[0] < b[0] ==> DiffersAt(a, b, 0);
      assert a == [a[0]] + a[1..] && b == [b[0]] + b[1..];
      if a[0] == b[0] && DictionaryBefore(a[1..], b[1..]) {
        var k: nat :| DiffersAt(a[1..], b[1..], k);
        assert a[..k + 1] == [a[0]] + a[1..][..k] && b[..k + 1] == [b[0]] + b[1..][..k];
        assert DiffersAt(a, b, k + 1);
      }
      if DictionaryBefore(a, b) {
        var k: nat :| DiffersAt(a, b, k);
        if k > 0 {
          assert a[0] == a[..k][0] && b[0] == b[..k][0];
          assert a[1..][..k - 1] == a[..k][1..] && b[1..][..k - 1] == b[..k][1..];
          assert DiffersAt(a[1..], b[1..], k - 1);
        }
      }
    }
  }

  /** All three verdicts, said without the function. */
  lemma DictionaryVerdicts(a: seq<int>, b: seq<int>)
    ensures CompareBytes(a, b) == Less <==> DictionaryBefore(a, b)
    ensures CompareBytes(a, b) == Greater <==> DictionaryBefore(b, a)
    ensures CompareBytes(a, b) == Equal <==> a == b
  {
    DictionaryOrder(a, b);
    DictionaryOrder(b, a);
    CompareBytesReverse(a, b);
    CompareBytesEqual(a, b);
  }

  // ---- Numbers as text ----

  function Digit(n: nat): char
    requires n < 10
  {
    ('0' as int + n) as char
  }

  function PrintNat(n: nat): string {
    if n < 10 then [Digit(n)] else PrintNat(n / 10) + [Digit(n % 10)]
  }

  function PrintInt(n: int): string {
    if n < 0 then "-" + PrintNat(-n) else PrintNat(n)
  }
}
