/**
 ClickHouse column types and the values written to them: the canonical scalars plus the carriers
 that ClickHouse adds (crates/commons/clickhouse/src/types). `Array` exists twice, as the canonical
 type for scalar elements and as ClickHouse's own for everything else.
 */
module Columns {
  import opened Basics
  import DataTypes
  import Values

  type ScalarType = t: DataTypes.DataType | !t.Array? witness DataTypes.Bool

  type ScalarValue = v: Values.Value | !v.Array? && !v.Null? witness Values.Bool(false)

  type LeBytes32 = s: seq<byte> | |s| == 32 witness seq(32, i => 0)

  type i128 = n: int | -0x8000_0000_0000_0000_0000_0000_0000_0000 <= n < 0x8000_0000_0000_0000_0000_0000_0000_0000

  type u128 = n: int | 0 <= n < 0x1_0000_0000_0000_0000_0000_0000_0000_0000

  datatype Variant = Variant(name: string, ordinal: i16)

  datatype ColumnField = ColumnField(columnType: ColumnType, nullable: bool)

  datatype ColumnType =
    | Scalar(scalar: ScalarType)
    | UnknownArray(unknownNullable: bool)                          // canonical, element type not known
    | CanonicalArray(element: ColumnType, elementNullable: bool)
    | FixedString(size: u32)
    | Enum8(variants: seq<Variant>)
    | Enum16(variants: seq<Variant>)
    | Int128
    | UInt128
    | Int256
    | UInt256
    | AggregateState(function_: string, arguments: seq<string>, simple: bool)
    | ArrayOf(element: ColumnType, elementNullable: bool)
    | MapOf(key: ColumnType, value: ColumnType, keyNullable: bool, valueNullable: bool)
    | TupleOf(fields: seq<ColumnField>)

  datatype CellPair = CellPair(key: Cell, value: Cell)

  datatype Cell =
    | Null
    | ScalarCell(scalar: ScalarValue)
    | CanonicalItems(items: seq<Cell>)
    | FixedBytes(bytes: seq<byte>)
    | EnumCell(name: string, ordinal: i16)
    | Int128Cell(int128: i128)
    | UInt128Cell(uint128: u128)
    | Int256Cell(le: LeBytes32)
    | UInt256Cell(le: LeBytes32)
    | StateCell(function_: string, bytes: seq<byte>)
    | Items(items: seq<Cell>)
    | Entries(entries: seq<CellPair>)
    | Fields(cells: seq<Cell>)

  /** `camel_to_snake`, ASCII upper case only. */
  function SnakeCase(name: string): string {
    if name == "" then ""
    else
      var last := name[|name| - 1];
      SnakeCase(name[..|name| - 1]) +
      (if 'A' <= last <= 'Z' then (if |name| == 1 then "" else "_") + [(last as int + 32) as char] else [last])
  }

  function Lower(c: char): char {
    if 'A' <= c <= 'Z' then (c as int + 32) as char else c
  }

  /** The same function name up to the case of its first letter. */
  predicate SameButFirstCase(a: string, b: string) {
    |a| == |b| && (a == "" || (Lower(a[0]) == Lower(b[0]) && a[1..] == b[1..]))
  }

  lemma SnakeLast(name: string)
    requires name != ""
    ensures SnakeCase(name) != "" && SnakeCase(name)[|SnakeCase(name)| - 1] == Lower(name[|name| - 1])
    ensures |name| > 1 ==> |SnakeCase(name)| > 1
    decreases |name|
  {
    if |name| > 1 {
      SnakeLast(name[..|name| - 1]);
    }
  }

  /** What stands before the last letter: the rest of the name, and an underscore if that letter is a capital. */
  function SnakeBefore(name: string): string
    requires |name| > 1
  {
    SnakeCase(name[..|name| - 1]) + if 'A' <= name[|name| - 1] <= 'Z' then "_" else ""
  }

  lemma SnakeSplit(name: string)
    requires |name| > 1
    ensures SnakeCase(name) == SnakeBefore(name) + [Lower(name[|name| - 1])]
  {
    var last := name[|name| - 1];
    if 'A' <= last <= 'Z' {
      assert SnakeCase(name[..|name| - 1]) + ("_" + [Lower(last)]) == SnakeCase(name[..|name| - 1]) + "_" + [Lower(last)];
    } else {
      assert SnakeCase(name[..|name| - 1]) + "" == SnakeCase(name[..|name| - 1]);
    }
  }

  lemma LastOfSame(x: string, c: char, y: string, d: char)
    requires x + [c] == y + [d]
    ensures x == y && c == d
  {
    assert (x + [c])[..|x|] == x && (y + [d])[..|y|] == y && |x| == |y|;
    assert (x + [c])[|x|] == c && (y + [d])[|y|] == d;
  }

  /** Only a capital puts an underscore there. */
  lemma SnakeBeforeDecides(a: string, b: string)
    requires |a| > 1 && |b| > 1 && '_' !in a && '_' !in b
    requires SnakeBefore(a) == SnakeBefore(b) && Lower(a[|a| - 1]) == Lower(b[|b| - 1])
    ensures a[|a| - 1] == b[|b| - 1] && SnakeCase(a[..|a| - 1]) == SnakeCase(b[..|b| - 1])
  {
    var x, y := a[..|a| - 1], b[..|b| - 1];
    var c, d := a[|a| - 1], b[|b| - 1];
    SnakeLast(x);
    SnakeLast(y);
    assert x[|x| - 1] in a && y[|y| - 1] in b;
    assert Lower(x[|x| - 1]) != '_' && Lower(y[|y| - 1]) != '_';
    UnderscoreDecides(SnakeCase(x), 'A' <= c <= 'Z', SnakeCase(y), 'A' <= d <= 'Z');
  }

  lemma UnderscoreDecides(p: string, upperP: bool, q: string, upperQ: bool)
    requires p != "" && q != "" && p[|p| - 1] != '_' && q[|q| - 1] != '_'
    requires p + (if upperP then "_" else "") == q + (if upperQ then "_" else "")
    ensures p == q && upperP == upperQ
  {
    var u := p + (if upperP then "_" else "");
    assert (u[|u| - 1] == '_') == upperP == upperQ;
    assert u[..|u| - if upperP then 1 else 0] == p;
    assert u[..|u| - if upperQ then 1 else 0] == q;
  }

  /**
   Which function names share a kind: names without underscores do exactly when they differ at most in the case of
   the first letter, so `quantilesTDigest` and `quantilestDigest` are told apart and `Sum` and `sum` are not.
   */
  lemma {:induction false} SnakeCaseExactly(a: string, b: string)
    requires '_' !in a && '_' !in b
    ensures SnakeCase(a) == SnakeCase(b) <==> SameButFirstCase(a, b)
    decreases |a|
  {
    if a == "" || b == "" {
      if a != "" {
        SnakeLast(a);
      }
      if b != "" {
        SnakeLast(b);
      }
    } else if |a| == 1 || |b| == 1 {
      SnakeLast(a);
      SnakeLast(b);
      assert |a| == 1 ==> SnakeCase(a) == [Lower(a[0])] by {
        assert SnakeCase(a[..0]) == "";
      }
      assert |b| == 1 ==> SnakeCase(b) == [Lower(b[0])] by {
        assert SnakeCase(b[..0]) == "";
      }
      if |a| == 1 && |b| == 1 {
        assert a[1..] == "" && b[1..] == "";
      }
    } else {
      var x, y := a[..|a| - 1], b[..|b| - 1];
      SnakeSplit(a);
      SnakeSplit(b);
      SnakeCaseExactly(x, y);
      FirstCaseStep(a, b);
      if SnakeCase(a) == SnakeCase(b) {
        LastOfSame(SnakeBefore(a), Lower(a[|a| - 1]), SnakeBefore(b), Lower(b[|b| - 1]));
        SnakeBeforeDecides(a, b);
      }
    }
  }

  /** A name without capitals stands for itself. */
  lemma {:induction false} SnakeFixed(name: string)
    requires forall i | 0 <= i < |name| :: !('A' <= name[i] <= 'Z')
    ensures SnakeCase(name) == name
  {
    if name == "" {
    } else {
      var front, last := name[..|name| - 1], name[|name| - 1];
      SnakeFixed(front);
      assert SnakeCase(name) == SnakeCase(front) + [last];
      assert name == front + [last];
    }
  }

  lemma FirstCaseStep(a: string, b: string)
    requires |a| > 1 && |b| > 1
    ensures SameButFirstCase(a, b) <==>
            SameButFirstCase(a[..|a| - 1], b[..|b| - 1]) && a[|a| - 1] == b[|b| - 1]
  {
    var x, y := a[..|a| - 1], b[..|b| - 1];
    assert a[1..] == x[1..] + [a[|a| - 1]] && b[1..] == y[1..] + [b[|b| - 1]];
    if a[1..] == b[1..] {
      LastOfSame(x[1..], a[|a| - 1], y[1..], b[|b| - 1]);
    }
  }
}
