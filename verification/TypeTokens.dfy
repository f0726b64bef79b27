/** The characters and names of the type grammar, said from outside: white space, byte offsets, escapes, type names. */
module TypeTokens {
  import opened Basics
  import opened Columns
  import opened TypeParser
  import DT = DataTypes

  // ---- White space ----

  /** The code points with the Unicode property White_Space. */
  const WHITE_SPACE: set<int> := {
    0x09, 0x0A, 0x0B, 0x0C, 0x0D, 0x20, 0x85, 0xA0, 0x1680,
    0x2000, 0x2001, 0x2002, 0x2003, 0x2004, 0x2005, 0x2006, 0x2007, 0x2008, 0x2009, 0x200A,
    0x2028, 0x2029, 0x202F, 0x205F, 0x3000
  }

  predicate White(c: char) {
    c as int in WHITE_SPACE
  }

  predicate AllSpace(s: string) {
    forall i | 0 <= i < |s| :: White(s[i])
  }

  lemma SpaceExactly(c: char)
    ensures IsSpace(c) <==> White(c)
  {
  }

  lemma {:induction false} SkippedIsSpace(s: string, i: nat)
    requires i <= |s|
    ensures AllSpace(s[i..SkipSpace(s, i)])
    decreases |s| - i
  {
    if i < |s| && IsSpace(s[i]) {
      SpaceExactly(s[i]);
      SkippedIsSpace(s, i + 1);
      hide AllSpace, White;
      AllSpaceCons(s[i], s[i + 1..SkipSpace(s, i)]);
      assert s[i..SkipSpace(s, i)] == [s[i]] + s[i + 1..SkipSpace(s, i)];
    } else {
    }
  }

  lemma AllSpaceCons(c: char, s: string)
    requires White(c) && AllSpace(s)
    ensures AllSpace([c] + s)
  {
  }

  lemma AllSpaceSnoc(s: string, c: char)
    requires White(c) && AllSpace(s)
    ensures AllSpace(s + [c])
  {
  }

  lemma {:induction false} TrimmedEnd(s: string)
    ensures AllSpace(s[|TrimEnd(s)|..])
    ensures TrimEnd(s) != "" ==> !White(TrimEnd(s)[|TrimEnd(s)| - 1])
  {
    hide White;
    if s == "" {
    } else {
      var last, front := s[|s| - 1], s[..|s| - 1];
      SpaceExactly(last);
      if IsSpace(last) {
        TrimmedEnd(front);
        hide AllSpace;
        AllSpaceSnoc(front[|TrimEnd(front)|..], last);
        assert s[|TrimEnd(s)|..] == front[|TrimEnd(front)|..] + [last];
      } else {
        assert s[|s|..] == "";
      }
    }
  }

  /** Trimming cuts white space off both ends and nothing else, and leaves none there. */
  lemma TrimExactly(s: string) returns (left: string, right: string)
    ensures s == left + Trim(s) + right && AllSpace(left) && AllSpace(right)
    ensures Trim(s) != "" ==> !White(Trim(s)[0]) && !White(Trim(s)[|Trim(s)| - 1])
  {
    hide White, AllSpace, IsSpace;
    var k := SkipSpace(s, 0);
    var middle := s[k..];
    SkippedIsSpace(s, 0);
    TrimmedEnd(middle);
    left, right := s[0..k], middle[|TrimEnd(middle)|..];
    assert s == left + Trim(s) + right;
    if Trim(s) != "" {
      assert Trim(s)[0] == s[k];
      SpaceExactly(s[k]);
    }
  }

  // ---- Words and numbers ----

  /** An identifier is the longest run of ASCII letters, digits and underscores after white space. */
  lemma {:induction false} IdentExactly(s: string, i: nat)
    requires i <= |s|
    ensures var end := IdentEnd(s, i);
            && (forall j | i <= j < end :: 'a' <= s[j] <= 'z' || 'A' <= s[j] <= 'Z' || '0' <= s[j] <= '9' || s[j] == '_')
            && (end < |s| ==> !('a' <= s[end] <= 'z' || 'A' <= s[end] <= 'Z' || '0' <= s[end] <= '9' || s[end] == '_'))
    decreases |s| - i
  {
    if i < |s| && IsIdentChar(s[i]) {
      IdentExactly(s, i + 1);
    } else {
    }
  }

  /** A number is the longest run of decimal digits. */
  lemma {:induction false} DigitsExactly(s: string, i: nat)
    requires i <= |s|
    ensures var end := DigitsEnd(s, i);
            (forall j | i <= j < end :: '0' <= s[j] <= '9') && (end < |s| ==> !('0' <= s[end] <= '9'))
    decreases |s| - i
  {
    if i < |s| && IsDigit(s[i]) {
      DigitsExactly(s, i + 1);
    } else {
    }
  }

  // ---- Byte offsets ----

  /** UTF-8 (section 3 of RFC 3629). */
  function Utf8(c: char): seq<byte> {
    var n := c as int;
    if n < 0x80 then [n]
    else if n < 0x800 then [0xC0 + n / 0x40, 0x80 + n % 0x40]
    else if n < 0x1_0000 then [0xE0 + n / 0x1000, 0x80 + n / 0x40 % 0x40, 0x80 + n % 0x40]
    else [0xF0 + n / 0x4_0000, 0x80 + n / 0x1000 % 0x40, 0x80 + n / 0x40 % 0x40, 0x80 + n % 0x40]
  }

  function Utf8Text(s: string): seq<byte> {
    if s == "" then [] else Utf8Text(s[..|s| - 1]) + Utf8(s[|s| - 1])
  }

  /** The offset an error reports is the length in bytes of the text before it. */
  lemma {:induction false} OffsetCountsBytes(s: string, i: nat)
    requires i <= |s|
    ensures BytePos(s, i) == |Utf8Text(s[..i])|
    decreases i
  {
    if i == 0 {
    } else {
      OffsetCountsBytes(s, i - 1);
      assert s[..i][..i - 1] == s[..i - 1];
    }
  }

  // ---- Escapes and names ----

  const ESCAPES: map<char, int> :=
    map['n' := 10, 't' := 9, 'r' := 13, 'b' := 8, 'f' := 12, '0' := 0, 'a' := 7, 'v' := 11]

  /** A backslash before any other character stands for that character. */
  lemma EscapeTable(c: char)
    ensures Unescaped(c) as int == if c in ESCAPES then ESCAPES[c] else c as int
  {
  }

  /** Everything else, `Date32`, `DateTime64` and the geometric types included, is refused. */
  const TYPE_NAMES: set<string> := {
    "String", "UUID", "Bool", "Boolean", "Date", "DateTime", "Int8", "Int16", "Int32", "Int64", "Int128", "Int256",
    "UInt8", "UInt16", "UInt32", "UInt64", "UInt128", "UInt256", "Float32", "Float64", "JSON", "Object", "IPv4", "IPv6",
    "Decimal32", "Decimal64", "Decimal128", "Decimal256", "Decimal", "FixedString", "Enum8", "Enum16",
    "AggregateFunction", "SimpleAggregateFunction", "Array", "Map", "Tuple", "Nested"
  }

  lemma RefusedExactly(name: string)
    ensures Classify(name) == Refused <==> name !in TYPE_NAMES
  {
  }

  lemma AggregateFlags()
    ensures Classify("AggregateFunction") == AggregateKind(false)
    ensures Classify("SimpleAggregateFunction") == AggregateKind(true)
  {
  }

  /** The elements of canonical arrays: every scalar column except JSON and the types no cell can be written to. */
  lemma CanonicalScalars(element: ColumnField)
    ensures ArrayColumn(element).CanonicalArray? <==>
            && element.columnType.Scalar?
            && var t := element.columnType.scalar;
            !t.Json? && !t.Xml? && !t.BigInt? && !t.Object? && !t.Union? && !t.Interval?
    ensures ArrayColumn(element) == CanonicalArray(element.columnType, element.nullable) ||
            ArrayColumn(element) == ArrayOf(element.columnType, element.nullable)
  {
  }

  // ---- What errors report ----

  /** A missing character reports how many bytes precede it and what stands there, nothing at the end of the text. */
  lemma ExpectReports(s: string, i: nat, c: char)
    requires i <= |s| && !(i < |s| && s[i] == c)
    ensures Expect(s, i, c) == Err(UnexpectedToken(|Utf8Text(s[..i])|, if i < |s| then s[i..i + 1] else ""))
  {
    OffsetCountsBytes(s, i);
    if i < |s| {
      assert s[i..i + 1] == [s[i]];
    }
  }

  /** An unsigned argument must start with a digit and stay below 2^32. */
  lemma UintReports(s: string, i: nat, ctor: string)
    requires i <= |s|
    ensures i == |s| || !('0' <= s[i] <= '9') ==> ReadUint(s, i, ctor) == Err(InvalidArg(ctor, "expected unsigned integer"))
    ensures i < |s| && '0' <= s[i] <= '9' && ReadUint(s, i, ctor).Err? ==>
              && Number(s[i..DigitsEnd(s, i)]) >= 4_294_967_296
              && ReadUint(s, i, ctor) == Err(InvalidArg(ctor, "number too large to fit in target type"))
  {
    DigitsExactly(s, i);
  }

  /** An ordinal: no digits at all, a lone minus, below and above sixty-four signed bits. */
  lemma IntReports(s: string, i: nat)
    requires i < |s| && !White(s[i])
    ensures s[i] != '-' && !('0' <= s[i] <= '9') ==>
              ReadInt(s, i) == Err(InvalidArg("Enum", "cannot parse integer from empty string"))
    ensures s[i] == '-' && (i + 1 == |s| || !('0' <= s[i + 1] <= '9')) ==>
              ReadInt(s, i) == Err(InvalidArg("Enum", "invalid digit found in string"))
    ensures '0' <= s[i] <= '9' && ReadInt(s, i).Err? ==>
              && Number(s[i..DigitsEnd(s, i)]) > 9_223_372_036_854_775_807
              && ReadInt(s, i) == Err(InvalidArg("Enum", "number too large to fit in target type"))
    ensures s[i] == '-' && i + 1 < |s| && '0' <= s[i + 1] <= '9' && ReadInt(s, i).Err? ==>
              && Number(s[i + 1..DigitsEnd(s, i + 1)]) > 9_223_372_036_854_775_808
              && ReadInt(s, i) == Err(InvalidArg("Enum", "number too small to fit in target type"))
  {
    SpaceExactly(s[i]);
    NoSpace(s, i);
    hide IsSpace, White;
    DigitsExactly(s, i);
    DigitsExactly(s, i + 1);
  }

  lemma OrdinalReports(value: int)
    ensures OutOfEnumRange(value, false) == InvalidArg("Enum8", "value " + PrintInt(value) + " out of i8 range")
    ensures OutOfEnumRange(value, true) == InvalidArg("Enum16", "value " + PrintInt(value) + " out of i16 range")
  {
    hide PrintInt;
    var head := "value " + PrintInt(value);
    assert head + " out of " + "i8" + " range" == head + " out of i8 range";
    assert head + " out of " + "i16" + " range" == head + " out of i16 range";
  }
}
