/** The type parser undoes the printer. */
module TypeRoundTrip {
  import opened Basics
  import opened Columns
  import opened TypeParser
  import opened TypePrinter
  import DT = DataTypes

  // ---- Text at a position ----

  /** The text `w` stands at position `i`. */
  predicate Here(s: string, i: nat, w: string) {
    i + |w| <= |s| && s[i..i + |w|] == w
  }

  lemma HereSplit(s: string, i: nat, a: string, b: string)
    requires Here(s, i, a + b)
    ensures Here(s, i, a) && Here(s, i + |a|, b)
  {
    assert s[i..i + |a|] == s[i..i + |a + b|][..|a|] == a;
    assert s[i + |a|..i + |a| + |b|] == s[i..i + |a + b|][|a|..] == b;
  }

  lemma HereAt(s: string, i: nat, w: string, k: nat)
    requires Here(s, i, w) && k < |w|
    ensures s[i + k] == w[k]
  {
    assert s[i + k] == s[i..i + |w|][k];
  }

  /** The end of the text, a comma or a closing parenthesis. */
  predicate Delimited(s: string, i: nat) {
    i <= |s| && (i == |s| || s[i] == ',' || s[i] == ')')
  }

  lemma OneSpace(s: string, i: nat)
    requires i + 1 < |s| && s[i] == ' ' && !IsSpace(s[i + 1])
    ensures SkipSpace(s, i) == i + 1
  {
    NoSpace(s, i + 1);
  }

  lemma DelimitedNoSpace(s: string, i: nat)
    requires Delimited(s, i)
    ensures SkipSpace(s, i) == i
  {
  }

  lemma Reassociate(a: string, b: string, c: string, d: string)
    ensures a + (b + c) + d == a + (b + (c + d))
  {
  }

  // ---- Tokens ----

  lemma {:induction false} IdentRun(s: string, i: nat, n: nat)
    requires i + n <= |s| && (forall k :: i <= k < i + n ==> IsIdentChar(s[k]))
    requires i + n < |s| ==> !IsIdentChar(s[i + n])
    ensures IdentEnd(s, i) == i + n
    decreases n
  {
    if n == 0 {
    } else {
      IdentRun(s, i + 1, n - 1);
    }
  }

  lemma IdentHere(s: string, i: nat, w: string)
    requires IsIdent(w) && Here(s, i, w) && (i + |w| < |s| ==> !IsIdentChar(s[i + |w|]))
    ensures ReadIdent(s, i) == (w, i + |w|)
    ensures i < |s| && IsIdentChar(s[i]) && !IsSpace(s[i])
  {
    forall k | i <= k < i + |w| ensures IsIdentChar(s[k]) {
      HereAt(s, i, w, k - i);
    }
    assert IsIdentChar(s[i]);
    NoSpace(s, i);
    IdentRun(s, i, |w|);
  }

  lemma {:induction false} PrintNatDigits(n: nat)
    ensures PrintNat(n) != "" && (forall k :: 0 <= k < |PrintNat(n)| ==> IsDigit(PrintNat(n)[k]))
    ensures Number(PrintNat(n)) == n
  {
    if n < 10 {
      assert PrintNat(n)[..0] == "";
    } else {
      PrintNatDigits(n / 10);
      assert PrintNat(n)[..|PrintNat(n)| - 1] == PrintNat(n / 10);
    }
  }

  lemma {:induction false} DigitRun(s: string, i: nat, n: nat)
    requires i + n <= |s| && (forall k :: i <= k < i + n ==> IsDigit(s[k]))
    requires i + n < |s| ==> !IsDigit(s[i + n])
    ensures DigitsEnd(s, i) == i + n
    decreases n
  {
    if n == 0 {
    } else {
      DigitRun(s, i + 1, n - 1);
    }
  }

  lemma NatHere(s: string, i: nat, n: nat)
    requires Here(s, i, PrintNat(n)) && (i + |PrintNat(n)| < |s| ==> !IsDigit(s[i + |PrintNat(n)|]))
    ensures var end := i + |PrintNat(n)|; end > i && DigitsEnd(s, i) == end && Number(s[i..end]) == n
    ensures IsDigit(s[i]) && !IsSpace(s[i])
  {
    PrintNatDigits(n);
    var w := PrintNat(n);
    forall k | i <= k < i + |w| ensures IsDigit(s[k]) {
      HereAt(s, i, w, k - i);
    }
    DigitRun(s, i, |w|);
  }

  lemma UintHere(s: string, i: nat, n: u32, ctor: string)
    requires Here(s, i, PrintNat(n)) && Delimited(s, i + |PrintNat(n)|)
    ensures ReadUint(s, i, ctor) == Ok((n, i + |PrintNat(n)|)) && SkipSpace(s, i) == i
  {
    NatHere(s, i, n);
    NoSpace(s, i);
  }

  lemma NaturalHere(s: string, i: nat, n: nat)
    requires i + 1 < |s| && s[i] == ' ' && Here(s, i + 1, PrintNat(n)) && Delimited(s, i + 1 + |PrintNat(n)|) && n < 0x8000
    ensures ReadInt(s, i) == Ok((n, i + 1 + |PrintNat(n)|))
  {
    hide PrintNat, Number, DigitsEnd, SkipSpace, Here;
    NatHere(s, i + 1, n);
    OneSpace(s, i);
  }

  lemma NegativeHere(s: string, i: nat, n: int)
    requires 0 <= n && i + 1 < |s| && s[i] == ' ' && s[i + 1] == '-' && n <= 0x8000
    requires Here(s, i + 2, PrintNat(n)) && Delimited(s, i + 2 + |PrintNat(n)|)
    ensures ReadInt(s, i) == Ok((-n, i + 2 + |PrintNat(n)|))
  {
    hide PrintNat, Number, DigitsEnd, SkipSpace, Here;
    NatHere(s, i + 2, n);
    OneSpace(s, i);
  }

  lemma IntText(n: int)
    ensures n < 0 ==> PrintInt(n) == "-" + PrintNat(-n)
    ensures n >= 0 ==> PrintInt(n) == PrintNat(n)
  {
  }

  lemma IntHere(s: string, i: nat, n: i16)
    requires i + 1 < |s| && s[i] == ' ' && Here(s, i + 1, PrintInt(n)) && Delimited(s, i + 1 + |PrintInt(n)|)
    ensures ReadInt(s, i) == Ok((n, i + 1 + |PrintInt(n)|))
  {
    hide ReadInt, PrintInt, PrintNat, Here, Delimited, SkipSpace;
    var value: int := n;
    IntText(value);
    if value < 0 {
      HereSplit(s, i + 1, "-", PrintNat(-value));
      HereAt(s, i + 1, "-", 0);
      NegativeHere(s, i, -value);
    } else {
      NaturalHere(s, i, value);
    }
  }

  /** A quoted name, its quotes and backslashes escaped, reads back. */
  lemma {:induction false} QuotedHere(s: string, start: nat, i: nat, name: string, out: string)
    requires start <= |s| && Here(s, i, TypePrinter.Escaped(name) + "'")
    ensures QuotedFrom(s, start, i, out) == Ok((out + name, i + |TypePrinter.Escaped(name)| + 1))
    decreases |name|
  {
    hide TypePrinter.Escaped, Here, BytePos;
    EscapedText(name);
    if name == "" {
      HereAt(s, i, "'", 0);
      HereBound(s, i, "'");
      assert out + name == out;
    } else {
      var c, tail := name[0], TypePrinter.Escaped(name[1..]) + "'";
      var first := if NeedsEscape(c) then ['\\', c] else [c];
      HereSplit(s, i, first, tail);
      HereBound(s, i + |first|, tail);
      HereAt(s, i, first, 0);
      HereAt(s, i, first, |first| - 1);
      QuotedHere(s, start, i + |first|, name[1..], out + [c]);
      assert out + [c] + name[1..] == out + name;
    }
  }

  predicate NeedsEscape(c: char) {
    c == '\'' || c == '\\'
  }

  lemma EscapedText(name: string)
    ensures name == "" ==> TypePrinter.Escaped(name) + "'" == "'"
    ensures name != "" ==>
            var first := if NeedsEscape(name[0]) then ['\\', name[0]] else [name[0]];
            && TypePrinter.Escaped(name) + "'" == first + (TypePrinter.Escaped(name[1..]) + "'")
            && |TypePrinter.Escaped(name)| == |first| + |TypePrinter.Escaped(name[1..])|
  {
  }

  lemma HereBound(s: string, i: nat, w: string)
    requires Here(s, i, w)
    ensures i + |w| <= |s|
  {
  }

  lemma {:induction false} StringRun(s: string, start: nat, i: nat, text: string)
    requires start <= |s| && '\'' !in text && Here(s, i, text + "')")
    ensures BalancedFrom(s, start, i, 1, true) == Ok(i + |text| + 2)
    decreases |text|
  {
    if text == "" {
      assert text + "')" == "')";
      HereAt(s, i, "')", 0);
      HereAt(s, i, "')", 1);
      assert BalancedFrom(s, start, i + 2, 0, false) == Ok(i + 2);
      assert BalancedFrom(s, start, i + 1, 1, false) == Ok(i + 2);
    } else {
      assert text + "')" == [text[0]] + (text[1..] + "')");
      HereSplit(s, i, [text[0]], text[1..] + "')");
      HereAt(s, i, [text[0]], 0);
      StringRun(s, start, i + 1, text[1..]);
    }
  }

  lemma QuotedArgs(s: string, i: nat, text: string)
    requires '\'' !in text && Here(s, i, "(" + ("'" + text + "'" + ")"))
    ensures Peek(s, i) == Some('(') && SkipBalanced(s, i) == Ok(i + |text| + 4)
  {
    assert "(" + ("'" + text + "'" + ")") == "('" + (text + "')");
    HereSplit(s, i, "('", text + "')");
    HereAt(s, i, "('", 0);
    HereAt(s, i, "('", 1);
    NoSpace(s, i);
    StringRun(s, i, i + 2, text);
  }

  lemma Comma(s: string, i: nat, w: string)
    requires Here(s, i, ", " + w) && w != "" && !IsSpace(w[0])
    ensures i + 2 < |s| && ExpectNext(s, i, ',') == Ok(i + 1) && SkipSpace(s, i + 1) == i + 2 && Here(s, i + 2, w)
    ensures Expect(s, i, ',') == Ok(i + 1) && SkipSpace(s, i) == i && s[i] == ','
  {
    HereSplit(s, i, ", ", w);
    HereAt(s, i, ", ", 0);
    HereAt(s, i, ", ", 1);
    HereAt(s, i + 2, w, 0);
    NoSpace(s, i);
    OneSpace(s, i + 1);
  }

  lemma Opens(s: string, i: nat, w: string)
    requires Here(s, i, "(" + w)
    ensures ExpectNext(s, i, '(') == Ok(i + 1) && Expect(s, i, '(') == Ok(i + 1)
    ensures i < |s| && Here(s, i + 1, w) && s[i] == '(' && SkipSpace(s, i) == i
  {
    HereSplit(s, i, "(", w);
    HereAt(s, i, "(", 0);
    NoSpace(s, i);
  }

  lemma Closes(s: string, i: nat)
    requires Here(s, i, ")")
    ensures i < |s| && ExpectNext(s, i, ')') == Ok(i + 1) && s[i] == ')' && SkipSpace(s, i) == i && Delimited(s, i)
  {
    HereAt(s, i, ")", 0);
    NoSpace(s, i);
  }

  // ---- Names ----

  lemma NumericNames(name: string)
    requires name in ["Int8", "Int16", "Int32", "Int64", "Int128", "Int256", "Float32", "Float64",
                      "UInt8", "UInt16", "UInt32", "UInt64", "UInt128", "UInt256"]
    ensures IsIdent(name)
  {
  }

  lemma OtherLeafNames(name: string)
    requires name in ["String", "UUID", "Bool", "Boolean", "Date", "DateTime", "JSON", "Object", "IPv4", "IPv6"]
    ensures IsIdent(name)
  {
  }

  lemma DecimalNames(name: string)
    requires name in ["Decimal32", "Decimal64", "Decimal128", "Decimal256", "Decimal", "FixedString", "Enum8", "Enum16"]
    ensures IsIdent(name)
  {
  }

  lemma CompositeNames(name: string)
    requires name in ["Array", "Map", "Tuple", "Nested", "Nullable", "LowCardinality"]
    ensures IsIdent(name)
  {
  }

  lemma WideNames(column: ColumnType, alias: bool)
    requires !column.Scalar? && Spelling(column, alias) != ""
    ensures IsIdent(Spelling(column, alias)) && Classify(Spelling(column, alias)) == Leaf(column)
  {
    NumericNames(Spelling(column, alias));
  }

  lemma NumberNames(t: ScalarType, alias: bool)
    requires t.Int8? || t.Int16? || t.Int32? || t.Int64? || t.UInt8? || t.UInt16? || t.UInt32? || t.UInt64? ||
             t.Float32? || t.Float64?
    ensures IsIdent(ScalarSpelling(t, alias)) && Classify(ScalarSpelling(t, alias)) == Leaf(Scalar(t))
  {
    hide IsIdent;
    NumericNames(ScalarSpelling(t, alias));
  }

  lemma OtherNames(t: ScalarType, alias: bool)
    requires t.Bool? || t == DT.Text(None) || t.Date? || t.Uuid? || t.Ipv4? || t.Ipv6?
    ensures IsIdent(ScalarSpelling(t, alias)) && Classify(ScalarSpelling(t, alias)) == Leaf(Scalar(t))
  {
    hide IsIdent;
    OtherLeafNames(ScalarSpelling(t, alias));
  }

  lemma OptionNames(t: ScalarType, alias: bool)
    requires t.Timestamp? || t.Json?
    ensures IsIdent(ScalarSpelling(t, alias)) && Classify(ScalarSpelling(t, alias)) == OptionalArgs(Scalar(t))
  {
    hide IsIdent;
    OtherLeafNames(ScalarSpelling(t, alias));
  }

  /** The parser's table of names is the inverse of the spelling. */
  lemma SpellingClassified(column: ColumnType, alias: bool)
    requires Spelling(column, alias) != ""
    ensures IsIdent(Spelling(column, alias))
    ensures Classify(Spelling(column, alias)) == if TakesOptions(column) then OptionalArgs(column) else Leaf(column)
  {
    hide IsIdent, Classify;
    if !column.Scalar? {
      WideNames(column, alias);
    } else if TakesOptions(column) {
      OptionNames(column.scalar, alias);
    } else if column.scalar.Bool? || column.scalar.Text? || column.scalar.Date? || column.scalar.Uuid? ||
              column.scalar.Ipv4? || column.scalar.Ipv6? {
      OtherNames(column.scalar, alias);
    } else {
      NumberNames(column.scalar, alias);
    }
  }

  lemma DecimalClassified(digits: u32)
    requires DecimalSpelling(digits) != ""
    ensures IsIdent(DecimalSpelling(digits)) && Classify(DecimalSpelling(digits)) == ScaleOnly(digits)
  {
    hide IsIdent;
    DecimalNames(DecimalSpelling(digits));
  }

  lemma WrapperNames()
    ensures Classify("Nullable") == Refused && Classify("LowCardinality") == Refused
  {
  }

  lemma OptionsSpelled(column: ColumnType, alias: bool)
    ensures TakesOptions(column) ==> Spelling(column, alias) != ""
  {
  }

  lemma HeadIsIdent(t: TypeExpr)
    requires Supported(t)
    ensures IsIdent(Head(t))
    ensures !t.Nullable? && !t.LowCardinality? ==> Head(t) != "Nullable" && Head(t) != "LowCardinality"
  {
    hide IsIdent, Classify;
    if t.Plain? || t.Quoted? {
      OptionsSpelled(t.column, t.alias);
      SpellingClassified(t.column, t.alias);
      WrapperNames();
    } else if t.DecimalN? {
      DecimalClassified(t.digits);
      WrapperNames();
    } else if t.DecimalOf? || t.FixedStringOf? || t.EnumOf? {
      DecimalNames(Head(t));
    } else {
      CompositeNames(Head(t));
    }
  }

  // ---- Arguments that are not types ----

  lemma NameHere(s: string, i: nat, name: string)
    requires Here(s, i, QuoteName(name))
    ensures ReadQuoted(s, i) == Ok((name, i + |QuoteName(name)|))
    ensures i < |s| && s[i] == '\'' && SkipSpace(s, i) == i
  {
    HereSplit(s, i, "'", TypePrinter.Escaped(name) + "'");
    HereAt(s, i, "'", 0);
    NoSpace(s, i);
    QuotedHere(s, i + 1, i + 1, name, "");
    assert "" + name == name;
  }

  lemma VariantHere(s: string, i: nat, v: Variant, wide: bool)
    requires Here(s, i, PrintVariant(v)) && Delimited(s, i + |PrintVariant(v)|)
    requires wide || -0x80 <= v.ordinal < 0x80
    ensures var end := i + |PrintVariant(v)|;
            EnumVariant(s, i, wide) == Ok((v, if Peek(s, end) == Some(',') then end + 1 else end))
    ensures i < |s| && s[i] == '\'' && SkipSpace(s, i) == i
  {
    hide ReadQuoted, ReadInt, ExpectNext, QuoteName, PrintInt, SkipSpace, Here, IsSpace;
    HereSplit(s, i, QuoteName(v.name), " = " + PrintInt(v.ordinal));
    NameHere(s, i, v.name);
    EqualsHere(s, i + |QuoteName(v.name)|, v.ordinal);
    DelimitedNoSpace(s, i + |PrintVariant(v)|);
  }

  lemma EqualsHere(s: string, i: nat, n: i16)
    requires Here(s, i, " = " + PrintInt(n)) && Delimited(s, i + 3 + |PrintInt(n)|)
    ensures ExpectNext(s, i, '=') == Ok(i + 2) && ReadInt(s, i + 2) == Ok((n, i + 3 + |PrintInt(n)|))
  {
    HereSplit(s, i, " = ", PrintInt(n));
    HereAt(s, i, " = ", 0);
    HereAt(s, i, " = ", 1);
    HereAt(s, i, " = ", 2);
    OneSpace(s, i);
    IntHere(s, i + 2, n);
  }

  lemma VariantsText(variants: seq<Variant>)
    ensures variants == [] ==> PrintVariants(variants) + ")" == ")"
    ensures |variants| == 1 ==> PrintVariants(variants) + ")" == PrintVariant(variants[0]) + ")"
    ensures |variants| > 1 ==>
            PrintVariants(variants) + ")" == PrintVariant(variants[0]) + (", " + (PrintVariants(variants[1..]) + ")"))
    ensures |variants| > 1 ==> PrintVariants(variants[1..]) != "" && PrintVariants(variants[1..])[0] == '\''
  {
    hide PrintVariant;
    if |variants| > 1 {
      Reassociate(PrintVariant(variants[0]), ", ", PrintVariants(variants[1..]), ")");
      FirstChar(variants[1..]);
    } else if |variants| == 1 {
      assert PrintVariant(variants[0]) + "" == PrintVariant(variants[0]);
    }
  }

  /** The rest of a variant list, from just after a comma or from its start, up to the closing parenthesis. */
  lemma {:induction false} VariantsHere(s: string, i: nat, variants: seq<Variant>, wide: bool, out: seq<Variant>)
    requires Here(s, i, PrintVariants(variants) + ")")
    requires OrdinalsFit(variants, wide)
    ensures EnumVariantsFrom(s, i, wide, out) == Ok((out + variants, i + |PrintVariants(variants) + ")"|))
    decreases |variants|
  {
    hide OrdinalsFit, EnumVariantsFrom, EnumVariant, PrintVariant, PrintVariants, Here, Delimited, SkipSpace, Expect,
         ExpectNext;
    VariantsText(variants);
    if variants == [] {
      Closes(s, i);
      LastVariant(s, i, wide, out);
      assert out + variants == out;
    } else {
      OrdinalsFitRest(variants, wide);
      var v, rest := variants[0], variants[1..];
      var first, more := PrintVariant(v), PrintVariants(rest) + ")";
      if rest == [] {
        HereSplit(s, i, first, ")");
        Closes(s, i + |first|);
        VariantHere(s, i, v, wide);
        OneVariant(s, i, wide, out, v, i + |first|);
        LastVariant(s, i + |first|, wide, out + [v]);
        assert out + [v] == out + variants;
      } else {
        HereSplit(s, i, first, ", " + more);
        Comma(s, i + |first|, more);
        IsDelimited(s, i + |first|);
        VariantHere(s, i, v, wide);
        OneVariant(s, i, wide, out, v, i + |first| + 1);
        VariantsAfterSpace(s, i + |first| + 1, wide, out + [v]);
        VariantsHere(s, i + |first| + 2, rest, wide, out + [v]);
        assert out + [v] + rest == out + variants;
      }
    }
  }

  lemma OrdinalsFitRest(variants: seq<Variant>, wide: bool)
    requires variants != [] && OrdinalsFit(variants, wide)
    ensures OrdinalsFit(variants[1..], wide) && (wide || -0x80 <= variants[0].ordinal < 0x80)
  {
  }

  lemma LastVariant(s: string, i: nat, wide: bool, out: seq<Variant>)
    requires i < |s| && s[i] == ')'
    ensures EnumVariantsFrom(s, i, wide, out) == Ok((out, i + 1))
  {
    NoSpace(s, i);
  }

  lemma IsDelimited(s: string, i: nat)
    requires i < |s| && (s[i] == ',' || s[i] == ')')
    ensures Delimited(s, i)
  {
  }

  lemma OneVariant(s: string, i: nat, wide: bool, out: seq<Variant>, v: Variant, next: nat)
    requires i < |s| && s[i] == '\'' && SkipSpace(s, i) == i && EnumVariant(s, i, wide) == Ok((v, next))
    ensures EnumVariantsFrom(s, i, wide, out) == EnumVariantsFrom(s, next, wide, out + [v])
  {
    hide EnumVariant;
  }

  lemma FirstChar(variants: seq<Variant>)
    requires variants != []
    ensures PrintVariants(variants) != "" && PrintVariants(variants)[0] == '\''
  {
  }

  lemma VariantsAfterSpace(s: string, i: nat, wide: bool, out: seq<Variant>)
    requires i + 1 <= |s| && SkipSpace(s, i) == i + 1
    ensures EnumVariantsFrom(s, i, wide, out) == EnumVariantsFrom(s, i + 1, wide, out)
  {
    NoSpace(s, i + 1);
  }

  /** The types whose arguments are not types. */
  predicate IsBasic(t: TypeExpr) {
    t.Plain? || t.Quoted? || t.DecimalN? || t.DecimalOf? || t.FixedStringOf? || t.EnumOf?
  }

  lemma UintArgHere(s: string, i: nat, n: u32, ctor: string)
    requires Here(s, i, "(" + (PrintNat(n) + ")"))
    ensures UintArg(s, i, ctor) == Ok((n, i + |PrintNat(n)| + 2))
  {
    hide PrintNat, ReadUint;
    Opens(s, i, PrintNat(n) + ")");
    HereSplit(s, i + 1, PrintNat(n), ")");
    Closes(s, i + 1 + |PrintNat(n)|);
    UintHere(s, i + 1, n, ctor);
  }

  lemma NatStart(n: nat)
    ensures PrintNat(n) != "" && !IsSpace(PrintNat(n)[0])
  {
    PrintNatDigits(n);
    assert IsDigit(PrintNat(n)[0]);
  }

  lemma TwoUintArgsHere(s: string, i: nat, a: u32, b: u32, ctor: string)
    requires Here(s, i, "(" + (PrintNat(a) + (", " + PrintNat(b)) + ")"))
    ensures TwoUintArgs(s, i, ctor) == Ok(((a, b), i + |PrintNat(a)| + |PrintNat(b)| + 4))
  {
    hide PrintNat, ReadUint, Here, Delimited, SkipSpace, Expect, ExpectNext, Number;
    var x, y := PrintNat(a), PrintNat(b);
    Opens(s, i, x + (", " + y) + ")");
    Reassociate(x, ", ", y, ")");
    HereSplit(s, i + 1, x, ", " + (y + ")"));
    NatStart(b);
    Comma(s, i + 1 + |x|, y + ")");
    HereSplit(s, i + |x| + 3, y, ")");
    Closes(s, i + |x| + 3 + |y|);
    IsDelimited(s, i + 1 + |x|);
    UintHere(s, i + 1, a, ctor);
    UintHere(s, i + |x| + 3, b, ctor);
  }

  lemma EnumArgsHere(s: string, i: nat, variants: seq<Variant>, wide: bool)
    requires Here(s, i, "(" + (PrintVariants(variants) + ")"))
    requires OrdinalsFit(variants, wide)
    ensures EnumVariants(s, i, wide) == Ok((variants, i + |PrintVariants(variants)| + 2))
  {
    hide PrintVariants, EnumVariantsFrom;
    Opens(s, i, PrintVariants(variants) + ")");
    VariantsHere(s, i + 1, variants, wide, []);
    assert [] + variants == variants;
  }

  // ---- Types ----

  function Args(t: TypeExpr): string {
    if t.Plain? then "" else "(" + (Body(t) + ")")
  }

  /** The parser's answer at depth `open` for text that needs `more` levels. */
  function Within<T>(open: nat, more: nat, value: T, end: nat): Parse<T> {
    if open + more <= MAX_PARSE_DEPTH then Ok((value, end)) else Err(TOO_DEEP)
  }

  lemma BasicNames()
    ensures Classify("Decimal") == DecimalKind && Classify("FixedString") == FixedStringKind
  {
  }

  lemma EnumNames()
    ensures Classify("Enum8") == EnumKind(false) && Classify("Enum16") == EnumKind(true)
  {
  }

  lemma ArrayAndMapNames()
    ensures Classify("Array") == ArrayKind && Classify("Map") == MapKind
  {
  }

  lemma TupleAndNestedNames()
    ensures Classify("Tuple") == TupleKind && Classify("Nested") == NestedKind
  {
  }

  lemma PlainArgs(s: string, i: nat, t: TypeExpr, depth: nat)
    requires t.Plain? && Supported(t) && Delimited(s, i) && depth <= MAX_PARSE_DEPTH
    ensures ParseArgs(s, i, depth, Head(t)) == Ok((t.column, i))
  {
    hide Classify, Spelling;
    SpellingClassified(t.column, t.alias);
  }

  lemma QuotedTypeArgs(s: string, i: nat, t: TypeExpr, depth: nat)
    requires t.Quoted? && Supported(t) && Here(s, i, Args(t)) && depth <= MAX_PARSE_DEPTH
    ensures i <= |s| && ParseArgs(s, i, depth, Head(t)) == Ok((t.column, i + |Args(t)|))
  {
    hide Classify, Spelling, Here, SkipBalanced;
    OptionsSpelled(t.column, t.alias);
    SpellingClassified(t.column, t.alias);
    HereBound(s, i, Args(t));
    QuotedArgs(s, i, t.text);
  }

  lemma BasicArgs(s: string, i: nat, t: TypeExpr, depth: nat)
    requires IsBasic(t) && Supported(t) && Here(s, i, Args(t)) && Delimited(s, i + |Args(t)|) && depth <= MAX_PARSE_DEPTH
    ensures i <= |s| && ParseArgs(s, i, depth, Head(t)) == Ok((Meaning(t).columnType, i + |Args(t)|))
  {
    hide Classify, Spelling, DecimalSpelling, Here, UintArg, TwoUintArgs, EnumVariants, PrintNat, PrintVariants, TakesOptions,
         OrdinalsFit;
    HereBound(s, i, Args(t));
    match t
    case Plain(_, _) => PlainArgs(s, i, t, depth);
    case Quoted(_, _, _) => QuotedTypeArgs(s, i, t, depth);
    case DecimalN(digits, scale) =>
      DecimalClassified(digits);
      UintArgHere(s, i, scale, DecimalSpelling(digits));
    case DecimalOf(precision, scale) =>
      BasicNames();
      TwoUintArgsHere(s, i, precision, scale, "Decimal");
    case FixedStringOf(size) =>
      BasicNames();
      UintArgHere(s, i, size, "FixedString");
    case EnumOf(wide, variants) =>
      EnumNames();
      EnumArgsHere(s, i, variants, wide);
  }

  /** The name at the head of a printed type, and what follows it. */
  lemma HeadHere(s: string, i: nat, t: TypeExpr)
    requires Supported(t) && Here(s, i, Print(t)) && Delimited(s, i + |Print(t)|)
    ensures ReadIdent(s, i) == (Head(t), i + |Head(t)|) && SkipSpace(s, i) == i && i < |s| && IsIdentChar(s[i])
    ensures SkipSpace(s, i + |Head(t)|) == i + |Head(t)| && !(i + |Head(t)| < |s| && IsIdentChar(s[i + |Head(t)|]))
    ensures Here(s, i + |Head(t)|, Args(t)) && |Print(t)| == |Head(t)| + |Args(t)|
  {
    hide IsIdent, Body, Supported, ReadIdent;
    HereSplit(s, i, Head(t), Args(t));
    HeadIsIdent(t);
    var after := i + |Head(t)|;
    if !t.Plain? {
      Opens(s, after, Body(t) + ")");
    } else {
      DelimitedNoSpace(s, after);
    }
    IdentHere(s, i, Head(t));
    NoSpace(s, i);
  }

  /** The code's test on the parsed element and the meaning's test on the tree agree. */
  lemma {:induction false} CanonicalElement(t: TypeExpr)
    requires Supported(t)
    ensures IsScalarExpr(t) <==> IsCanonicalElement(Meaning(t).columnType)
    decreases t
  {
    if t.Nullable? || t.LowCardinality? {
      CanonicalElement(t.inner);
    }
  }

  /** A printed type, wherever it stands, is read to its end, or refused when it nests too deep. */
  lemma {:induction false} OuterPrinted(s: string, i: nat, t: TypeExpr, depth: nat)
    requires Supported(t) && depth <= MAX_PARSE_DEPTH && Here(s, i, Print(t)) && Delimited(s, i + |Print(t)|)
    ensures i <= |s| && ParseOuter(s, i, depth) == Within(depth, Depth(t), Meaning(t), i + |Print(t)|)
    decreases t, 3
  {
    hide ReadIdent, SkipSpace, Head, ParseNamed, ParseWrapped, ParseOuter, Here, Supported, Print, IsIdentChar, IsIdent,
         Delimited, Meaning, InnerDepth, Args;
    HeadHere(s, i, t);
    HeadIsIdent(t);
    if depth == MAX_PARSE_DEPTH {
      OuterTooDeep(s, i);
    } else if t.Nullable? || t.LowCardinality? {
      WrapperHead(t);
      WrapperPrinted(s, i + |Head(t)|, t, depth);
      OuterWrapped(s, i, depth, t.Nullable?, i + |Head(t)|);
      WrapperMeaning(t);
    } else {
      NamedPrinted(s, i, t, depth + 1);
      OuterNamed(s, i, depth, Head(t), i + |Head(t)|);
      PlainMeaning(t);
    }
  }

  // The three ways through `parse_outer`.

  lemma OuterTooDeep(s: string, i: nat)
    requires i <= |s|
    ensures ParseOuter(s, i, MAX_PARSE_DEPTH) == Err(TOO_DEEP)
  {
  }

  lemma OuterNamed(s: string, i: nat, depth: nat, name: string, after: nat)
    requires i <= |s| && depth < MAX_PARSE_DEPTH && SkipSpace(s, i) == i && ReadIdent(s, i) == (name, after)
    requires name != "Nullable" && name != "LowCardinality"
    ensures var r := ParseNamed(s, i, depth + 1);
            ParseOuter(s, i, depth) == if r.Err? then Err(r.error) else Ok((ColumnField(r.value.0, false), r.value.1))
  {
    hide ParseNamed, ReadIdent;
  }

  lemma OuterWrapped(s: string, i: nat, depth: nat, nullable: bool, after: nat)
    requires i <= |s| && depth < MAX_PARSE_DEPTH && SkipSpace(s, i) == i && after <= |s|
    requires ReadIdent(s, i) == (if nullable then "Nullable" else "LowCardinality", after)
    ensures var r := ParseWrapped(s, after, depth + 1);
            ParseOuter(s, i, depth) ==
            if r.Err? then Err(r.error)
            else Ok((if nullable then ColumnField(r.value.0.columnType, true) else r.value.0, r.value.1))
  {
    hide ParseNamed, ParseWrapped, ReadIdent;
  }

  lemma PlainMeaning(t: TypeExpr)
    requires Supported(t) && !t.Nullable? && !t.LowCardinality?
    ensures Meaning(t) == ColumnField(Meaning(t).columnType, false)
  {
  }

  lemma WrapperMeaning(t: TypeExpr)
    requires Supported(t) && (t.Nullable? || t.LowCardinality?)
    ensures Supported(t.inner) && InnerDepth(t) == Depth(t.inner)
    ensures Meaning(t) == if t.Nullable? then ColumnField(Meaning(t.inner).columnType, true) else Meaning(t.inner)
  {
  }

  lemma WrapperHead(t: TypeExpr)
    requires t.Nullable? || t.LowCardinality?
    ensures Head(t) == if t.Nullable? then "Nullable" else "LowCardinality"
  {
  }

  lemma WrapperText(t: TypeExpr)
    requires Supported(t) && (t.Nullable? || t.LowCardinality?)
    ensures Args(t) == "(" + (Print(t.inner) + ")") && Supported(t.inner)
  {
    hide Print;
  }

  /** The parenthesis of a wrapper. */
  lemma {:induction false} WrapperPrinted(s: string, i: nat, t: TypeExpr, depth: nat)
    requires Supported(t) && (t.Nullable? || t.LowCardinality?)
    requires depth < MAX_PARSE_DEPTH && Here(s, i, Args(t))
    ensures i <= |s|
    ensures ParseWrapped(s, i, depth + 1) == Within(depth + 1, Depth(t.inner), Meaning(t.inner), i + |Args(t)|)
    decreases t, 0
  {
    hide Expect, ExpectNext, Here, Print, ParseOuter, Meaning, Delimited, SkipSpace, Depth, Supported, Args;
    WrapperText(t);
    Opens(s, i, Print(t.inner) + ")");
    HereSplit(s, i + 1, Print(t.inner), ")");
    Closes(s, i + 1 + |Print(t.inner)|);
    OuterPrinted(s, i + 1, t.inner, depth + 1);
  }

  lemma {:induction false} NamedPrinted(s: string, i: nat, t: TypeExpr, depth: nat)
    requires Supported(t) && !t.Nullable? && !t.LowCardinality? && depth <= MAX_PARSE_DEPTH
    requires Here(s, i, Print(t)) && Delimited(s, i + |Print(t)|)
    ensures i <= |s| && ParseNamed(s, i, depth) == Within(depth, InnerDepth(t), Meaning(t).columnType, i + |Print(t)|)
    decreases t, 2
  {
    hide ReadIdent, SkipSpace, ParseArgs, Here, Delimited, Supported, Print, Meaning, Args, IsIdent;
    HeadHere(s, i, t);
    HeadIsIdent(t);
    NotEmpty(Head(t));
    if IsBasic(t) {
      BasicArgs(s, i + |Head(t)|, t, depth);
    } else {
      CompositeArgs(s, i + |Head(t)|, t, depth);
    }
  }

  lemma NotEmpty(name: string)
    requires IsIdent(name)
    ensures name != ""
  {
  }

  lemma {:induction false} CompositeArgs(s: string, i: nat, t: TypeExpr, depth: nat)
    requires Supported(t) && !t.Nullable? && !t.LowCardinality? && !IsBasic(t) && depth <= MAX_PARSE_DEPTH && Here(s, i, Args(t))
    ensures i <= |s| && ParseArgs(s, i, depth, Head(t)) == Within(depth, InnerDepth(t), Meaning(t).columnType, i + |Args(t)|)
    decreases t, 1, 1
  {
    hide Here, ParseArgs, Head, Meaning, InnerDepth, Args, Supported;
    if t.Array? {
      ArrayComposite(s, i, t, depth);
    } else if t.Map? {
      MapComposite(s, i, t, depth);
    } else if t.Tuple? {
      TupleComposite(s, i, t, depth);
    } else {
      NestedComposite(s, i, t, depth);
    }
  }

  // What the printer and the grammar say of arrays and maps, each on its own.

  lemma ArrayText(t: TypeExpr)
    requires Supported(t) && t.Array?
    ensures Head(t) == "Array" && Args(t) == "(" + (Print(t.inner) + ")") && Supported(t.inner)
    ensures InnerDepth(t) == Depth(t.inner) && Meaning(t).columnType == ArrayMeaning(t.inner, Meaning(t.inner))
  {
    hide Print, ArrayMeaning;
  }

  lemma ArrayArm(s: string, i: nat, depth: nat)
    requires i <= |s| && depth <= MAX_PARSE_DEPTH && ExpectNext(s, i, '(') == Ok(i + 1)
    ensures i + 1 <= |s|
    ensures var inner := ParseOuter(s, i + 1, depth);
            ParseArgs(s, i, depth, "Array") ==
            if inner.Err? then Err(inner.error)
            else
              var close := ExpectNext(s, inner.value.1, ')');
              if close.Err? then Err(close.error) else Ok((ArrayColumn(inner.value.0), close.value))
  {
    hide Classify, ExpectNext, ParseOuter, ArrayColumn;
    ArrayAndMapNames();
  }

  lemma {:induction false} ArrayComposite(s: string, i: nat, t: TypeExpr, depth: nat)
    requires Supported(t) && t.Array? && depth <= MAX_PARSE_DEPTH && Here(s, i, Args(t))
    ensures i <= |s| && ParseArgs(s, i, depth, Head(t)) == Within(depth, InnerDepth(t), Meaning(t).columnType, i + |Args(t)|)
    decreases t, 1, 0
  {
    hide ParseArgs, Supported, Head, Args, Meaning, InnerDepth, Depth, Expect, ExpectNext, Here, Print, ParseOuter,
         ArrayColumn, ArrayMeaning;
    ArrayText(t);
    Opens(s, i, Print(t.inner) + ")");
    ArrayArm(s, i, depth);
    ArrayArgs(s, i + 1, t, depth);
  }

  lemma MapText(t: TypeExpr)
    requires Supported(t) && t.Map?
    ensures Head(t) == "Map" && Args(t) == "(" + (Print(t.key) + (", " + Print(t.value)) + ")")
    ensures Supported(t.key) && Supported(t.value) && InnerDepth(t) == Max(Depth(t.key), Depth(t.value))
    ensures var k, v := Meaning(t.key), Meaning(t.value);
            Meaning(t).columnType == MapOf(k.columnType, v.columnType, k.nullable, v.nullable)
  {
    hide Print;
  }

  lemma MapArm(s: string, i: nat, depth: nat)
    requires i <= |s| && depth <= MAX_PARSE_DEPTH && ExpectNext(s, i, '(') == Ok(i + 1)
    ensures i + 1 <= |s|
    ensures var key := ParseOuter(s, i + 1, depth);
            key.Err? ==> ParseArgs(s, i, depth, "Map") == Err(key.error)
    ensures var key := ParseOuter(s, i + 1, depth);
            key.Ok? && ExpectNext(s, key.value.1, ',').Ok? ==>
              var value := ParseOuter(s, ExpectNext(s, key.value.1, ',').value, depth);
              ParseArgs(s, i, depth, "Map") ==
              if value.Err? then Err(value.error)
              else
                var close := ExpectNext(s, value.value.1, ')');
                if close.Err? then Err(close.error)
                else
                  var k, v := key.value.0, value.value.0;
                  Ok((MapOf(k.columnType, v.columnType, k.nullable, v.nullable), close.value))
  {
    hide Classify, ExpectNext, ParseOuter;
    ArrayAndMapNames();
  }

  lemma {:induction false} MapComposite(s: string, i: nat, t: TypeExpr, depth: nat)
    requires Supported(t) && t.Map? && depth <= MAX_PARSE_DEPTH && Here(s, i, Args(t))
    ensures i <= |s| && ParseArgs(s, i, depth, Head(t)) == Within(depth, InnerDepth(t), Meaning(t).columnType, i + |Args(t)|)
    decreases t, 1, 0
  {
    hide ParseArgs, Supported, Head, Args, Meaning, InnerDepth, Depth, Expect, ExpectNext, Here, Print, ParseOuter;
    MapText(t);
    Opens(s, i, Print(t.key) + (", " + Print(t.value)) + ")");
    MapArm(s, i, depth);
    MapArgs(s, i + 1, t, depth);
  }

  lemma {:induction false} TupleComposite(s: string, i: nat, t: TypeExpr, depth: nat)
    requires Supported(t) && t.Tuple? && depth <= MAX_PARSE_DEPTH && Here(s, i, Args(t))
    ensures i <= |s| && ParseArgs(s, i, depth, Head(t)) == Within(depth, InnerDepth(t), Meaning(t).columnType, i + |Args(t)|)
    decreases t, 1, 0
  {
    hide Classify, Spelling, DecimalSpelling, Expect, ExpectNext, Here, Print, PrintFields, ParseOuter, FieldsFrom, Delimited,
         SkipSpace, ArrayColumn, ArrayMeaning, SupportedFields, FieldMeanings, FieldsDepth;
    TupleAndNestedNames();
    Opens(s, i, Body(t) + ")");
    FieldsPrinted(s, i + 1, t.fields, false, depth, []);
    assert [] + FieldMeanings(t.fields, false) == FieldMeanings(t.fields, false);
  }

  lemma {:induction false} NestedComposite(s: string, i: nat, t: TypeExpr, depth: nat)
    requires Supported(t) && t.Nested? && depth <= MAX_PARSE_DEPTH && Here(s, i, Args(t))
    ensures i <= |s| && ParseArgs(s, i, depth, Head(t)) == Within(depth, InnerDepth(t), Meaning(t).columnType, i + |Args(t)|)
    decreases t, 1, 0
  {
    hide Classify, Spelling, DecimalSpelling, Expect, ExpectNext, Here, Print, PrintFields, ParseOuter, FieldsFrom, Delimited,
         SkipSpace, ArrayColumn, ArrayMeaning, SupportedFields, FieldMeanings, FieldsDepth;
    TupleAndNestedNames();
    Opens(s, i, Body(t) + ")");
    FieldsPrinted(s, i + 1, t.fields, true, depth, []);
    assert [] + FieldMeanings(t.fields, true) == FieldMeanings(t.fields, true);
  }

  lemma {:induction false} ArrayArgs(s: string, i: nat, t: TypeExpr, depth: nat)
    requires t.Array? && Supported(t.inner) && depth <= MAX_PARSE_DEPTH && Here(s, i, Print(t.inner) + ")")
    ensures var close := i + |Print(t.inner)|;
            && close < |s|
            && ParseOuter(s, i, depth) == Within(depth, Depth(t.inner), Meaning(t.inner), close)
            && ExpectNext(s, close, ')') == Ok(close + 1)
            && ArrayColumn(Meaning(t.inner)) == ArrayMeaning(t.inner, Meaning(t.inner))
    decreases t, 0
  {
    hide Expect, ExpectNext, Here, Print, ParseOuter, Delimited, SkipSpace, Meaning, Supported, IsScalarExpr,
         IsCanonicalElement;
    HereSplit(s, i, Print(t.inner), ")");
    Closes(s, i + |Print(t.inner)|);
    OuterPrinted(s, i, t.inner, depth);
    CanonicalElement(t.inner);
  }

  lemma PrintStart(t: TypeExpr)
    requires Supported(t)
    ensures Print(t) != "" && IsIdentChar(Print(t)[0]) && !IsSpace(Print(t)[0])
  {
    HeadIsIdent(t);
    assert Print(t)[0] == Head(t)[0];
  }

  /** `K, V)`: each half is found, and whichever is too deep decides. */
  lemma {:induction false} MapArgs(s: string, i: nat, t: TypeExpr, depth: nat)
    requires t.Map? && Supported(t.key) && Supported(t.value) && depth <= MAX_PARSE_DEPTH
    requires Here(s, i, Print(t.key) + (", " + Print(t.value)) + ")")
    ensures var comma := i + |Print(t.key)|;
            var close := comma + 2 + |Print(t.value)|;
            && close < |s|
            && ParseOuter(s, i, depth) == Within(depth, Depth(t.key), Meaning(t.key), comma)
            && ExpectNext(s, comma, ',') == Ok(comma + 1)
            && ParseOuter(s, comma + 1, depth) == Within(depth, Depth(t.value), Meaning(t.value), close)
            && ExpectNext(s, close, ')') == Ok(close + 1)
    decreases t, 0
  {
    hide Classify, Expect, ExpectNext, Here, Print, ParseOuter, Delimited, SkipSpace, Meaning, Supported, IsIdentChar, Depth, IsSpace;
    var k, v := Print(t.key), Print(t.value);
    Reassociate(k, ", ", v, ")");
    HereSplit(s, i, k, ", " + (v + ")"));
    PrintStart(t.value);
    Comma(s, i + |k|, v + ")");
    HereSplit(s, i + |k| + 2, v, ")");
    Closes(s, i + |k| + 2 + |v|);
    IsDelimited(s, i + |k|);
    OuterPrinted(s, i, t.key, depth);
    OuterPrinted(s, i + |k| + 2, t.value, depth);
    OuterAfterSpace(s, i + |k| + 1, depth);
  }

  lemma OuterAfterSpace(s: string, i: nat, depth: nat)
    requires i + 1 <= |s| && SkipSpace(s, i) == i + 1 && depth <= MAX_PARSE_DEPTH
    ensures ParseOuter(s, i, depth) == ParseOuter(s, i + 1, depth)
  {
    hide ReadIdent, ParseNamed, Expect, ExpectNext;
    NoSpace(s, i + 1);
  }

  // ---- Fields ----

  function NameLength(f: FieldExpr): nat {
    if f.name.Some? then |f.name.value| + 1 else 0
  }

  predicate NameOk(f: FieldExpr, nested: bool) {
    if f.name.Some? then IsIdent(f.name.value) else !nested
  }

  /** The look-ahead tells a field's name from its type. */
  lemma FieldHere(s: string, i: nat, f: FieldExpr, nested: bool)
    requires NameOk(f, nested) && Supported(f.expr) && Here(s, i, PrintField(f)) && Delimited(s, i + |PrintField(f)|)
    ensures i < |s| && IsIdentChar(s[i]) && SkipSpace(s, i) == i && FieldTypeStart(s, i, nested) == i + NameLength(f)
    ensures Here(s, i + NameLength(f), Print(f.expr)) && |PrintField(f)| == NameLength(f) + |Print(f.expr)|
  {
    hide Here, Supported, Print, SkipSpace, ReadIdent, Head, Delimited;
    if f.name.Some? {
      var name, expr := f.name.value, Print(f.expr);
      assert name + " " + expr == name + (" " + expr);
      HereSplit(s, i, name, " " + expr);
      NameThenSpace(s, i, name, f.expr);
    } else {
      assert "" + Print(f.expr) == Print(f.expr);
      HeadHere(s, i, f.expr);
    }
  }

  lemma NameThenSpace(s: string, i: nat, name: string, t: TypeExpr)
    requires IsIdent(name) && Supported(t) && Here(s, i, name) && Here(s, i + |name|, " " + Print(t))
    ensures i < |s| && IsIdentChar(s[i]) && SkipSpace(s, i) == i && ReadIdent(s, i) == (name, i + |name|)
    ensures SkipSpace(s, i + |name|) == i + |name| + 1 && Here(s, i + |name| + 1, Print(t))
    ensures i + |name| + 1 < |s| && IsIdentChar(s[i + |name| + 1])
  {
    hide Print, ReadIdent, Supported;
    HereSplit(s, i + |name|, " ", Print(t));
    HereAt(s, i + |name|, " ", 0);
    PrintStart(t);
    HereAt(s, i + |name| + 1, Print(t), 0);
    OneSpace(s, i + |name|);
    IdentHere(s, i, name);
    NoSpace(s, i);
  }

  lemma FieldsText(fields: seq<FieldExpr>, first: bool)
    ensures fields == [] ==> PrintFields(fields, first) + ")" == ")"
    ensures fields != [] ==>
            PrintFields(fields, first) + ")" ==
            (if first then "" else ", ") + (PrintField(fields[0]) + (PrintFields(fields[1..], false) + ")"))
    ensures fields != [] && !first ==> (PrintFields(fields, first) + ")")[0] == ','
    ensures fields != [] && first ==>
            PrintFields(fields, first) + ")" == PrintField(fields[0]) + (PrintFields(fields[1..], false) + ")")
  {
    hide PrintField;
    if fields != [] {
      Reassociate(if first then "" else ", ", PrintField(fields[0]), PrintFields(fields[1..], false), ")");
    }
  }

  /** One round of the field loop. */
  lemma FieldStep(s: string, i: nat, k: nat, start: nat, depth: nat, nested: bool, out: seq<ColumnField>)
    requires i < |s| && SkipSpace(s, i) == i && s[i] != ')' && depth <= MAX_PARSE_DEPTH
    requires if out == [] then k == i else Expect(s, i, ',') == Ok(i + 1) && SkipSpace(s, i + 1) == k
    requires k <= |s| && SkipSpace(s, k) == k && FieldTypeStart(s, k, nested) == start <= |s|
    ensures var r := ParseOuter(s, start, depth);
            FieldsFrom(s, i, depth, nested, out) ==
            if r.Err? then Err(r.error) else FieldsFrom(s, r.value.1, depth, nested, out + [r.value.0])
  {
    hide ParseOuter, FieldTypeStart;
  }

  lemma LastField(s: string, i: nat, depth: nat, nested: bool, out: seq<ColumnField>)
    requires i < |s| && s[i] == ')' && depth <= MAX_PARSE_DEPTH
    ensures FieldsFrom(s, i, depth, nested, out) == Ok((out, i + 1))
  {
    NoSpace(s, i);
  }

  lemma FieldsParts(fields: seq<FieldExpr>, nested: bool)
    requires fields != [] && SupportedFields(fields, nested)
    ensures NameOk(fields[0], nested) && Supported(fields[0].expr) && SupportedFields(fields[1..], nested)
    ensures FieldMeanings(fields, nested) == [Meaning(fields[0].expr)] + FieldMeanings(fields[1..], nested)
    ensures FieldsDepth(fields) == Max(Depth(fields[0].expr), FieldsDepth(fields[1..]))
  {
    hide Meaning, Supported, Depth;
  }

  lemma AfterField(s: string, i: nat, fields: seq<FieldExpr>)
    requires Here(s, i, PrintFields(fields, false) + ")")
    ensures Delimited(s, i)
  {
    FieldsText(fields, false);
    HereAt(s, i, PrintFields(fields, false) + ")", 0);
  }

  lemma {:induction false} FieldsPrinted(
    s: string, i: nat, fields: seq<FieldExpr>, nested: bool, depth: nat, out: seq<ColumnField>)
    requires SupportedFields(fields, nested) && depth <= MAX_PARSE_DEPTH
    requires Here(s, i, PrintFields(fields, out == []) + ")")
    ensures i <= |s|
    ensures FieldsFrom(s, i, depth, nested, out) ==
            Within(depth, FieldsDepth(fields), out + FieldMeanings(fields, nested), i + |PrintFields(fields, out == []) + ")"|)
    decreases fields, 0
  {
    hide Here, PrintFields, PrintField, Print, FieldsFrom, ParseOuter, FieldTypeStart, SkipSpace, Expect, ExpectNext, NameOk,
         Supported, SupportedFields, Meaning, Depth, FieldMeanings, FieldsDepth, Delimited, IsIdentChar, IsSpace;
    FieldsText(fields, out == []);
    if fields == [] {
      Closes(s, i);
      LastField(s, i, depth, nested, out);
      NoFields(nested);
      assert out + [] == out;
    } else {
      FieldsParts(fields, nested);
      var f, rest := fields[0], fields[1..];
      assert (fields decreases to f);
      var text, more := PrintField(f), PrintFields(rest, false) + ")";
      var k := if out == [] then i else i + 2;
      if out != [] {
        FieldTextStart(f, nested);
        Comma(s, i, text + more);
      }
      HereSplit(s, k, text, more);
      AfterField(s, k + |text|, rest);
      FieldHere(s, k, f, nested);
      NotParen(s[k]);
      var start := k + NameLength(f);
      NoSpace(s, k);
      FieldStep(s, i, k, start, depth, nested, out);
      OuterPrinted(s, start, f.expr, depth);
      FieldsPrinted(s, k + |text|, rest, nested, depth, out + [Meaning(f.expr)]);
      assert out + [Meaning(f.expr)] + FieldMeanings(rest, nested) == out + FieldMeanings(fields, nested);
    }
  }

  lemma NoFields(nested: bool)
    ensures FieldMeanings([], nested) == [] && FieldsDepth([]) == 0
  {
  }

  lemma NotParen(c: char)
    requires IsIdentChar(c)
    ensures c != ')' && c != ',' && !IsSpace(c)
  {
  }

  lemma FieldTextStart(f: FieldExpr, nested: bool)
    requires NameOk(f, nested) && Supported(f.expr)
    ensures PrintField(f) != "" && !IsSpace(PrintField(f)[0])
  {
    PrintStart(f.expr);
    if f.name.Some? {
      assert PrintField(f)[0] == f.name.value[0];
    }
  }

  // ---- Whole strings ----

  /**
   The parser undoes the printer: a printed type of at most 64 levels parses to its meaning, and a
   deeper one is refused for its depth.
   */
  lemma PrintedTypeParses(t: TypeExpr)
    requires Supported(t)
    ensures ParseType(Print(t)) == if Depth(t) <= 64 then Ok(Meaning(t)) else Err(Unsupported("type nesting too deep"))
  {
    hide Print, Meaning, Supported, ParseOuter;
    var s := Print(t);
    PrintEnds(t);
    assert Here(s, 0, s);
    OuterPrinted(s, 0, t, 0);
    TrimNothing(s);
    NoSpace(s, |s|);
  }

  lemma PrintEnds(t: TypeExpr)
    requires Supported(t)
    ensures Print(t) != "" && !IsSpace(Print(t)[0]) && !IsSpace(Print(t)[|Print(t)| - 1])
  {
    hide IsIdentChar, Body, IsSpace;
    PrintStart(t);
    HeadIsIdent(t);
    if t.Plain? {
      var last := |Print(t)| - 1;
      assert Print(t)[last] == Head(t)[last];
      NotParen(Head(t)[last]);
    } else {
      assert Print(t)[|Print(t)| - 1] == ')';
      ParenIsNoSpace();
    }
  }

  lemma ParenIsNoSpace()
    ensures !IsSpace(')')
  {
  }

  lemma TrimNothing(s: string)
    requires s != "" && !IsSpace(s[0]) && !IsSpace(s[|s| - 1])
    ensures Trim(s) == s
  {
    NoSpace(s, 0);
    assert s[0..] == s;
  }

  lemma {:induction false} TrimEndClean(s: string)
    ensures var r := TrimEnd(s); r == "" || !IsSpace(r[|r| - 1])
  {
    if s != "" && IsSpace(s[|s| - 1]) {
      TrimEndClean(s[..|s| - 1]);
    }
  }

  lemma {:induction false} OnlySpacesLeft(s: string, i: nat)
    requires i < |s| && SkipSpace(s, i) == |s|
    ensures IsSpace(s[|s| - 1])
    decreases |s| - i
  {
    if i + 1 < |s| {
      OnlySpacesLeft(s, i + 1);
    }
  }

  /** Success means the type reached to the very end of the trimmed text. */
  lemma SuccessConsumesAll(input: string)
    requires ParseType(input).Ok?
    ensures var s := Trim(input);
            ParseOuter(s, 0, 0) == Ok((ParseType(input).value, |s|))
  {
    hide ParseOuter;
    var s := Trim(input);
    TrimEndClean(input[SkipSpace(input, 0)..]);
    var end := ParseOuter(s, 0, 0).value.1;
    if end < |s| {
      OnlySpacesLeft(s, end);
    }
  }
}
