/**
 The `Parser` object of crates/commons/clickhouse/src/ch_type_parser.rs: a position that moves over
 the text, rewinds after look-ahead, and a nesting depth. Every method is proved to follow the
 grammar functions of TypeParser, to terminate, and to leave the position on a character boundary.
 */
module TypeParserImperative {
  import opened Basics
  import opened Columns
  import opened TypeParser
  import DT = DataTypes

  lemma BytePosStep(s: string, i: nat)
    requires i < |s|
    ensures BytePos(s, i + 1) == BytePos(s, i) + Utf8Len(s[i])
  {
    assert s[..i + 1][..i] == s[..i];
  }

  class Parser {
    const input: string
    var pos: nat                  // bytes before the position, as in the original
    var at: nat                   // characters before the position
    var depth: nat

    ghost predicate Valid()
      reads this
    {
      at <= |input| && pos == BytePos(input, at) && depth <= MAX_PARSE_DEPTH
    }

    constructor (input: string)
      ensures Valid() && this.input == input && at == 0 && depth == 0
    {
      this.input := input;
      pos, at, depth := 0, 0, 0;
    }

    /** The method did what the grammar function says: same value and position, or same error. */
    ghost predicate Did<T>(spec: Parse<T>, r: Result<T, ParseError>)
      reads this
    {
      && Valid()
      && (spec.Ok? ==> r == Ok(spec.value.0) && at == spec.value.1)
      && (spec.Err? ==> r == Err(spec.error))
    }

    /** The same for a step that only moves. */
    ghost predicate Moved(spec: Result<nat, ParseError>, r: Result<(), ParseError>)
      reads this
    {
      && Valid()
      && (spec.Ok? ==> r.Ok? && at == spec.value)
      && (spec.Err? ==> r == Err(spec.error))
    }

    // ---- Characters and tokens ----

    /** `self.pos += c.len_utf8()` */
    method Advance()
      requires Valid() && at < |input|
      modifies this`pos, this`at
      ensures Valid() && at == old(at) + 1
    {
      BytePosStep(input, at);
      pos := pos + Utf8Len(input[at]);
      at := at + 1;
    }

    method SkipSpaces()
      requires Valid()
      modifies this`pos, this`at
      ensures Valid() && at == SkipSpace(input, old(at))
    {
      while at < |input| && IsSpace(input[at])
        invariant Valid() && SkipSpace(input, at) == SkipSpace(input, old(at))
        decreases |input| - at
      {
        Advance();
      }
    }

    method ExpectChar(c: char) returns (r: Result<(), ParseError>)
      requires Valid()
      modifies this`pos, this`at
      ensures Moved(Expect(input, old(at), c), r)
    {
      if at < |input| && input[at] == c {
        Advance();
        return Ok(());
      }
      return Err(UnexpectedToken(pos, Found(input, at)));
    }

    method SkipAndExpect(c: char) returns (r: Result<(), ParseError>)
      requires Valid()
      modifies this`pos, this`at
      ensures Moved(ExpectNext(input, old(at), c), r)
    {
      SkipSpaces();
      r := ExpectChar(c);
    }

    method ReadIdentifier() returns (name: string)
      requires Valid()
      modifies this`pos, this`at
      ensures Valid() && (name, at) == ReadIdent(input, old(at))
    {
      SkipSpaces();
      var start := at;
      while at < |input| && IsIdentChar(input[at])
        invariant Valid() && start <= at && IdentEnd(input, at) == IdentEnd(input, start)
        decreases |input| - at
      {
        Advance();
      }
      name := input[start..at];
    }

    method SkipDigits()
      requires Valid()
      modifies this`pos, this`at
      ensures Valid() && at == DigitsEnd(input, old(at))
    {
      while at < |input| && IsDigit(input[at])
        invariant Valid() && DigitsEnd(input, at) == DigitsEnd(input, old(at))
        decreases |input| - at
      {
        Advance();
      }
    }

    /** `read_uint` */
    method ReadUnsigned(ctor: string) returns (r: Result<u32, ParseError>)
      requires Valid()
      modifies this`pos, this`at
      ensures Did(ReadUint(input, old(at), ctor), r)
    {
      var start := at;
      SkipDigits();
      if at == start {
        return Err(InvalidArg(ctor, "expected unsigned integer"));
      }
      var n := Number(input[start..at]);
      if n >= 0x1_0000_0000 {
        return Err(InvalidArg(ctor, TOO_LARGE));
      }
      return Ok(n);
    }

    /** `read_signed_int` */
    method ReadSigned() returns (r: Result<int, ParseError>)
      requires Valid()
      modifies this`pos, this`at
      ensures Did(ReadInt(input, old(at)), r)
    {
      SkipSpaces();
      var minus := at < |input| && input[at] == '-';
      if minus {
        Advance();
      }
      var start := at;
      SkipDigits();
      var n: int := Number(input[start..at]);
      var value := if minus then -n else n;
      if at == start {
        return Err(InvalidArg("Enum", if minus then INVALID_DIGIT else EMPTY_INTEGER));
      }
      if value < -0x8000_0000_0000_0000 {
        return Err(InvalidArg("Enum", TOO_SMALL));
      }
      if value >= 0x8000_0000_0000_0000 {
        return Err(InvalidArg("Enum", TOO_LARGE));
      }
      return Ok(value);
    }

    /** `read_quoted_string` */
    method ReadQuotedString() returns (r: Result<string, ParseError>)
      requires Valid()
      modifies this`pos, this`at
      ensures Did(ReadQuoted(input, old(at)), r)
    {
      var _ :- SkipAndExpect('\'');
      var start, startPos := at, pos;
      var out := "";
      while at < |input|
        invariant Valid() && start <= at
        invariant QuotedFrom(input, start, at, out) == ReadQuoted(input, old(at))
        decreases |input| - at
      {
        var c := input[at];
        if c == '\'' {
          Advance();
          return Ok(out);
        }
        if c == '\\' {
          Advance();
          if at == |input| {
            return Err(UnterminatedParen(startPos));
          }
          out := out + [Unescaped(input[at])];
          Advance();
        } else {
          out := out + [c];
          Advance();
        }
      }
      return Err(UnterminatedParen(startPos));
    }

    /** `skip_balanced_parens` */
    method SkipBalancedParens() returns (r: Result<(), ParseError>)
      requires Valid()
      modifies this`pos, this`at
      ensures Moved(SkipBalanced(input, old(at)), r)
    {
      SkipSpaces();
      var start, startPos := at, pos;
      var _ :- ExpectChar('(');
      var open, inString := 1, false;
      while open > 0
        invariant Valid() && open >= 0
        invariant BalancedFrom(input, start, at, open, inString) == SkipBalanced(input, old(at))
        decreases |input| - at, open
      {
        if at == |input| {
          return Err(UnterminatedParen(startPos));
        }
        var c := input[at];
        if inString {
          inString := c != '\'';
        } else if c == '\'' {
          inString := true;
        } else if c == '(' {
          open := open + 1;
        } else if c == ')' {
          open := open - 1;
        }
        Advance();
      }
      return Ok(());
    }

    // ---- Arguments that are not types ----

    /** `parse_single_uint_arg` */
    method ParseUintArg(ctor: string) returns (r: Result<u32, ParseError>)
      requires Valid()
      modifies this`pos, this`at
      ensures Did(UintArg(input, old(at), ctor), r)
    {
      var _ :- SkipAndExpect('(');
      SkipSpaces();
      var n :- ReadUnsigned(ctor);
      var _ :- SkipAndExpect(')');
      return Ok(n);
    }

    /** `parse_two_uint_args` */
    method ParseTwoUintArgs(ctor: string) returns (r: Result<(u32, u32), ParseError>)
      requires Valid()
      modifies this`pos, this`at
      ensures Did(TwoUintArgs(input, old(at), ctor), r)
    {
      hide ReadUint, ExpectNext;
      var _ :- SkipAndExpect('(');
      SkipSpaces();
      var a :- ReadUnsigned(ctor);
      var _ :- SkipAndExpect(',');
      SkipSpaces();
      var b :- ReadUnsigned(ctor);
      var _ :- SkipAndExpect(')');
      return Ok((a, b));
    }

    method ParseEnumVariant(wide: bool) returns (r: Result<Variant, ParseError>)
      requires Valid()
      modifies this`pos, this`at
      ensures Did(EnumVariant(input, old(at), wide), r)
    {
      hide ReadQuoted, ReadInt, ExpectNext;
      var name :- ReadQuotedString();
      var _ :- SkipAndExpect('=');
      var v :- ReadSigned();
      var bound := if wide then 0x8000 else 0x80;
      if !(-bound <= v < bound) {
        return Err(OutOfEnumRange(v, wide));
      }
      SkipSpaces();
      if at < |input| && input[at] == ',' {
        Advance();
      }
      return Ok(Variant(name, v));
    }

    /** `parse_enum_variants_i8` and `parse_enum_variants_i16` */
    method ParseEnumVariants(wide: bool) returns (r: Result<seq<Variant>, ParseError>)
      requires Valid()
      modifies this`pos, this`at
      ensures Did(EnumVariants(input, old(at), wide), r)
    {
      hide EnumVariant, ExpectNext;
      var _ :- SkipAndExpect('(');
      var out := [];
      while true
        invariant Valid()
        invariant EnumVariantsFrom(input, at, wide, out) == EnumVariants(input, old(at), wide)
        decreases |input| - at
      {
        SkipSpaces();
        if at < |input| && input[at] == ')' {
          Advance();
          return Ok(out);
        }
        var v :- ParseEnumVariant(wide);
        out := out + [v];
      }
    }

    /** `consume_one_arg` */
    method ConsumeOneArg() returns (arg: string)
      requires Valid()
      modifies this`pos, this`at
      ensures Valid() && at == ArgEnd(input, old(at), 0, false) && arg == Trim(input[old(at)..at])
    {
      var start := at;
      var open, inString := 0, false;
      while at < |input|
        invariant Valid() && start <= at && open >= 0
        invariant ArgEnd(input, at, open, inString) == ArgEnd(input, start, 0, false)
        decreases |input| - at
      {
        var c := input[at];
        if inString {
          inString := c != '\'';
        } else if c == '\'' {
          inString := true;
        } else if c == '(' {
          open := open + 1;
        } else if open == 0 && (c == ')' || c == ',') {
          break;
        } else if c == ')' {
          open := open - 1;
        }
        Advance();
      }
      arg := Trim(input[start..at]);
    }

    /** `parse_aggregate_args` */
    method ParseAggregateArgs() returns (r: Result<(string, seq<string>), ParseError>)
      requires Valid()
      modifies this`pos, this`at
      ensures Did(AggregateArgs(input, old(at)), r)
    {
      hide SkipBalanced, ReadIdent, ExpectNext;
      var _ :- SkipAndExpect('(');
      SkipSpaces();
      var name := ReadIdentifier();
      SkipSpaces();
      if at < |input| && input[at] == '(' {
        var _ :- SkipBalancedParens();
      }
      var args :- ParseAggregateTypes();
      return Ok((name, args));
    }

    method ParseAggregateTypes() returns (r: Result<seq<string>, ParseError>)
      requires Valid()
      modifies this`pos, this`at
      ensures Did(AggregateArgsFrom(input, old(at), []), r)
    {
      hide ArgEnd, Trim;
      var args := [];
      while true
        invariant Valid()
        invariant AggregateArgsFrom(input, at, args) == AggregateArgsFrom(input, old(at), [])
        decreases |input| - at
      {
        SkipSpaces();
        if at < |input| && input[at] == ')' {
          Advance();
          return Ok(args);
        }
        var _ :- ExpectChar(',');
        SkipSpaces();
        var arg := ConsumeOneArg();
        args := args + [arg];
      }
    }

    // ---- Types ----

    /** `parse_outer`. The depth comes back to what it was unless the parse failed. */
    method ParseOuterType() returns (r: Result<ColumnField, ParseError>)
      requires Valid()
      modifies this
      ensures Did(ParseOuter(input, old(at), old(depth)), r)
      ensures r.Ok? ==> depth == old(depth)
      decreases MAX_PARSE_DEPTH - depth, 0, 0
    {
      hide ParseNamed, ParseWrapped, ReadIdent;
      if depth >= MAX_PARSE_DEPTH {
        return Err(TOO_DEEP);
      }
      depth := depth + 1;
      SkipSpaces();
      var snapshotAt, snapshotPos := at, pos;
      var name := ReadIdentifier();
      if name == "Nullable" || name == "LowCardinality" {
        var inner :- ParseWrappedType();
        depth := depth - 1;
        return Ok(if name == "Nullable" then inner.(nullable := true) else inner);
      }
      at, pos := snapshotAt, snapshotPos;
      var named :- ParseNamedType();
      depth := depth - 1;
      return Ok(ColumnField(named, false));
    }

    /** The parenthesis of a wrapper. */
    method ParseWrappedType() returns (r: Result<ColumnField, ParseError>)
      requires Valid()
      modifies this
      ensures Did(ParseWrapped(input, old(at), old(depth)), r)
      ensures r.Ok? ==> depth == old(depth)
      decreases MAX_PARSE_DEPTH - depth, 1, 0
    {
      hide ParseOuter, Expect, ExpectNext;
      var _ :- ExpectChar('(');
      var inner :- ParseOuterType();
      var _ :- SkipAndExpect(')');
      return Ok(inner);
    }

    /** `parse_named` */
    method ParseNamedType() returns (r: Result<ColumnType, ParseError>)
      requires Valid()
      modifies this
      ensures Did(ParseNamed(input, old(at), old(depth)), r)
      ensures r.Ok? ==> depth == old(depth)
      decreases MAX_PARSE_DEPTH - depth, 2, 0
    {
      hide ParseArgs, ReadIdent;
      var name := ReadIdentifier();
      if name == "" {
        return Err(UnexpectedToken(pos, input[at..]));
      }
      SkipSpaces();
      var kind := Classify(name);
      if kind.ArrayKind? || kind.MapKind? || kind.TupleKind? || kind.NestedKind? {
        r := ParseComposite(name);
      } else {
        r := ParseSimple(name);
      }
    }

    /** The arms of `parse_named` whose arguments are not types. */
    method ParseSimple(name: string) returns (r: Result<ColumnType, ParseError>)
      requires Valid()
      requires var kind := Classify(name); !kind.ArrayKind? && !kind.MapKind? && !kind.TupleKind? && !kind.NestedKind?
      modifies this`pos, this`at
      ensures Did(ParseArgs(input, old(at), depth, name), r)
    {
      hide Classify, SkipBalanced, UintArg, TwoUintArgs, EnumVariants, AggregateArgs;
      match Classify(name)
      case Leaf(column) =>
        r := Ok(column);
      case OptionalArgs(column) =>
        if at < |input| && input[at] == '(' {
          var _ :- SkipBalancedParens();
        }
        r := Ok(column);
      case ScaleOnly(precision) =>
        var scale :- ParseUintArg(name);
        r := Ok(Scalar(DT.Decimal(Some(precision), Some(scale))));
      case DecimalKind =>
        var args :- ParseTwoUintArgs(name);
        r := Ok(Scalar(DT.Decimal(Some(args.0), Some(args.1))));
      case FixedStringKind =>
        var n :- ParseUintArg(name);
        r := Ok(FixedString(n));
      case EnumKind(wide) =>
        var variants :- ParseEnumVariants(wide);
        r := Ok(if wide then Enum16(variants) else Enum8(variants));
      case AggregateKind(simple) =>
        var args :- ParseAggregateArgs();
        r := Ok(AggregateState(args.0, args.1, simple));
      case Refused =>
        r := Err(Unsupported(name));
    }

    /** The arms of `parse_named` whose arguments are types. */
    method ParseComposite(name: string) returns (r: Result<ColumnType, ParseError>)
      requires Valid()
      requires var kind := Classify(name); kind.ArrayKind? || kind.MapKind? || kind.TupleKind? || kind.NestedKind?
      modifies this
      ensures Did(ParseArgs(input, old(at), old(depth), name), r)
      ensures r.Ok? ==> depth == old(depth)
      decreases MAX_PARSE_DEPTH - depth, 1, 1
    {
      hide Classify, ParseOuter, FieldsFrom, ExpectNext, ArrayColumn;
      var kind := Classify(name);
      var _ :- SkipAndExpect('(');
      if kind.ArrayKind? {
        var inner :- ParseOuterType();
        var _ :- SkipAndExpect(')');
        r := Ok(ArrayColumn(inner));
      } else if kind.MapKind? {
        var key :- ParseOuterType();
        var _ :- SkipAndExpect(',');
        var value :- ParseOuterType();
        var _ :- SkipAndExpect(')');
        r := Ok(MapOf(key.columnType, value.columnType, key.nullable, value.nullable));
      } else {
        var fields :- ParseFields(kind.NestedKind?);
        r := Ok(if kind.NestedKind? then ArrayOf(TupleOf(fields), false) else TupleOf(fields));
      }
    }

    /** A look-ahead decides whether an identifier is a field name; if not, the position goes back. */
    method SkipFieldName(nested: bool)
      requires Valid()
      modifies this`pos, this`at
      ensures Valid() && at == FieldTypeStart(input, old(at), nested)
    {
      var savedAt, savedPos := at, pos;
      var _ := ReadIdentifier();
      SkipSpaces();
      if !nested && !(at < |input| && IsIdentChar(input[at])) {
        at, pos := savedAt, savedPos;
      }
    }

    /** `parse_type_list` and `parse_nested_fields` */
    method ParseFields(nested: bool) returns (r: Result<seq<ColumnField>, ParseError>)
      requires Valid()
      modifies this
      ensures Did(FieldsFrom(input, old(at), old(depth), nested, []), r)
      ensures r.Ok? ==> depth == old(depth)
      decreases MAX_PARSE_DEPTH - depth, 1, 0
    {
      hide ParseOuter, FieldTypeStart, BytePos;
      var types := [];
      while true
        invariant Valid() && depth == old(depth)
        invariant FieldsFrom(input, at, depth, nested, types) == FieldsFrom(input, old(at), old(depth), nested, [])
        decreases |input| - at
      {
        SkipSpaces();
        if at < |input| && input[at] == ')' {
          Advance();
          return Ok(types);
        }
        if types != [] {
          var _ :- ExpectChar(',');
          SkipSpaces();
        } else {
          NoSpace(input, at);
        }
        SkipFieldName(nested);
        var field :- ParseOuterType();
        types := types + [field];
      }
    }
  }

  /** `parse_type` */
  method Parse(text: string) returns (r: Result<ColumnField, ParseError>)
    ensures r == ParseType(text)
  {
    var trimmed := Trim(text);
    if trimmed == "" {
      return Err(Empty);
    }
    hide Trim, ParseOuter;
    var parser := new Parser(trimmed);
    var outer :- parser.ParseOuterType();
    parser.SkipSpaces();
    if parser.at != |trimmed| {
      return Err(UnexpectedToken(parser.pos, trimmed[parser.at..]));
    }
    return Ok(outer);
  }
}
