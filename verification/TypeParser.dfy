/**
 The ClickHouse type grammar (crates/commons/clickhouse/src/ch_type_parser.rs) as functions of the
 text, the position and the nesting depth. Positions count characters here; errors report the byte
 offset, as the original does.
 */
module TypeParser {
  import opened Basics
  import opened Columns
  import DT = DataTypes

  datatype ParseError =
    | Empty
    | UnexpectedToken(pos: nat, found: string)
    | UnterminatedParen(start: nat)
    | Unsupported(what: string)
    | InvalidArg(constructor_: string, reason: string)

  /** A value and the position after it. */
  type Parse<T> = Result<(T, nat), ParseError>

  const MAX_PARSE_DEPTH: nat := 64

  const TOO_DEEP := Unsupported("type nesting too deep")

  // ---- Characters ----

  /** The length of a character in UTF-8 (section 3 of RFC 3629). */
  function Utf8Len(c: char): nat {
    if c as int < 0x80 then 1 else if c as int < 0x800 then 2 else if c as int < 0x1_0000 then 3 else 4
  }

  function ByteLength(s: string): nat {
    if s == "" then 0 else ByteLength(s[..|s| - 1]) + Utf8Len(s[|s| - 1])
  }

  /** The byte offset of the i-th character. */
  function BytePos(s: string, i: nat): nat
    requires i <= |s|
  {
    ByteLength(s[..i])
  }

  /** `char::is_whitespace` */
  predicate IsSpace(c: char) {
    var n := c as int;
    0x09 <= n <= 0x0D || n == 0x20 || n == 0x85 || n == 0xA0 || n == 0x1680 || 0x2000 <= n <= 0x200A ||
    n == 0x2028 || n == 0x2029 || n == 0x202F || n == 0x205F || n == 0x3000
  }

  predicate IsDigit(c: char) {
    '0' <= c <= '9'
  }

  predicate IsIdentChar(c: char) {
    'a' <= c <= 'z' || 'A' <= c <= 'Z' || IsDigit(c) || c == '_'
  }

  // ---- Tokens ----

  function Peek(s: string, i: nat): Option<char> {
    if i < |s| then Some(s[i]) else None
  }

  function Found(s: string, i: nat): string {
    if i < |s| then [s[i]] else ""
  }

  function SkipSpace(s: string, i: nat): (r: nat)
    requires i <= |s|
    ensures i <= r <= |s|
    ensures r < |s| ==> !IsSpace(s[r])
    decreases |s| - i
  {
    if i < |s| && IsSpace(s[i]) then SkipSpace(s, i + 1) else i
  }

  lemma NoSpace(s: string, i: nat)
    requires i <= |s| && (i < |s| ==> !IsSpace(s[i]))
    ensures SkipSpace(s, i) == i
  {
  }

  function IdentEnd(s: string, i: nat): (r: nat)
    requires i <= |s|
    ensures i <= r <= |s|
    decreases |s| - i
  {
    if i < |s| && IsIdentChar(s[i]) then IdentEnd(s, i + 1) else i
  }

  function DigitsEnd(s: string, i: nat): (r: nat)
    requires i <= |s|
    ensures i <= r <= |s| && forall j :: i <= j < r ==> IsDigit(s[j])
    decreases |s| - i
  {
    if i < |s| && IsDigit(s[i]) then DigitsEnd(s, i + 1) else i
  }

  /** `read_ident` */
  function ReadIdent(s: string, i: nat): (r: (string, nat))
    requires i <= |s|
    ensures i + |r.0| <= r.1 <= |s|
  {
    var start := SkipSpace(s, i);
    var end := IdentEnd(s, start);
    (s[start..end], end)
  }

  function Expect(s: string, i: nat, c: char): (r: Result<nat, ParseError>)
    requires i <= |s|
    ensures r.Ok? ==> r.value == i + 1 <= |s|
  {
    if i < |s| && s[i] == c then Ok(i + 1) else Err(UnexpectedToken(BytePos(s, i), Found(s, i)))
  }

  /** Skip spaces, then expect. */
  function ExpectNext(s: string, i: nat, c: char): (r: Result<nat, ParseError>)
    requires i <= |s|
    ensures r.Ok? ==> i < r.value <= |s|
  {
    Expect(s, SkipSpace(s, i), c)
  }

  function Number(digits: string): nat
    requires forall i :: 0 <= i < |digits| ==> IsDigit(digits[i])
  {
    if digits == "" then 0
    else
      var last := digits[|digits| - 1];
      assert IsDigit(last);
      10 * Number(digits[..|digits| - 1]) + (last as int - '0' as int)
  }

  // The reasons integer parsing gives.

  const EMPTY_INTEGER := "cannot parse integer from empty string"
  const INVALID_DIGIT := "invalid digit found in string"
  const TOO_LARGE := "number too large to fit in target type"
  const TOO_SMALL := "number too small to fit in target type"

  /** `read_uint` */
  function ReadUint(s: string, i: nat, ctor: string): (r: Parse<u32>)
    requires i <= |s|
    ensures r.Ok? ==> i < r.value.1 <= |s|
  {
    var end := DigitsEnd(s, i);
    if end == i then Err(InvalidArg(ctor, "expected unsigned integer"))
    else if Number(s[i..end]) >= 0x1_0000_0000 then Err(InvalidArg(ctor, TOO_LARGE))
    else Ok((Number(s[i..end]), end))
  }

  /** `read_signed_int` */
  function ReadInt(s: string, i: nat): (r: Parse<int>)
    requires i <= |s|
    ensures r.Ok? ==> i <= r.value.1 <= |s|
  {
    var start := SkipSpace(s, i);
    var minus := start < |s| && s[start] == '-';
    var digits := if minus then start + 1 else start;
    var end := DigitsEnd(s, digits);
    var n: int := Number(s[digits..end]);
    var value := if minus then -n else n;
    if end == digits then Err(InvalidArg("Enum", if minus then INVALID_DIGIT else EMPTY_INTEGER))
    else if value < -0x8000_0000_0000_0000 then Err(InvalidArg("Enum", TOO_SMALL))
    else if value >= 0x8000_0000_0000_0000 then Err(InvalidArg("Enum", TOO_LARGE))
    else Ok((value, end))
  }

  function Unescaped(c: char): char {
    match c
    case 'n' => '\n'
    case 't' => '\t'
    case 'r' => '\r'
    case 'b' => '\U{08}'
    case 'f' => '\U{0C}'
    case '0' => '\0'
    case 'a' => '\U{07}'
    case 'v' => '\U{0B}'
    case _ => c
  }

  /** The loop of `read_quoted_string`, after the opening quote. */
  function QuotedFrom(s: string, start: nat, i: nat, out: string): (r: Parse<string>)
    requires start <= |s| && i <= |s|
    ensures r.Ok? ==> i < r.value.1 <= |s|
    decreases |s| - i
  {
    if i == |s| then Err(UnterminatedParen(BytePos(s, start)))
    else if s[i] == '\'' then Ok((out, i + 1))
    else if s[i] != '\\' then QuotedFrom(s, start, i + 1, out + [s[i]])
    else if i + 1 == |s| then Err(UnterminatedParen(BytePos(s, start)))
    else QuotedFrom(s, start, i + 2, out + [Unescaped(s[i + 1])])
  }

  function ReadQuoted(s: string, i: nat): (r: Parse<string>)
    requires i <= |s|
    ensures r.Ok? ==> i < r.value.1 <= |s|
  {
    var start :- ExpectNext(s, i, '\'');
    QuotedFrom(s, start, start, "")
  }

  /** The loop of `skip_balanced_parens`; strings are skipped, their escapes are not understood. */
  function BalancedFrom(s: string, start: nat, i: nat, depth: nat, inString: bool): (r: Result<nat, ParseError>)
    requires start <= |s| && i <= |s|
    ensures r.Ok? ==> i <= r.value <= |s|
    decreases |s| - i
  {
    if depth == 0 then Ok(i)
    else if i == |s| then Err(UnterminatedParen(BytePos(s, start)))
    else if inString then BalancedFrom(s, start, i + 1, depth, s[i] != '\'')
    else if s[i] == '\'' then BalancedFrom(s, start, i + 1, depth, true)
    else if s[i] == '(' then BalancedFrom(s, start, i + 1, depth + 1, false)
    else if s[i] == ')' then BalancedFrom(s, start, i + 1, depth - 1, false)
    else BalancedFrom(s, start, i + 1, depth, false)
  }

  function SkipBalanced(s: string, i: nat): (r: Result<nat, ParseError>)
    requires i <= |s|
    ensures r.Ok? ==> i < r.value <= |s|
  {
    var start := SkipSpace(s, i);
    var inside :- Expect(s, start, '(');
    BalancedFrom(s, start, inside, 1, false)
  }

  // ---- Arguments that are not types ----

  function UintArg(s: string, i: nat, ctor: string): (r: Parse<u32>)
    requires i <= |s|
    ensures r.Ok? ==> i < r.value.1 <= |s|
  {
    var open :- ExpectNext(s, i, '(');
    var n :- ReadUint(s, SkipSpace(s, open), ctor);
    var close :- ExpectNext(s, n.1, ')');
    Ok((n.0, close))
  }

  function TwoUintArgs(s: string, i: nat, ctor: string): (r: Parse<(u32, u32)>)
    requires i <= |s|
    ensures r.Ok? ==> i < r.value.1 <= |s|
  {
    var open :- ExpectNext(s, i, '(');
    var a :- ReadUint(s, SkipSpace(s, open), ctor);
    var comma :- ExpectNext(s, a.1, ',');
    var b :- ReadUint(s, SkipSpace(s, comma), ctor);
    var close :- ExpectNext(s, b.1, ')');
    Ok(((a.0, b.0), close))
  }

  function OutOfEnumRange(value: int, wide: bool): ParseError {
    InvalidArg(if wide then "Enum16" else "Enum8", "value " + PrintInt(value) + " out of " + (if wide then "i16" else "i8") + " range")
  }

  /** One `'name' = ordinal`, and the comma after it if there is one. */
  function EnumVariant(s: string, i: nat, wide: bool): (r: Parse<Variant>)
    requires i <= |s|
    ensures r.Ok? ==> i < r.value.1 <= |s|
    ensures r.Ok? && !wide ==> -0x80 <= r.value.0.ordinal < 0x80
  {
    var name :- ReadQuoted(s, i);
    var equals :- ExpectNext(s, name.1, '=');
    var n :- ReadInt(s, equals);
    var bound := if wide then 0x8000 else 0x80;
    if !(-bound <= n.0 < bound) then Err(OutOfEnumRange(n.0, wide))
    else
      var next := SkipSpace(s, n.1);
      Ok((Variant(name.0, n.0), if Peek(s, next) == Some(',') then next + 1 else next))
  }

  /** The loop of `parse_enum_variants_i8` and `parse_enum_variants_i16`. */
  function EnumVariantsFrom(s: string, i: nat, wide: bool, out: seq<Variant>): (r: Parse<seq<Variant>>)
    requires i <= |s|
    ensures r.Ok? ==> i < r.value.1 <= |s|
    decreases |s| - i
  {
    var next := SkipSpace(s, i);
    if Peek(s, next) == Some(')') then Ok((out, next + 1))
    else
      var v :- EnumVariant(s, next, wide);
      EnumVariantsFrom(s, v.1, wide, out + [v.0])
  }

  function EnumVariants(s: string, i: nat, wide: bool): (r: Parse<seq<Variant>>)
    requires i <= |s|
    ensures r.Ok? ==> i < r.value.1 <= |s|
  {
    var open :- ExpectNext(s, i, '(');
    EnumVariantsFrom(s, open, wide, [])
  }

  /** The loop of `consume_one_arg`. */
  function ArgEnd(s: string, i: nat, depth: nat, inString: bool): (r: nat)
    requires i <= |s|
    ensures i <= r <= |s|
    decreases |s| - i
  {
    if i == |s| then i
    else if inString then ArgEnd(s, i + 1, depth, s[i] != '\'')
    else if s[i] == '\'' then ArgEnd(s, i + 1, depth, true)
    else if s[i] == '(' then ArgEnd(s, i + 1, depth + 1, false)
    else if depth == 0 && (s[i] == ')' || s[i] == ',') then i
    else if s[i] == ')' then ArgEnd(s, i + 1, depth - 1, false)
    else ArgEnd(s, i + 1, depth, false)
  }

  function TrimEnd(s: string): (r: string)
    ensures r <= s
  {
    if s != "" && IsSpace(s[|s| - 1]) then TrimEnd(s[..|s| - 1]) else s
  }

  /** `str::trim` */
  function Trim(s: string): string {
    TrimEnd(s[SkipSpace(s, 0)..])
  }

  /** The loop of `parse_aggregate_args` over the argument types, kept as text. */
  function AggregateArgsFrom(s: string, i: nat, out: seq<string>): (r: Parse<seq<string>>)
    requires i <= |s|
    ensures r.Ok? ==> i < r.value.1 <= |s|
    decreases |s| - i
  {
    var next := SkipSpace(s, i);
    if Peek(s, next) == Some(')') then Ok((out, next + 1))
    else
      var comma :- Expect(s, next, ',');
      var start := SkipSpace(s, comma);
      var end := ArgEnd(s, start, 0, false);
      AggregateArgsFrom(s, end, out + [Trim(s[start..end])])
  }

  function AggregateArgs(s: string, i: nat): (r: Parse<(string, seq<string>)>)
    requires i <= |s|
    ensures r.Ok? ==> i < r.value.1 <= |s|
  {
    var open :- ExpectNext(s, i, '(');
    var name := ReadIdent(s, SkipSpace(s, open));
    var next := SkipSpace(s, name.1);
    var params :- if Peek(s, next) == Some('(') then SkipBalanced(s, next) else Ok(next);
    var args :- AggregateArgsFrom(s, params, []);
    Ok(((name.0, args.0), args.1))
  }

  // ---- Types ----

  /** What a type name calls for. */
  datatype Kind =
    | Leaf(column: ColumnType)
    | OptionalArgs(column: ColumnType)            // an argument list is skipped
    | ScaleOnly(precision: u32)
    | DecimalKind
    | FixedStringKind
    | EnumKind(wide: bool)
    | AggregateKind(simple: bool)
    | ArrayKind
    | MapKind
    | TupleKind
    | NestedKind
    | Refused

  function Classify(name: string): Kind {
    if name == "String" then Leaf(Scalar(DT.Text(None)))
    else if name == "UUID" then Leaf(Scalar(DT.Uuid))
    else if name == "Bool" || name == "Boolean" then Leaf(Scalar(DT.Bool))
    else if name == "Date" then Leaf(Scalar(DT.Date))
    else if name == "DateTime" then OptionalArgs(Scalar(DT.Timestamp))
    else if name == "Int8" then Leaf(Scalar(DT.Int8))
    else if name == "Int16" then Leaf(Scalar(DT.Int16))
    else if name == "Int32" then Leaf(Scalar(DT.Int32))
    else if name == "Int64" then Leaf(Scalar(DT.Int64))
    else if name == "Int128" then Leaf(Int128)
    else if name == "Int256" then Leaf(Int256)
    else if name == "UInt8" then Leaf(Scalar(DT.UInt8))
    else if name == "UInt16" then Leaf(Scalar(DT.UInt16))
    else if name == "UInt32" then Leaf(Scalar(DT.UInt32))
    else if name == "UInt64" then Leaf(Scalar(DT.UInt64))
    else if name == "UInt128" then Leaf(UInt128)
    else if name == "UInt256" then Leaf(UInt256)
    else if name == "Float32" then Leaf(Scalar(DT.Float32))
    else if name == "Float64" then Leaf(Scalar(DT.Float64))
    else if name == "JSON" || name == "Object" then OptionalArgs(Scalar(DT.Json))
    else if name == "IPv4" then Leaf(Scalar(DT.Ipv4))
    else if name == "IPv6" then Leaf(Scalar(DT.Ipv6))
    else if name == "Decimal32" then ScaleOnly(9)
    else if name == "Decimal64" then ScaleOnly(18)
    else if name == "Decimal128" then ScaleOnly(38)
    else if name == "Decimal256" then ScaleOnly(76)
    else if name == "Decimal" then DecimalKind
    else if name == "FixedString" then FixedStringKind
    else if name == "Enum8" then EnumKind(false)
    else if name == "Enum16" then EnumKind(true)
    else if name == "AggregateFunction" then AggregateKind(false)
    else if name == "SimpleAggregateFunction" then AggregateKind(true)
    else if name == "Array" then ArrayKind
    else if name == "Map" then MapKind
    else if name == "Tuple" then TupleKind
    else if name == "Nested" then NestedKind
    else Refused
  }

  /** `is_canonical_array_element` */
  predicate IsCanonicalElement(ct: ColumnType) {
    ct.Scalar? &&
    match ct.scalar
    case Bool | Int8 | Int16 | Int32 | Int64 | UInt8 | UInt16 | UInt32 | UInt64 | Float32 | Float64 => true
    case Text(_) | Bytes(_) | Date | Timestamp | Uuid | Ipv4 | Ipv6 | Decimal(_, _) => true
    case _ => false
  }

  function ArrayColumn(element: ColumnField): ColumnType {
    if IsCanonicalElement(element.columnType) then CanonicalArray(element.columnType, element.nullable)
    else ArrayOf(element.columnType, element.nullable)
  }

  /** `parse_outer`; `depth` levels are open around it. */
  function ParseOuter(s: string, i: nat, depth: nat): (r: Parse<ColumnField>)
    requires i <= |s| && depth <= MAX_PARSE_DEPTH
    ensures r.Ok? ==> i < r.value.1 <= |s|
    decreases MAX_PARSE_DEPTH - depth, 0, 0
  {
    if depth == MAX_PARSE_DEPTH then Err(TOO_DEEP)
    else
      var start := SkipSpace(s, i);
      var name := ReadIdent(s, start);
      if name.0 == "Nullable" || name.0 == "LowCardinality" then
        var inner :- ParseWrapped(s, name.1, depth + 1);
        Ok((if name.0 == "Nullable" then inner.0.(nullable := true) else inner.0, inner.1))
      else
        var named :- ParseNamed(s, start, depth + 1);
        Ok((ColumnField(named.0, false), named.1))
  }

  /** The parenthesis of `Nullable` or `LowCardinality`, right after the name. */
  function ParseWrapped(s: string, i: nat, depth: nat): (r: Parse<ColumnField>)
    requires i <= |s| && depth <= MAX_PARSE_DEPTH
    ensures r.Ok? ==> i < r.value.1 <= |s|
    decreases MAX_PARSE_DEPTH - depth, 1, 0
  {
    var open :- Expect(s, i, '(');
    var inner :- ParseOuter(s, open, depth);
    var close :- ExpectNext(s, inner.1, ')');
    Ok((inner.0, close))
  }

  /** `parse_named` */
  function ParseNamed(s: string, i: nat, depth: nat): (r: Parse<ColumnType>)
    requires i <= |s| && depth <= MAX_PARSE_DEPTH
    ensures r.Ok? ==> i < r.value.1 <= |s|
    decreases MAX_PARSE_DEPTH - depth, 2, 0
  {
    var name := ReadIdent(s, i);
    if name.0 == "" then Err(UnexpectedToken(BytePos(s, name.1), s[name.1..]))
    else ParseArgs(s, SkipSpace(s, name.1), depth, name.0)
  }

  /** The arms of `parse_named`, after the name. */
  function ParseArgs(s: string, i: nat, depth: nat, name: string): (r: Parse<ColumnType>)
    requires i <= |s| && depth <= MAX_PARSE_DEPTH
    ensures r.Ok? ==> i <= r.value.1 <= |s|
    decreases MAX_PARSE_DEPTH - depth, 1, 1, 0
  {
    match Classify(name)
    case Leaf(column) => Ok((column, i))
    case OptionalArgs(column) =>
      var end :- if Peek(s, i) == Some('(') then SkipBalanced(s, i) else Ok(i);
      Ok((column, end))
    case ScaleOnly(precision) =>
      var scale :- UintArg(s, i, name);
      Ok((Scalar(DT.Decimal(Some(precision), Some(scale.0))), scale.1))
    case DecimalKind =>
      var args :- TwoUintArgs(s, i, name);
      Ok((Scalar(DT.Decimal(Some(args.0.0), Some(args.0.1))), args.1))
    case FixedStringKind =>
      var n :- UintArg(s, i, name);
      Ok((FixedString(n.0), n.1))
    case EnumKind(wide) =>
      var variants :- EnumVariants(s, i, wide);
      Ok((if wide then Enum16(variants.0) else Enum8(variants.0), variants.1))
    case AggregateKind(simple) =>
      var args :- AggregateArgs(s, i);
      Ok((AggregateState(args.0.0, args.0.1, simple), args.1))
    case ArrayKind =>
      var open :- ExpectNext(s, i, '(');
      var inner :- ParseOuter(s, open, depth);
      var close :- ExpectNext(s, inner.1, ')');
      Ok((ArrayColumn(inner.0), close))
    case MapKind =>
      var open :- ExpectNext(s, i, '(');
      var key :- ParseOuter(s, open, depth);
      var comma :- ExpectNext(s, key.1, ',');
      var value :- ParseOuter(s, comma, depth);
      var close :- ExpectNext(s, value.1, ')');
      Ok((MapOf(key.0.columnType, value.0.columnType, key.0.nullable, value.0.nullable), close))
    case TupleKind =>
      var open :- ExpectNext(s, i, '(');
      var fields :- FieldsFrom(s, open, depth, false, []);
      Ok((TupleOf(fields.0), fields.1))
    case NestedKind =>
      var open :- ExpectNext(s, i, '(');
      var fields :- FieldsFrom(s, open, depth, true, []);
      Ok((ArrayOf(TupleOf(fields.0), false), fields.1))
    case Refused => Err(Unsupported(name))
  }

  /** Where the type of a field starts: after its name, which only `Nested` makes compulsory. */
  function FieldTypeStart(s: string, i: nat, nested: bool): (r: nat)
    requires i <= |s|
    ensures i <= r <= |s|
  {
    var after := SkipSpace(s, ReadIdent(s, i).1);
    if nested || (after < |s| && IsIdentChar(s[after])) then after else i
  }

  /** The loops of `parse_type_list` and `parse_nested_fields`. */
  function FieldsFrom(s: string, i: nat, depth: nat, nested: bool, out: seq<ColumnField>): (r: Parse<seq<ColumnField>>)
    requires i <= |s| && depth <= MAX_PARSE_DEPTH
    ensures r.Ok? ==> i < r.value.1 <= |s|
    decreases MAX_PARSE_DEPTH - depth, 1, 0, |s| - i
  {
    var next := SkipSpace(s, i);
    if Peek(s, next) == Some(')') then Ok((out, next + 1))
    else
      var comma :- if out == [] then Ok(next) else Expect(s, next, ',');
      var field :- ParseOuter(s, FieldTypeStart(s, SkipSpace(s, comma), nested), depth);
      FieldsFrom(s, field.1, depth, nested, out + [field.0])
  }

  /** `parse_type` */
  function ParseType(input: string): Result<ColumnField, ParseError> {
    var s := Trim(input);
    if s == "" then Err(Empty)
    else
      var r :- ParseOuter(s, 0, 0);
      var end := SkipSpace(s, r.1);
      if end != |s| then Err(UnexpectedToken(BytePos(s, end), s[end..])) else Ok(r.0)
  }
}
