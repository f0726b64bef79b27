/**
 ClickHouse type trees, the way ClickHouse prints them, and what they mean as column types. The
 parser reads every printed tree back to its meaning, up to the nesting limit.
 */
module TypePrinter {
  import opened Basics
  import opened Columns
  import TypeParser
  import DT = DataTypes

  datatype FieldExpr = FieldExpr(name: Option<string>, expr: TypeExpr)

  datatype TypeExpr =
    | Plain(column: ColumnType, alias: bool)                   // a type without arguments
    | Quoted(column: ColumnType, alias: bool, text: string)    // DateTime('tz'), Object('json')
    | DecimalN(digits: u32, scale: u32)                        // Decimal32(S) to Decimal256(S)
    | DecimalOf(precision: u32, scale: u32)
    | FixedStringOf(size: u32)
    | EnumOf(wide: bool, variants: seq<Variant>)
    | Nullable(inner: TypeExpr)
    | LowCardinality(inner: TypeExpr)
    | Array(inner: TypeExpr)
    | Map(key: TypeExpr, value: TypeExpr)
    | Tuple(fields: seq<FieldExpr>)
    | Nested(fields: seq<FieldExpr>)

  // ---- Which trees are types ----

  predicate IsIdent(s: string) {
    s != "" && forall i :: 0 <= i < |s| ==> TypeParser.IsIdentChar(s[i])
  }

  /** ClickHouse's name for a type without arguments; `Bool` and `JSON` have a second one. */
  function Spelling(column: ColumnType, alias: bool): string {
    match column
    case Scalar(t) => ScalarSpelling(t, alias)
    case Int128 => "Int128"
    case UInt128 => "UInt128"
    case Int256 => "Int256"
    case UInt256 => "UInt256"
    case _ => ""
  }

  function ScalarSpelling(t: ScalarType, alias: bool): string {
    match t
    case Bool => if alias then "Boolean" else "Bool"
    case Int8 => "Int8"
    case Int16 => "Int16"
    case Int32 => "Int32"
    case Int64 => "Int64"
    case UInt8 => "UInt8"
    case UInt16 => "UInt16"
    case UInt32 => "UInt32"
    case UInt64 => "UInt64"
    case Float32 => "Float32"
    case Float64 => "Float64"
    case Text(None) => "String"
    case Date => "Date"
    case Timestamp => "DateTime"
    case Uuid => "UUID"
    case Ipv4 => "IPv4"
    case Ipv6 => "IPv6"
    case Json => if alias then "Object" else "JSON"
    case _ => ""
  }

  /** The name of the decimal type that holds that many digits. */
  function DecimalSpelling(digits: u32): string {
    match digits
    case 9 => "Decimal32"
    case 18 => "Decimal64"
    case 38 => "Decimal128"
    case 76 => "Decimal256"
    case _ => ""
  }

  predicate TakesOptions(column: ColumnType) {
    column == Scalar(DT.Timestamp) || column == Scalar(DT.Json)
  }

  predicate OrdinalsFit(variants: seq<Variant>, wide: bool) {
    wide || forall i :: 0 <= i < |variants| ==> -0x80 <= variants[i].ordinal < 0x80
  }

  predicate Supported(t: TypeExpr)
    decreases t
  {
    match t
    case Plain(column, alias) => Spelling(column, alias) != ""
    case Quoted(column, _, text) => TakesOptions(column) && '\'' !in text
    case DecimalN(digits, _) => DecimalSpelling(digits) != ""
    case EnumOf(wide, variants) => OrdinalsFit(variants, wide)
    case Nullable(inner) => Supported(inner)
    case LowCardinality(inner) => Supported(inner)
    case Array(inner) => Supported(inner)
    case Map(key, value) => Supported(key) && Supported(value)
    case Tuple(fields) => SupportedFields(fields, false)
    case Nested(fields) => SupportedFields(fields, true)
    case _ => true
  }

  predicate SupportedFields(fields: seq<FieldExpr>, nested: bool)
    decreases fields
  {
    fields != [] ==>
      var f := fields[0];
      assert (fields decreases to f);
      && (if f.name.Some? then IsIdent(f.name.value) else !nested)
      && Supported(f.expr)
      && SupportedFields(fields[1..], nested)
  }

  // ---- The printed form ----

  function Escaped(name: string): string {
    if name == "" then ""
    else (if name[0] == '\'' || name[0] == '\\' then ['\\', name[0]] else [name[0]]) + Escaped(name[1..])
  }

  function QuoteName(name: string): string {
    "'" + (Escaped(name) + "'")
  }

  function PrintVariant(v: Variant): string {
    QuoteName(v.name) + (" = " + PrintInt(v.ordinal))
  }

  function PrintVariants(variants: seq<Variant>): string {
    if variants == [] then ""
    else PrintVariant(variants[0]) + (if |variants| == 1 then "" else ", " + PrintVariants(variants[1..]))
  }

  /** The identifier a printed type starts with. */
  function Head(t: TypeExpr): string {
    match t
    case Plain(column, alias) => Spelling(column, alias)
    case Quoted(column, alias, _) => Spelling(column, alias)
    case DecimalN(digits, _) => DecimalSpelling(digits)
    case DecimalOf(_, _) => "Decimal"
    case FixedStringOf(_) => "FixedString"
    case EnumOf(wide, _) => if wide then "Enum16" else "Enum8"
    case Nullable(_) => "Nullable"
    case LowCardinality(_) => "LowCardinality"
    case Array(_) => "Array"
    case Map(_, _) => "Map"
    case Tuple(_) => "Tuple"
    case Nested(_) => "Nested"
  }

  /** What stands between the parentheses. */
  function Body(t: TypeExpr): string
    requires !t.Plain?
    decreases t, 0
  {
    match t
    case Quoted(_, _, text) => "'" + text + "'"
    case DecimalN(_, scale) => PrintNat(scale)
    case DecimalOf(precision, scale) => PrintNat(precision) + (", " + PrintNat(scale))
    case FixedStringOf(size) => PrintNat(size)
    case EnumOf(_, variants) => PrintVariants(variants)
    case Nullable(inner) => Print(inner)
    case LowCardinality(inner) => Print(inner)
    case Array(inner) => Print(inner)
    case Map(key, value) => Print(key) + (", " + Print(value))
    case Tuple(fields) => PrintFields(fields, true)
    case Nested(fields) => PrintFields(fields, true)
  }

  function Print(t: TypeExpr): string
    decreases t, 1
  {
    Head(t) + (if t.Plain? then "" else "(" + (Body(t) + ")"))
  }

  function PrintField(f: FieldExpr): string
    decreases f, 2
  {
    (if f.name.Some? then f.name.value + " " else "") + Print(f.expr)
  }

  function PrintFields(fields: seq<FieldExpr>, first: bool): string
    decreases fields
  {
    if fields == [] then ""
    else
      assert (fields decreases to fields[0]);
      (if first then "" else ", ") + (PrintField(fields[0]) + PrintFields(fields[1..], false))
  }

  // ---- The meaning ----

  /** `Nullable` sets the flag, `LowCardinality` is transparent, `Nested` is an array of tuples. */
  function Meaning(t: TypeExpr): ColumnField
    requires Supported(t)
    decreases t
  {
    match t
    case Plain(column, _) => ColumnField(column, false)
    case Quoted(column, _, _) => ColumnField(column, false)
    case DecimalN(digits, scale) => ColumnField(Scalar(DT.Decimal(Some(digits), Some(scale))), false)
    case DecimalOf(precision, scale) => ColumnField(Scalar(DT.Decimal(Some(precision), Some(scale))), false)
    case FixedStringOf(size) => ColumnField(FixedString(size), false)
    case EnumOf(wide, variants) => ColumnField(if wide then Enum16(variants) else Enum8(variants), false)
    case Nullable(inner) => ColumnField(Meaning(inner).columnType, true)
    case LowCardinality(inner) => Meaning(inner)
    case Array(inner) => ColumnField(ArrayMeaning(inner, Meaning(inner)), false)
    case Map(key, value) =>
      var k, v := Meaning(key), Meaning(value);
      ColumnField(MapOf(k.columnType, v.columnType, k.nullable, v.nullable), false)
    case Tuple(fields) => ColumnField(TupleOf(FieldMeanings(fields, false)), false)
    case Nested(fields) => ColumnField(ArrayOf(TupleOf(FieldMeanings(fields, true)), false), false)
  }

  /** Is the element, under its wrappers, a canonical scalar? Json is not one. */
  predicate IsScalarExpr(t: TypeExpr)
    decreases t
  {
    match t
    case Plain(column, _) => column.Scalar? && !column.scalar.Json?
    case Quoted(column, _, _) => column.Scalar? && !column.scalar.Json?
    case DecimalN(_, _) => true
    case DecimalOf(_, _) => true
    case Nullable(inner) => IsScalarExpr(inner)
    case LowCardinality(inner) => IsScalarExpr(inner)
    case _ => false
  }

  /** An array is canonical exactly when its element is a canonical scalar. */
  function ArrayMeaning(element: TypeExpr, meaning: ColumnField): ColumnType {
    if IsScalarExpr(element) then CanonicalArray(meaning.columnType, meaning.nullable)
    else ArrayOf(meaning.columnType, meaning.nullable)
  }

  function FieldMeanings(fields: seq<FieldExpr>, nested: bool): seq<ColumnField>
    requires SupportedFields(fields, nested)
    decreases fields
  {
    if fields == [] then []
    else
      var f := fields[0];
      assert (fields decreases to f);
      [Meaning(f.expr)] + FieldMeanings(fields[1..], nested)
  }

  /** Nesting levels, wrappers counted. */
  function Depth(t: TypeExpr): nat
    decreases t, 1
  {
    1 + InnerDepth(t)
  }

  function InnerDepth(t: TypeExpr): nat
    decreases t, 0
  {
    match t
    case Nullable(inner) => Depth(inner)
    case LowCardinality(inner) => Depth(inner)
    case Array(inner) => Depth(inner)
    case Map(key, value) => Max(Depth(key), Depth(value))
    case Tuple(fields) => FieldsDepth(fields)
    case Nested(fields) => FieldsDepth(fields)
    case _ => 0
  }

  function FieldsDepth(fields: seq<FieldExpr>): nat
    decreases fields
  {
    if fields == [] then 0
    else
      var f := fields[0];
      assert (fields decreases to f);
      Max(Depth(f.expr), FieldsDepth(fields[1..]))
  }
}
