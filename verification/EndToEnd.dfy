/** From a printed column type to bytes and back: the parser and the encoder together. */
module EndToEnd {
  import opened Basics
  import opened Columns
  import opened TypeParser
  import opened TypePrinter
  import RowBinary
  import opened RowBinaryRoundTrip
  import opened TypeRoundTrip

  /** No printed type holds an aggregate state, so every one of them is self-delimiting. */
  lemma {:induction false} MeaningSelfDelimiting(t: TypeExpr)
    requires Supported(t)
    ensures SelfDelimiting(Meaning(t).columnType)
    decreases t
  {
    hide IsScalarExpr, OrdinalsFit;
    match t
    case Nullable(inner) => MeaningSelfDelimiting(inner);
    case LowCardinality(inner) => MeaningSelfDelimiting(inner);
    case Array(inner) => MeaningSelfDelimiting(inner);
    case Map(key, value) =>
      MeaningSelfDelimiting(key);
      MeaningSelfDelimiting(value);
    case Tuple(fields) => FieldsSelfDelimiting(fields, false);
    case Nested(fields) => FieldsSelfDelimiting(fields, true);
    case _ =>
  }

  lemma {:induction false} FieldsSelfDelimiting(fields: seq<FieldExpr>, nested: bool)
    requires SupportedFields(fields, nested)
    ensures AllSelfDelimiting(FieldMeanings(fields, nested))
    decreases fields
  {
    if fields == [] {
    } else {
      var f := fields[0];
      assert (fields decreases to f);
      MeaningSelfDelimiting(f.expr);
      FieldsSelfDelimiting(fields[1..], nested);
      assert FieldMeanings(fields, nested)[1..] == FieldMeanings(fields[1..], nested);
    }
  }

  /**
   A column declared by a printed type of at most 64 levels is understood, and every cell the encoder
   writes for it is read back by a reader that knows only what the parser returned.
   */
  lemma DeclaredColumnRoundTrips(t: TypeExpr, v: Cell, bytes: seq<byte>, rest: seq<byte>)
    requires Supported(t) && Depth(t) <= 64
    requires RowBinary.EncodeNullable(Meaning(t).columnType, Meaning(t).nullable, v) == Ok(bytes)
    ensures ParseType(Print(t)).Ok?
    ensures var column := ParseType(Print(t)).value;
            ReadNullable(column.columnType, column.nullable, bytes + rest) == Some((Stored(column.columnType, v), rest))
  {
    PrintedTypeParses(t);
    MeaningSelfDelimiting(t);
    NullableRoundTrip(Meaning(t).columnType, Meaning(t).nullable, v, bytes, rest);
  }

  // ---- Every accepted declaration ----

  const AGGREGATE := "AggregateFunction"

  /** The text names no aggregate function, simple or not. */
  predicate NoAggregate(s: string) {
    forall i :: 0 <= i <= |s| ==> !Here(s, i, AGGREGATE)
  }

  lemma AggregateNames(name: string)
    requires Classify(name).AggregateKind?
    ensures name == "AggregateFunction" || name == "SimpleAggregateFunction"
  {
  }

  lemma NameIsPlain(s: string, i: nat)
    requires i <= |s| && NoAggregate(s)
    ensures !Classify(ReadIdent(s, i).0).AggregateKind?
  {
    hide Classify;
    var start := SkipSpace(s, i);
    var name, end := ReadIdent(s, i).0, ReadIdent(s, i).1;
    if Classify(name).AggregateKind? {
      AggregateNames(name);
      assert Here(s, start, name);
      if name != AGGREGATE {
        assert name == "Simple" + AGGREGATE;
        HereSplit(s, start, "Simple", AGGREGATE);
      }
    }
  }

  lemma {:induction false} DelimitingAppend(fields: seq<ColumnField>, field: ColumnField)
    requires AllSelfDelimiting(fields) && SelfDelimiting(field.columnType)
    ensures AllSelfDelimiting(fields + [field])
  {
    if fields == [] {
      assert fields + [field] == [field] && [field][1..] == [];
    } else {
      DelimitingAppend(fields[1..], field);
      assert (fields + [field])[1..] == fields[1..] + [field];
    }
  }

  lemma {:induction false} OuterDelimits(s: string, i: nat, depth: nat)
    requires i <= |s| && depth <= MAX_PARSE_DEPTH && NoAggregate(s) && ParseOuter(s, i, depth).Ok?
    ensures SelfDelimiting(ParseOuter(s, i, depth).value.0.columnType)
    decreases MAX_PARSE_DEPTH - depth, 0, 0
  {
    hide NoAggregate, ParseNamed, ParseWrapped, ReadIdent, SelfDelimiting;
    var start := SkipSpace(s, i);
    var name := ReadIdent(s, start);
    if name.0 == "Nullable" || name.0 == "LowCardinality" {
      WrappedDelimits(s, name.1, depth + 1);
    } else {
      NamedDelimits(s, start, depth + 1);
    }
  }

  lemma {:induction false} WrappedDelimits(s: string, i: nat, depth: nat)
    requires i <= |s| && depth <= MAX_PARSE_DEPTH && NoAggregate(s) && ParseWrapped(s, i, depth).Ok?
    ensures SelfDelimiting(ParseWrapped(s, i, depth).value.0.columnType)
    decreases MAX_PARSE_DEPTH - depth, 1, 0
  {
    hide NoAggregate, ParseOuter, SelfDelimiting;
    OuterDelimits(s, i + 1, depth);
  }

  lemma {:induction false} NamedDelimits(s: string, i: nat, depth: nat)
    requires i <= |s| && depth <= MAX_PARSE_DEPTH && NoAggregate(s) && ParseNamed(s, i, depth).Ok?
    ensures SelfDelimiting(ParseNamed(s, i, depth).value.0)
    decreases MAX_PARSE_DEPTH - depth, 2, 0
  {
    hide NoAggregate, ReadIdent, ParseArgs, SelfDelimiting, Classify;
    NameIsPlain(s, i);
    var name := ReadIdent(s, i);
    ArgsDelimit(s, SkipSpace(s, name.1), depth, name.0);
  }

  lemma NameDelimits(name: string)
    ensures Classify(name).Leaf? || Classify(name).OptionalArgs? ==> SelfDelimiting(Classify(name).column)
  {
  }

  lemma {:induction false} ArgsDelimit(s: string, i: nat, depth: nat, name: string)
    requires i <= |s| && depth <= MAX_PARSE_DEPTH && NoAggregate(s) && !Classify(name).AggregateKind?
    requires ParseArgs(s, i, depth, name).Ok?
    ensures SelfDelimiting(ParseArgs(s, i, depth, name).value.0)
    decreases MAX_PARSE_DEPTH - depth, 1, 1, 0
  {
    hide NoAggregate, Classify, ParseOuter, FieldsFrom, ExpectNext, UintArg, TwoUintArgs, EnumVariants, SkipBalanced;
    NameDelimits(name);
    var kind := Classify(name);
    if kind.ArrayKind? {
      OuterDelimits(s, ExpectNext(s, i, '(').value, depth);
    } else if kind.MapKind? {
      var open := ExpectNext(s, i, '(').value;
      var key := ParseOuter(s, open, depth).value;
      OuterDelimits(s, open, depth);
      OuterDelimits(s, ExpectNext(s, key.1, ',').value, depth);
    } else if kind.TupleKind? || kind.NestedKind? {
      FieldsDelimit(s, ExpectNext(s, i, '(').value, depth, kind.NestedKind?, []);
    }
  }

  lemma {:induction false} FieldsDelimit(s: string, i: nat, depth: nat, nested: bool, out: seq<ColumnField>)
    requires i <= |s| && depth <= MAX_PARSE_DEPTH && NoAggregate(s) && AllSelfDelimiting(out)
    requires FieldsFrom(s, i, depth, nested, out).Ok?
    ensures AllSelfDelimiting(FieldsFrom(s, i, depth, nested, out).value.0)
    decreases MAX_PARSE_DEPTH - depth, 1, 0, |s| - i
  {
    hide NoAggregate, ParseOuter, FieldTypeStart, Expect, SelfDelimiting, AllSelfDelimiting;
    var next := SkipSpace(s, i);
    if Peek(s, next) != Some(')') {
      var comma := if out == [] then next else Expect(s, next, ',').value;
      var start := FieldTypeStart(s, SkipSpace(s, comma), nested);
      OuterDelimits(s, start, depth);
      var field := ParseOuter(s, start, depth).value;
      DelimitingAppend(out, field.0);
      FieldsDelimit(s, field.1, depth, nested, out + [field.0]);
    }
  }

  lemma TrimmedText(input: string, i: nat, w: string)
    requires i <= |Trim(input)| && Here(Trim(input), i, w)
    ensures Here(input, SkipSpace(input, 0) + i, w)
  {
    var k, s := SkipSpace(input, 0), Trim(input);
    assert s == input[k..][..|s|];
    assert s[i..i + |w|] == input[k + i..k + i + |w|];
  }

  lemma TrimNoAggregate(input: string)
    requires NoAggregate(input)
    ensures NoAggregate(Trim(input))
  {
    forall i | 0 <= i <= |Trim(input)| ensures !Here(Trim(input), i, AGGREGATE) {
      if Here(Trim(input), i, AGGREGATE) {
        TrimmedText(input, i, AGGREGATE);
      }
    }
  }

  /**
   Whatever declaration the parser accepts, in any spacing: unless its text names an aggregate function,
   every cell written for the column it stands for is read back by a reader that knows only that column.
   */
  lemma AcceptedColumnRoundTrips(input: string, v: Cell, bytes: seq<byte>, rest: seq<byte>)
    requires NoAggregate(input) && ParseType(input).Ok?
    requires var column := ParseType(input).value;
             RowBinary.EncodeNullable(column.columnType, column.nullable, v) == Ok(bytes)
    ensures var column := ParseType(input).value;
            && SelfDelimiting(column.columnType)
            && ReadNullable(column.columnType, column.nullable, bytes + rest) == Some((Stored(column.columnType, v), rest))
  {
    hide ParseOuter, NoAggregate, Trim, SelfDelimiting, RowBinary.EncodeNullable, ReadNullable, Stored;
    var column := ParseType(input).value;
    TrimNoAggregate(input);
    OuterDelimits(Trim(input), 0, 0);
    NullableRoundTrip(column.columnType, column.nullable, v, bytes, rest);
  }
}
