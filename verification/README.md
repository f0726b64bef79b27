# Air ELT in Dafny

A model of the logic at the core of Air ELT and proofs of what it promises, for all inputs, all runs
and all reachable states. `dafny verify dfyconfig.toml` checks the project.

- **Wire and type layer.** `RowBinary` is the schema-driven RowBinary encoder: functions say which bytes a
  cell stands for, and methods append them to a buffer as the original does. `RowBinaryRoundTrip` gives the
  reader and shows that the schema alone cuts the stream back into the stored cells, `RowBinaryRows` does so
  for a whole batch, `RowBinaryErrors` says which error a refused cell gets and `DecimalWidths` why a decimal
  takes the width it does. `TypeParser` is the
  ClickHouse type grammar, `TypeParserImperative` the parser object with its position, rewinds and depth,
  `TypePrinter` and `TypeRoundTrip` the printer it undoes, `TypeTokens` its characters and names. `EndToEnd`
  joins the two.
- **Type lattice.** `DataTypes` holds the total order of types and `TypeOrder` what it sorts by, `UnionTypes` the fold of observed types and
  `UnionLaws` its laws, each with the exact inputs it holds on. `Matrix` holds the three compatibility
  relations, `MatrixFold` how the fold and the relations agree, `MatrixRanges` and `MatrixFloats` what the
  numeric arms mean as sets of numbers, `MatrixMeaning` what every pair means, sink by sink, with the
  canonical texts of `Addresses`. `Orders` is the order theory they share.
- **Comparison and keys.** `Comparison` is the promotion chain, `ComparisonMeaning` what its verdicts mean, `Floats` binary64 and its rounding,
  `Decimals` mantissa-and-scale numbers, `Keys` equality, order and hashing of keys.
- **Concurrency and allocation.** `FifoCache` is the cache one caller sees, `FifoThreads` any number of
  threads interleaved at each access to the lock, map and queue. `Migration` is `App::migrate` under
  failures and dropped futures. `Arenas` is the arena and every sequence of operations on it.
- **Identifiers.** `Identifiers` is the qualified-name scanner, its printer and the quoting built on them.

Integers are unbounded and ranges explicit: `u32`, `i16` and the like are subset types, casts and
increments that can wrap are written with `%`. Text is UTF-8 bytes in values and characters in the parsers.
A JSON document is identified by its text. Locks and atomics are sequentially consistent steps. `build` in
the cache is a pure function of the key, as its documentation demands.

References and slices of an arena are used with the arena that issued them, as its documentation demands.

Where code and documentation disagree the model follows the code:

- The header of the RowBinary encoder says that only the first half of a UUID is reversed and that only
  Decimal128 is emitted. The code reverses both halves and writes four widths.
- The truncate relation is documented as a super-relation of the lossless one. It is not when the sink is
  a union; `Matrix.SuperRelation` gives the exact condition.
- A comment in the narrowing table lists unsigned into smaller signed integers; the code has only UInt8 into
  Int8 there. `MatrixMeaning.LossWithoutHint` gives the pairs that are missed.
- `FixedString` is documented as requiring exactly N bytes; the code pads shorter values.

## Model

| member | source | states |
|---|---|---|
| EndToEnd.DeclaredColumnRoundTrips | crates/commons/clickhouse/src/ch_type_parser.rs:84-96 | a column declared by any printed type of at most 64 levels is understood, and every cell written for it is read back, with the position after it, by a reader that knows only what the parser returned |
| EndToEnd.AcceptedColumnRoundTrips | crates/commons/clickhouse/src/ch_type_parser.rs:84-96 | for every declaration the parser accepts, in any spacing, whose text names no aggregate function: every cell written for its column is read back by a reader that knows only the column |
| EndToEnd.MeaningSelfDelimiting | crates/commons/clickhouse/src/ch_type_parser.rs:227-404 | no type the printer covers holds an aggregate state, so all of them are self-delimiting on the wire |
| RowBinaryRoundTrip.NullableRoundTrip | crates/commons/clickhouse/src/row_binary.rs:83-124 | self-delimiting and invertible: for every column type without aggregate states, at any nesting and nullability, a reader that knows only the type reads a successful encoding followed by any bytes back to the stored cell and exactly those bytes |
| RowBinaryRoundTrip.TypedRoundTrip | crates/commons/clickhouse/src/row_binary.rs:126-581 | the same below the null flag |
| RowBinaryRoundTrip.ItemsRoundTrip | crates/commons/clickhouse/src/row_binary.rs:299-321 | array elements come back in order, each where the previous one ended |
| RowBinaryRoundTrip.EntriesRoundTrip | crates/commons/clickhouse/src/row_binary.rs:495-529 | map entries come back in order, key before value |
| RowBinaryRoundTrip.FieldsRoundTrip | crates/commons/clickhouse/src/row_binary.rs:530-569 | tuple fields, and the columns of a row, come back in order with no length prefix |
| RowBinaryRoundTrip.RowsRoundTrip | crates/sinks/clickhouse/src/clickhouse_sink.rs:175-186 | rows are concatenated with no separator and all come back; missing trailing values come back as NULL |
| RowBinaryRows.BatchReadsBack | crates/sinks/clickhouse/src/clickhouse_sink.rs:173-186 | a written batch read back: one row per upsert, in order, and in each row column i holds what the column keeps of value i, or NULL past the row's last value |
| RowBinaryRows.UpsertsByPosition | crates/sinks/clickhouse/src/clickhouse_sink.rs:173-186 | the rows sent are those at the strictly increasing list of exactly the upsert positions |
| RowBinaryRoundTrip.EncodingUnambiguous | crates/commons/clickhouse/src/row_binary.rs:83-581 | two cells of a column whose encodings start the same stream are stored alike and leave the same remainder |
| RowBinaryRoundTrip.StatesAmbiguous | crates/commons/clickhouse/src/row_binary.rs:380-408 | aggregate states carry no length: the same bytes split in two ways |
| RowBinaryRoundTrip.WrittenIffStorable | crates/commons/clickhouse/src/row_binary.rs:83-124 | a cell is written if and only if it has the column's shape and every part is in range; everything else is an error |
| RowBinaryRoundTrip.ScalarWritten | crates/commons/clickhouse/src/row_binary.rs:132-290 | exactly which scalar value enters which scalar column, with the Date, DateTime and Decimal limits |
| RowBinaryRoundTrip.LeafWritten | crates/commons/clickhouse/src/row_binary.rs:322-461 | the same for FixedString, the enums, the wide integers and aggregate states |
| RowBinaryErrors.ScalarErrors | crates/commons/clickhouse/src/row_binary.rs:132-290 | which error a scalar gets: unsupported for a type without a form, mismatch for another kind, out of range exactly for the right kind outside the limits |
| RowBinaryErrors.OtherCarrier | crates/commons/clickhouse/src/row_binary.rs:126-581 | a cell of another carrier, a tuple of another length or a state of another function is a mismatch |
| RowBinaryErrors.CarrierErrors | crates/commons/clickhouse/src/row_binary.rs:322-461 | too long a FixedString reports both lengths, an enum ordinal outside Int8 its range |
| RowBinaryErrors.NullErrors | crates/commons/clickhouse/src/row_binary.rs:83-124 | NULL in a column that cannot hold it, and anything but an empty array where the element type is unknown, is a mismatch |
| Columns.SnakeCaseExactly | crates/commons/clickhouse/src/types/aggregate_state.rs:55-73 | two aggregate names without underscores have one kind exactly when they differ at most in the case of the first letter |
| Columns.SnakeFixed | crates/commons/clickhouse/src/types/aggregate_state.rs:60-73 | a name without capitals is its own kind |
| RowBinaryRoundTrip.FixedRoundTrip | crates/commons/clickhouse/src/row_binary.rs:132-290 | each fixed-width scalar takes exactly its width and is recovered from those bytes alone: UUID halves and IPv4 octets reversed, DateTime at whole seconds |
| RowBinaryRoundTrip.CarrierRoundTrip | crates/commons/clickhouse/src/row_binary.rs:322-461 | FixedString comes back zero-padded, enums as their ordinal, wide integers unchanged |
| RowBinaryRoundTrip.PrefixedRoundTrip | crates/commons/clickhouse/src/row_binary.rs:189-204 | length-prefixed text reads back whatever follows |
| RowBinaryRoundTrip.DecimalWritten | crates/commons/clickhouse/src/row_binary.rs:601-648 | a decimal of any scale, negative ones too, is accepted exactly when the column's scale expresses it and the mantissa fits the width; what is written is that mantissa in little-endian two's complement |
| RowBinaryRoundTrip.DecimalRoundTrip | crates/commons/clickhouse/src/row_binary.rs:601-711 | the 4, 8, 16 or 32 bytes read as the mantissa at the column's scale |
| DecimalWidths.LeastWidth | crates/commons/clickhouse/src/row_binary.rs:650-661 | for up to 76 digits the width is the least of 4, 8, 16 and 32 bytes that holds every mantissa of that many digits; beyond it is 32 |
| DecimalWidths.WrittenLength | crates/commons/clickhouse/src/row_binary.rs:601-661 | a decimal that is written takes that least width for its precision, 16 bytes when none is given; no scale means scale 0 |
| DecimalWidths.TooNarrow | crates/commons/clickhouse/src/row_binary.rs:650-661 | for each smaller width, a mantissa within the digits that does not fit it |
| RowBinaryRoundTrip.RoundDownExact | crates/commons/clickhouse/src/row_binary.rs:622-645 | rounding toward zero finds the column's mantissa whenever there is one |
| RowBinary.WriteNullable | crates/commons/clickhouse/src/row_binary.rs:83-124 | appends exactly the bytes of the cell, or returns its error and leaves what was written before untouched |
| RowBinary.WriteTyped | crates/commons/clickhouse/src/row_binary.rs:126-581 | the same for a non-null cell, arm by arm |
| RowBinary.WriteItems | crates/commons/clickhouse/src/row_binary.rs:315-318 | the element loop appends the elements' bytes in order and stops at the first error |
| RowBinary.WriteEntries | crates/commons/clickhouse/src/row_binary.rs:511-526 | the entry loop, key then value |
| RowBinary.WriteFields | crates/commons/clickhouse/src/row_binary.rs:562-566 | the field loop, one type and nullability per position |
| RowBinary.WriteBatch | crates/sinks/clickhouse/src/clickhouse_sink.rs:173-186 | the INSERT body is the concatenation of the upsert rows, other rows are skipped, and the upserts are counted |
| Wire.WriteVarUint | crates/commons/clickhouse/src/row_binary.rs:718-724 | the shift loop appends the LEB128 form of the value |
| Wire.VarUintRoundTrip | crates/commons/clickhouse/src/row_binary.rs:718-724 | a length decodes back whatever follows it |
| Wire.VarUintMinimal | crates/commons/clickhouse/src/row_binary.rs:718-724 | no byte sequence that decodes to the value is shorter |
| Wire.VarUintTenBytes | crates/commons/clickhouse/src/row_binary.rs:718-724 | a u64 takes at most ten bytes |
| Wire.LittleEndianRoundTrip | crates/commons/clickhouse/src/row_binary.rs:713-715 | unsigned integers read back from their little-endian bytes |
| Wire.SignedRoundTrip | crates/commons/clickhouse/src/row_binary.rs:665-711 | signed integers read back from two's complement at every width that holds them |
| Wire.BigIntToLe32 | crates/commons/clickhouse/src/types/int256.rs:308-320 | succeeds exactly on the signed 256-bit range and yields the 32-byte two's complement form, by sign-extending the shortest one |
| Wire.SignExtend | crates/commons/clickhouse/src/types/int256.rs:308-320 | sign-extension of a two's complement form to a larger width is the form at that width |
| Wire.Le32ToBigInt | crates/commons/clickhouse/src/types/int256.rs:323-338 | inverting the bytes and adding one recovers the signed value |
| TypeRoundTrip.PrintedTypeParses | crates/commons/clickhouse/src/ch_type_parser.rs:84-96 | the parser undoes the printer on every supported type tree: at most 64 levels parse to the tree's meaning, deeper ones are refused for their depth |
| TypeRoundTrip.OuterPrinted | crates/commons/clickhouse/src/ch_type_parser.rs:191-222 | the same at any position and depth, with the position exactly after the printed type |
| TypeRoundTrip.NamedPrinted | crates/commons/clickhouse/src/ch_type_parser.rs:227-404 | the same for a type that is not a Nullable or LowCardinality wrapper |
| TypeRoundTrip.FieldsPrinted | crates/commons/clickhouse/src/ch_type_parser.rs:471-543 | tuple fields, named or not, and Nested fields are read in order; the look-ahead tells a name from a type |
| TypeRoundTrip.FieldHere | crates/commons/clickhouse/src/ch_type_parser.rs:486-512 | the rewind: a field's type starts after its name when there is one and at the identifier otherwise |
| TypeRoundTrip.MapArgs | crates/commons/clickhouse/src/ch_type_parser.rs:454-467 | both halves of a Map are found around the comma |
| TypeRoundTrip.CanonicalElement | crates/commons/clickhouse/src/ch_type_parser.rs:770-793 | an array is canonical exactly when its element, under its wrappers, is a canonical scalar; JSON, arrays and carriers are not |
| TypeRoundTrip.SpellingClassified | crates/commons/clickhouse/src/ch_type_parser.rs:239-289 | the table of type names is the inverse of the spelling of column types: each name, aliases included, stands for exactly its column |
| TypeRoundTrip.DecimalClassified | crates/commons/clickhouse/src/ch_type_parser.rs:290-317 | Decimal32, 64, 128 and 256 stand for 9, 18, 38 and 76 digits |
| TypeRoundTrip.VariantsHere | crates/commons/clickhouse/src/ch_type_parser.rs:652-704 | an enum's variants read back with names and ordinals in order |
| TypeRoundTrip.QuotedHere | crates/commons/clickhouse/src/ch_type_parser.rs:592-629 | a name with its quotes and backslashes escaped reads back |
| TypeRoundTrip.UintHere | crates/commons/clickhouse/src/ch_type_parser.rs:569-590 | every u32 reads back from its decimal form |
| TypeRoundTrip.IntHere | crates/commons/clickhouse/src/ch_type_parser.rs:631-650 | every enum ordinal reads back from its decimal form, negative ones too |
| TypeRoundTrip.QuotedArgs | crates/commons/clickhouse/src/ch_type_parser.rs:407-438 | a quoted argument list is skipped to its closing parenthesis |
| TypeRoundTrip.SuccessConsumesAll | crates/commons/clickhouse/src/ch_type_parser.rs:178-188 | success means the type reached to the very end of the trimmed text |
| TypeTokens.TrimExactly | crates/commons/clickhouse/src/ch_type_parser.rs:84-96 | trimming cuts Unicode white space off both ends and nothing else, and leaves none there |
| TypeTokens.IdentExactly | crates/commons/clickhouse/src/ch_type_parser.rs:165-176 | an identifier is the longest run of ASCII letters, digits and underscores |
| TypeTokens.DigitsExactly | crates/commons/clickhouse/src/ch_type_parser.rs:569-590 | a number is the longest run of decimal digits |
| TypeTokens.OffsetCountsBytes | crates/commons/clickhouse/src/ch_type_parser.rs:131-163 | the offset an error reports is the number of UTF-8 bytes before it |
| TypeTokens.EscapeTable | crates/commons/clickhouse/src/ch_type_parser.rs:600-622 | the eight escapes, and a backslash before any other character stands for that character |
| TypeTokens.RefusedExactly | crates/commons/clickhouse/src/ch_type_parser.rs:239-404 | the names that are not refused, written out |
| TypeTokens.AggregateFlags | crates/commons/clickhouse/src/ch_type_parser.rs:330-346 | only SimpleAggregateFunction is marked simple |
| TypeTokens.CanonicalScalars | crates/commons/clickhouse/src/ch_type_parser.rs:770-793 | an array column is canonical exactly over scalar columns other than JSON and the types no cell can be written to |
| TypeTokens.ExpectReports | crates/commons/clickhouse/src/ch_type_parser.rs:145-163 | a missing character reports the bytes before it and what stands there |
| TypeTokens.UintReports | crates/commons/clickhouse/src/ch_type_parser.rs:569-590 | an unsigned argument fails for a missing digit or at 2^32, each with its reason |
| TypeTokens.IntReports | crates/commons/clickhouse/src/ch_type_parser.rs:631-650 | an ordinal fails for missing digits, a lone minus or outside sixty-four signed bits, each with its reason |
| TypeTokens.OrdinalReports | crates/commons/clickhouse/src/ch_type_parser.rs:661-698 | the message for an ordinal outside its enum's width |
| TypeParserImperative.Parse | crates/commons/clickhouse/src/ch_type_parser.rs:84-96 | the mutable parser computes the grammar function on every string, and terminates |
| TypeParserImperative.Parser.ParseOuterType | crates/commons/clickhouse/src/ch_type_parser.rs:191-222 | follows the grammar with the snapshot rewound, keeps the position on a character boundary and restores the depth |
| TypeParserImperative.Parser.ParseNamedType | crates/commons/clickhouse/src/ch_type_parser.rs:227-404 | the same for the named arms |
| TypeParserImperative.Parser.ParseSimple | crates/commons/clickhouse/src/ch_type_parser.rs:239-346 | the arms whose arguments are not types |
| TypeParserImperative.Parser.ParseComposite | crates/commons/clickhouse/src/ch_type_parser.rs:353-392 | Array, Map, Tuple and Nested |
| TypeParserImperative.Parser.ParseFields | crates/commons/clickhouse/src/ch_type_parser.rs:471-543 | the field loops make progress on every turn despite the rewinds and collect the fields in order |
| TypeParserImperative.Parser.SkipFieldName | crates/commons/clickhouse/src/ch_type_parser.rs:490-512 | moves past a field name, or rewinds bytes and characters alike |
| TypeParserImperative.Parser.ParseEnumVariants | crates/commons/clickhouse/src/ch_type_parser.rs:652-704 | the variant loop of both enum widths |
| TypeParserImperative.Parser.ParseEnumVariant | crates/commons/clickhouse/src/ch_type_parser.rs:661-673 | one variant, with the width check, its message and the optional comma |
| TypeParserImperative.Parser.ReadQuotedString | crates/commons/clickhouse/src/ch_type_parser.rs:592-629 | the escape loop; an unterminated literal reports the byte offset where it started |
| TypeParserImperative.Parser.SkipBalancedParens | crates/commons/clickhouse/src/ch_type_parser.rs:407-438 | the parenthesis counter, blind inside strings |
| TypeParserImperative.Parser.ConsumeOneArg | crates/commons/clickhouse/src/ch_type_parser.rs:738-761 | one raw argument, up to a comma or parenthesis at depth 0, trimmed |
| TypeParserImperative.Parser.ParseAggregateArgs | crates/commons/clickhouse/src/ch_type_parser.rs:706-734 | function name and argument texts; parameters are dropped |
| TypeParserImperative.Parser.ParseUintArg | crates/commons/clickhouse/src/ch_type_parser.rs:545-553 | one unsigned argument in parentheses |
| TypeParserImperative.Parser.ParseTwoUintArgs | crates/commons/clickhouse/src/ch_type_parser.rs:555-567 | two unsigned arguments in parentheses |
| TypeParserImperative.Parser.ReadUnsigned | crates/commons/clickhouse/src/ch_type_parser.rs:569-590 | digits within u32, or the argument error with its reason |
| TypeParserImperative.Parser.ReadSigned | crates/commons/clickhouse/src/ch_type_parser.rs:631-650 | an optional minus and digits within i64, or the argument error with its reason |
| TypeParserImperative.Parser.ReadIdentifier | crates/commons/clickhouse/src/ch_type_parser.rs:165-176 | the longest identifier after spaces |
| TypeParserImperative.Parser.ExpectChar | crates/commons/clickhouse/src/ch_type_parser.rs:145-163 | consumes the character or reports its byte offset and what stands there |
| TypeParserImperative.Parser.SkipSpaces | crates/commons/clickhouse/src/ch_type_parser.rs:131-139 | stops at the first character that is not white space |
| TypeParserImperative.Parser.Advance | crates/commons/clickhouse/src/ch_type_parser.rs:131-139 | one character forward is its UTF-8 length in bytes, so the position stays on a boundary |
| DataTypes.CompareEqual | crates/types/src/data_type.rs:294-369 | the order says Equal exactly for equal types, through nested Array and Union |
| DataTypes.CompareReverse | crates/types/src/data_type.rs:294-369 | swapping the arguments reverses the order |
| DataTypes.CompareTransitive | crates/types/src/data_type.rs:294-369 | the order is transitive, and strict wherever a step is |
| TypeOrder.DeclarationOrder | crates/types/src/data_type.rs:336-369 | whatever the payloads, one type of each variant in the order of declaration is an ascending list |
| TypeOrder.PayloadOrder | crates/types/src/data_type.rs:302-332 | within a variant: an absent bound first and then by number, precision before scale, members as in a dictionary, an unknown element first and non-nullable before nullable |
| UnionTypes.CollapseUnion | crates/types/src/union_types.rs:36-72 | the greedy pass with its fallback computes, for unions nested at most one level, the sorted sequence of the widest leaf of each family; deeper nesting is covered by the explicit function Collapsed, which the laws in UnionLaws are about |
| UnionTypes.Fallback | crates/types/src/union_types.rs:74-114 | flatten, sort, dedup and one stack pass give that normal form on every input |
| UnionTypes.StackPass | crates/types/src/union_types.rs:92-110 | over a sorted duplicate-free list the stack pass leaves the normal form |
| UnionTypes.Absorb | crates/types/src/union_types.rs:93-104 | one turn of the stack loop replaces the top by the join or pushes |
| UnionTypes.Dedup | crates/types/src/union_types.rs:85-86 | dropping equal neighbours of a sorted list leaves a strictly ascending list of the same elements |
| UnionTypes.WidenIsJoin | crates/types/src/union_types.rs:155-232 | widening succeeds exactly within a family and is then the least upper bound of the widening order |
| UnionTypes.FamiliesAreConvex | crates/types/src/data_type.rs:294-369 | sorting makes each widening family contiguous, which is what the stack pass relies on |
| UnionLaws.CollapsePermutation | crates/types/src/union_types.rs:36-114 | the order of observation does not matter, on any input |
| UnionLaws.CollapseSameElements | crates/types/src/union_types.rs:36-114 | neither does how often a type was observed |
| UnionLaws.CollapseFixed | crates/types/src/union_types.rs:36-114 | the types the fold leaves alone are exactly those that are not unions and the unions that are sorted, not of one member, of pairwise different families and free of inner unions |
| UnionLaws.CollapseIdempotent | crates/types/src/union_types.rs:36-114 | for every input, folding the fold again changes nothing exactly when each union among the leaves the fold compares is such a settled union and the only leaf |
| UnionLaws.OneLevelIdempotent | crates/types/src/union_types.rs:36-114 | in particular whenever no observed union holds a union |
| UnionLaws.CollapseIncremental | crates/types/src/union_types.rs:36-114 | the fold of an absorbable batch stands for the batch in every later fold, whatever is observed later |
| UnionLaws.IncrementalExactly | crates/types/src/union_types.rs:36-114 | and of no other batch: folding in two steps equals folding at once for all continuations exactly when the batch is absorbable, a condition on its leaves |
| UnionLaws.OneLevelAbsorbable | crates/types/src/union_types.rs:36-114 | every batch in which no union holds a union is absorbable |
| UnionLaws.NotIncremental | crates/types/src/union_types.rs:36-114 | for every other batch, a continuation on which the two differ |
| UnionLaws.CollapsedLeaves | crates/types/src/union_types.rs:36-114 | the fold, unpacked, lists the maximal leaves exactly when the leaves are not copies of one union |
| UnionLaws.NestedUnionNotIdempotent | crates/types/src/union_types.rs:116-140 | an input that needs a second fold: a union of one union of one type |
| Matrix.SuperRelation | crates/types/src/matrix.rs:257-305 | lossless implies truncate-compatible exactly when the sink is not a union or the source is a hollow union |
| Matrix.UnionIdentityNotTruncate | crates/types/src/matrix.rs:257-305 | the documented super-relation fails on an identity pair of unions |
| Matrix.NarrowingAndLossless | crates/types/src/matrix.rs:501-592 | a narrowing pair is lossless exactly when every path of the source ends in an empty union and no array level drops nulls |
| Matrix.NarrowingNotLossless | crates/types/src/matrix.rs:501-592 | with no empty union in the source, narrowing implies not lossless |
| Matrix.EmptyUnionNarrowsAndFits | crates/types/src/matrix.rs:501-592 | the empty union is narrowing and lossless at once |
| Matrix.NarrowingTruncates | crates/types/src/matrix.rs:479-592 | a narrowing pair is truncate-compatible exactly when the elements of every null-dropping array level are |
| Matrix.NoDroppedNulls | crates/types/src/matrix.rs:479-592 | in particular when no array level drops element nullability |
| Matrix.NarrowingButRefused | crates/types/src/matrix.rs:479-592 | a null-dropping array pair that is narrowing and refused under truncation |
| MatrixFold.FoldKeepsVerdict | crates/types/src/matrix.rs:23-411 | for every bag of types, unions nested at will, the collapsed type is accepted iff every observed type is, in both relations and for every sink other than a union, UUID or IP address |
| MatrixFold.FoldKeepsAcceptance | crates/types/src/matrix.rs:23-411 | for every bag and every non-union sink, accepted types collapse to an accepted type |
| MatrixFold.MinimumLengthVerdict | crates/types/src/matrix.rs:79-191 | for UUID and address sinks every observed type is accepted exactly when the fold is and no leaf, at any union depth, is shorter than the sink needs |
| MatrixFold.FoldHidesShortText | crates/types/src/matrix.rs:79-81 | a text column too short for a UUID sink is hidden by a wider sibling |
| MatrixFold.NarrowerIsAccepted | crates/types/src/matrix.rs:23-411 | a sink that takes a wider type takes every narrower one of its family |
| MatrixMeaning.LosslessKeeps | crates/types/src/matrix.rs:64-246 | between two different plain types the lossless matrix says yes exactly where the sink column can hold what the source column holds: every text, every octets, every number; for a UUID or address read from text or bytes, where some value fits |
| MatrixMeaning.IdentifierSizes | crates/types/src/matrix.rs:79-191 | a UUID, IPv4 or IPv6 column enters Text(n) or Bytes(n) exactly when the canonical text or the octets of every value fit n |
| MatrixMeaning.TruncateKeepsOrCuts | crates/types/src/matrix.rs:274-411 | with consent the matrix says yes exactly where the value is kept or a defined part of it is: a prefix, a whole part, a truth value, a nearest float, a day, an embedded address, the fields of a document |
| MatrixMeaning.MatrixByLeaves | crates/types/src/matrix.rs:23-411 | both matrices on every source, unions nested at will, and every sink that is not a union: each leaf is accepted on its own, arrays by element and nullability |
| MatrixMeaning.LosslessIntoUnion | crates/types/src/matrix.rs:26-46 | a union sink takes losslessly only copies of itself |
| MatrixMeaning.NarrowingByLeaves | crates/types/src/matrix.rs:501-592 | the narrowing hint on every pair, leaf by leaf: lost lengths, numbers and precision, mapped addresses, dropped nulls |
| MatrixMeaning.LossWithoutHint | crates/types/src/matrix.rs:571-588 | the integer pairs that lose numbers, are open to consent and draw no hint are exactly the unsigned ones wider than eight bits into a signed column that cannot hold them |
| MatrixMeaning.UnsignedLossUnflagged | crates/types/src/matrix.rs:587-588 | UInt16 into Int16 loses 40000 and is not flagged |
| Addresses.Ipv4Lengths | crates/types/src/convert/to_text.rs:50-50 | the text of an IPv4 address has 7 to 15 characters |
| Addresses.Ipv6Lengths | crates/types/src/convert/to_text.rs:51-51 | the text of an IPv6 address has 2 to 39 characters |
| Addresses.Ipv6Bounds | crates/types/src/convert/to_text.rs:51-51 | the unspecified address is two colons and the address of all ones takes 39 characters |
| MatrixRanges.LosslessIsInclusion | crates/types/src/matrix.rs:64-151 | between fixed-width integers, into unbounded big integers and into decimals, the lossless relation is exactly inclusion of the sets of numbers |
| MatrixRanges.LosslessIsSound | crates/types/src/matrix.rs:64-151 | every lossless numeric pair, save into a bounded BigInt, keeps every number exactly |
| MatrixRanges.BoundedBigIntIgnoresWidth | crates/types/src/matrix.rs:110-122 | a fixed-width integer enters any bounded BigInt; it is range-sound exactly when the width has its 3, 5, 10, 19 or 20 digits |
| MatrixRanges.FixedDigitsExact | crates/types/src/matrix.rs:413-425 | the digit counts 3, 5, 10, 19 and 20 are exact powers-of-ten bounds |
| MatrixRanges.DecimalIntoDecimal | crates/types/src/matrix.rs:441-459 | the scale and integer-digit rule for decimals is exactly inclusion |
| MatrixFloats.SignedIntoFloat | crates/types/src/matrix.rs:65-72 | a signed integer column enters a float column exactly when binary32 or binary64 holds each of its integers |
| MatrixFloats.UnsignedIntoFloatRefused | crates/types/src/matrix.rs:65-72 | no unsigned column enters a float column, although binary32 holds every UInt8 |
| MatrixFloats.Float32IntoFloat64 | crates/types/src/matrix.rs:68-69 | every finite binary32 is a binary64 number; the reverse pair is refused |
| Floats.SmallIntRepresentable32 | crates/types/src/matrix.rs:70-72 | integers below 2^24 are binary32 numbers |
| Floats.OddNotRepresentable32 | crates/types/src/matrix.rs:70-72 | odd integers above 2^24 are not |
| Comparison.CompareAntisymmetric | crates/types/src/compare.rs:16-101 | swapping the arguments reverses the verdict, through arrays and objects, and incomparable stays incomparable |
| Comparison.CompareIntegersExactly | crates/types/src/compare.rs:16-101 | on any mix of the eight integer widths and BigInt the verdict is exact integer comparison |
| Comparison.ComparePromoted | crates/types/src/compare.rs:16-101 | the chain of promotion arms, whichever side it promotes first, equals one table over promoted values |
| Comparison.CompareReflexive | crates/types/src/compare.rs:16-107 | a value equals itself exactly when it holds no NaN |
| Comparison.PromoteOne | crates/types/src/compare.rs:34-66 | an arm promotes one pending side and something is promoted while anything is pending |
| ComparisonMeaning.CompareMeans | crates/types/src/compare.rs:16-101 | for every pair of values the verdict says which is below and which are the same, defined without the arms: integers exactly, floats by their numbers, decimals as reals, text and bytes in dictionary order, addresses as 128-bit numbers, arrays and objects position by position; everything else is incomparable |
| ComparisonMeaning.ObjectsByPosition | crates/types/src/compare.rs:81-82 | objects are equal exactly when they have the same keys in the same places with equal values, and incomparable otherwise |
| ComparisonMeaning.ArraysByPosition | crates/types/src/compare.rs:83-83 | arrays are equal exactly when they are equal position by position, and incomparable otherwise |
| Decimals.CompareDecimalMeans | crates/types/src/compare.rs:26-26 | decimals are ordered as the real numbers they stand for, whatever their scales |
| Basics.DictionaryVerdicts | crates/types/src/compare.rs:23-30 | byte strings are ordered by the first difference, then by length |
| Values.OctetsOrder | crates/types/src/compare.rs:30-32 | octets of one length are ordered as big-endian numbers |
| Floats.RoundNearest | crates/types/src/compare.rs:52-58 | integer-to-binary64 conversion: no representable magnitude is nearer, and ties go to the even one |
| Floats.IntToFloatMonotone | crates/types/src/compare.rs:52-58 | the conversion keeps the order of integers |
| Floats.SmallIntRepresentable | crates/types/src/compare.rs:52-58 | integers within 2^53 convert exactly |
| Floats.WidenKeepsValue | crates/types/src/compare.rs:60-62 | binary32 widens to binary64 without changing the number, sign included |
| Floats.WidenSpecial | crates/types/src/compare.rs:60-62 | infinities widen to infinities and NaNs to NaNs, signs kept |
| Floats.FormatLayout | crates/types/src/compare.rs:52-62 | the constants are the bit layout of the two formats |
| Decimals.NormalizedDecides | crates/types/src/key.rs:173-176 | decimals compare equal exactly when their normalised mantissa and scale are the same |
| Keys.Composite | crates/types/src/key.rs:39-50 | refuses the empty list, fails with the error of the first value that cannot be a key element, and otherwise canonicalises each element in place |
| Keys.CanonicaliseKeepsComparison | crates/types/src/key.rs:78-116 | canonicalising a value does not change what it compares to |
| Keys.CanonicalForm | crates/types/src/key.rs:78-116 | integers of any width become Int64 when they fit sixty-four signed bits and BigInt otherwise, a binary32 keeps its number, elements are left alone and the rest is refused by name |
| Keys.CompareKeys | crates/types/src/key.rs:273-283 | the early-return loop is the lexicographic order, shorter first on a tie |
| Keys.HashKey | crates/types/src/key.rs:197-204 | feeds the length and then each element's tokens, in order |
| Keys.EqualKeysSameTokens | crates/types/src/key.rs:118-204 | equal keys feed identical tokens: rounding integers, NaNs, signed zeros, trailing decimal zeros and mapped IPv6 included |
| Keys.TokensExactly | crates/types/src/key.rs:118-204 | two keys feed the same tokens exactly when they have one length and at each position the elements are equal or are integers and floats with one binary64 image: rounding is the only collision |
| Keys.ElementTags | crates/types/src/key.rs:128-195 | the tag each kind of element opens with |
| Keys.CmpKeyReverse | crates/types/src/key.rs:206-283 | the key order is antisymmetric for keys of any length |
| Keys.CmpKeyEqual | crates/types/src/key.rs:206-283 | the key order says Equal exactly when Eq holds |
| Keys.ElementsTransitive | crates/types/src/key.rs:206-243 | the element order is transitive on a triple exactly when the triple does not hold two different integers equal to its float |
| Keys.CmpKeyTransitive | crates/types/src/key.rs:206-283 | the key order is transitive, lexicographically, on keys of any length that do not collide at any position |
| Keys.ExactKeysTransitive | crates/types/src/key.rs:206-283 | so keys whose integers convert exactly are totally preordered |
| Keys.NaNOnTop | crates/types/src/key.rs:225-243 | NaN is above every number and all NaNs are equal |
| Keys.FamiliesInOrder | crates/types/src/key.rs:206-243 | across families: booleans, numbers, NaN, decimals, text, bytes, dates, timestamps, UUIDs, addresses |
| Keys.NumbersInterleave | crates/types/src/key.rs:206-243 | exact integers and floats are ordered by the numbers they stand for, although their type orders differ |
| Keys.WithinTwoTo53IsExact | crates/types/src/key.rs:206-243 | every integer within 2^53 converts exactly |
| Keys.NotTransitive | crates/types/src/key.rs:225-243 | 2^53 + 1 equals the float 2^53, which equals 2^53, and yet 2^53 + 1 is greater: the order is not transitive on all keys |
| Values.MappedIpv6Order | crates/types/src/compare.rs:68-76 | mapping IPv4 into IPv6 keeps the order of addresses |
| Values.MappedIpv6Number | crates/types/src/compare.rs:68-76 | the mapped address is the 32-bit number under the prefix 0xFFFF |
| FifoCache.Cache.GetOrTryInsertWith | crates/commons/caching/src/fifo_cache.rs:74-113 | one caller: a hit returns the stored value, a miss the built one; the store changes only by inserting the built value, and surviving entries keep theirs |
| FifoCache.Cache.WithOrTryInsertWith | crates/commons/caching/src/fifo_cache.rs:137-180 | the same for the borrowing mode: the result is the caller's view of the value and the built value is what is stored |
| FifoCache.Cache.Insert | crates/commons/caching/src/fifo_cache.rs:102-110 | the queue becomes the last cap keys of the old queue and the new key; other entries are kept or evicted, never changed |
| FifoThreads.ContentsAreLatest | crates/commons/caching/src/fifo_cache.rs:74-180 | in every interleaving, whenever nobody holds the write lock, queue and map hold the same keys without duplicates: the last min(cap, n) of the n keys inserted |
| FifoThreads.ResultsAreDirect | crates/commons/caching/src/fifo_cache.rs:74-180 | every call that returns, in both modes and at any capacity, returns what building directly would |
| FifoThreads.InsertedSurvives | crates/commons/caching/src/fifo_cache.rs:102-110 | a key just inserted is still cached when its thread lets go of the lock |
| FifoThreads.FailedBuildChangesNothing | crates/commons/caching/src/fifo_cache.rs:79-112 | a thread whose build fails never changes map, queue or log |
| FifoThreads.PassThrough | crates/commons/caching/src/fifo_cache.rs:79-81 | at capacity 0 nothing is ever stored and the lock never taken for writing |
| FifoThreads.SomeoneCanMove | crates/commons/caching/src/fifo_cache.rs:74-180 | no deadlock: while a call is unfinished some thread can move |
| FifoThreads.OkMeansCached | crates/commons/caching/src/fifo_cache.rs:74-180 | when a call returns Ok its key is cached at that moment with the built value, at any capacity above 0 |
| FifoThreads.HitsDoNotBuild | crates/commons/caching/src/fifo_cache.rs:83-96 | a thread that finds its key answers from the cache and changes nothing; it builds only when the key was not there |
| FifoThreads.RunsAreShort | crates/commons/caching/src/fifo_cache.rs:74-180 | no livelock: in every interleaving each call accounts for at most ten steps |
| FifoThreads.StepKeepsInvariant | crates/commons/caching/src/fifo_cache.rs:74-180 | every step of every thread keeps lock, store and results consistent, also half-way through an insertion |
| Migration.OkMeansMigrated | crates/app/src/app.rs:312-328 | a caller that got Ok did so after one uninterrupted pass in which every storage succeeded in order, and no other pass ever completed |
| Migration.PassesDoNotOverlap | crates/app/src/app.rs:312-328 | before another caller logs anything, the open pass has ended |
| Migration.OnePassAtATime | crates/app/src/app.rs:312-328 | two callers are never both migrating |
| Migration.NoMigrationAfterFlag | crates/app/src/app.rs:312-328 | once the flag is set it stays set and only Ok returns follow |
| Migration.NothingAfterFlag | crates/app/src/app.rs:312-328 | the same read off the trace: no storage starts and no second completion after the flag |
| Migration.FlagFollowsWholePass | crates/app/src/app.rs:312-328 | right before the flag is set stand exactly the starts and successes of all storages by that caller |
| Migration.RunTrace | crates/app/src/app.rs:312-328 | the trace of every run obeys the step-by-step grammar of passes, with failures and drops |
| Migration.StepKeepsInvariant | crates/app/src/app.rs:312-328 | every step, failure and drop keeps lock, flag, places and trace consistent |
| Migration.SomeoneCanMove | crates/app/src/app.rs:312-328 | no deadlock: an unfinished caller means some step is possible |
| Migration.RunsAreShort | crates/app/src/app.rs:312-328 | no livelock: in every run, whatever fails or is dropped, each call accounts for at most 2 n + 7 steps over n storages |
| Migration.FastPath | crates/app/src/app.rs:312-317 | once the flag is set a call returns Ok without touching the lock, whoever holds it |
| Migration.FailedPassIsRetried | crates/app/src/app.rs:312-328 | after a failed or dropped pass a waiting caller gets the lock and starts over from the first storage |
| Migration.DropsReleaseLock | crates/app/src/app.rs:312-328 | a caller can be dropped exactly where it awaits, and then holds nothing and has not set the flag |
| Arenas.Arena.Alloc | crates/commons/arena/src/arena.rs:196-203 | refused exactly at 65535 slots; otherwise the reference is the true index and joins the references the lemmas below speak of |
| Arenas.Arena.OpenSlice | crates/commons/arena/src/arena.rs:208-210 | the cast is exact: a new, empty run starts at the tail |
| Arenas.Arena.CopySlice | crates/commons/arena/src/arena.rs:90-95 | a copied slice is a second handle on the same run |
| Arenas.Arena.Push | crates/commons/arena/src/arena.rs:119-130 | grows the run at the tail by one value, or reports NotAtTail or Overflow and changes nothing; the increment is exact |
| Arenas.Arena.Set | crates/commons/arena/src/arena.rs:218-220 | a write through get_mut is seen through that reference and leaves every other reference and every run as it was |
| Arenas.Arena.Get | crates/commons/arena/src/arena.rs:213-215 | reads the value last stored through the reference, whatever was done in between |
| Arenas.Arena.Run | crates/commons/arena/src/arena.rs:223-227 | reads exactly the values pushed to the run, in order, whatever was done in between |
| Arenas.RefsReadBack | crates/commons/arena/src/arena.rs:196-220 | after any operations every reference is in bounds, reads the value last stored through it, and shares its slot with no other |
| Arenas.RunsReadBack | crates/commons/arena/src/arena.rs:119-227 | after any operations every run is in bounds and holds exactly the values pushed to it, with every u16 cast and increment exact |
| Arenas.RunsDisjoint | crates/commons/arena/src/arena.rs:119-210 | non-empty runs from different opens never overlap, copies of handles included |
| Arenas.RefsOutsideRuns | crates/commons/arena/src/arena.rs:119-220 | no reference points into a run |
| Arenas.OnlySetChangesSlots | crates/commons/arena/src/arena.rs:119-227 | an operation leaves every existing slot as it was, save get_mut on that slot |
| Arenas.OpKeepsInvariant | crates/commons/arena/src/arena.rs:119-227 | every operation keeps bounds, owners and contents consistent |
| Identifiers.ParseQualified | crates/commons/lib/src/identifier.rs:75-133 | the character loop computes the scanner function on every string |
| Identifiers.ParseInvertsPrint | crates/commons/lib/src/identifier.rs:75-133 | the scanner returns segments if and only if they are printable and their dotted printed form is the input |
| Identifiers.QuotedNamesReadBack | crates/commons/lib/src/identifier.rs:75-133 | any non-empty list of strings, quoted and joined by dots, is read back, all marked quoted |
| Identifiers.CheckSegment | crates/commons/lib/src/identifier.rs:45-64 | the first unsupported character of a bare segment, or emptiness, decides the error |
| Identifiers.AcceptedExactly | crates/commons/lib/src/pg_identifier.rs:37-59 | a name is accepted exactly when it prints one or two segments, none empty, each quoted or made of ASCII letters, digits, underscores and dollars |
| Identifiers.ReportedChar | crates/commons/lib/src/identifier.rs:45-64 | the first character outside those is the one reported |
| Identifiers.NoErrorExactly | crates/commons/lib/src/identifier.rs:45-64 | the first bad segment decides the error |
| Identifiers.WriteQuoted | crates/commons/lib/src/pg_identifier.rs:19-31 | the push loop wraps the name and doubles inner quotes |
| Identifiers.QuoteQualified | crates/commons/lib/src/pg_identifier.rs:37-59 | quotes every accepted segment, or reports the same first error as the checks |
| Identifiers.QuotingIsFixed | crates/commons/clickhouse/src/identifier.rs:30-52 | quoting leaves its own output alone, for any quote character |
| Identifiers.SplitQualified | crates/commons/clickhouse/src/identifier.rs:71-92 | database and table of an accepted name, or the same first error as quoting |
| Identifiers.SplitPostgres | crates/commons/lib/src/pg_identifier.rs:93-114 | schema and table, a bare name being in the schema public |
| Identifiers.PostgresAgrees | crates/commons/lib/src/pg_identifier.rs:93-114 | it accepts exactly what quoting accepts, sees the same names after quoting, and a bare name means the same as its public form |
| Identifiers.SplittingAgrees | crates/commons/clickhouse/src/identifier.rs:71-92 | splitting accepts exactly what quoting accepts, fails with the same error, and gives the same names before and after quoting |

## Left out

- Connector-specific `Custom` types and values, apart from the ClickHouse carriers that the encoder and the type parser read.
- Aggregate states in the round trips: they have no length on the wire, as `RowBinaryRoundTrip.StatesAmbiguous` shows; the parser's handling of them is modelled but not printed.
- Spacing other than ClickHouse's own in printed types: the parser accepts any white space, the printer writes one form. `EndToEnd.AcceptedColumnRoundTrips` covers every spacing.
- Column names and wording in the errors of `RowBinary`: only the kind of error is kept.
- JSON serialisation: a document enters the encoder as its text.
- The `convert` module apart from the texts of UUIDs and addresses, the flow engine, validation pipeline, drivers, HTTP client, CLI and metrics.
- Interval parsing, which an external crate does; BSON and JSON value tables, serde code, registries and pool settings, which are tables of variants and look-ups.
- `quote_columns`: ClickHouse quotes each raw name with `quote_ident` and checks nothing; Postgres parses each name and demands exactly one segment. Both then join with commas.
- Lock poisoning, panics inside callbacks, memory-ordering details and actual hash values.
- FifoCache.Cache.GetOrTryInsertWith: the re-check under the write lock, which a single caller never needs, is in `FifoThreads` only; the same holds for the borrowing mode.
