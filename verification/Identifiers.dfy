/**
 Qualified SQL identifiers (crates/commons/lib/src/identifier.rs, pg_identifier.rs and
 crates/commons/clickhouse/src/identifier.rs): a character scanner and the printer it undoes. The
 quote character is a parameter: `"` for Postgres and QuestDB, a backtick for ClickHouse.
 */
module Identifiers {
  import opened Basics

  datatype Segment = Segment(value: string, quoted: bool)

  datatype IdentifierError =
    | EmptySegment
    | UnsupportedChar(segment: string, ch: char)
    | TooManySegments(value: string, got: nat, max: nat)
    | UnterminatedQuote(value: string)
    | UnexpectedAfterQuote(value: string, ch: char)

  const MAX_SEGMENTS: nat := 2

  // ---- The printer ----

  function Escaped(name: string, quote: char): string {
    if name == "" then ""
    else (if name[0] == quote then [quote, quote] else [name[0]]) + Escaped(name[1..], quote)
  }

  function QuoteIdent(name: string, quote: char): string {
    [quote] + Escaped(name, quote) + [quote]
  }

  function PrintSegment(s: Segment, quote: char): string {
    if s.quoted then QuoteIdent(s.value, quote) else s.value
  }

  /** Segments joined by dots. */
  function Print(segments: seq<Segment>, quote: char): string
    requires segments != []
  {
    var last := |segments| - 1;
    if last == 0 then PrintSegment(segments[0], quote)
    else Print(segments[..last], quote) + "." + PrintSegment(segments[last], quote)
  }

  /** A bare segment has no dot and does not open with the quote. */
  predicate Printable(s: Segment, quote: char) {
    s.quoted || ('.' !in s.value && (s.value == "" || s.value[0] != quote))
  }

  predicate AllPrintable(segments: seq<Segment>, quote: char) {
    forall i :: 0 <= i < |segments| ==> Printable(segments[i], quote)
  }

  // ---- The scanner ----

  /** The variables of the character loop. */
  datatype Scan = Scan(segments: seq<Segment>, buf: string, quoted: bool, inQuoted: bool, afterQuoted: bool)

  const FRESH: Scan := Scan([], "", false, false, false)

  /** What the loop makes of the remaining characters. */
  function ScanFrom(input: string, rest: string, quote: char, s: Scan): Result<seq<Segment>, IdentifierError>
    decreases |rest|
  {
    if rest == "" then
      if s.inQuoted then Err(UnterminatedQuote(input)) else Ok(s.segments + [Segment(s.buf, s.quoted)])
    else
      var ch := rest[0];
      if s.inQuoted then
        if ch != quote then ScanFrom(input, rest[1..], quote, s.(buf := s.buf + [ch]))
        else if |rest| > 1 && rest[1] == quote then ScanFrom(input, rest[2..], quote, s.(buf := s.buf + [quote]))
        else ScanFrom(input, rest[1..], quote, s.(inQuoted := false, afterQuoted := true))
      else if ch == '.' then
        ScanFrom(input, rest[1..], quote, Scan(s.segments + [Segment(s.buf, s.quoted)], "", false, false, false))
      else if s.afterQuoted then Err(UnexpectedAfterQuote(input, ch))
      else if ch == quote && s.buf == "" then ScanFrom(input, rest[1..], quote, s.(inQuoted := true, quoted := true))
      else ScanFrom(input, rest[1..], quote, s.(buf := s.buf + [ch]))
  }

  function Parsed(input: string, quote: char): Result<seq<Segment>, IdentifierError> {
    ScanFrom(input, input, quote, FRESH)
  }

  /** `parse_qualified` */
  method ParseQualified(input: string, quote: char) returns (r: Result<seq<Segment>, IdentifierError>)
    ensures r == Parsed(input, quote)
  {
    var segments, buf, quoted, inQuoted, afterQuoted := [], "", false, false, false;
    var i := 0;
    assert input[0..] == input;
    while i < |input|
      invariant 0 <= i <= |input|
      invariant ScanFrom(input, input[i..], quote, Scan(segments, buf, quoted, inQuoted, afterQuoted)) == Parsed(input, quote)
    {
      var ch := input[i];
      assert input[i..][1..] == input[i + 1..];
      i := i + 1;
      if inQuoted {
        if ch == quote {
          if i < |input| && input[i] == quote {
            assert input[i - 1..][2..] == input[i + 1..];
            i := i + 1;
            buf := buf + [quote];
          } else {
            inQuoted, afterQuoted := false, true;
          }
        } else {
          buf := buf + [ch];
        }
      } else if ch == '.' {
        segments := segments + [Segment(buf, quoted)];
        buf, quoted, afterQuoted := "", false, false;
      } else if afterQuoted {
        return Err(UnexpectedAfterQuote(input, ch));
      } else if ch == quote && buf == "" {
        inQuoted, quoted := true, true;
      } else {
        buf := buf + [ch];
      }
    }
    if inQuoted {
      return Err(UnterminatedQuote(input));
    }
    return Ok(segments + [Segment(buf, quoted)]);
  }

  // ---- The scanner undoes the printer, and accepts nothing else ----

  /** The segment being read, as far as it has been read. */
  function OpenText(s: Scan, quote: char): string {
    if s.inQuoted then [quote] + Escaped(s.buf, quote) else PrintSegment(Segment(s.buf, s.quoted), quote)
  }

  function Dotted(segments: seq<Segment>, quote: char): string {
    if segments == [] then "" else Print(segments, quote) + "."
  }

  /** The text a scan has consumed. */
  function Consumed(s: Scan, quote: char): string {
    Dotted(s.segments, quote) + OpenText(s, quote)
  }

  predicate Coherent(s: Scan, quote: char) {
    && AllPrintable(s.segments, quote)
    && (s.inQuoted ==> s.quoted && !s.afterQuoted)
    && (s.quoted && !s.inQuoted <==> s.afterQuoted)
    && (!s.quoted ==> Printable(Segment(s.buf, false), quote))
  }

  lemma {:induction false} EscapedAppend(a: string, b: string, quote: char)
    ensures Escaped(a + b, quote) == Escaped(a, quote) + Escaped(b, quote)
  {
    if a == "" {
      assert a + b == b;
    } else {
      var first := if a[0] == quote then [quote, quote] else [a[0]];
      assert (a + b)[1..] == a[1..] + b;
      assert Escaped(a + b, quote) == first + Escaped(a[1..] + b, quote);
      EscapedAppend(a[1..], b, quote);
      Associative(first, Escaped(a[1..], quote), Escaped(b, quote));
    }
  }

  lemma Associative(a: string, b: string, c: string)
    ensures a + (b + c) == a + b + c
  {
  }

  lemma EscapedLast(buf: string, ch: char, quote: char)
    ensures Escaped(buf + [ch], quote) == Escaped(buf, quote) + if ch == quote then [quote, quote] else [ch]
  {
    EscapedAppend(buf, [ch], quote);
  }

  lemma PrintAppend(segments: seq<Segment>, s: Segment, quote: char)
    ensures Print(segments + [s], quote) == Dotted(segments, quote) + PrintSegment(s, quote)
  {
    assert (segments + [s])[..|segments|] == segments;
  }

  /** The one-character steps of the scanner. */
  function Next(s: Scan, ch: char, quote: char): Scan {
    if s.inQuoted then
      if ch != quote then s.(buf := s.buf + [ch]) else s.(inQuoted := false, afterQuoted := true)
    else if ch == '.' then Scan(s.segments + [Segment(s.buf, s.quoted)], "", false, false, false)
    else if ch == quote && s.buf == "" then s.(inQuoted := true, quoted := true)
    else s.(buf := s.buf + [ch])
  }

  lemma OpenTextGrows(s: Scan, ch: char, quote: char)
    requires Coherent(s, quote) && (s.inQuoted || (ch != '.' && !s.afterQuoted))
    ensures OpenText(Next(s, ch, quote), quote) == OpenText(s, quote) + [ch]
  {
    EscapedLast(s.buf, ch, quote);
  }

  lemma NextConsumes(s: Scan, ch: char, quote: char)
    requires quote != '.' && Coherent(s, quote)
    requires !s.inQuoted && ch != '.' ==> !s.afterQuoted
    ensures Consumed(Next(s, ch, quote), quote) == Consumed(s, quote) + [ch]
  {
    if s.inQuoted || ch != '.' {
      OpenTextGrows(s, ch, quote);
    } else {
      PrintAppend(s.segments, Segment(s.buf, s.quoted), quote);
    }
  }

  lemma NextCoherent(s: Scan, ch: char, quote: char)
    requires quote != '.' && Coherent(s, quote)
    requires !s.inQuoted && ch != '.' ==> !s.afterQuoted
    ensures Coherent(Next(s, ch, quote), quote)
  {
  }

  /** A doubled quote inside a quoted segment stands for one. */
  lemma DoubledConsumes(s: Scan, quote: char)
    requires s.inQuoted && Coherent(s, quote)
    ensures var t := s.(buf := s.buf + [quote]);
            Coherent(t, quote) && Consumed(t, quote) == Consumed(s, quote) + [quote, quote]
  {
    EscapedLast(s.buf, quote, quote);
  }

  /** A successful scan returns printable segments whose printed form is the text read. */
  lemma {:induction false} ScanPrints(input: string, rest: string, quote: char, s: Scan)
    requires quote != '.' && Coherent(s, quote) && ScanFrom(input, rest, quote, s).Ok?
    ensures var segments := ScanFrom(input, rest, quote, s).value;
            segments != [] && AllPrintable(segments, quote) && Print(segments, quote) == Consumed(s, quote) + rest
    decreases |rest|
  {
    hide Consumed, Print, Escaped, OpenText, Dotted;
    if rest == "" {
      ScanEnds(s, quote);
    } else {
      var ch := rest[0];
      if s.inQuoted && ch == quote && |rest| > 1 && rest[1] == quote {
        DoubledConsumes(s, quote);
        ScanPrints(input, rest[2..], quote, s.(buf := s.buf + [quote]));
        assert rest == [quote, quote] + rest[2..];
      } else {
        NextCoherent(s, ch, quote);
        NextConsumes(s, ch, quote);
        ScanPrints(input, rest[1..], quote, Next(s, ch, quote));
        assert rest == [ch] + rest[1..];
      }
    }
  }

  lemma ScanEnds(s: Scan, quote: char)
    requires Coherent(s, quote) && !s.inQuoted
    ensures var segments := s.segments + [Segment(s.buf, s.quoted)];
            AllPrintable(segments, quote) && Print(segments, quote) == Consumed(s, quote) + ""
  {
    PrintAppend(s.segments, Segment(s.buf, s.quoted), quote);
  }

  lemma {:induction false} ScanEscaped(input: string, name: string, rest: string, quote: char, s: Scan)
    requires s.inQuoted && (rest == "" || rest[0] != quote)
    ensures ScanFrom(input, Escaped(name, quote) + [quote] + rest, quote, s) ==
            ScanFrom(input, rest, quote, s.(buf := s.buf + name, inQuoted := false, afterQuoted := true))
    decreases |name|
  {
    var text := Escaped(name, quote) + [quote] + rest;
    if name == "" {
      assert text == [quote] + rest && text[1..] == rest;
      assert s.buf + name == s.buf;
    } else {
      var ch, tail := name[0], Escaped(name[1..], quote) + [quote] + rest;
      assert text == (if ch == quote then [quote, quote] else [ch]) + tail;
      assert if ch == quote then text[2..] == tail else text[1..] == tail;
      ScanEscaped(input, name[1..], rest, quote, s.(buf := s.buf + [ch]));
      assert s.buf + [ch] + name[1..] == s.buf + name;
    }
  }

  lemma {:induction false} ScanBare(input: string, name: string, rest: string, quote: char, s: Scan)
    requires !s.inQuoted && !s.afterQuoted && '.' !in name
    requires s.buf != "" || name == "" || name[0] != quote
    ensures ScanFrom(input, name + rest, quote, s) == ScanFrom(input, rest, quote, s.(buf := s.buf + name))
    decreases |name|
  {
    if name == "" {
      assert name + rest == rest && s.buf + name == s.buf;
    } else {
      assert (name + rest)[1..] == name[1..] + rest;
      assert name[0] != '.';
      ScanBare(input, name[1..], rest, quote, s.(buf := s.buf + [name[0]]));
      assert s.buf + [name[0]] + name[1..] == s.buf + name;
    }
  }

  /** One printed segment, up to a dot or the end. */
  lemma ScanSegment(input: string, segment: Segment, rest: string, quote: char, done: seq<Segment>)
    requires Printable(segment, quote) && quote != '.' && (rest == "" || rest[0] == '.')
    ensures ScanFrom(input, PrintSegment(segment, quote) + rest, quote, Scan(done, "", false, false, false)) ==
            ScanFrom(input, rest, quote, Scan(done, segment.value, segment.quoted, false, segment.quoted))
  {
    var blank := Scan(done, "", false, false, false);
    if segment.quoted {
      var text := PrintSegment(segment, quote) + rest;
      assert text[1..] == Escaped(segment.value, quote) + [quote] + rest;
      ScanEscaped(input, segment.value, rest, quote, blank.(inQuoted := true, quoted := true));
      assert "" + segment.value == segment.value;
    } else {
      ScanBare(input, segment.value, rest, quote, blank);
      assert "" + segment.value == segment.value;
    }
  }

  /** A dot closes the segment before it. */
  lemma ScanDot(input: string, done: seq<Segment>, tail: string, quote: char)
    requires done != []
    ensures var previous := done[|done| - 1];
            ScanFrom(input, "." + tail, quote,
                     Scan(done[..|done| - 1], previous.value, previous.quoted, false, previous.quoted)) ==
            ScanFrom(input, tail, quote, FRESH.(segments := done))
  {
    assert ("." + tail)[1..] == tail;
    var previous := done[|done| - 1];
    assert done[..|done| - 1] + [previous] == done;
    assert Segment(previous.value, previous.quoted) == previous;
  }

  lemma {:induction false} ScanSegments(input: string, segments: seq<Segment>, rest: string, quote: char)
    requires segments != [] && AllPrintable(segments, quote) && quote != '.' && (rest == "" || rest[0] == '.')
    ensures var last := segments[|segments| - 1];
            ScanFrom(input, Print(segments, quote) + rest, quote, FRESH) ==
            ScanFrom(input, rest, quote, Scan(segments[..|segments| - 1], last.value, last.quoted, false, last.quoted))
    decreases |segments|
  {
    hide Escaped, QuoteIdent, PrintSegment, Printable;
    var last, done := segments[|segments| - 1], segments[..|segments| - 1];
    if done == [] {
      ScanSegment(input, last, rest, quote, done);
    } else {
      var tail := PrintSegment(last, quote) + rest;
      assert Print(segments, quote) + rest == Print(done, quote) + ("." + tail);
      hide Print;
      ScanSegments(input, done, "." + tail, quote);
      ScanDot(input, done, tail, quote);
      hide ScanFrom;
      ScanSegment(input, last, rest, quote, done);
    }
  }

  lemma ParsedIsPrinted(input: string, quote: char)
    requires quote != '.' && Parsed(input, quote).Ok?
    ensures var segments := Parsed(input, quote).value;
            segments != [] && AllPrintable(segments, quote) && Print(segments, quote) == input
  {
    hide ScanFrom, Print, AllPrintable;
    assert Coherent(FRESH, quote) by {
      FreshScan(quote);
    }
    ScanPrints(input, input, quote, FRESH);
    FreshScan(quote);
    assert "" + input == input;
  }

  lemma FreshScan(quote: char)
    ensures Coherent(FRESH, quote) && Consumed(FRESH, quote) == ""
  {
  }

  lemma PrintedIsParsed(segments: seq<Segment>, quote: char)
    requires quote != '.' && segments != [] && AllPrintable(segments, quote)
    ensures Parsed(Print(segments, quote), quote) == Ok(segments)
  {
    hide Print, AllPrintable;
    var input := Print(segments, quote);
    ScanSegments(input, segments, "", quote);
    assert input + "" == input;
    var last := segments[|segments| - 1];
    assert segments[..|segments| - 1] + [Segment(last.value, last.quoted)] == segments;
  }

  /**
   The scanner is the exact inverse of the printer: it returns `segments` if and only if they are
   printable and their printed form is the input.
   */
  lemma ParseInvertsPrint(input: string, segments: seq<Segment>, quote: char)
    requires quote != '.'
    ensures Parsed(input, quote) == Ok(segments) <==>
            segments != [] && AllPrintable(segments, quote) && Print(segments, quote) == input
  {
    hide Parsed, Print, AllPrintable;
    if Parsed(input, quote) == Ok(segments) {
      ParsedIsPrinted(input, quote);
    }
    if segments != [] && AllPrintable(segments, quote) && Print(segments, quote) == input {
      PrintedIsParsed(segments, quote);
    }
  }

  // ---- Quoting and splitting a user's identifier ----

  /** `is_bare_ident_char` */
  predicate IsBareChar(ch: char) {
    'a' <= ch <= 'z' || 'A' <= ch <= 'Z' || '0' <= ch <= '9' || ch == '_' || ch == '$'
  }

  /** The error a segment's check ends with, if any. */
  function SegmentError(s: Segment): Option<IdentifierError> {
    if s.value == "" then Some(EmptySegment)
    else if s.quoted then None
    else UnsupportedIn(s.value, s.value)
  }

  function UnsupportedIn(segment: string, rest: string): Option<IdentifierError> {
    if rest == "" then None
    else if !IsBareChar(rest[0]) then Some(UnsupportedChar(segment, rest[0]))
    else UnsupportedIn(segment, rest[1..])
  }

  function FirstError(segments: seq<Segment>): Option<IdentifierError> {
    if segments == [] then None
    else if SegmentError(segments[0]).Some? then SegmentError(segments[0])
    else FirstError(segments[1..])
  }

  /** The segments both `quote_qualified` and `split_qualified` go on with. */
  function Accepted(name: string, quote: char): Result<seq<Segment>, IdentifierError> {
    var r := Parsed(name, quote);
    if r.Err? then r
    else if |r.value| > MAX_SEGMENTS then Err(TooManySegments(name, |r.value|, MAX_SEGMENTS))
    else if FirstError(r.value).Some? then Err(FirstError(r.value).value)
    else r
  }

  function AllQuoted(segments: seq<Segment>): (r: seq<Segment>)
    ensures |r| == |segments|
  {
    seq(|segments|, i requires 0 <= i < |segments| => Segment(segments[i].value, true))
  }

  function Quoted(name: string, quote: char): Result<string, IdentifierError>
    requires quote != '.'
  {
    var r := Accepted(name, quote);
    if r.Err? then Err(r.error)
    else
      ParseInvertsPrint(name, r.value, quote);
      Ok(Print(AllQuoted(r.value), quote))
  }

  /** `quote_ident` */
  method WriteQuoted(name: string, quote: char) returns (out: string)
    ensures out == QuoteIdent(name, quote)
  {
    out := [quote];
    for i := 0 to |name|
      invariant out == [quote] + Escaped(name[..i], quote)
    {
      EscapedLast(name[..i], name[i], quote);
      assert name[..i + 1] == name[..i] + [name[i]];
      if name[i] == quote {
        out := out + [quote, quote];
      } else {
        out := out + [name[i]];
      }
    }
    assert name[..|name|] == name;
    out := out + [quote];
  }

  /** `validate_segment` on bare segments and the emptiness check on quoted ones. */
  method CheckSegment(s: Segment) returns (e: Option<IdentifierError>)
    ensures e == SegmentError(s)
  {
    if s.value == "" {
      return Some(EmptySegment);
    }
    if s.quoted {
      return None;
    }
    assert s.value[0..] == s.value;
    for i := 0 to |s.value|
      invariant UnsupportedIn(s.value, s.value[i..]) == UnsupportedIn(s.value, s.value)
    {
      assert s.value[i..][1..] == s.value[i + 1..];
      if !IsBareChar(s.value[i]) {
        return Some(UnsupportedChar(s.value, s.value[i]));
      }
    }
    return None;
  }

  /** `quote_qualified` */
  method QuoteQualified(name: string, quote: char) returns (r: Result<string, IdentifierError>)
    requires quote != '.'
    ensures r == Quoted(name, quote)
  {
    var segments :- ParseQualified(name, quote);
    ParseInvertsPrint(name, segments, quote);
    if |segments| > MAX_SEGMENTS {
      return Err(TooManySegments(name, |segments|, MAX_SEGMENTS));
    }
    hide Parsed, QuoteIdent, SegmentError;
    var out := "";
    ghost var all := AllQuoted(segments);
    assert segments[0..] == segments;
    for i := 0 to |segments|
      invariant FirstError(segments[i..]) == FirstError(segments)
      invariant i == 0 ==> out == ""
      invariant i > 0 ==> out == Print(all[..i], quote)
    {
      assert segments[i..][1..] == segments[i + 1..];
      var e := CheckSegment(segments[i]);
      if e.Some? {
        return Err(e.value);
      }
      if i > 0 {
        out := out + ".";
      }
      PrintAppend(all[..i], all[i], quote);
      assert all[..i + 1] == all[..i] + [all[i]];
      var text := WriteQuoted(segments[i].value, quote);
      out := out + text;
    }
    assert all[..|segments|] == all;
    return Ok(out);
  }

  /** `split_qualified` of ClickHouse: a bare name has no database. */
  method SplitQualified(name: string, quote: char) returns (r: Result<(Option<string>, string), IdentifierError>)
    requires quote != '.'
    ensures r == Split(name, quote)
  {
    var segments :- ParseQualified(name, quote);
    ParseInvertsPrint(name, segments, quote);
    if |segments| > MAX_SEGMENTS {
      return Err(TooManySegments(name, |segments|, MAX_SEGMENTS));
    }
    hide Parsed, SegmentError;
    assert segments[0..] == segments;
    for i := 0 to |segments|
      invariant FirstError(segments[i..]) == FirstError(segments)
    {
      assert segments[i..][1..] == segments[i + 1..];
      var e := CheckSegment(segments[i]);
      if e.Some? {
        return Err(e.value);
      }
    }
    if |segments| == 1 {
      return Ok((None, segments[0].value));
    }
    return Ok((Some(segments[0].value), segments[1].value));
  }

  function Split(name: string, quote: char): Result<(Option<string>, string), IdentifierError>
    requires quote != '.'
  {
    var r := Accepted(name, quote);
    if r.Err? then Err(r.error)
    else
      ParseInvertsPrint(name, r.value, quote);
      Ok(if |r.value| == 1 then (None, r.value[0].value) else (Some(r.value[0].value), r.value[1].value))
  }

  const DOUBLE_QUOTE: char := '\"'

  /** `split_qualified` of Postgres: a bare name is in the schema `public`. */
  method SplitPostgres(name: string) returns (r: Result<(string, string), IdentifierError>)
    ensures r == PostgresSplit(name)
  {
    var split :- SplitQualified(name, DOUBLE_QUOTE);
    return Ok((if split.0.Some? then split.0.value else "public", split.1));
  }

  function PostgresSplit(name: string): Result<(string, string), IdentifierError> {
    var r := Split(name, DOUBLE_QUOTE);
    if r.Err? then Err(r.error)
    else Ok((if r.value.0.Some? then r.value.0.value else "public", r.value.1))
  }

  // ---- Quoting keeps the meaning ----

  function FromStrings(names: seq<string>): (r: seq<Segment>)
    ensures |r| == |names|
  {
    seq(|names|, i requires 0 <= i < |names| => Segment(names[i], true))
  }

  /** Any strings at all, quoted and joined by dots, are read back, all of them as quoted. */
  lemma QuotedNamesReadBack(names: seq<string>, quote: char)
    requires names != [] && quote != '.'
    ensures Parsed(Print(FromStrings(names), quote), quote) == Ok(FromStrings(names))
  {
    ParseInvertsPrint(Print(FromStrings(names), quote), FromStrings(names), quote);
  }

  lemma {:induction false} QuotedSegmentsPass(segments: seq<Segment>)
    requires FirstError(segments) == None
    ensures FirstError(AllQuoted(segments)) == None
  {
    if segments == [] {
    } else {
      QuotedSegmentsPass(segments[1..]);
      assert AllQuoted(segments)[1..] == AllQuoted(segments[1..]);
    }
  }

  /** The quoted form is accepted and holds the same names. */
  lemma QuotedIsAccepted(name: string, quote: char)
    requires quote != '.' && Accepted(name, quote).Ok?
    ensures Accepted(Quoted(name, quote).value, quote) == Ok(AllQuoted(Accepted(name, quote).value))
  {
    var segments := Accepted(name, quote).value;
    ParseInvertsPrint(name, segments, quote);
    ParseInvertsPrint(Print(AllQuoted(segments), quote), AllQuoted(segments), quote);
    QuotedSegmentsPass(segments);
  }

  /** `quote_qualified` leaves its own output alone. */
  lemma QuotingIsFixed(name: string, quote: char)
    requires quote != '.' && Quoted(name, quote).Ok?
    ensures Quoted(Quoted(name, quote).value, quote) == Quoted(name, quote)
  {
    QuotedIsAccepted(name, quote);
    var segments := Accepted(name, quote).value;
    assert AllQuoted(AllQuoted(segments)) == AllQuoted(segments);
  }

  /** Splitting accepts exactly what quoting accepts, fails alike, and sees the same names after quoting. */
  lemma SplittingAgrees(name: string, quote: char)
    requires quote != '.'
    ensures Split(name, quote).Ok? <==> Quoted(name, quote).Ok?
    ensures Split(name, quote).Err? ==> Quoted(name, quote) == Err(Split(name, quote).error)
    ensures Quoted(name, quote).Ok? ==> Split(Quoted(name, quote).value, quote) == Split(name, quote)
  {
    if Quoted(name, quote).Ok? {
      QuotedIsAccepted(name, quote);
    }
  }

  /** The same for Postgres; a bare name and its `public.` form name the same table. */
  lemma PostgresAgrees(name: string)
    ensures PostgresSplit(name).Ok? <==> Quoted(name, DOUBLE_QUOTE).Ok?
    ensures Quoted(name, DOUBLE_QUOTE).Ok? ==> PostgresSplit(Quoted(name, DOUBLE_QUOTE).value) == PostgresSplit(name)
    ensures IsBareName(name) ==> PostgresSplit(name) == Ok(("public", name)) == PostgresSplit("public." + name)
  {
    SplittingAgrees(name, DOUBLE_QUOTE);
    if IsBareName(name) {
      BareNameParses(name);
    }
  }

  /** ASCII letters, digits, underscores and dollars only. */
  predicate OnlyBare(text: string) {
    forall i | 0 <= i < |text| ::
      'a' <= text[i] <= 'z' || 'A' <= text[i] <= 'Z' || '0' <= text[i] <= '9' || text[i] == '_' || text[i] == '$'
  }

  predicate IsBareName(name: string) {
    name != "" && OnlyBare(name)
  }

  lemma {:induction false} BareIsSupported(segment: string, rest: string)
    requires OnlyBare(rest)
    ensures UnsupportedIn(segment, rest) == None
  {
    if rest == "" {
    } else {
      BareIsSupported(segment, rest[1..]);
    }
  }

  lemma BareNameParses(name: string)
    requires IsBareName(name)
    ensures Accepted(name, DOUBLE_QUOTE) == Ok([Segment(name, false)])
    ensures Accepted("public." + name, DOUBLE_QUOTE) == Ok([Segment("public", false), Segment(name, false)])
  {
    var one, schema := Segment(name, false), Segment("public", false);
    var two := [schema, one];
    BareIsPrintable(name);
    BareIsPrintable("public");
    assert AllPrintable([one], DOUBLE_QUOTE) && AllPrintable(two, DOUBLE_QUOTE);
    assert Print([one], DOUBLE_QUOTE) == name;
    ParseInvertsPrint(name, [one], DOUBLE_QUOTE);
    assert two[..1] == [schema] && Print(two, DOUBLE_QUOTE) == "public." + name;
    ParseInvertsPrint("public." + name, two, DOUBLE_QUOTE);
    BareIsSupported(name, name);
    BareIsSupported("public", "public");
    assert [one][1..] == [] && two[1..] == [one];
    assert FirstError([one]) == None;
  }

  lemma BareIsPrintable(name: string)
    requires IsBareName(name)
    ensures Printable(Segment(name, false), DOUBLE_QUOTE)
  {
    assert name[0] != DOUBLE_QUOTE;
    forall i | 0 <= i < |name| ensures name[i] != '.' {
    }
  }

  // ---- What is accepted, and what is reported ----

  lemma OnlyBareCons(ch: char, text: string)
    ensures OnlyBare([ch] + text) <==> IsBareChar(ch) && OnlyBare(text)
  {
    var all := [ch] + text;
    if OnlyBare(all) {
      assert all[0] == ch;
      forall i | 0 <= i < |text| ensures IsBareChar(text[i]) {
        assert all[i + 1] == text[i];
      }
    }
  }

  lemma {:induction false} UnsupportedExactly(segment: string, rest: string)
    ensures UnsupportedIn(segment, rest) == None <==> OnlyBare(rest)
  {
    if rest == "" {
    } else {
      hide OnlyBare, IsBareChar;
      UnsupportedExactly(segment, rest[1..]);
      OnlyBareCons(rest[0], rest[1..]);
      assert rest == [rest[0]] + rest[1..];
    }
  }

  /** The first character that is not bare is the one reported. */
  lemma {:induction false} ReportedChar(segment: string, rest: string, k: nat)
    requires k < |rest| && OnlyBare(rest[..k]) && !OnlyBare(rest[k..k + 1])
    ensures UnsupportedIn(segment, rest) == Some(UnsupportedChar(segment, rest[k]))
  {
    if k == 0 {
      assert rest[..1] == [rest[0]] + "";
    } else {
      hide OnlyBare, IsBareChar;
      assert rest[..k] == [rest[0]] + rest[1..][..k - 1];
      OnlyBareCons(rest[0], rest[1..][..k - 1]);
      assert rest[1..][k - 1..k] == rest[k..k + 1];
      ReportedChar(segment, rest[1..], k - 1);
    }
  }

  predicate GoodSegment(s: Segment) {
    s.value != "" && (s.quoted || OnlyBare(s.value))
  }

  lemma {:induction false} NoErrorExactly(segments: seq<Segment>)
    ensures FirstError(segments) == None <==> forall i | 0 <= i < |segments| :: GoodSegment(segments[i])
    ensures forall k: nat | k < |segments| && !GoodSegment(segments[k]) && (forall i | 0 <= i < k :: GoodSegment(segments[i])) ::
              FirstError(segments) == SegmentError(segments[k])
  {
    if segments == [] {
    } else {
      UnsupportedExactly(segments[0].value, segments[0].value);
      NoErrorExactly(segments[1..]);
      hide SegmentError, GoodSegment;
      GoodExactly(segments[0]);
      assert forall i | 0 <= i < |segments| - 1 :: segments[1..][i] == segments[i + 1];
      assert segments == [segments[0]] + segments[1..];
      forall k: nat | k < |segments| && !GoodSegment(segments[k]) && (forall i | 0 <= i < k :: GoodSegment(segments[i]))
        ensures FirstError(segments) == SegmentError(segments[k])
      {
        if k > 0 {
          assert segments[1..][k - 1] == segments[k];
          assert forall i | 0 <= i < k - 1 :: GoodSegment(segments[1..][i]);
        }
      }
    }
  }

  lemma GoodExactly(s: Segment)
    ensures SegmentError(s) == None <==> GoodSegment(s)
  {
    UnsupportedExactly(s.value, s.value);
  }

  /** A name is accepted exactly when it prints one or two segments, each quoted or of bare characters, none empty. */
  lemma AcceptedExactly(name: string, segments: seq<Segment>, quote: char)
    requires quote != '.'
    ensures Accepted(name, quote) == Ok(segments) <==>
            && 1 <= |segments| <= 2 && Print(segments, quote) == name && AllPrintable(segments, quote)
            && forall i | 0 <= i < |segments| :: GoodSegment(segments[i])
  {
    hide Parsed, Print, AllPrintable, FirstError, GoodSegment;
    ParseInvertsPrint(name, segments, quote);
    NoErrorExactly(segments);
  }
}
