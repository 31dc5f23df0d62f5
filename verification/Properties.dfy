/** The properties adapter: one row a line. */
module Properties {
  import opened Wrappers
  import opened SplitPoints
  import opened Chunking
  import opened Values
  import opened TextLines

  type Wants = string -> bool

  predicate IsSeparator(c: char) { c == '=' || c == ':' || IsAsciiWhitespace(c) }

  /** The length of the text before the first separator. */
  function KeyLength(line: string): (n: nat)
    ensures n <= |line| && (n < |line| ==> IsSeparator(line[n]))
    ensures forall i :: 0 <= i < n ==> !IsSeparator(line[i])
  {
    if line == "" || IsSeparator(line[0]) then 0 else 1 + KeyLength(line[1..])
  }

  /** The value in the text from the first separator on. */
  function AfterSeparator(rest: string): string {
    var value := TrimStartMatches(rest, IsAsciiWhitespace);
    if value != "" && (value[0] == '=' || value[0] == ':') then TrimStartMatches(value[1..], IsAsciiWhitespace)
    else value
  }

  function ParseKv(line: string): (string, string) {
    var pos := KeyLength(line);
    if pos == |line| then (line, "") else (line[..pos], AfterSeparator(line[pos..]))
  }

  ghost predicate Blank(s: string) { forall i :: 0 <= i < |s| ==> IsAsciiWhitespace(s[i]) }

  /** White space, at most one `=` or `:`, and more white space. */
  ghost predicate Separates(gap: string, sep: string, gap2: string, value: string) {
    && Blank(gap) && Blank(gap2) && sep in {"", "=", ":"}
    && (value != "" ==> !IsAsciiWhitespace(value[0]))
    && (sep == "" ==> gap2 == "" && (value != "" ==> !IsSeparator(value[0])))
  }

  lemma ValueParts(rest: string) returns (gap: string, sep: string, gap2: string)
    ensures rest == gap + (sep + (gap2 + AfterSeparator(rest)))
    ensures Separates(gap, sep, gap2, AfterSeparator(rest))
  {
    gap := TrimmedParts(rest, IsAsciiWhitespace);
    var value := TrimStartMatches(rest, IsAsciiWhitespace);
    if value != "" && (value[0] == '=' || value[0] == ':') {
      gap2 := TrimmedParts(value[1..], IsAsciiWhitespace);
      sep := [value[0]];
      assert value == sep + value[1..];
    } else {
      sep, gap2 := "", "";
      assert sep + (gap2 + value) == value;
    }
  }

  /** The key has no separator; between it and the value come white space, at most one `=` or
      `:`, and more white space; the value takes up everything that follows. */
  lemma KvParts(line: string) returns (gap: string, sep: string, gap2: string)
    ensures var (key, value) := ParseKv(line);
            && line == key + (gap + (sep + (gap2 + value)))
            && (forall i :: 0 <= i < |key| ==> !IsSeparator(key[i]))
            && Separates(gap, sep, gap2, value)
  {
    var pos := KeyLength(line);
    gap, sep, gap2 := ValueParts(line[pos..]);
    assert line == line[..pos] + line[pos..];
    if pos == |line| { gap, sep, gap2 := "", "", ""; }
  }

  function Row(line: string, wants: Wants): seq<Event> {
    var (key, value) := ParseKv(line);
    [BeginRow] + (if wants("key") then [Put("key", Str(key))] else [])
    + (if wants("value") then [Put("value", Str(value))] else []) + [EndRow]
  }

  /** One row a line, except blank lines and comments; a backslash in a row fails. */
  function Records(lines: seq<string>, wants: Wants): Outcome {
    if lines == [] then Rows([])
    else
      var trimmed := TrimStartMatches(lines[0], IsAsciiWhitespace);
      if trimmed == "" || trimmed[0] == '#' || trimmed[0] == '!' then Records(lines[1..], wants)
      else if '\\' in lines[0] then Failed
      else Then(Rows(Row(trimmed, wants)), Records(lines[1..], wants))
  }

  /** What a line means. A blank line or a comment sends nothing and any other with a backslash
      fails. What remains is white space, a key, the separator and a value, and is one row. */
  lemma LineMeans(line: string, wants: Wants)
    returns (blank: string, key: string, gap: string, sep: string, gap2: string, value: string)
    ensures var sent, text := Records([line], wants), key + (gap + (sep + (gap2 + value)));
            && line == blank + text && Blank(blank) && (text != "" ==> !IsAsciiWhitespace(text[0]))
            && (forall i :: 0 <= i < |key| ==> !IsSeparator(key[i])) && Separates(gap, sep, gap2, value)
            && if text == "" || text[0] in "#!" then sent == Rows([])
               else if '\\' in line then sent == Failed
               else sent == Rows([BeginRow] + (if wants("key") then [Put("key", Str(key))] else [])
                                 + (if wants("value") then [Put("value", Str(value))] else []) + [EndRow])
  {
    var text := TrimStartMatches(line, IsAsciiWhitespace);
    blank := TrimmedParts(line, IsAsciiWhitespace);
    gap, sep, gap2 := KvParts(text);
    key, value := ParseKv(text).0, ParseKv(text).1;
    assert [line][1..] == [] && Records([], wants) == Rows([]);
    assert Row(text, wants) + [] == Row(text, wants);
  }

  function Parse(text: string, wants: Wants): Outcome { Records(Lines(text), wants) }

  function ParserFor(wants: Wants): Parser { text => Parse(text, wants) }

  /** `parse_chunk`. */
  method ParseChunk(text: string, wants: Wants) returns (outcome: Outcome)
    ensures outcome == Parse(text, wants)
  {
    var lines, events := Lines(text), [];
    NothingBefore(Records(lines, wants));
    assert lines[0..] == lines;
    for i := 0 to |lines|
      invariant Then(Rows(events), Records(lines[i..], wants)) == Parse(text, wants)
    {
      var trimmed := TrimStartMatches(lines[i], IsAsciiWhitespace);
      if trimmed == "" || trimmed[0] == '#' || trimmed[0] == '!' { continue; }
      if '\\' in lines[i] { return Failed; }
      events := events + Row(trimmed, wants);
    }
    return Rows(events);
  }

  /** The rows sent to the sink are properly opened and closed. */
  lemma {:induction false} RowsBracketed(lines: seq<string>, wants: Wants)
    ensures var r := Records(lines, wants); r.Rows? ==> Bracketed(r.events, false)
  {
    if lines != [] {
      var rest := Records(lines[1..], wants);
      RowsBracketed(lines[1..], wants);
      var row := Row(TrimStartMatches(lines[0], IsAsciiWhitespace), wants);
      OneRow(TrimStartMatches(lines[0], IsAsciiWhitespace), wants);
      if rest.Rows? { BracketedConcat(row, rest.events, false); }
    }
  }

  lemma OneRow(line: string, wants: Wants)
    ensures Bracketed(Row(line, wants), false)
  {
    var (key, value) := ParseKv(line);
    var fields := (if wants("key") then [Put("key", Str(key))] else [])
                  + (if wants("value") then [Put("value", Str(value))] else []);
    RowBracketed(fields);
    assert Row(line, wants) == [BeginRow] + fields + [EndRow];
  }

  lemma {:induction false} CutBetweenLines(first: seq<string>, second: seq<string>, wants: Wants)
    ensures Records(first + second, wants) == Then(Records(first, wants), Records(second, wants))
  {
    if first == [] {
      assert first + second == second;
      NothingBefore(Records(second, wants));
    } else {
      assert (first + second)[1..] == first[1..] + second;
      CutBetweenLines(first[1..], second, wants);
      var trimmed := TrimStartMatches(first[0], IsAsciiWhitespace);
      ThenAssoc(Rows(Row(trimmed, wants)), Records(first[1..], wants), Records(second, wants));
    }
  }

  /** `PropertiesSplitter::next_record_start`. */
  function NextRecordStart(s: string, from: nat): Option<nat> {
    if from >= |s| || NewlineFrom(s, from) == |s| then None else Some(NewlineFrom(s, from) + 1)
  }

  /** The next record starts one past the first newline from here on. */
  lemma StartsAfterNewline(s: string, from: nat)
    ensures match NextRecordStart(s, from)
            case None => forall i :: from <= i < |s| ==> s[i] != '\n'
            case Some(p) => from < p <= |s| && s[p - 1] == '\n' && forall i :: from <= i < p - 1 ==> s[i] != '\n'
  {
  }

  /** A cut after any newline is invisible, whatever follows. */
  lemma CutInvisible(a: string, b: string, wants: Wants)
    requires EndsLine(a)
    ensures Parse(a + b, wants) == Then(Parse(a, wants), Parse(b, wants))
  {
    LinesConcat(a, b);
    CutBetweenLines(Lines(a), Lines(b), wants);
  }

  lemma SplitsGood(s: string, from: nat, wants: Wants)
    requires NextRecordStart(s, from).Some?
    ensures GoodCut(s, NextRecordStart(s, from).value, ParserFor(wants))
  {
    var p := NextRecordStart(s, from).value;
    forall q | p <= q <= |s| ensures Parse(s[..q], wants) == Then(Parse(s[..p], wants), Parse(s[p..q], wants)) {
      assert s[..q] == s[..p] + s[p..q];
      CutInvisible(s[..p], s[p..q], wants);
    }
  }

  /** However an input is planned into chunks, parsing the chunks is parsing the input. */
  lemma ChunkedParse(s: string, points: seq<nat>, maxChunks: nat, minChunkBytes: nat, wants: Wants)
    requires PlanFor(s, points, NextRecordStart, None, maxChunks, minChunkBytes)
    ensures forall r :: r in Ranges(points, |s|) ==> r.start < r.end <= |s|
    ensures ParseRanges(s, Ranges(points, |s|), ParserFor(wants)) == Parse(s, wants)
  {
    var parse := ParserFor(wants);
    forall from | NextRecordStart(s, from).Some? ensures GoodCut(s, NextRecordStart(s, from).value, parse) {
      SplitsGood(s, from, wants);
    }
    PlannedChunksAgree(s, points, NextRecordStart, None, maxChunks, minChunkBytes, parse);
  }
}
