/** The INI adapter: rows carry the section they are in, so a chunk must begin with a header. */
module Ini {
  import opened Wrappers
  import opened SplitPoints
  import opened Chunking
  import opened Values
  import opened TextLines
  import DecimalText

  type Wants = string -> bool

  datatype Line = Skipped | Header(name: string) | Pair(key: string, value: string)

  function ParseKv(line: string): Line {
    var equals, colon := FindChar(line, '='), FindChar(line, ':');
    if equals.Some? then PairAt(line, equals.value)
    else if colon.Some? then PairAt(line, colon.value)
    else Skipped
  }

  function PairAt(line: string, pos: nat): Line
    requires pos < |line|
  {
    Pair(DecimalText.TrimEnd(line[..pos]), DecimalText.TrimStart(line[pos + 1..]))
  }

  /** Blank lines, comments, headers that are not closed and lines with no separator are skipped. */
  function Classify(line: string): Line {
    var trimmed := DecimalText.Trim(line);
    if trimmed == "" then Skipped
    else if trimmed[0] == '[' then
      var close := FindChar(trimmed, ']');
      if close.Some? then Header(trimmed[1..close.value]) else Skipped
    else if trimmed[0] == ';' || trimmed[0] == '#' then Skipped
    else ParseKv(trimmed)
  }

  /** The texts on the two sides of the first `=`, or of the first colon if there is none, but for
      the white space next to it. */
  lemma PairParts(line: string) returns (gap: string, sep: char, gap2: string)
    requires '=' in line || ':' in line
    ensures var pair := ParseKv(line);
            && pair.Pair? && line == pair.key + gap + [sep] + (gap2 + pair.value)
            && sep == (if '=' in line then '=' else ':') && sep !in pair.key + gap
            && DecimalText.Space(gap) && DecimalText.Space(gap2)
            && (pair.key != "" ==> !DecimalText.IsWhitespace(pair.key[|pair.key| - 1]))
            && (pair.value != "" ==> !DecimalText.IsWhitespace(pair.value[0]))
  {
    sep := if '=' in line then '=' else ':';
    gap, gap2 := PartsAt(line, FindChar(line, sep).value);
  }

  lemma PartsAt(line: string, pos: nat) returns (gap: string, gap2: string)
    requires pos < |line|
    ensures var pair := PairAt(line, pos);
            && pair.key + gap == line[..pos] && line == pair.key + gap + [line[pos]] + (gap2 + pair.value)
            && DecimalText.Space(gap) && DecimalText.Space(gap2)
            && (pair.key != "" ==> !DecimalText.IsWhitespace(pair.key[|pair.key| - 1]))
            && (pair.value != "" ==> !DecimalText.IsWhitespace(pair.value[0]))
  {
    gap := DecimalText.EndTrimmed(line[..pos]);
    gap2 := DecimalText.StartTrimmed(line[pos + 1..]);
    assert line == line[..pos] + [line[pos]] + line[pos + 1..];
  }

  /** What a line means, once white space is gone from its ends. Nothing remains of a blank line;
      `[` opens a header that names what comes before the first `]` and is skipped without one;
      `;` and `#` begin comments; and any other is a pair or has no separator. */
  lemma LineMeans(line: string) returns (before: string, text: string, after: string, rest: string)
    ensures DecimalText.Space(before) && DecimalText.Space(after) && line == before + (text + after)
    ensures text != "" ==> !DecimalText.IsWhitespace(text[0]) && !DecimalText.IsWhitespace(text[|text| - 1])
    ensures var kind := Classify(line);
            if text == "" || text[0] in ";#" then kind == Skipped
            else if text[0] == '[' then
              && (kind == Skipped <==> ']' !in text)
              && (kind != Skipped ==> kind.Header? && text == "[" + kind.name + "]" + rest && ']' !in kind.name)
            else if '=' in text || ':' in text then kind.Pair? && kind == ParseKv(text)
            else kind == Skipped
  {
    before, after := DecimalText.Trimmed(line);
    text, rest := DecimalText.Trim(line), "";
    var close := FindChar(text, ']');
    if text != "" && text[0] == '[' && close.Some? {
      rest := text[close.value + 1..];
      assert text == "[" + text[1..close.value] + "]" + rest;
    }
  }

  function Row(section: string, key: string, value: string, wants: Wants): seq<Event> {
    [BeginRow] + (if wants("section") then [Put("section", Str(section))] else [])
    + (if wants(key) then [Put(key, Str(value))] else []) + [EndRow]
  }

  function RowOf(line: Line, section: string, wants: Wants): seq<Event> {
    if line.Pair? then Row(section, line.key, line.value, wants) else []
  }

  /** A pair sends one row: its section and its value, each if wanted. No other line does. */
  lemma RowMeans(line: Line, section: string, wants: Wants)
    ensures Records([line], section, wants) ==
            match line
            case Pair(key, value) =>
              [BeginRow] + (if wants("section") then [Put("section", Str(section))] else [])
              + (if wants(key) then [Put(key, Str(value))] else []) + [EndRow]
            case _ => []
  {
    LastRecord(line, section, wants);
  }

  function SectionIn(line: Line, section: string): string { if line.Header? then line.name else section }

  /** The lines of a text, as the parser takes them. */
  function Parsed(text: string): seq<Line> { ClassifyAll(Lines(text)) }

  function ClassifyAll(lines: seq<string>): (r: seq<Line>)
    ensures |r| == |lines| && forall i :: 0 <= i < |lines| ==> r[i] == Classify(lines[i])
  {
    if lines == [] then [] else [Classify(lines[0])] + ClassifyAll(lines[1..])
  }

  lemma ParsedConcat(a: string, b: string)
    requires EndsLine(a)
    ensures Parsed(a + b) == Parsed(a) + Parsed(b)
  {
    LinesConcat(a, b);
  }

  /** The rows of the lines, the first of them in `section`. */
  function Records(lines: seq<Line>, section: string, wants: Wants): seq<Event> {
    if lines == [] then []
    else RowOf(lines[0], section, wants) + Records(lines[1..], SectionIn(lines[0], section), wants)
  }

  /** The section that holds after the lines: that of the last closed header. */
  function SectionAfter(lines: seq<Line>, section: string): string {
    if lines == [] then section else SectionAfter(lines[1..], SectionIn(lines[0], section))
  }

  /** Some row comes before the first closed header. */
  predicate NeedsSection(lines: seq<Line>) {
    lines != [] && (lines[0].Pair? || (lines[0].Skipped? && NeedsSection(lines[1..])))
  }

  function Parse(text: string, wants: Wants): Outcome { Rows(Records(Parsed(text), "", wants)) }

  function ParserFor(wants: Wants): Parser { text => Parse(text, wants) }

  lemma NextLine(events: seq<Event>, lines: seq<Line>, i: nat, section: string, wants: Wants)
    requires i < |lines|
    ensures events + Records(lines[i..], section, wants)
            == events + RowOf(lines[i], section, wants) + Records(lines[i + 1..], SectionIn(lines[i], section), wants)
  {
    assert lines[i..][0] == lines[i] && lines[i..][1..] == lines[i + 1..];
    ConcatAssoc(events, RowOf(lines[i], section, wants), Records(lines[i + 1..], SectionIn(lines[i], section), wants));
  }

  method ParseLines(lines: seq<string>, wants: Wants) returns (events: seq<Event>)
    ensures events == Records(ClassifyAll(lines), "", wants)
  {
    var section := "";
    events := [];
    ghost var kinds := ClassifyAll(lines);
    ghost var all := Records(kinds, "", wants);
    assert kinds[0..] == kinds;
    for i := 0 to |lines|
      invariant events + Records(kinds[i..], section, wants) == all
    {
      NextLine(events, kinds, i, section, wants);
      ghost var left := Records(kinds[i + 1..], SectionIn(kinds[i], section), wants);
      match Classify(lines[i]) {
        case Skipped => assert events + [] == events;
        case Header(name) =>
          assert events + [] == events;
          section := name;
        case Pair(key, value) => events := events + Row(section, key, value, wants);
      }
      assert events + left == all;
    }
  }

  /** The name in the last closed header before line `i`, or nothing if there is none. */
  function SectionBefore(lines: seq<Line>, i: nat): (section: string)
    requires i <= |lines|
    ensures || (exists h :: 0 <= h < i && lines[h] == Header(section) && forall k :: h < k < i ==> !lines[k].Header?)
            || (section == "" && forall k :: 0 <= k < i ==> !lines[k].Header?)
  {
    if i == 0 then "" else if lines[i - 1].Header? then lines[i - 1].name else SectionBefore(lines, i - 1)
  }

  /** The rows of the first `n` lines, each in the section of the last closed header before it. */
  function Placed(lines: seq<Line>, n: nat, wants: Wants): seq<Event>
    requires n <= |lines|
  {
    if n == 0 then [] else Placed(lines, n - 1, wants) + RowOf(lines[n - 1], SectionBefore(lines, n - 1), wants)
  }

  lemma {:induction false} SectionIsBefore(lines: seq<Line>, n: nat)
    requires n <= |lines|
    ensures SectionAfter(lines[..n], "") == SectionBefore(lines, n)
  {
    if n > 0 {
      SectionIsBefore(lines, n - 1);
      assert lines[..n] == lines[..n - 1] + [lines[n - 1]];
      SectionLast(lines[..n - 1], lines[n - 1], "");
    }
  }

  lemma {:induction false} SectionLast(lines: seq<Line>, last: Line, section: string)
    ensures SectionAfter(lines + [last], section) == SectionIn(last, SectionAfter(lines, section))
  {
    if lines == [] {
      assert lines + [last] == [last] && [last][1..] == [];
    } else {
      assert (lines + [last])[1..] == lines[1..] + [last];
      SectionLast(lines[1..], last, SectionIn(lines[0], section));
    }
  }

  /** Carrying the section along is looking back for the last closed header. */
  lemma {:induction false} RecordsArePlaced(lines: seq<Line>, n: nat, wants: Wants)
    requires n <= |lines|
    ensures Records(lines[..n], "", wants) == Placed(lines, n, wants)
  {
    if n > 0 {
      var last := lines[n - 1];
      RecordsArePlaced(lines, n - 1, wants);
      SectionIsBefore(lines, n - 1);
      assert lines[..n] == lines[..n - 1] + [last];
      RecordsConcat(lines[..n - 1], [last], "", wants);
      LastRecord(last, SectionBefore(lines, n - 1), wants);
    }
  }

  lemma LastRecord(last: Line, section: string, wants: Wants)
    ensures Records([last], section, wants) == RowOf(last, section, wants)
  {
    assert [last][1..] == [] && Records([], SectionIn(last, section), wants) == [];
  }

  /** `parse_chunk`; it never fails. */
  method ParseChunk(text: string, wants: Wants) returns (outcome: Outcome)
    ensures outcome == Rows(Placed(Parsed(text), |Parsed(text)|, wants)) == Parse(text, wants)
  {
    RecordsArePlaced(Parsed(text), |Parsed(text)|, wants);
    assert Parsed(text)[..|Parsed(text)|] == Parsed(text);
    var events := ParseLines(Lines(text), wants);
    return Rows(events);
  }

  /** The rows sent to the sink are properly opened and closed. */
  lemma {:induction false} RowsBracketed(lines: seq<Line>, section: string, wants: Wants)
    ensures Bracketed(Records(lines, section, wants), false)
  {
    if lines != [] {
      RowsBracketed(lines[1..], SectionIn(lines[0], section), wants);
      LineBracketed(lines[0], section, wants);
      BracketedConcat(RowOf(lines[0], section, wants), Records(lines[1..], SectionIn(lines[0], section), wants), false);
    }
  }

  lemma LineBracketed(line: Line, section: string, wants: Wants)
    ensures Bracketed(RowOf(line, section, wants), false)
  {
    if line.Pair? {
      var fields := (if wants("section") then [Put("section", Str(section))] else [])
                    + (if wants(line.key) then [Put(line.key, Str(line.value))] else []);
      RowBracketed(fields);
      assert RowOf(line, section, wants) == [BeginRow] + fields + [EndRow];
    }
  }

  // ---------------------------------------------------------------- what a cut changes

  lemma {:induction false} RecordsConcat(first: seq<Line>, second: seq<Line>, section: string, wants: Wants)
    ensures Records(first + second, section, wants)
            == Records(first, section, wants) + Records(second, SectionAfter(first, section), wants)
  {
    if first == [] {
      assert first + second == second;
    } else {
      assert (first + second)[1..] == first[1..] + second;
      var next := SectionIn(first[0], section);
      RecordsConcat(first[1..], second, next, wants);
      ConcatAssoc(RowOf(first[0], section, wants), Records(first[1..], next, wants),
                  Records(second, SectionAfter(first[1..], next), wants));
    }
  }

  lemma {:induction false} SectionKeepsLength(lines: seq<Line>, section: string, other: string, wants: Wants)
    ensures |Records(lines, section, wants)| == |Records(lines, other, wants)|
  {
    if lines != [] && !lines[0].Header? {
      SectionKeepsLength(lines[1..], section, other, wants);
    }
  }

  /** The starting section shows exactly when it is wanted, differs, and reaches some row. */
  lemma {:induction false} SectionShows(lines: seq<Line>, section: string, other: string, wants: Wants)
    ensures Records(lines, section, wants) == Records(lines, other, wants)
            <==> !wants("section") || section == other || !NeedsSection(lines)
  {
    if lines != [] {
      if lines[0].Skipped? { SectionShows(lines[1..], section, other, wants); }
      if lines[0].Pair? { FirstRowShows(lines, section, other, wants); }
    }
  }

  lemma FirstRowShows(lines: seq<Line>, section: string, other: string, wants: Wants)
    requires lines != [] && lines[0].Pair?
    ensures Records(lines, section, wants) == Records(lines, other, wants) <==> !wants("section") || section == other
  {
    if !wants("section") {
      SameRows(lines[1..], section, other, wants);
    } else {
      assert Records(lines, section, wants)[1] == Put("section", Str(section));
      assert Records(lines, other, wants)[1] == Put("section", Str(other));
    }
  }

  lemma {:induction false} SameRows(lines: seq<Line>, section: string, other: string, wants: Wants)
    requires !wants("section")
    ensures Records(lines, section, wants) == Records(lines, other, wants)
  {
    if lines != [] && !lines[0].Header? { SameRows(lines[1..], section, other, wants); }
  }

  /** The text after `before` does not miss the section it starts in. */
  predicate Keeps(before: string, chunk: string, wants: Wants) {
    !wants("section") || SectionAfter(Parsed(before), "") == "" || !NeedsSection(Parsed(chunk))
  }

  /** One cut after a newline: the parts give the rows of the whole exactly when the second does
      not miss its section; it never changes how many events there are or those of the first. */
  lemma CutShows(before: string, chunk: string, wants: Wants)
    requires EndsLine(before)
    ensures Parse(before + chunk, wants) == Then(Parse(before, wants), Parse(chunk, wants))
        <==> Keeps(before, chunk, wants)
    ensures |Parse(before + chunk, wants).events| == |Parse(before, wants).events| + |Parse(chunk, wants).events|
    ensures Parse(before, wants).events <= Parse(before + chunk, wants).events
  {
    var first, second := Parsed(before), Parsed(chunk);
    var section := SectionAfter(first, "");
    ParsedConcat(before, chunk);
    RecordsConcat(first, second, "", wants);
    SectionShows(second, section, "", wants);
    SectionKeepsLength(second, section, "", wants);
    SameHead(Records(first, "", wants), Records(second, section, wants), Records(second, "", wants));
  }

  lemma SameHead<T>(head: seq<T>, a: seq<T>, b: seq<T>)
    ensures head + a == head + b <==> a == b
  {
    if head + a == head + b { assert a == (head + a)[|head|..] == (head + b)[|head|..] == b; }
  }

  // ---------------------------------------------------------------- the splitter

  /** The line at `p` has `[` after ASCII white space. */
  predicate HeaderAt(s: string, p: nat)
    requires p <= |s|
  {
    var start := TrimStartMatches(s[p..NewlineFrom(s, p)], IsAsciiWhitespace);
    start != "" && start[0] == '['
  }

  predicate StartsSection(s: string, p: nat) { p < |s| && IsLineStart(s, p) && HeaderAt(s, p) }

  function FirstSection(s: string, i: nat): (r: Option<nat>)
    ensures match r
            case None => forall p :: i <= p ==> !StartsSection(s, p)
            case Some(p) => i <= p && StartsSection(s, p) && forall q :: i <= q < p ==> !StartsSection(s, q)
    decreases |s| - i
  {
    if i >= |s| then None else if StartsSection(s, i) then Some(i) else FirstSection(s, i + 1)
  }

  /** The first header line after `from`. */
  function NextRecordStart(s: string, from: nat): Option<nat> { FirstSection(s, from + 1) }

  lemma SectionIs(s: string, i: nat, p: nat)
    requires i <= p && StartsSection(s, p) && forall q :: i <= q < p ==> !StartsSection(s, q)
    ensures FirstSection(s, i) == Some(p)
  {
  }

  lemma NoneWithin(s: string, start: nat, end: nat)
    requires start <= end <= |s| && forall k :: start <= k < end ==> s[k] != '\n'
    ensures forall p :: start < p <= end ==> !StartsSection(s, p)
  {
    forall p | start < p <= end ensures !StartsSection(s, p) { assert s[p - 1] != '\n'; }
  }

  /** `IniSplitter::next_record_start`. */
  method FindRecordStart(s: string, from: nat) returns (r: Option<nat>)
    ensures r == NextRecordStart(s, from)
  {
    if from >= |s| { return None; }
    var start := FirstLineFrom(s, from);
    while start < |s|
      invariant from <= start && (start < |s| ==> IsLineStart(s, start))
      invariant forall p :: from < p < start ==> !StartsSection(s, p)
      decreases |s| - start
    {
      var end := NewlineFrom(s, start);
      var first := TrimStartMatches(s[start..end], IsAsciiWhitespace);
      if start != from && first != "" && first[0] == '[' {
        SectionIs(s, from + 1, start);
        return Some(start);
      }
      NoneWithin(s, start, end);
      start := end + 1;
    }
    return None;
  }

  /** `from` if a line starts there, or the start of the next line. */
  method FirstLineFrom(s: string, from: nat) returns (start: nat)
    requires from < |s|
    ensures from <= start && (start < |s| ==> IsLineStart(s, start))
    ensures forall p :: from < p < start ==> !StartsSection(s, p)
  {
    start := LineStart(s, from);
    if start < from {
      var end := NewlineFrom(s, from);
      NoneWithin(s, from, end);
      start := if end == |s| then |s| else end + 1;
    }
  }

  // ---------------------------------------------------------------- whole plans

  ghost predicate AfterNewlines(s: string, points: seq<nat>) {
    forall k :: 0 < k < |points| - 1 ==> 0 < points[k] <= |s| && s[points[k] - 1] == '\n'
  }

  predicate ChunkKeepsAt(s: string, points: seq<nat>, wants: Wants, k: nat) {
    k + 1 < |points| && points[k] <= points[k + 1] <= |s| && Keeps(s[..points[k]], s[points[k]..points[k + 1]], wants)
  }

  function ChunkKeeps(s: string, points: seq<nat>, wants: Wants): nat -> bool {
    (k: nat) => ChunkKeepsAt(s, points, wants, k)
  }

  lemma PointsFit(s: string, points: seq<nat>, k: nat)
    requires Plan(points, |s|) && k < |points| - 1
    ensures points[k] <= points[k + 1] <= |s|
  {
    assert points[k + 1] <= points[|points| - 1];
  }

  lemma ExactAt(s: string, points: seq<nat>, k: nat, wants: Wants)
    requires Plan(points, |s|) && AfterNewlines(s, points) && k < |points| - 1
    ensures ExactCutAt(s, points, ParserFor(wants), ChunkKeeps(s, points, wants), k)
  {
    PointsFit(s, points, k);
    var p, q := points[k], points[k + 1];
    assert s[..q] == s[..p] + s[p..q];
    assert EndsLine(s[..p]);
    CutShows(s[..p], s[p..q], wants);
  }

  lemma AscendingExact(s: string, points: seq<nat>, wants: Wants)
    requires Plan(points, |s|) && AfterNewlines(s, points) && Ascending(points)
    ensures forall r :: r in Ranges(points, |s|) ==> r.start < r.end <= |s|
    ensures ParseRanges(s, Ranges(points, |s|), ParserFor(wants)) == Parse(s, wants)
            <==> forall k: nat :: k < |points| - 1 ==> ChunkKeepsAt(s, points, wants, k)
  {
    var parse, keeps := ParserFor(wants), ChunkKeeps(s, points, wants);
    forall k: nat | k < |points| - 1 ensures ExactCutAt(s, points, parse, keeps, k) {
      ExactAt(s, points, k, wants);
    }
    assert parse("") == Rows([]) by { assert Lines("") == []; }
    ChunksExact(s, points, parse, keeps);
    assert forall k: nat :: keeps(k) == ChunkKeepsAt(s, points, wants, k);
  }

  /** Chunks cut after newlines give the rows of the whole input exactly when no chunk misses
      the section it starts in. */
  lemma ChunkedParseExact(s: string, points: seq<nat>, wants: Wants)
    requires Plan(points, |s|) && AfterNewlines(s, points)
    ensures forall r :: r in Ranges(points, |s|) ==> r.start < r.end <= |s|
    ensures ParseRanges(s, Ranges(points, |s|), ParserFor(wants)) == Parse(s, wants)
            <==> forall k: nat :: k < |points| - 1 ==> ChunkKeepsAt(s, points, wants, k)
  {
    if Ascending(points) { AscendingExact(s, points, wants); } else { EmptyPlan(points, wants); }
  }

  lemma EmptyPlan(points: seq<nat>, wants: Wants)
    requires points == [0, 0]
    ensures Ranges(points, 0) == [] && Parse("", wants) == Rows([]) && ChunkKeepsAt("", points, wants, 0)
  {
    assert Windows(points[1..]) == [];
    assert Lines("") == [];
    assert ""[..0] == "" && ""[0..0] == "";
    assert Parsed("") == [];
  }

  // ---------------------------------------------------------------- closed headers

  /** Every line that starts like a header is closed. */
  predicate HeadersClosed(lines: seq<string>) {
    forall line :: line in lines ==>
      var trimmed := DecimalText.Trim(line); trimmed != "" && trimmed[0] == '[' ==> ']' in trimmed
  }

  lemma {:induction false} AsciiTrim(s: string)
    requires var t := TrimStartMatches(s, IsAsciiWhitespace); t != "" && !DecimalText.IsWhitespace(t[0])
    ensures TrimStartMatches(s, IsAsciiWhitespace) == DecimalText.TrimStart(s)
  {
    if s != "" && IsAsciiWhitespace(s[0]) { AsciiTrim(s[1..]); }
  }

  lemma {:induction false} TrimEndKeepsFirst(s: string)
    requires s != "" && !DecimalText.IsWhitespace(s[0])
    ensures var t := DecimalText.TrimEnd(s); t != "" && t[0] == s[0]
  {
    if DecimalText.IsWhitespace(s[|s| - 1]) { TrimEndKeepsFirst(s[..|s| - 1]); }
  }

  lemma {:induction false} TrimStartStripCr(s: string)
    requires var t := TrimStartMatches(s, IsAsciiWhitespace); t != "" && t[0] == '['
    ensures var t := TrimStartMatches(StripCr(s), IsAsciiWhitespace); t != "" && t[0] == '['
  {
    if s != "" && IsAsciiWhitespace(s[0]) {
      TrimStartStripCr(s[1..]);
      assert |s| >= 2;
      assert StripCr(s)[1..] == StripCr(s[1..]);
    }
  }

  /** What the splitter takes for a header, the parser takes for one too. */
  lemma HeaderSeen(line: string)
    requires var t := TrimStartMatches(line, IsAsciiWhitespace); t != "" && t[0] == '['
    ensures var t := DecimalText.Trim(line); t != "" && t[0] == '['
  {
    AsciiTrim(line);
    TrimEndKeepsFirst(DecimalText.TrimStart(line));
  }

  lemma FirstLine(s: string)
    requires s != ""
    ensures Lines(s) != [] && var line := s[..NewlineFrom(s, 0)]; Lines(s)[0] in {line, StripCr(line)}
  {
    assert s[..|s|] == s;
  }

  lemma {:induction false} NewlineShift(s: string, p: nat, i: nat)
    requires p <= i <= |s|
    ensures NewlineFrom(s[p..], i - p) == NewlineFrom(s, i) - p
    decreases |s| - i
  {
    if i < |s| && s[i] != '\n' { NewlineShift(s, p, i + 1); }
  }

  lemma SplitterHeader(s: string, p: nat)
    requires StartsSection(s, p)
    ensures Lines(s[p..]) != [] && var t := DecimalText.Trim(Lines(s[p..])[0]); t != "" && t[0] == '['
  {
    NewlineShift(s, p, p);
    FirstLine(s[p..]);
    var line := s[p..NewlineFrom(s, p)];
    assert s[p..][..NewlineFrom(s[p..], 0)] == line;
    TrimStartStripCr(line);
    HeaderSeen(Lines(s[p..])[0]);
  }

  /** The first line of a chunk of whole lines is the first line from there on. */
  lemma ChunkLine(s: string, p: nat, q: nat)
    requires p < q <= |s| && (q == |s| || IsLineStart(s, q))
    ensures Lines(s[p..q]) != [] && Lines(s[p..]) != [] && Lines(s[p..q])[0] == Lines(s[p..])[0]
  {
    var chunk, rest := s[p..q], s[q..];
    FirstLine(chunk);
    if q < |s| {
      assert s[p..] == chunk + rest;
      LinesConcat(chunk, rest);
    } else {
      assert chunk == s[p..];
    }
  }

  lemma LineOfWhole(s: string, p: nat)
    requires p <= |s| && IsLineStart(s, p) && Lines(s[p..]) != []
    ensures Lines(s[p..])[0] in Lines(s)
  {
    var first, second := Lines(s[..p]), Lines(s[p..]);
    assert s == s[..p] + s[p..];
    LinesConcat(s[..p], s[p..]);
    assert second[0] == (first + second)[|first|];
  }

  /** A chunk that the splitter starts begins with a header line, closed if all are. */
  lemma StartsClosed(s: string, p: nat, q: nat)
    requires StartsSection(s, p) && p < q <= |s| && (q == |s| || IsLineStart(s, q))
    requires HeadersClosed(Lines(s))
    ensures !NeedsSection(Parsed(s[p..q]))
  {
    SplitterHeader(s, p);
    ChunkLine(s, p, q);
    LineOfWhole(s, p);
  }

  lemma AllChunksKeep(s: string, points: seq<nat>, k: nat, wants: Wants)
    requires Plan(points, |s|) && Ascending(points) && k < |points| - 1 && HeadersClosed(Lines(s))
    requires forall i :: 0 < i < |points| - 1 ==> StartsSection(s, points[i])
    ensures ChunkKeepsAt(s, points, wants, k)
  {
    PointsFit(s, points, k);
    if k > 0 {
      StartsClosed(s, points[k], points[k + 1]);
    } else {
      assert s[..0] == "";
    }
  }

  /** However an input is planned into chunks, if its headers are closed then parsing the chunks
      is parsing the input. */
  lemma ChunkedParse(s: string, points: seq<nat>, maxChunks: nat, minChunkBytes: nat, wants: Wants)
    requires PlanFor(s, points, NextRecordStart, None, maxChunks, minChunkBytes)
    requires HeadersClosed(Lines(s))
    ensures forall r :: r in Ranges(points, |s|) ==> r.start < r.end <= |s|
    ensures ParseRanges(s, Ranges(points, |s|), ParserFor(wants)) == Parse(s, wants)
  {
    PlanForIsPlan(s, points, NextRecordStart, None, maxChunks, minChunkBytes);
    forall k | 0 < k < |points| - 1
      ensures StartsSection(s, points[k]) && 0 < points[k] <= |s| && s[points[k] - 1] == '\n'
    {
      var from := InteriorFromSplitter(s, points, NextRecordStart, None, maxChunks, minChunkBytes, k);
      assert points[k] > points[0];
    }
    ChunkedParseExact(s, points, wants);
    if Ascending(points) {
      forall k: nat | k < |points| - 1 ensures ChunkKeepsAt(s, points, wants, k) {
        AllChunksKeep(s, points, k, wants);
      }
    } else {
      EmptyPlan(points, wants);
    }
  }

  lemma LineThen(line: string, rest: string, all: string)
    requires '\n' !in line && StripCr(line) == line && all == line + "\n" + rest
    ensures Lines(all) == [line] + Lines(rest)
  {
    PeelLine(line, rest);
  }

  lemma ExampleLines()
    ensures Lines("[a]\n") == ["[a]"] && Lines("[b\nk=v\n") == ["[b", "k=v"]
  {
    LineThen("[a]", "", "[a]\n");
    LineThen("k=v", "", "k=v\n");
    LineThen("[b", "k=v\n", "[b\nk=v\n");
  }

  lemma ExampleSections()
    ensures SectionAfter(ClassifyAll(["[a]"]), "") == "a" && NeedsSection(ClassifyAll(["[b", "k=v"]))
  {
    assert Classify("[a]") == Header("a");
    assert ["[b", "k=v"][1..] == ["k=v"];
  }

  /** An unclosed header starts a chunk, and its rows lose the section they belong to. */
  lemma UnclosedHeaderLosesSection()
    ensures NextRecordStart("[a]\n[b\nk=v\n", 0) == Some(|"[a]\n"|)
    ensures Parse("[a]\n" + "[b\nk=v\n", _ => true)
            != Then(Parse("[a]\n", _ => true), Parse("[b\nk=v\n", _ => true))
  {
    ExampleLines();
    ExampleSections();
    CutShows("[a]\n", "[b\nk=v\n", _ => true);
    ExampleSplit();
  }

  lemma ExampleSplit()
    ensures NextRecordStart("[a]\n[b\nk=v\n", 0) == Some(4)
  {
    var s := "[a]\n[b\nk=v\n";
    NewlineIs(s, 4, 6);
    assert s[4..6] == "[b";
    SectionIs(s, 1, 4);
  }
}
