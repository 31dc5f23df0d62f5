/** The LDIF adapter: records separated by blank lines. */
module Ldif {
  import opened Wrappers
  import opened SplitPoints
  import opened Chunking
  import opened Values
  import opened TextLines
  import opened Boundary

  type Wants = string -> bool

  /** The field of an ordinary line; base64 and URL values fail, a line with no colon is empty. */
  function Field(line: string, wants: Wants): Outcome {
    match FindChar(line, ':')
    case None => Rows([])
    case Some(colon) =>
      var key, rest := line[..colon], line[colon + 1..];
      if rest != "" && (rest[0] == ':' || rest[0] == '<') then Failed
      else if wants(key) then Rows([Put(key, Str(TrimStartMatches(rest, c => c == ' ')))])
      else Rows([])
  }

  function Close(inRecord: bool): Outcome { Rows(if inRecord then [EndRow] else []) }

  function Open(inRecord: bool): Outcome { Rows(if inRecord then [] else [BeginRow]) }

  /** What one line sends to the sink. Folded lines fail. */
  function LineEvents(line: string, inRecord: bool, wants: Wants): Outcome {
    if line == "" then Close(inRecord)
    else if line[0] == ' ' then Failed
    else if line[0] == '#' then Rows([])
    else Then(Open(inRecord), Field(line, wants))
  }

  function InRecordAfter(line: string, inRecord: bool): bool {
    line != "" && (line[0] == '#' ==> inRecord)
  }

  /** A record is a run of lines up to a blank line: a row opened at its first line that is no
      comment and closed at the blank line or the end. */
  function Records(lines: seq<string>, inRecord: bool, wants: Wants): Outcome {
    if lines == [] then Close(inRecord)
    else
      Then(LineEvents(lines[0], inRecord, wants), Records(lines[1..], InRecordAfter(lines[0], inRecord), wants))
  }

  function Parse(text: string, wants: Wants): Outcome { Records(Lines(text), false, wants) }

  function ParserFor(wants: Wants): Parser { text => Parse(text, wants) }

  /** What a line means. A blank line closes an open row, a folded one fails, and a comment sends
      nothing. Any other opens the row; with a colon it is a key, the colon, blanks and a value,
      and then it fails exactly if a colon or `<` follows the first colon, and otherwise sends
      the value of a wanted key. */
  lemma LineMeans(line: string, inRecord: bool, wants: Wants) returns (key: string, blanks: string, value: string)
    ensures var sent, start := LineEvents(line, inRecord, wants), if inRecord then [] else [BeginRow];
            if line == "" then sent == Rows(if inRecord then [EndRow] else [])
            else if line[0] == ' ' then sent == Failed
            else if line[0] == '#' then sent == Rows([])
            else if ':' !in line then sent == Rows(start)
            else
              && line == key + ":" + blanks + value && ':' !in key
              && (forall i :: 0 <= i < |blanks| ==> blanks[i] == ' ') && (value != "" ==> value[0] != ' ')
              && (sent == Failed <==> blanks == "" && value != "" && value[0] in ":<")
              && (sent != Failed ==> sent == Rows(start + if wants(key) then [Put(key, Str(value))] else []))
  {
    key, blanks, value := FieldParts(line, wants);
  }

  lemma FieldParts(line: string, wants: Wants) returns (key: string, blanks: string, value: string)
    ensures var sent := Field(line, wants);
            if ':' !in line then sent == Rows([])
            else
              && line == key + ":" + blanks + value && ':' !in key
              && (forall i :: 0 <= i < |blanks| ==> blanks[i] == ' ') && (value != "" ==> value[0] != ' ')
              && (sent == Failed <==> blanks == "" && value != "" && value[0] in ":<")
              && (sent != Failed ==> sent == Rows(if wants(key) then [Put(key, Str(value))] else []))
  {
    key, blanks, value := "", "", "";
    var colon := FindChar(line, ':');
    if colon.Some? {
      var rest := line[colon.value + 1..];
      blanks := TrimmedParts(rest, c => c == ' ');
      key, value := line[..colon.value], TrimStartMatches(rest, c => c == ' ');
      assert line == key + ":" + rest;
      assert key + ":" + blanks + value == key + ":" + (blanks + value);
    }
  }

  /** What is left to emit, one line further. */
  lemma NextLine(events: seq<Event>, lines: seq<string>, i: nat, inRecord: bool, wants: Wants)
    requires i < |lines|
    ensures Then(Rows(events), Records(lines[i..], inRecord, wants)) ==
            Then(Then(Rows(events), LineEvents(lines[i], inRecord, wants)),
                 Records(lines[i + 1..], InRecordAfter(lines[i], inRecord), wants))
  {
    assert lines[i..][0] == lines[i] && lines[i..][1..] == lines[i + 1..];
    ThenAssoc(Rows(events), LineEvents(lines[i], inRecord, wants),
              Records(lines[i + 1..], InRecordAfter(lines[i], inRecord), wants));
  }

  method PutField(line: string, wants: Wants, events: seq<Event>) returns (outcome: Outcome)
    ensures outcome == Then(Rows(events), Field(line, wants))
  {
    var colon := FindChar(line, ':');
    if colon.None? { return Rows(events); }
    var key, rest := line[..colon.value], line[colon.value + 1..];
    if rest != "" && rest[0] == ':' { return Failed; }
    if rest != "" && rest[0] == '<' { return Failed; }
    var value := TrimStartMatches(rest, c => c == ' ');
    return if wants(key) then Rows(events + [Put(key, Str(value))]) else Rows(events);
  }

  /** One round of the loop. */
  method ReadLine(line: string, wasInRecord: bool, before: seq<Event>, wants: Wants)
    returns (outcome: Outcome, inRecord: bool)
    ensures outcome == Then(Rows(before), LineEvents(line, wasInRecord, wants))
    ensures inRecord == InRecordAfter(line, wasInRecord)
  {
    inRecord := wasInRecord;
    var events := before;
    if line == "" {
      if inRecord {
        events := events + [EndRow];
        inRecord := false;
      }
      return Rows(events), inRecord;
    }
    if line[0] == ' ' { return Failed, true; }
    if line[0] == '#' { return Rows(events), inRecord; }
    ThenAssoc(Rows(events), Open(inRecord), Field(line, wants));
    if !inRecord {
      events := events + [BeginRow];
      inRecord := true;
    }
    outcome := PutField(line, wants, events);
  }

  method ParseLines(lines: seq<string>, wants: Wants) returns (outcome: Outcome)
    ensures outcome == Records(lines, false, wants)
  {
    var inRecord := false;
    var events := [];
    ghost var all := Records(lines, false, wants);
    NothingBefore(all);
    assert lines[0..] == lines;
    for i := 0 to |lines|
      invariant Then(Rows(events), Records(lines[i..], inRecord, wants)) == all
    {
      NextLine(events, lines, i, inRecord, wants);
      var read;
      read, inRecord := ReadLine(lines[i], inRecord, events, wants);
      if read.Failed? { return Failed; }
      events := read.events;
    }
    if inRecord { events := events + [EndRow]; }
    return Rows(events);
  }

  // ---------------------------------------------------------------- what a record is

  /** The lines between the blank ones. */
  function Groups(lines: seq<string>): (groups: seq<seq<string>>)
    ensures groups != []
  {
    if lines == [] then [[]]
    else
      var rest := Groups(lines[1..]);
      if lines[0] == "" then [[]] + rest else [[lines[0]] + rest[0]] + rest[1..]
  }

  /** Groups put back together with one blank line between each two. */
  function Ungroup(groups: seq<seq<string>>): seq<string>
    requires groups != []
  {
    if |groups| == 1 then groups[0] else groups[0] + [""] + Ungroup(groups[1..])
  }

  /** The groups hold all the lines in order but for the blank ones between them. */
  lemma {:induction false} GroupsAre(lines: seq<string>)
    ensures Ungroup(Groups(lines)) == lines
    ensures forall g :: g in Groups(lines) ==> "" !in g
  {
    if lines != [] {
      GroupsAre(lines[1..]);
      var rest, groups := Groups(lines[1..]), Groups(lines);
      if lines[0] == "" {
        assert groups[1..] == rest && [""] + lines[1..] == lines;
      } else if |rest| > 1 {
        assert groups[1..] == rest[1..];
        assert [lines[0]] + rest[0] + [""] + Ungroup(rest[1..]) == [lines[0]] + lines[1..];
      }
      forall g | g in groups ensures "" !in g {
        var i :| 0 <= i < |groups| && groups[i] == g;
        if lines[0] == "" { assert i > 0 ==> g == rest[i - 1]; } else { assert i > 0 ==> g == rest[i]; }
      }
    }
  }

  /** There is only one way to cut lines like that. */
  lemma {:induction false} GroupsUnique(groups: seq<seq<string>>)
    requires groups != [] && forall g :: g in groups ==> "" !in g
    ensures Groups(Ungroup(groups)) == groups
    decreases |groups|, |groups[0]|
  {
    var first, lines := groups[0], Ungroup(groups);
    if first != [] {
      var shorter := [first[1..]] + groups[1..];
      assert first[0] in first;
      forall i | 0 <= i < |shorter| ensures "" !in shorter[i] { assert groups[i] in groups; }
      GroupsUnique(shorter);
      assert shorter[1..] == groups[1..] && lines == [first[0]] + Ungroup(shorter);
      assert groups == [first] + groups[1..] && first == [first[0]] + first[1..];
    } else if |groups| > 1 {
      GroupsUnique(groups[1..]);
      assert lines == [""] + Ungroup(groups[1..]);
      assert groups == [[]] + groups[1..];
    }
  }

  /** The lines of a group that are no comments. */
  function Content(group: seq<string>): seq<string> {
    if group == [] then []
    else (if StartsWith(group[0], "#") then [] else [group[0]]) + Content(group[1..])
  }

  /** The wanted fields of these lines in order, unless one is folded, base64 or a URL. */
  function FieldsOf(content: seq<string>, wants: Wants): Outcome {
    if content == [] then Rows([])
    else Then(if StartsWith(content[0], " ") then Failed else Field(content[0], wants), FieldsOf(content[1..], wants))
  }

  /** The fields up to the end of the row. */
  function Finished(content: seq<string>, wants: Wants): Outcome {
    Then(FieldsOf(content, wants), Rows([EndRow]))
  }

  /** One row for a group that is more than comments, and none otherwise. */
  function GroupRow(group: seq<string>, wants: Wants): Outcome {
    if Content(group) == [] then Rows([]) else Then(Rows([BeginRow]), Finished(Content(group), wants))
  }

  function GroupRows(groups: seq<seq<string>>, wants: Wants): Outcome {
    if groups == [] then Rows([]) else Then(GroupRow(groups[0], wants), GroupRows(groups[1..], wants))
  }

  /** The rest of the group of an open row, and what follows. */
  function Rest(group: seq<string>, after: Outcome, wants: Wants): Outcome {
    Then(Finished(Content(group), wants), after)
  }

  /** The flag of the line loop does just this: each group of lines between blank ones that is
      more than comments is one row of its wanted fields in order, and nothing else is sent. */
  lemma {:induction false} RecordsAreGroups(lines: seq<string>, wants: Wants)
    ensures Records(lines, false, wants) == GroupRows(Groups(lines), wants)
    ensures Records(lines, true, wants) == Rest(Groups(lines)[0], GroupRows(Groups(lines)[1..], wants), wants)
  {
    if lines == [] {
      assert Groups(lines)[1..] == [];
    } else {
      RecordsAreGroups(lines[1..], wants);
      if lines[0] == "" { BlankFirst(lines, wants); } else { LineFirst(lines, wants); }
    }
  }

  lemma BlankFirst(lines: seq<string>, wants: Wants)
    requires lines != [] && lines[0] == ""
    requires Records(lines[1..], false, wants) == GroupRows(Groups(lines[1..]), wants)
    ensures Records(lines, false, wants) == GroupRows(Groups(lines), wants)
    ensures Records(lines, true, wants) == Rest(Groups(lines)[0], GroupRows(Groups(lines)[1..], wants), wants)
  {
    var groups, after := Groups(lines), GroupRows(Groups(lines[1..]), wants);
    assert groups[0] == [] && groups[1..] == Groups(lines[1..]);
    assert Finished([], wants) == Rows([EndRow]);
    NothingBefore(after);
  }

  lemma LineFirst(lines: seq<string>, wants: Wants)
    requires lines != [] && lines[0] != ""
    requires var rest := Groups(lines[1..]);
             && Records(lines[1..], false, wants) == GroupRows(rest, wants)
             && Records(lines[1..], true, wants) == Rest(rest[0], GroupRows(rest[1..], wants), wants)
    ensures Records(lines, false, wants) == GroupRows(Groups(lines), wants)
    ensures Records(lines, true, wants) == Rest(Groups(lines)[0], GroupRows(Groups(lines)[1..], wants), wants)
  {
    var line, rest, groups := lines[0], Groups(lines[1..]), Groups(lines);
    assert groups[0] == [line] + rest[0] && groups[1..] == rest[1..];
    var after := GroupRows(rest[1..], wants);
    LineInRow(line, rest[0], after, wants);
    LineBeforeRow(line, rest[0], after, wants);
  }

  /** A line in an open row. */
  lemma LineInRow(line: string, group: seq<string>, after: Outcome, wants: Wants)
    requires line != ""
    ensures Then(LineEvents(line, true, wants), Rest(group, after, wants)) == Rest([line] + group, after, wants)
  {
    assert ([line] + group)[1..] == group;
    NothingBefore(Rest(group, after, wants));
    if line[0] == '#' { CommentInFront(line, group); } else { FieldInFront(line, group, after, wants); }
  }

  lemma CommentInFront(line: string, group: seq<string>)
    requires line != "" && line[0] == '#'
    ensures Content([line] + group) == Content(group)
  {
    assert ([line] + group)[1..] == group;
    assert line == "#" + line[1..];
  }

  lemma FieldInFront(line: string, group: seq<string>, after: Outcome, wants: Wants)
    requires line != "" && line[0] != '#'
    ensures Content([line] + group) == [line] + Content(group)
    ensures Rest([line] + group, after, wants)
            == Then(if line[0] == ' ' then Failed else Field(line, wants), Rest(group, after, wants))
    ensures LineEvents(line, true, wants) == if line[0] == ' ' then Failed else Field(line, wants)
  {
    assert ([line] + group)[1..] == group;
    var content, whole := Content(group), Content([line] + group);
    assert whole[0] == line && whole[1..] == content;
    var field := if line[0] == ' ' then Failed else Field(line, wants);
    ThenAssoc(field, FieldsOf(content, wants), Rows([EndRow]));
    ThenAssoc(field, Finished(content, wants), after);
    NothingBefore(Field(line, wants));
  }

  /** A line before the row of its group is open: a comment leaves it closed. */
  lemma LineBeforeRow(line: string, group: seq<string>, after: Outcome, wants: Wants)
    requires line != ""
    ensures var rest := if line[0] == '#' then Then(GroupRow(group, wants), after) else Rest(group, after, wants);
            Then(LineEvents(line, false, wants), rest) == Then(GroupRow([line] + group, wants), after)
  {
    assert ([line] + group)[1..] == group;
    if line[0] == '#' {
      CommentInFront(line, group);
      NothingBefore(Then(GroupRow(group, wants), after));
    } else {
      FieldInFront(line, group, after, wants);
      var field := if line[0] == ' ' then Failed else Field(line, wants);
      ThenAssoc(Rows([BeginRow]), Finished(Content([line] + group), wants), after);
      ThenAssoc(Rows([BeginRow]), field, Rest(group, after, wants));
    }
  }

  /** `parse_chunk`: one row for each group of lines between blank ones that is more than
      comments, or a failure if such a group holds a line that the adapter rejects. */
  method ParseChunk(text: string, wants: Wants) returns (outcome: Outcome)
    ensures outcome == GroupRows(Groups(Lines(text)), wants) == Parse(text, wants)
  {
    RecordsAreGroups(Lines(text), wants);
    outcome := ParseLines(Lines(text), wants);
  }

  /** Whatever the input, the rows sent to the sink are properly opened and closed. */
  lemma {:induction false} RowsBracketed(lines: seq<string>, inRecord: bool, wants: Wants)
    ensures var r := Records(lines, inRecord, wants); r.Rows? ==> Bracketed(r.events, inRecord)
  {
    if lines != [] {
      var inside := InRecordAfter(lines[0], inRecord);
      RowsBracketed(lines[1..], inside, wants);
      LineBracketed(lines[0], inRecord, wants, Records(lines[1..], inside, wants));
    }
  }

  lemma LineBracketed(line: string, inRecord: bool, wants: Wants, after: Outcome)
    requires after.Rows? ==> Bracketed(after.events, InRecordAfter(line, inRecord))
    ensures var r := Then(LineEvents(line, inRecord, wants), after); r.Rows? ==> Bracketed(r.events, inRecord)
  {
    NothingBefore(after);
    if line == "" {
      if inRecord && after.Rows? { assert ([EndRow] + after.events)[1..] == after.events; }
    } else if line[0] != ' ' && line[0] != '#' {
      ThenAssoc(Open(inRecord), Field(line, wants), after);
      FieldBracketed(line, wants, after);
      var r := Then(Field(line, wants), after);
      NothingBefore(r);
      if r.Rows? { assert ([BeginRow] + r.events)[1..] == r.events; }
    }
  }

  lemma FieldBracketed(line: string, wants: Wants, after: Outcome)
    requires after.Rows? ==> Bracketed(after.events, true)
    ensures var r := Then(Field(line, wants), after); r.Rows? ==> Bracketed(r.events, true)
  {
    NothingBefore(after);
    var r := Then(Field(line, wants), after);
    if r.Rows? && Field(line, wants).events != [] { assert r.events[1..] == after.events; }
  }

  // ---------------------------------------------------------------- cutting

  /** No record is open before the first line, or a blank line ends the lines. */
  predicate ClosedAfter(lines: seq<string>, inRecord: bool) {
    if lines == [] then !inRecord else lines[|lines| - 1] == ""
  }

  lemma {:induction false} CutAfterBlank(first: seq<string>, second: seq<string>, inRecord: bool, wants: Wants)
    requires ClosedAfter(first, inRecord)
    ensures Records(first + second, inRecord, wants)
            == Then(Records(first, inRecord, wants), Records(second, false, wants))
  {
    var after := Records(second, false, wants);
    if first == [] {
      assert first + second == second;
      NothingBefore(after);
    } else {
      assert (first + second)[1..] == first[1..] + second;
      var inside := InRecordAfter(first[0], inRecord);
      CutAfterBlank(first[1..], second, inside, wants);
      ThenAssoc(LineEvents(first[0], inRecord, wants), Records(first[1..], inside, wants), after);
    }
  }

  /** `LdifSplitter::next_record_start`. */
  function NextRecordStart(s: string, from: nat): Option<nat> { FirstBoundary(s, from, None, [], true) }

  /** The splitter's points come one past a blank line. */
  predicate AfterBlank(s: string, p: nat) {
    && 2 <= p <= |s| && s[p - 1] == '\n'
    && (s[p - 2] == '\n' || (p >= 3 && s[p - 2] == '\r' && s[p - 3] == '\n'))
  }

  lemma SplitsAfterBlank(s: string, from: nat)
    ensures match NextRecordStart(s, from)
            case None => forall p: nat :: from < p <= |s| ==> !AfterBlank(s, p)
            case Some(q) => from < q && AfterBlank(s, q) && forall p: nat :: from < p < q ==> !AfterBlank(s, p)
  {
    FirstBoundaryIsFirst(s, from, None, [], true);
    forall p: nat | 0 < p <= |s| ensures IsBoundary(s, p - 1, None, [], true) <==> AfterBlank(s, p) {
    }
  }

  lemma BlankEnding(a: string) returns (x: string, line: string)
    requires AfterBlank(a, |a|)
    ensures a == x + (line + "\n") && EndsLine(x) && (line == "" || line == "\r")
  {
    if a[|a| - 2] == '\n' {
      x, line := a[..|a| - 1], "";
    } else {
      x, line := a[..|a| - 2], "\r";
    }
  }

  lemma EndsBlank(a: string)
    requires AfterBlank(a, |a|)
    ensures EndsLine(a) && ClosedAfter(Lines(a), false)
  {
    var x, line := BlankEnding(a);
    BlankTail(x, line);
  }

  lemma BlankTail(x: string, line: string)
    requires EndsLine(x) && (line == "" || line == "\r")
    ensures Lines(x + (line + "\n")) == Lines(x) + [""]
  {
    PeelLine(line, "");
    assert line + "\n" + "" == line + "\n";
    assert StripCr(line) == "";
    LinesConcat(x, line + "\n");
  }

  /** A cut after a blank line is invisible, whatever follows: rows and failure are unchanged. */
  lemma CutInvisible(a: string, b: string, wants: Wants)
    requires AfterBlank(a, |a|)
    ensures Parse(a + b, wants) == Then(Parse(a, wants), Parse(b, wants))
  {
    EndsBlank(a);
    LinesConcat(a, b);
    CutAfterBlank(Lines(a), Lines(b), false, wants);
  }

  lemma SplitsGood(s: string, from: nat, wants: Wants)
    requires NextRecordStart(s, from).Some?
    ensures GoodCut(s, NextRecordStart(s, from).value, ParserFor(wants))
  {
    SplitsAfterBlank(s, from);
    var p := NextRecordStart(s, from).value;
    forall q | p <= q <= |s| ensures Parse(s[..q], wants) == Then(Parse(s[..p], wants), Parse(s[p..q], wants)) {
      assert s[..q] == s[..p] + s[p..q];
      CutInvisible(s[..p], s[p..q], wants);
    }
  }

  /** However an input is planned into chunks, parsing the chunks is parsing the input. */
  lemma ChunkedParse(s: string, points: seq<nat>, maxChunks: nat, minChunkBytes: nat, wants: Wants)
    requires PlanFor(s, points, NextRecordStart, None, maxChunks, minChunkBytes)
    ensures forall r :: r in Ranges(points, |s|) ==> r.start < r.end <= |s|
    ensures ParseRanges(s, Ranges(points, |s|), ParserFor(wants)) == Parse(s, wants)
  {
    var parse := ParserFor(wants);
    forall from | NextRecordStart(s, from).Some? ensures GoodCut(s, NextRecordStart(s, from).value, parse) {
      SplitsGood(s, from, wants);
    }
    PlannedChunksAgree(s, points, NextRecordStart, None, maxChunks, minChunkBytes, parse);
  }
}
