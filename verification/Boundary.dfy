/** Declarative splitting: where the next record may start. */
module Boundary {
  import opened Wrappers
  import opened TextLines

  /** Backslashes immediately before `end`. */
  function BackslashRun(s: string, end: nat): nat
    requires end <= |s|
  {
    if end > 0 && s[end - 1] == '\\' then 1 + BackslashRun(s, end - 1) else 0
  }

  /** The end of the line whose newline is at `nl`, before an optional carriage return. */
  function LineEnd(s: string, nl: nat): (end: nat)
    requires nl < |s|
    ensures nl - 1 <= end <= nl
  {
    if nl > 0 && s[nl - 1] == '\r' then nl - 1 else nl
  }

  /** The newline at `nl` is preceded by the continuation character (an odd run of it, when
      it is a backslash). */
  predicate Continued(s: string, nl: nat, continuation: Option<char>)
    requires nl < |s|
  {
    match continuation
    case None => false
    case Some(c) =>
      var end := LineEnd(s, nl);
      if c == '\\' then s[nl] == '\n' && BackslashRun(s, end) % 2 == 1 else end > 0 && s[end - 1] == c
  }

  predicate StartsWith(s: string, prefix: string) { prefix <= s }

  predicate IsComment(line: string, prefixes: seq<string>) {
    exists i :: 0 <= i < |prefixes| && StartsWith(line, prefixes[i])
  }

  function LineAt(s: string, nl: nat): string
    requires nl <= |s|
  {
    s[LineStart(s, nl)..nl]
  }

  /** The newline at `nl` ends a record: it is not continued and its line is no comment; in
      blank-line mode the line is empty, and the line before it is neither continued nor a
      comment. */
  predicate IsBoundary(s: string, nl: nat, continuation: Option<char>, prefixes: seq<string>, blank: bool)
    requires nl < |s|
  {
    && s[nl] == '\n'
    && !Continued(s, nl, continuation)
    && !IsComment(LineAt(s, nl), prefixes)
    && (blank ==>
          var end := LineEnd(s, nl);
          && end > 0 && s[end - 1] == '\n'
          && !Continued(s, end - 1, continuation)
          && !IsComment(LineAt(s, end - 1), prefixes))
  }

  // ---------------------------------------------------------------- boundaries, line by line

  /** The line after `before` asks for the next one: what it ends with, but for a carriage return,
      is an odd number of backslashes, or the continuation character if that is another. */
  ghost predicate AsksForMore(before: string, line: string, continuation: Option<char>) {
    match continuation
    case None => false
    case Some(c) =>
      var text := before + StripCr(line);
      if c == '\\' then Slashes(StripCr(line)) % 2 == 1 else text != "" && text[|text| - 1] == c
  }

  function Slashes(line: string): nat {
    if line != "" && line[|line| - 1] == '\\' then 1 + Slashes(line[..|line| - 1]) else 0
  }

  lemma {:induction false} SlashesRun(s: string, before: string, line: string)
    requires before + line <= s && EndsLine(before)
    ensures BackslashRun(s, |before| + |line|) == Slashes(line)
    decreases |line|
  {
    if line != "" {
      assert s[|before| + |line| - 1] == (before + line)[|before| + |line| - 1] == line[|line| - 1];
      assert before + line[..|line| - 1] <= before + line;
      SlashesRun(s, before, line[..|line| - 1]);
    } else if before != "" {
      assert s[|before| - 1] == before[|before| - 1];
    }
  }

  /** Where a line lies in the text, and where it ends. */
  lemma LinePlace(s: string, before: string, line: string)
    requires before + line + "\n" <= s && EndsLine(before) && '\n' !in line
    ensures s[|before| + |line|] == '\n' && LineAt(s, |before| + |line|) == line
    ensures LineEnd(s, |before| + |line|) == |before + StripCr(line)|
    ensures before + StripCr(line) <= s
  {
    var nl := |before| + |line|;
    assert s[nl] == (before + line + "\n")[nl];
    assert s[..nl] == before + line;
    assert nl > 0 ==> s[nl - 1] == s[..nl][nl - 1];
    assert |before| > 0 ==> s[|before| - 1] == s[..nl][|before| - 1];
    forall k | |before| <= k < nl ensures s[k] != '\n' { assert s[k] == s[..nl][k] == line[k - |before|]; }
    LineStartIs(s, |before|, nl);
    assert s[|before|..nl] == line;
    assert before + StripCr(line) <= before + line;
  }

  lemma ContinuedLine(s: string, before: string, line: string, continuation: Option<char>)
    requires before + line + "\n" <= s && EndsLine(before) && '\n' !in line
    ensures Continued(s, |before| + |line|, continuation) <==> AsksForMore(before, line, continuation)
  {
    var text := before + StripCr(line);
    LinePlace(s, before, line);
    SlashesRun(s, before, StripCr(line));
    assert text != "" ==> s[|text| - 1] == text[|text| - 1];
  }

  lemma {:induction false} LineStartIs(s: string, start: nat, n: nat)
    requires start <= n <= |s| && IsLineStart(s, start) && forall k :: start <= k < n ==> s[k] != '\n'
    ensures LineStart(s, n) == start
    decreases n
  {
    if start < n { LineStartIs(s, start, n - 1); }
  }

  lemma NoComment(line: string, prefixes: seq<string>)
    ensures !IsComment(line, prefixes) <==> forall p :: p in prefixes ==> !(p <= line)
  {
    if IsComment(line, prefixes) {
      var i :| 0 <= i < |prefixes| && StartsWith(line, prefixes[i]);
      assert prefixes[i] in prefixes;
    }
  }

  /** The text before an empty line ends a line. */
  lemma AfterNewline(s: string, before: string, line: string)
    requires before + line + "\n" <= s && EndsLine(before) && '\n' !in line
    ensures var end := LineEnd(s, |before| + |line|);
            end > 0 && s[end - 1] == '\n' <==> before != "" && (line == "" || line == "\r")
    ensures line == "" || line == "\r" ==> LineEnd(s, |before| + |line|) == |before|
  {
    var text := before + StripCr(line);
    LinePlace(s, before, line);
    assert text != "" ==> s[|text| - 1] == text[|text| - 1];
    if StripCr(line) == "" {
      assert text == before;
    } else {
      assert text[|text| - 1] == StripCr(line)[|StripCr(line)| - 1];
    }
  }

  /** Which lines end a record, by their texts: one that asks for no more and is no comment; and in
      blank-line mode an empty one with a line before it that asks for no more and is no comment. */
  lemma BoundaryLine(s: string, older: string, previous: string, line: string, continuation: Option<char>,
                     prefixes: seq<string>, blank: bool)
    requires older + previous + "\n" + line + "\n" <= s
    requires EndsLine(older) && '\n' !in previous && '\n' !in line
    ensures var before := older + previous + "\n";
            IsBoundary(s, |before| + |line|, continuation, prefixes, blank) <==>
            && !AsksForMore(before, line, continuation) && (forall p :: p in prefixes ==> !(p <= line))
            && (blank ==>
                  && (line == "" || line == "\r")
                  && !AsksForMore(older, previous, continuation) && forall p :: p in prefixes ==> !(p <= previous))
  {
    var before := older + previous + "\n";
    assert before <= before + line + "\n" <= s;
    LinePlace(s, before, line);
    ContinuedLine(s, before, line, continuation);
    AfterNewline(s, before, line);
    LinePlace(s, older, previous);
    ContinuedLine(s, older, previous, continuation);
    NoComment(line, prefixes);
    NoComment(previous, prefixes);
  }

  /** The first line ends a record on the same terms, and never in blank-line mode. */
  lemma BoundaryFirst(s: string, line: string, continuation: Option<char>, prefixes: seq<string>, blank: bool)
    requires line + "\n" <= s && '\n' !in line
    ensures IsBoundary(s, |line|, continuation, prefixes, blank)
            <==> !blank && !AsksForMore("", line, continuation) && forall p :: p in prefixes ==> !(p <= line)
  {
    assert "" + line + "\n" == line + "\n";
    LinePlace(s, "", line);
    ContinuedLine(s, "", line, continuation);
    AfterNewline(s, "", line);
    NoComment(line, prefixes);
  }

  /** One past the first boundary newline at or after `from`. */
  function FirstBoundary(s: string, from: nat, continuation: Option<char>, prefixes: seq<string>,
                         blank: bool): Option<nat>
    decreases |s| - from
  {
    if from >= |s| then None
    else if IsBoundary(s, from, continuation, prefixes, blank) then Some(from + 1)
    else FirstBoundary(s, from + 1, continuation, prefixes, blank)
  }

  /** What `FirstBoundary` means. */
  lemma {:induction false} FirstBoundaryIsFirst(s: string, from: nat, continuation: Option<char>, prefixes: seq<string>,
                                                blank: bool)
    ensures match FirstBoundary(s, from, continuation, prefixes, blank)
            case None => forall nl :: from <= nl < |s| ==> !IsBoundary(s, nl, continuation, prefixes, blank)
            case Some(p) =>
              from < p <= |s| && IsBoundary(s, p - 1, continuation, prefixes, blank)
              && forall nl :: from <= nl < p - 1 ==> !IsBoundary(s, nl, continuation, prefixes, blank)
    decreases |s| - from
  {
    if from < |s| && !IsBoundary(s, from, continuation, prefixes, blank) {
      FirstBoundaryIsFirst(s, from + 1, continuation, prefixes, blank);
    }
  }

  lemma {:induction false} SkipTo(s: string, from: nat, until: nat, continuation: Option<char>, prefixes: seq<string>,
                                  blank: bool)
    requires from <= until <= |s|
    requires forall nl :: from <= nl < until ==> !IsBoundary(s, nl, continuation, prefixes, blank)
    ensures FirstBoundary(s, from, continuation, prefixes, blank)
        == FirstBoundary(s, until, continuation, prefixes, blank)
    decreases until - from
  {
    if from < until { SkipTo(s, from + 1, until, continuation, prefixes, blank); }
  }

  /** Count the backslashes before a newline, skipping a carriage return. */
  method IsContinuedNewline(s: string, pos: nat) returns (continued: bool)
    ensures continued == (pos < |s| && s[pos] == '\n' && Continued(s, pos, Some('\\')))
  {
    if pos == 0 || pos >= |s| || s[pos] != '\n' { return false; }
    var run, cursor := 0, pos;
    if s[cursor - 1] == '\r' { cursor := cursor - 1; }
    ghost var end := cursor;
    while cursor > 0 && s[cursor - 1] == '\\'
      invariant cursor <= end && run + BackslashRun(s, cursor) == BackslashRun(s, end)
    {
      run, cursor := run + 1, cursor - 1;
    }
    return run % 2 == 1;
  }

  method IsContinued(s: string, nl: nat, continuation: Option<char>) returns (continued: bool)
    requires nl < |s| && s[nl] == '\n'
    ensures continued == Continued(s, nl, continuation)
  {
    match continuation
    case None => return false;
    case Some(c) =>
      if c == '\\' {
        continued := IsContinuedNewline(s, nl);
      } else {
        var end := LineEnd(s, nl);
        return end > 0 && s[end - 1] == c;
      }
  }

  /** The tests of one round of the scan, in the order the code makes them. */
  method TestNewline(s: string, nl: nat, continuation: Option<char>, prefixes: seq<string>, blank: bool)
    returns (boundary: bool)
    requires nl < |s| && s[nl] == '\n'
    ensures boundary == IsBoundary(s, nl, continuation, prefixes, blank)
  {
    var continued := IsContinued(s, nl, continuation);
    if continued { return false; }
    if !blank && prefixes == [] { return true; }
    if blank {
      var end := LineEnd(s, nl);
      if end == 0 || s[end - 1] != '\n' { return false; }
      if prefixes == [] {
        var previous := IsContinued(s, end - 1, continuation);
        if !previous { return true; }
      }
    }
    var lineStart := LineStart(s, nl);
    if prefixes != [] && IsComment(s[lineStart..nl], prefixes) { return false; }
    if blank {
      var line := s[lineStart..nl];
      assert lineStart == LineEnd(s, nl);
      if lineStart > 0 && (line == "" || line == "\r") {
        var previous := IsContinued(s, lineStart - 1, continuation);
        if !previous {
          var previousStart := LineStart(s, lineStart - 1);
          return !IsComment(s[previousStart..lineStart - 1], prefixes);
        }
      }
      return false;
    }
    return true;
  }

  /** `find_next_record_boundary`: always ends, with the first boundary at or after `from`. */
  method FindNextRecordBoundary(s: string, from: nat, continuation: Option<char>, prefixes: seq<string>, blank: bool)
    returns (r: Option<nat>)
    ensures r == FirstBoundary(s, from, continuation, prefixes, blank)
  {
    if continuation.None? && prefixes == [] && !blank {
      if from > |s| { return None; }
      var n := NewlineFrom(s, from);
      SkipTo(s, from, n, continuation, prefixes, blank);
      return if n == |s| then None else Some(n + 1);
    }
    var pos := from;
    while pos < |s|
      invariant FirstBoundary(s, from, continuation, prefixes, blank)
          == FirstBoundary(s, pos, continuation, prefixes, blank)
    {
      var nl := NewlineFrom(s, pos);
      SkipTo(s, pos, nl, continuation, prefixes, blank);
      if nl == |s| { return None; }
      var boundary := TestNewline(s, nl, continuation, prefixes, blank);
      if boundary { return Some(nl + 1); }
      pos := nl + 1;
    }
    return None;
  }

  // ---------------------------------------------------------------- the hand-written scans

  datatype Kind = Plain | ContinuedLines | Comments | BlankLines

  /** The declarative boundary in its four standard modes. */
  function KindBoundary(s: string, from: nat, kind: Kind): Option<nat> {
    match kind
    case Plain => FirstBoundary(s, from, None, [], false)
    case ContinuedLines => FirstBoundary(s, from, Some('\\'), [], false)
    case Comments => FirstBoundary(s, from, None, ["#"], false)
    case BlankLines => FirstBoundary(s, from, None, [], true)
  }

  /** What a newline must satisfy in each mode. */
  lemma {:induction false} KindAt(s: string, nl: nat, kind: Kind)
    requires nl < |s| && s[nl] == '\n'
    ensures KindBoundary(s, nl, kind) ==
            if (match kind
                case Plain => true
                case ContinuedLines => BackslashRun(s, LineEnd(s, nl)) % 2 == 0
                case Comments => !StartsWith(LineAt(s, nl), "#")
                case BlankLines => var end := LineEnd(s, nl); end > 0 && s[end - 1] == '\n')
            then Some(nl + 1) else KindBoundary(s, nl + 1, kind)
  {
    assert forall line :: IsComment(line, ["#"]) <==> StartsWith(line, ["#"][0]);
  }

  /** No boundary before the next newline. */
  lemma {:induction false} KindSkip(s: string, from: nat, nl: nat, kind: Kind)
    requires from <= nl <= |s| && forall k :: from <= k < nl ==> s[k] != '\n'
    ensures KindBoundary(s, from, kind) == KindBoundary(s, nl, kind)
    decreases nl - from
  {
    if from < nl { KindSkip(s, from + 1, nl, kind); }
  }

  /** `memchr` for a newline. */
  method Memchr(s: string, from: nat) returns (r: Option<nat>)
    requires from <= |s|
    ensures match r
            case None => forall k :: from <= k < |s| ==> s[k] != '\n'
            case Some(nl) => from <= nl < |s| && s[nl] == '\n' && forall k :: from <= k < nl ==> s[k] != '\n'
  {
    for i := from to |s|
      invariant forall k :: from <= k < i ==> s[k] != '\n'
    {
      if s[i] == '\n' { return Some(i); }
    }
    return None;
  }

  /** `memrchr` for a newline before `end`, as the start of the line. */
  method Memrchr(s: string, end: nat) returns (start: nat)
    requires end <= |s|
    ensures start == LineStart(s, end)
  {
    start := end;
    while start > 0 && s[start - 1] != '\n'
      invariant start <= end && LineStart(s, end) == LineStart(s, start)
    {
      start := start - 1;
    }
  }

  /** The backslashes before `end`, counted from the back. */
  method CountSlashes(s: string, end: nat) returns (slashes: nat)
    requires end <= |s|
    ensures slashes == BackslashRun(s, end)
  {
    slashes := 0;
    while slashes < end && s[end - 1 - slashes] == '\\'
      invariant slashes <= end && slashes + BackslashRun(s, end - slashes) == BackslashRun(s, end)
    {
      slashes := slashes + 1;
    }
  }

  /** The test of the hand-written scan at a newline. */
  method ManualTest(s: string, newline: nat, kind: Kind) returns (boundary: bool)
    requires newline < |s| && s[newline] == '\n'
    ensures KindBoundary(s, newline, kind) == if boundary then Some(newline + 1) else KindBoundary(s, newline + 1, kind)
  {
    KindAt(s, newline, kind);
    var end := if newline > 0 && s[newline - 1] == '\r' then newline - 1 else newline;
    match kind
    case ContinuedLines =>
      var slashes := CountSlashes(s, end);
      return slashes % 2 == 0;
    case Comments =>
      var start := Memrchr(s, newline);
      return !StartsWith(s[start..newline], "#");
    case BlankLines => return end > 0 && s[end - 1] == '\n';
    case Plain => return true;
  }

  /** `manual_boundary`, the hand-written reference scan: it jumps from newline to newline and
      finds what the declarative scan finds, for every input, start and mode. */
  method ManualBoundary(s: string, from: nat, kind: Kind) returns (r: Option<nat>)
    ensures r == KindBoundary(s, from, kind)
  {
    var pos := from;
    while true
      invariant from <= pos && KindBoundary(s, from, kind) == KindBoundary(s, pos, kind)
      decreases |s| - pos
    {
      if pos > |s| { return None; }
      var newline := Memchr(s, pos);
      if newline.None? {
        KindSkip(s, pos, |s|, kind);
        return None;
      }
      KindSkip(s, pos, newline.value, kind);
      var boundary := ManualTest(s, newline.value, kind);
      if boundary { return Some(newline.value + 1); }
      pos := newline.value + 1;
    }
  }
}
