/** Lines of a text, and searches for newlines. */
module TextLines {
  import opened Wrappers

  /** First newline at or after `i`, or the length. */
  function NewlineFrom(s: string, i: nat): (n: nat)
    requires i <= |s|
    ensures i <= n <= |s| && (n < |s| ==> s[n] == '\n')
    ensures forall k :: i <= k < n ==> s[k] != '\n'
    decreases |s| - i
  {
    if i == |s| || s[i] == '\n' then i else NewlineFrom(s, i + 1)
  }

  /** Start of the line that position `n` is in: one past the last newline before it, or 0. */
  function LineStart(s: string, n: nat): (start: nat)
    requires n <= |s|
    ensures start <= n && (start > 0 ==> s[start - 1] == '\n')
    ensures forall k :: start <= k < n ==> s[k] != '\n'
  {
    if n == 0 || s[n - 1] == '\n' then n else LineStart(s, n - 1)
  }

  predicate IsLineStart(s: string, p: nat)
    requires p <= |s|
  {
    p == 0 || s[p - 1] == '\n'
  }

  /** A line as `str::lines` yields it: a carriage return before the newline is dropped. */
  function StripCr(line: string): string {
    if line != "" && line[|line| - 1] == '\r' then line[..|line| - 1] else line
  }

  /** `str::lines`. */
  function Lines(s: string): seq<string>
    decreases |s|
  {
    if s == "" then []
    else
      var n := NewlineFrom(s, 0);
      if n == |s| then [s] else [StripCr(s[..n])] + Lines(s[n + 1..])
  }

  /** The lines put back together with their endings. */
  function Rejoined(lines: seq<string>, ends: seq<string>): string
    requires |lines| == |ends|
  {
    if lines == [] then "" else lines[0] + (ends[0] + Rejoined(lines[1..], ends[1..]))
  }

  /** A line without a newline and its ending, which takes one carriage return along. Only the
      last line may have none, and that line is not empty. */
  predicate EndedLine(line: string, end: string, last: bool) {
    && '\n' !in line
    && (|| (end == "\n" && (line != "" ==> line[|line| - 1] != '\r')) || end == "\r\n"
        || (end == "" && last && line != ""))
  }

  lemma EndingOf(line: string, tail: string) returns (end: string)
    requires '\n' !in line
    ensures EndedLine(StripCr(line), end, false) && StripCr(line) + (end + tail) == line + "\n" + tail
  {
    end := if line != "" && line[|line| - 1] == '\r' then "\r\n" else "\n";
    assert StripCr(line) + end == line + "\n";
  }

  lemma MoreLines(line: string, end: string, lines: seq<string>, ends: seq<string>)
    requires |lines| == |ends| && EndedLine(line, end, false)
    requires forall i :: 0 <= i < |ends| ==> EndedLine(lines[i], ends[i], i == |ends| - 1)
    ensures var more, its := [line] + lines, [end] + ends;
            && Rejoined(more, its) == line + (end + Rejoined(lines, ends))
            && forall i :: 0 <= i < |its| ==> EndedLine(more[i], its[i], i == |its| - 1)
  {
    assert ([line] + lines)[1..] == lines && ([end] + ends)[1..] == ends;
  }

  /** Nothing, or whole lines each ended by a newline. */
  predicate EndsLine(s: string) { s == "" || s[|s| - 1] == '\n' }

  lemma {:induction false} NewlineIs(s: string, i: nat, n: nat)
    requires i <= n < |s| && s[n] == '\n' && forall k :: i <= k < n ==> s[k] != '\n'
    ensures NewlineFrom(s, i) == n
    decreases n - i
  {
    if i < n { NewlineIs(s, i + 1, n); }
  }

  /** The first line, then the lines of the rest. */
  lemma PeelLine(line: string, rest: string)
    requires '\n' !in line
    ensures Lines(line + "\n" + rest) == [StripCr(line)] + Lines(rest)
  {
    var s := line + "\n" + rest;
    NewlineIs(s, 0, |line|);
    assert s[..|line|] == line && s[|line| + 1..] == rest;
  }

  /** The lines of a text are what lies between its line endings. */
  lemma {:induction false} LinesAre(s: string) returns (ends: seq<string>)
    ensures |ends| == |Lines(s)| && Rejoined(Lines(s), ends) == s
    ensures forall i :: 0 <= i < |ends| ==> EndedLine(Lines(s)[i], ends[i], i == |ends| - 1)
    decreases |s|
  {
    if s == "" { return []; }
    var n := NewlineFrom(s, 0);
    if n == |s| { return [""]; }
    var line, tail := s[..n], s[n + 1..];
    assert s == line + "\n" + tail;
    PeelLine(line, tail);
    ends := LinesAre(tail);
    var end := EndingOf(line, tail);
    MoreLines(StripCr(line), end, Lines(tail), ends);
    ends := [end] + ends;
  }

  /** Cutting after a newline splits the lines and nothing else. */
  lemma {:induction false} LinesConcat(a: string, b: string)
    requires EndsLine(a)
    ensures Lines(a + b) == Lines(a) + Lines(b)
    decreases |a|
  {
    if a == "" {
      assert a + b == b;
    } else {
      var n := NewlineFrom(a, 0);
      var line, tail := a[..n], a[n + 1..];
      assert a == line + "\n" + tail;
      assert a + b == line + "\n" + (tail + b);
      PeelLine(line, tail);
      PeelLine(line, tail + b);
      LinesConcat(tail, b);
      ConcatAssoc([StripCr(line)], Lines(tail), Lines(b));
    }
  }

  lemma ConcatAssoc<T>(a: seq<T>, b: seq<T>, c: seq<T>)
    ensures a + b + c == a + (b + c)
  {
  }

  /** `str::find` for a character. */
  function FindChar(s: string, c: char): (r: Option<nat>)
    ensures match r
            case None => c !in s
            case Some(i) => i < |s| && s[i] == c && c !in s[..i]
  {
    if s == "" then None
    else if s[0] == c then Some(0)
    else
      var r := FindChar(s[1..], c);
      if r.None? then None
      else
        assert s[..r.value + 1] == [s[0]] + s[1..][..r.value];
        Some(r.value + 1)
  }

  predicate IsAsciiWhitespace(c: char) { c in {' ', '\t', '\n', '\U{0C}', '\r'} }

  /** `trim_start_matches`. */
  function TrimStartMatches(s: string, p: char -> bool): string {
    if s != "" && p(s[0]) then TrimStartMatches(s[1..], p) else s
  }

  /** What is trimmed satisfies `p`; what is left does not begin with it. */
  lemma {:induction false} TrimmedParts(s: string, p: char -> bool) returns (gap: string)
    ensures s == gap + TrimStartMatches(s, p) && forall i :: 0 <= i < |gap| ==> p(gap[i])
    ensures var t := TrimStartMatches(s, p); t == "" || !p(t[0])
  {
    if s != "" && p(s[0]) {
      gap := TrimmedParts(s[1..], p);
      gap := [s[0]] + gap;
    } else {
      gap := "";
    }
  }
}
