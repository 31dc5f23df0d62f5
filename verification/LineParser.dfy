/** The newline parser: one record per non-empty `\n`-terminated line. */
module LineParser {
  import opened Wrappers
  import opened RecordStream

  const NEWLINE: Byte := 10

  datatype LineSplit = LineSplit(records: seq<string>, consumed: nat)

  /** The line's text; `decode` is the UTF-8 conversion, empty on invalid bytes. */
  function LineRecord(decode: seq<Byte> -> string, line: seq<Byte>): seq<string> {
    if decode(line) == "" then [] else [decode(line)]
  }

  /** The records of the complete lines of `bytes`, and how far they reach. */
  function Lines(decode: seq<Byte> -> string, bytes: seq<Byte>): (s: LineSplit)
    ensures s.consumed <= |bytes|
  {
    if bytes == [] then LineSplit([], 0)
    else
      var last := |bytes| - 1;
      var s := Lines(decode, bytes[..last]);
      if bytes[last] != NEWLINE then s
      else LineSplit(s.records + LineRecord(decode, bytes[s.consumed..last]), |bytes|)
  }

  lemma {:induction false} NoLine(decode: seq<Byte> -> string, bytes: seq<Byte>)
    requires NEWLINE !in bytes
    ensures Lines(decode, bytes) == LineSplit([], 0)
  {
    if bytes != [] { NoLine(decode, bytes[..|bytes| - 1]); }
  }

  /** A completed line is the record of its text, unless that is empty. */
  lemma OneLine(decode: seq<Byte> -> string, line: seq<Byte>)
    requires NEWLINE !in line
    ensures Lines(decode, line + [NEWLINE])
            == LineSplit(if decode(line) == "" then [] else [decode(line)], |line| + 1)
  {
    NoLine(decode, line);
    OneMoreByte(decode, line, NEWLINE);
    assert line[0..] == line;
  }

  /** The consumed bytes are exactly those up to and including the last newline. */
  lemma {:induction false} ConsumesToLastNewline(decode: seq<Byte> -> string, bytes: seq<Byte>)
    ensures var n := Lines(decode, bytes).consumed;
            NEWLINE !in bytes[n..] && (n > 0 ==> bytes[n - 1] == NEWLINE)
  {
    if bytes != [] {
      var last := |bytes| - 1;
      ConsumesToLastNewline(decode, bytes[..last]);
      var n := Lines(decode, bytes[..last]).consumed;
      assert bytes[n..] == bytes[..last][n..] + [bytes[last]];
    }
  }

  function Join(first: LineSplit, second: LineSplit): LineSplit {
    LineSplit(first.records + second.records, first.consumed + second.consumed)
  }

  /** Lines compose over prefixes. */
  lemma {:induction false} LinesCompose(decode: seq<Byte> -> string, a: seq<Byte>, b: seq<Byte>)
    ensures var first := Lines(decode, a);
            Lines(decode, a + b) == Join(first, Lines(decode, a[first.consumed..] + b))
    decreases |b|
  {
    var first := Lines(decode, a);
    var rest := a[first.consumed..];
    if b == [] {
      assert a + b == a && rest + b == rest;
      NothingLeft(decode, a);
    } else {
      var init, c := b[..|b| - 1], b[|b| - 1];
      assert b == init + [c];
      LinesCompose(decode, a, init);
      ComposeOneMore(decode, a, first, init, c);
      AppendOne(a, init, c);
      AppendOne(rest, init, c);
    }
  }

  lemma AppendOne(a: seq<Byte>, init: seq<Byte>, c: Byte)
    ensures a + (init + [c]) == a + init + [c]
  {
  }

  lemma NothingLeft(decode: seq<Byte> -> string, a: seq<Byte>)
    ensures Lines(decode, a[Lines(decode, a).consumed..]) == LineSplit([], 0)
  {
    ConsumesToLastNewline(decode, a);
    NoLine(decode, a[Lines(decode, a).consumed..]);
  }

  lemma ComposeOneMore(decode: seq<Byte> -> string, a: seq<Byte>, first: LineSplit, init: seq<Byte>, c: Byte)
    requires first.consumed <= |a|
    requires Lines(decode, a + init) == Join(first, Lines(decode, a[first.consumed..] + init))
    ensures Lines(decode, a + init + [c]) == Join(first, Lines(decode, a[first.consumed..] + init + [c]))
  {
    var x, y := a + init, a[first.consumed..] + init;
    OneMoreByte(decode, x, c);
    OneMoreByte(decode, y, c);
    var n := Lines(decode, y).consumed;
    assert x[first.consumed + n..] == y[n..];
    if c == NEWLINE {
      assert |x| + 1 == first.consumed + (|y| + 1);
    }
  }

  /** A newline completes a line; any other byte changes nothing. */
  lemma OneMoreByte(decode: seq<Byte> -> string, x: seq<Byte>, c: Byte)
    ensures var s := Lines(decode, x);
            Lines(decode, x + [c]) ==
            if c != NEWLINE then s else LineSplit(s.records + LineRecord(decode, x[s.consumed..]), |x| + 1)
  {
    var y, s := x + [c], Lines(decode, x);
    assert y[..|x|] == x && y[s.consumed..|x|] == x[s.consumed..];
  }

  function AsParsed(s: LineSplit): Parsed<(), string> {
    Parsed((), s.records, Some(s.consumed))
  }

  function Step(decode: seq<Byte> -> string): Parser<(), string> {
    (state: (), bytes: seq<Byte>, eof: bool) => AsParsed(Lines(decode, bytes))
  }

  lemma StepComposesAt(decode: seq<Byte> -> string, a: seq<Byte>, b: seq<Byte>)
    ensures var first := Lines(decode, a);
            AsParsed(Lines(decode, a + b))
            == Then(AsParsed(first), AsParsed(Lines(decode, a[first.consumed..] + b)))
  {
    var first := Lines(decode, a);
    LinesCompose(decode, a, b);
  }

  /** The newline parser satisfies the contract a stream needs. */
  lemma StepComposes(decode: seq<Byte> -> string)
    ensures Composes(Step(decode))
  {
    var step := Step(decode);
    forall p: (), a: seq<Byte>, b: seq<Byte>, eof: bool {:trigger step(p, a + b, eof)}
      ensures var first := step(p, a, false);
              step(p, a + b, eof) == Then(first, step(first.state, a[first.consumed.value..] + b, eof))
    {
      StepComposesAt(decode, a, b);
    }
  }

  /** The rest of the last line is never emitted, not even at the end of the input. */
  lemma StepSettles(decode: seq<Byte> -> string)
    ensures Settles(Step(decode))
  {
    forall a: seq<Byte> ensures Lines(decode, a[Lines(decode, a).consumed..]) == LineSplit([], 0) {
      NothingLeft(decode, a);
    }
  }

  /** The parser's single pass over the bytes. */
  method ParseAvailable(decode: seq<Byte> -> string, bytes: seq<Byte>) returns (records: seq<string>, consumed: nat)
    ensures LineSplit(records, consumed) == Lines(decode, bytes)
  {
    records, consumed := [], 0;
    for i := 0 to |bytes|
      invariant consumed <= i && LineSplit(records, consumed) == Lines(decode, bytes[..i])
    {
      assert bytes[..i + 1][..i] == bytes[..i] && bytes[..i + 1][consumed..i] == bytes[consumed..i];
      if bytes[i] == NEWLINE {
        var line := decode(bytes[consumed..i]);
        if line != "" { records := records + [line]; }
        consumed := i + 1;
      }
    }
    assert bytes[..|bytes|] == bytes;
  }
}
