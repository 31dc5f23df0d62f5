/** The byte-at-a-time scans that the block scanner must agree with. */
module QuoteScan {

  import opened Wrappers

  /** First position at or after `from` holding one of `ds`. */
  function FindAny(buf: seq<Byte>, from: nat, ds: seq<Byte>): Option<nat>
    decreases |buf| - from
  {
    if from >= |buf| then None else if buf[from] in ds then Some(from) else FindAny(buf, from + 1, ds)
  }

  lemma {:induction false} FindAnyFirst(buf: seq<Byte>, from: nat, ds: seq<Byte>)
    ensures match FindAny(buf, from, ds)
            case None => forall k :: from <= k < |buf| ==> buf[k] !in ds
            case Some(i) => from <= i < |buf| && buf[i] in ds && forall k :: from <= k < i ==> buf[k] !in ds
    decreases |buf| - from
  {
    if from < |buf| && buf[from] !in ds { FindAnyFirst(buf, from + 1, ds); }
  }

  lemma {:induction false} FindAnySkip(buf: seq<Byte>, from: nat, until: nat, ds: seq<Byte>)
    requires from <= until
    requires forall k :: from <= k < until && k < |buf| ==> buf[k] !in ds
    ensures FindAny(buf, from, ds) == FindAny(buf, until, ds)
    decreases until - from
  {
    if from < until && from < |buf| { FindAnySkip(buf, from + 1, until, ds); }
  }

  /** One byte of the quote automaton: 0 is outside, otherwise the quote byte that opened
      the region; only the same byte closes it. */
  function Toggle(active: Byte, b: Byte, quotes: seq<Byte>): Byte {
    if active == 0 then (if b in quotes then b else 0) else if b == active then 0 else active
  }

  /** The automaton after the first `n` bytes: the reference scan's first loop. */
  function Replay(buf: seq<Byte>, n: nat, quotes: seq<Byte>): Byte
    requires n <= |buf|
  {
    if n == 0 then 0 else Toggle(Replay(buf, n - 1, quotes), buf[n - 1], quotes)
  }

  // ---------------------------------------------------------------- what the automaton recognises

  /** A byte outside quotes, or a whole region: a quote byte, bytes other than it, and it again. */
  datatype Piece = Plain(b: Byte) | Region(quote: Byte, body: seq<Byte>)

  ghost predicate Proper(piece: Piece, quotes: seq<Byte>) {
    match piece
    case Plain(b) => b in quotes ==> b == 0
    case Region(quote, body) => quote in quotes && quote != 0 && quote !in body
  }

  function PieceText(piece: Piece): seq<Byte> {
    match piece
    case Plain(b) => [b]
    case Region(quote, body) => [quote] + body + [quote]
  }

  function Text(pieces: seq<Piece>): seq<Byte> {
    if pieces == [] then [] else Text(pieces[..|pieces| - 1]) + PieceText(pieces[|pieces| - 1])
  }

  /** Nothing, or a region that has not been closed. */
  ghost predicate OpenTail(tail: seq<Byte>, quotes: seq<Byte>) {
    tail != [] ==> tail[0] in quotes && tail[0] != 0 && tail[0] !in tail[1..]
  }

  ghost predicate AllProper(pieces: seq<Piece>, quotes: seq<Byte>) {
    forall i :: 0 <= i < |pieces| ==> Proper(pieces[i], quotes)
  }

  function OpenQuote(tail: seq<Byte>): Byte { if tail == [] then 0 else tail[0] }

  /** The text is these pieces and this tail, and the state after it that of the tail. */
  ghost predicate Splits(text: seq<Byte>, pieces: seq<Piece>, tail: seq<Byte>, quotes: seq<Byte>) {
    && text == Text(pieces) + tail && AllProper(pieces, quotes) && OpenTail(tail, quotes)
    && State(text, quotes) == OpenQuote(tail)
  }

  /** What has been read is pieces and perhaps an open region, whose quote byte is the state. */
  lemma {:induction false} ReplaySplits(buf: seq<Byte>, n: nat, quotes: seq<Byte>)
    returns (pieces: seq<Piece>, tail: seq<Byte>)
    requires n <= |buf|
    ensures Splits(buf[..n], pieces, tail, quotes) && Replay(buf, n, quotes) == OpenQuote(tail)
  {
    if n == 0 {
      pieces, tail := [], [];
    } else {
      pieces, tail := ReplaySplits(buf, n - 1, quotes);
      pieces, tail := SplitMore(buf[..n - 1], pieces, tail, buf[n - 1], quotes);
      assert buf[..n] == buf[..n - 1] + [buf[n - 1]];
      PrefixState(buf, n, quotes);
    }
  }

  lemma PrefixState(buf: seq<Byte>, n: nat, quotes: seq<Byte>)
    requires n <= |buf|
    ensures Replay(buf, n, quotes) == State(buf[..n], quotes)
  {
    assert buf == buf[..n] + buf[n..];
    ReplayPrefix(buf[..n], buf[n..], n, quotes);
  }

  lemma SplitMore(text: seq<Byte>, was: seq<Piece>, open: seq<Byte>, b: Byte, quotes: seq<Byte>)
    returns (pieces: seq<Piece>, tail: seq<Byte>)
    requires Splits(text, was, open, quotes)
    ensures Splits(text + [b], pieces, tail, quotes)
  {
    StateMore(text, b, quotes);
    pieces, tail := ByteMore(was, open, b, quotes);
  }

  lemma ByteMore(was: seq<Piece>, open: seq<Byte>, b: Byte, quotes: seq<Byte>)
    returns (pieces: seq<Piece>, tail: seq<Byte>)
    requires AllProper(was, quotes) && OpenTail(open, quotes)
    ensures Text(was) + open + [b] == Text(pieces) + tail && AllProper(pieces, quotes) && OpenTail(tail, quotes)
    ensures Toggle(OpenQuote(open), b, quotes) == OpenQuote(tail)
  {
    if open != [] && b != open[0] {
      pieces, tail := was, open + [b];
      assert tail[1..] == open[1..] + [b];
    } else if open == [] && b in quotes && b != 0 {
      pieces, tail := was, [b];
    } else {
      var piece := if open == [] then Plain(b) else Region(b, open[1..]);
      PieceMore(was, piece, open, b);
      pieces, tail := was + [piece], [];
    }
  }

  lemma PieceMore(was: seq<Piece>, piece: Piece, open: seq<Byte>, b: Byte)
    requires piece == if open == [] then Plain(b) else Region(b, open[1..])
    requires open != [] ==> open[0] == b
    ensures Text(was + [piece]) + [] == Text(was) + open + [b]
  {
    assert (was + [piece])[..|was|] == was;
    assert PieceText(piece) == open + [b];
  }

  /** The other way round: however a text splits, the state after it is the open quote byte. */
  lemma {:induction false} SplitReplays(pieces: seq<Piece>, tail: seq<Byte>, quotes: seq<Byte>)
    requires AllProper(pieces, quotes) && OpenTail(tail, quotes)
    ensures State(Text(pieces) + tail, quotes) == OpenQuote(tail)
    decreases |pieces|, |tail|
  {
    if tail != [] {
      var init, b := tail[..|tail| - 1], tail[|tail| - 1];
      LastOff(Text(pieces), tail);
      TailShorter(tail, quotes);
      SplitReplays(pieces, init, quotes);
      StateMore(Text(pieces) + init, b, quotes);
    } else if pieces != [] {
      var init := pieces[..|pieces| - 1];
      var open, b := LastPiece(pieces, quotes);
      SplitReplays(init, open, quotes);
      StateMore(Text(init) + open, b, quotes);
    }
  }

  lemma LastOff(text: seq<Byte>, tail: seq<Byte>)
    requires tail != []
    ensures text + tail == text + tail[..|tail| - 1] + [tail[|tail| - 1]]
  {
  }

  lemma TailShorter(tail: seq<Byte>, quotes: seq<Byte>)
    requires tail != [] && OpenTail(tail, quotes)
    ensures var init, b := tail[..|tail| - 1], tail[|tail| - 1];
            OpenTail(init, quotes) && Toggle(OpenQuote(init), b, quotes) == tail[0]
  {
    var init := tail[..|tail| - 1];
    if init != [] {
      assert tail[1..] == init[1..] + [tail[|tail| - 1]];
      assert tail[|tail| - 1] in tail[1..];
    }
  }

  lemma LastPiece(pieces: seq<Piece>, quotes: seq<Byte>) returns (open: seq<Byte>, b: Byte)
    requires pieces != [] && AllProper(pieces, quotes)
    ensures Text(pieces) + [] == Text(pieces[..|pieces| - 1]) + open + [b]
    ensures OpenTail(open, quotes) && Toggle(OpenQuote(open), b, quotes) == 0
  {
    var init, piece := pieces[..|pieces| - 1], pieces[|pieces| - 1];
    open, b := PieceOpen(piece, quotes);
    assert pieces == init + [piece];
    PieceMore(init, piece, open, b);
  }

  /** A piece without its last byte. */
  lemma PieceOpen(piece: Piece, quotes: seq<Byte>) returns (open: seq<Byte>, b: Byte)
    requires Proper(piece, quotes)
    ensures piece == (if open == [] then Plain(b) else Region(b, open[1..])) && (open != [] ==> open[0] == b)
    ensures OpenTail(open, quotes) && Toggle(OpenQuote(open), b, quotes) == 0
  {
    match piece
    case Plain(c) => open, b := [], c;
    case Region(quote, body) =>
      open, b := [quote] + body, quote;
      assert open[1..] == body;
  }

  /** The state after a whole text. */
  function State(text: seq<Byte>, quotes: seq<Byte>): Byte { Replay(text, |text|, quotes) }

  lemma StateMore(text: seq<Byte>, b: Byte, quotes: seq<Byte>)
    ensures State(text + [b], quotes) == Toggle(State(text, quotes), b, quotes)
  {
    ReplayPrefix(text, [b], |text|, quotes);
  }

  lemma {:induction false} ReplayPrefix(text: seq<Byte>, more: seq<Byte>, n: nat, quotes: seq<Byte>)
    requires n <= |text|
    ensures Replay(text + more, n, quotes) == Replay(text, n, quotes)
  {
    if n > 0 { ReplayPrefix(text, more, n - 1, quotes); }
  }

  predicate Hit(active: Byte, b: Byte, d: Byte, quotes: seq<Byte>) {
    active == 0 && b !in quotes && b == d
  }

  /** The second loop of the reference scan. */
  function ScanFrom(buf: seq<Byte>, i: nat, active: Byte, d: Byte, quotes: seq<Byte>): Option<nat>
    decreases |buf| - i
  {
    if i >= |buf| then None
    else if Hit(active, buf[i], d, quotes) then Some(i)
    else ScanFrom(buf, i + 1, Toggle(active, buf[i], quotes), d, quotes)
  }

  /** `scan_unquoted`: replay the quotes of `buf[..from]`, then search. */
  function ScanUnquoted(buf: seq<Byte>, from: nat, d: Byte, quotes: seq<Byte>): Option<nat>
    requires from <= |buf|
  {
    ScanFrom(buf, from, Replay(buf, from, quotes), d, quotes)
  }

  /** The first place at or after `from` where the delimiter stands outside all regions. */
  lemma ScanFirst(buf: seq<Byte>, from: nat, d: Byte, quotes: seq<Byte>)
    requires from <= |buf|
    ensures match ScanUnquoted(buf, from, d, quotes)
            case None => forall k :: from <= k < |buf| ==> buf[k] != d || d in quotes || Replay(buf, k, quotes) != 0
            case Some(i) =>
              && from <= i < |buf| && buf[i] == d && d !in quotes && Replay(buf, i, quotes) == 0
              && forall k :: from <= k < i ==> buf[k] != d || Replay(buf, k, quotes) != 0
    decreases |buf| - from
  {
    if from < |buf| && !Hit(Replay(buf, from, quotes), buf[from], d, quotes) { ScanFirst(buf, from + 1, d, quotes); }
  }

  /** Reading `buf[i..j]` from state `a` meets no hit and ends in state `b`. */
  ghost predicate Reaches(buf: seq<Byte>, i: nat, a: Byte, j: nat, b: Byte, d: Byte, quotes: seq<Byte>)
    decreases |buf| - i
  {
    if i == j then a == b && j <= |buf|
    else
      && i < j <= |buf| && !Hit(a, buf[i], d, quotes)
      && Reaches(buf, i + 1, Toggle(a, buf[i], quotes), j, b, d, quotes)
  }

  lemma {:induction false} ReachTrans(buf: seq<Byte>, i: nat, a: Byte, j: nat, b: Byte, k: nat, c: Byte, d: Byte,
                                      quotes: seq<Byte>)
    requires Reaches(buf, i, a, j, b, d, quotes) && Reaches(buf, j, b, k, c, d, quotes)
    ensures Reaches(buf, i, a, k, c, d, quotes)
    decreases |buf| - i
  {
    if i < j { ReachTrans(buf, i + 1, Toggle(a, buf[i], quotes), j, b, k, c, d, quotes); }
  }

  lemma ReachOne(buf: seq<Byte>, i: nat, a: Byte, j: nat, b: Byte, d: Byte, quotes: seq<Byte>)
    requires Reaches(buf, i, a, j, b, d, quotes) && j < |buf| && !Hit(b, buf[j], d, quotes)
    ensures Reaches(buf, i, a, j + 1, Toggle(b, buf[j], quotes), d, quotes)
  {
    var c := Toggle(b, buf[j], quotes);
    assert Reaches(buf, j + 1, c, j + 1, c, d, quotes);
    ReachTrans(buf, i, a, j, b, j + 1, c, d, quotes);
  }

  /** A stretch without hits can be skipped by moving the automaton over it. */
  lemma {:induction false} ReachScan(buf: seq<Byte>, i: nat, a: Byte, j: nat, b: Byte, d: Byte, quotes: seq<Byte>)
    requires Reaches(buf, i, a, j, b, d, quotes)
    ensures ScanFrom(buf, i, a, d, quotes) == ScanFrom(buf, j, b, d, quotes)
    decreases |buf| - i
  {
    if i < j { ReachScan(buf, i + 1, Toggle(a, buf[i], quotes), j, b, d, quotes); }
  }

  lemma {:induction false} ReachReplay(buf: seq<Byte>, i: nat, j: nat, b: Byte, d: Byte, quotes: seq<Byte>)
    requires i <= |buf| && Reaches(buf, i, Replay(buf, i, quotes), j, b, d, quotes)
    ensures j <= |buf| && b == Replay(buf, j, quotes)
    decreases |buf| - i
  {
    if i < j { ReachReplay(buf, i + 1, j, b, d, quotes); }
  }

  /** Outside quotes, a stretch without delimiters or quote bytes (0 opens nothing) stays outside. */
  lemma {:induction false} StaysOutside(buf: seq<Byte>, i: nat, j: nat, d: Byte, quotes: seq<Byte>)
    requires i <= j <= |buf|
    requires forall k :: i <= k < j ==> (buf[k] in quotes ==> buf[k] == 0) && buf[k] != d
    ensures Reaches(buf, i, 0, j, 0, d, quotes)
    decreases j - i
  {
    if i < j { StaysOutside(buf, i + 1, j, d, quotes); }
  }

  /** Inside a region, a stretch without the closing byte stays inside. */
  lemma {:induction false} StaysInside(buf: seq<Byte>, i: nat, j: nat, active: Byte, d: Byte, quotes: seq<Byte>)
    requires i <= j <= |buf| && active != 0
    requires forall k :: i <= k < j ==> buf[k] != active
    ensures Reaches(buf, i, active, j, active, d, quotes)
    decreases j - i
  {
    if i < j { StaysInside(buf, i + 1, j, active, d, quotes); }
  }
}
