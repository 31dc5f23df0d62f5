/** Parsing an input in chunks: what a parser sends to its sink, and when cutting is invisible. */
module Chunking {
  import opened Wrappers
  import opened SplitPoints
  import opened Values

  /** The events of a chunk, unless its parser fails. */
  datatype Outcome = Failed | Rows(events: seq<Event>)

  type Parser = string -> Outcome

  function Then(first: Outcome, second: Outcome): Outcome {
    if first.Rows? && second.Rows? then Rows(first.events + second.events) else Failed
  }

  lemma ThenAssoc(a: Outcome, b: Outcome, c: Outcome)
    ensures Then(Then(a, b), c) == Then(a, Then(b, c))
  {
    if a.Rows? && b.Rows? && c.Rows? {
      assert a.events + b.events + c.events == a.events + (b.events + c.events);
    }
  }

  lemma NothingBefore(a: Outcome)
    ensures Then(Rows([]), a) == a
  {
    if a.Rows? { assert [] + a.events == a.events; }
  }

  /** The chunks parsed one by one. */
  function ParseRanges(s: string, ranges: seq<Range>, parse: Parser): Outcome
    requires forall r :: r in ranges ==> r.start <= r.end <= |s|
  {
    if ranges == [] then Rows([])
    else Then(parse(s[ranges[0].start..ranges[0].end]), ParseRanges(s, ranges[1..], parse))
  }

  lemma {:induction false} ParseOneMore(s: string, ranges: seq<Range>, last: Range, parse: Parser)
    requires forall r :: r in ranges + [last] ==> r.start <= r.end <= |s|
    ensures forall r :: r in ranges ==> r.start <= r.end <= |s|
    ensures ParseRanges(s, ranges + [last], parse)
            == Then(ParseRanges(s, ranges, parse), parse(s[last.start..last.end]))
  {
    forall r | r in ranges ensures r.start <= r.end <= |s| { assert r in ranges + [last]; }
    var end := parse(s[last.start..last.end]);
    if ranges == [] {
      assert ranges + [last] == [last];
      NothingBefore(end);
      assert ParseRanges(s, [], parse) == Rows([]);
      if end.Rows? { assert end.events + [] == end.events; }
    } else {
      assert (ranges + [last])[1..] == ranges[1..] + [last];
      ParseOneMore(s, ranges[1..], last, parse);
      ThenAssoc(parse(s[ranges[0].start..ranges[0].end]), ParseRanges(s, ranges[1..], parse), end);
    }
  }

  /** The prefix up to point `k + 1` parses as the prefix up to point `k`, then the chunk between. */
  ghost predicate CutsAt(s: string, points: seq<nat>, parse: Parser, k: nat)
    requires k + 1 < |points| && points[k] <= points[k + 1] <= |s|
  {
    parse(s[..points[k + 1]]) == Then(parse(s[..points[k]]), parse(s[points[k]..points[k + 1]]))
  }

  lemma TilesFit(s: string, points: seq<nat>, k: nat)
    requires Plan(points, |s|) && Ascending(points) && k < |points|
    ensures forall r :: r in Windows(points[..k + 1]) ==> r.start < r.end <= |s|
  {
    var head := points[..k + 1];
    AscendingWindows(head);
    forall r | r in Windows(head) ensures r.start < r.end <= |s| {
      var i :| 0 <= i < |Windows(head)| && Windows(head)[i] == r;
      assert r == Range(points[i], points[i + 1]) && points[i + 1] <= points[|points| - 1];
    }
  }

  lemma OneMoreWindow(points: seq<nat>, k: nat)
    requires Ascending(points) && 0 < k < |points|
    ensures Windows(points[..k + 1]) == Windows(points[..k]) + [Range(points[k - 1], points[k])]
  {
    var head, longer := points[..k], points[..k + 1];
    AscendingWindows(head);
    AscendingWindows(longer);
    var before, after := Windows(head), Windows(longer);
    forall i | 0 <= i < k - 1 ensures after[i] == before[i] {
      assert longer[i] == head[i] && longer[i + 1] == head[i + 1];
    }
    assert after[k - 1] == Range(longer[k - 1], longer[k]);
    assert after == after[..k - 1] + [after[k - 1]] && after[..k - 1] == before;
  }

  lemma {:induction false} PrefixAgrees(s: string, points: seq<nat>, parse: Parser, k: nat)
    requires Plan(points, |s|) && Ascending(points) && k < |points|
    requires parse("") == Rows([])
    requires forall i :: 0 <= i < k ==> CutsAt(s, points, parse, i)
    ensures forall r :: r in Windows(points[..k + 1]) ==> r.start < r.end <= |s|
    ensures ParseRanges(s, Windows(points[..k + 1]), parse) == parse(s[..points[k]])
  {
    TilesFit(s, points, k);
    if k == 0 {
      assert s[..0] == "";
    } else {
      PrefixAgrees(s, points, parse, k - 1);
      OneMoreWindow(points, k);
      ParseOneMore(s, Windows(points[..k]), Range(points[k - 1], points[k]), parse);
      assert CutsAt(s, points, parse, k - 1);
    }
  }

  /** Parsing chunk by chunk is parsing the whole, if every cut of the plan is invisible to the
      prefix it cuts. */
  lemma ChunksAgree(s: string, points: seq<nat>, parse: Parser)
    requires Plan(points, |s|) && parse("") == Rows([])
    requires Ascending(points) ==> forall k :: 0 < k < |points| - 1 ==> CutsAt(s, points, parse, k)
    ensures forall r :: r in Ranges(points, |s|) ==> r.start < r.end <= |s|
    ensures ParseRanges(s, Ranges(points, |s|), parse) == parse(s)
  {
    RangesCover(s, points);
    if Ascending(points) {
      var last := |points| - 1;
      assert CutsAt(s, points, parse, 0) by {
        NothingBefore(parse(s[..points[1]]));
        assert s[..points[0]] == "" && s[points[0]..points[1]] == s[..points[1]];
      }
      PrefixAgrees(s, points, parse, last);
      assert points[..last + 1] == points && s[..points[last]] == s;
    }
  }

  /** A cut at `p` is invisible to every prefix that reaches past it. */
  ghost predicate GoodCut(s: string, p: nat, parse: Parser) {
    p <= |s| && forall q :: p <= q <= |s| ==> parse(s[..q]) == Then(parse(s[..p]), parse(s[p..q]))
  }

  /** A splitter that gives only good cuts. */
  ghost predicate SplitsWell(s: string, next: Splitter, parse: Parser) {
    forall from :: next(s, from).Some? ==> GoodCut(s, next(s, from).value, parse)
  }

  /** With such a splitter, parsing the chunks of any plan is parsing the input. */
  lemma PlannedChunksAgree(s: string, points: seq<nat>, next: Splitter, skip: Option<SkipRegionFinder>, maxChunks: nat,
                           minChunkBytes: nat, parse: Parser)
    requires PlanFor(s, points, next, skip, maxChunks, minChunkBytes)
    requires SplitsWell(s, next, parse) && parse("") == Rows([])
    ensures forall r :: r in Ranges(points, |s|) ==> r.start < r.end <= |s|
    ensures ParseRanges(s, Ranges(points, |s|), parse) == parse(s)
  {
    PlanForIsPlan(s, points, next, skip, maxChunks, minChunkBytes);
    forall k | 0 < k < |points| - 1 && Ascending(points)
      ensures points[k + 1] <= |s| && CutsAt(s, points, parse, k)
    {
      assert points[k] <= points[k + 1] <= points[|points| - 1];
      var from := InteriorFromSplitter(s, points, next, skip, maxChunks, minChunkBytes, k);
      assert GoodCut(s, points[k], parse);
    }
    ChunksAgree(s, points, parse);
  }

  // ---------------------------------------------------------------- cuts that may show

  /** Events are compared piece by piece: `got` for `before`, then `piece` for the rest of `all`. */
  lemma PieceByPiece<T>(got: seq<T>, before: seq<T>, piece: seq<T>, all: seq<T>)
    requires |got| == |before| && before <= all
    ensures got + piece == all <==> got == before && all == before + piece
  {
    if got + piece == all {
      assert got == (got + piece)[..|got|] == all[..|before|] == before;
    }
  }

  /** A cut between `p` and `q` keeps the number of events, leaves those before it alone, and is
      invisible exactly when `keeps` holds. */
  ghost predicate ExactCut(s: string, p: nat, q: nat, parse: Parser, keeps: bool)
    requires p <= q <= |s|
  {
    var before, piece, all := parse(s[..p]), parse(s[p..q]), parse(s[..q]);
    && before.Rows? && piece.Rows? && all.Rows?
    && |all.events| == |before.events| + |piece.events| && before.events <= all.events
    && (all == Then(before, piece) <==> keeps)
  }

  ghost predicate ExactCutAt(s: string, points: seq<nat>, parse: Parser, keeps: nat -> bool, k: nat) {
    k + 1 < |points| && points[k] <= points[k + 1] <= |s| && ExactCut(s, points[k], points[k + 1], parse, keeps(k))
  }

  lemma ExactStep(s: string, p: nat, q: nat, parse: Parser, keeps: bool, got: Outcome)
    requires p <= q <= |s| && ExactCut(s, p, q, parse, keeps)
    requires got.Rows? && |got.events| == |parse(s[..p]).events|
    ensures var r := Then(got, parse(s[p..q]));
            && r.Rows? && |r.events| == |parse(s[..q]).events|
            && (r == parse(s[..q]) <==> got == parse(s[..p]) && keeps)
  {
    PieceByPiece(got.events, parse(s[..p]).events, parse(s[p..q]).events, parse(s[..q]).events);
  }

  lemma {:induction false} PrefixExact(s: string, points: seq<nat>, parse: Parser, keeps: nat -> bool, k: nat)
    requires Plan(points, |s|) && Ascending(points) && k < |points| && parse("") == Rows([])
    requires forall j :: 0 <= j < k ==> ExactCutAt(s, points, parse, keeps, j)
    ensures forall r :: r in Windows(points[..k + 1]) ==> r.start < r.end <= |s|
    ensures points[k] <= |s|
    ensures var r, all := ParseRanges(s, Windows(points[..k + 1]), parse), parse(s[..points[k]]);
            && r.Rows? && all.Rows? && |r.events| == |all.events|
            && (r == all <==> forall j :: 0 <= j < k ==> keeps(j))
  {
    TilesFit(s, points, k);
    if k == 0 {
      assert s[..0] == "";
    } else {
      PrefixExact(s, points, parse, keeps, k - 1);
      assert ExactCutAt(s, points, parse, keeps, k - 1);
      OneMoreWindow(points, k);
      ParseOneMore(s, Windows(points[..k]), Range(points[k - 1], points[k]), parse);
      ExactStep(s, points[k - 1], points[k], parse, keeps(k - 1), ParseRanges(s, Windows(points[..k]), parse));
    }
  }

  /** If each cut is invisible exactly when its chunk `keeps`, the whole plan is invisible
      exactly when every chunk does. */
  lemma ChunksExact(s: string, points: seq<nat>, parse: Parser, keeps: nat -> bool)
    requires Plan(points, |s|) && Ascending(points) && parse("") == Rows([])
    requires forall k :: 0 <= k < |points| - 1 ==> ExactCutAt(s, points, parse, keeps, k)
    ensures forall r :: r in Ranges(points, |s|) ==> r.start < r.end <= |s|
    ensures ParseRanges(s, Ranges(points, |s|), parse) == parse(s)
            <==> forall k :: 0 <= k < |points| - 1 ==> keeps(k)
  {
    var last := |points| - 1;
    PrefixExact(s, points, parse, keeps, last);
    assert points[..last + 1] == points && s[..points[last]] == s;
  }

  /** Rows are opened, filled and closed in turn. */
  predicate Bracketed(events: seq<Event>, open: bool) {
    if events == [] then !open
    else match events[0]
      case BeginRow => !open && Bracketed(events[1..], true)
      case Put(_, _) => open && Bracketed(events[1..], true)
      case EndRow => open && Bracketed(events[1..], false)
  }

  lemma {:induction false} BracketedConcat(a: seq<Event>, b: seq<Event>, open: bool)
    requires Bracketed(a, open) && Bracketed(b, false)
    ensures Bracketed(a + b, open)
    decreases |a|
  {
    if a == [] {
      assert a + b == b;
    } else {
      assert (a + b)[1..] == a[1..] + b;
      BracketedConcat(a[1..], b, if a[0].EndRow? then false else true);
    }
  }

  lemma {:induction false} FieldsBracketed(fields: seq<Event>)
    requires forall i :: 0 <= i < |fields| ==> fields[i].Put?
    ensures Bracketed(fields + [EndRow], true)
  {
    if fields == [] {
      assert ([] + [EndRow])[1..] == [];
    } else {
      FieldsBracketed(fields[1..]);
      assert (fields + [EndRow])[1..] == fields[1..] + [EndRow];
    }
  }

  /** A row of any number of fields. */
  lemma RowBracketed(fields: seq<Event>)
    requires forall i :: 0 <= i < |fields| ==> fields[i].Put?
    ensures Bracketed([BeginRow] + fields + [EndRow], false)
  {
    FieldsBracketed(fields);
    var row := [BeginRow] + fields + [EndRow];
    assert row[0] == BeginRow && row[1..] == fields + [EndRow];
  }
}
