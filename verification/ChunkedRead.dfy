/** Reading an input in chunks: every chunk parsed into a builder of its own, then merged. */
module ChunkedRead {
  import opened Wrappers
  import opened Values
  import opened SplitPoints
  import opened Chunking
  import opened TableBuilders
  import Table
  import Merge

  /** Chunk after chunk merged onto `acc`, unless one fails to parse. */
  function MergeChunks(p: Table.Plan, acc: Table.Model, s: string, ranges: seq<Range>,
                       parse: Parser): Option<Table.Model>
    requires forall r :: r in ranges ==> r.start <= r.end <= |s|
    decreases |ranges|
  {
    if ranges == [] then Some(acc)
    else match parse(s[ranges[0].start..ranges[0].end])
      case Failed => None
      case Rows(events) =>
        MergeChunks(p, Merge.Merged(p.conversions, acc, Table.Run(p, Table.Empty(), events)), s, ranges[1..], parse)
  }

  /** The parser closes every row it opens. */
  ghost predicate Closes(parse: Parser) {
    forall text :: parse(text).Rows? ==> Bracketed(parse(text).events, false)
  }

  /** After closed rows nothing is left half filled. */
  lemma {:induction false} BracketedEnds(p: Table.Plan, m: Table.Model, events: seq<Event>, open: bool)
    requires Bracketed(events, open) && (!open ==> m.current == map[])
    ensures Table.Run(p, m, events).current == map[]
    decreases |events|
  {
    if events != [] {
      BracketedEnds(p, Table.Step(p, m, events[0]), events[1..], if events[0].EndRow? then false else true);
    }
  }

  /** One chunk more: merging its table is going on with its events. */
  lemma MergeIsRun(p: Table.Plan, acc: Table.Model, events: seq<Event>)
    requires Table.Valid(acc) && Table.Typed(p, acc) && acc.current == map[] && Bracketed(events, false)
    ensures var after := Merge.Merged(p.conversions, acc, Table.Run(p, Table.Empty(), events));
            && after == Table.Run(p, acc, events)
            && Table.Valid(after) && Table.Typed(p, after) && after.current == map[]
  {
    var chunk := Table.Run(p, Table.Empty(), events);
    Table.RunKeepsValid(p, Table.Empty(), events);
    Table.RunTyped(p, Table.Empty(), events);
    BracketedEnds(p, Table.Empty(), events, false);
    Merge.MergedIsJoin(p, acc, chunk);
    assert Table.Normalized(chunk) == chunk;
    Table.RunSplits(p, acc, events);
    Table.RunKeepsValid(p, acc, events);
    Table.RunTyped(p, acc, events);
  }

  lemma {:induction false} MergeChunksIsRun(p: Table.Plan, acc: Table.Model, s: string, ranges: seq<Range>,
                                            parse: Parser)
    requires forall r :: r in ranges ==> r.start <= r.end <= |s|
    requires Closes(parse) && Table.Valid(acc) && Table.Typed(p, acc) && acc.current == map[]
    ensures MergeChunks(p, acc, s, ranges, parse)
            == match ParseRanges(s, ranges, parse)
               case Failed => None
               case Rows(events) => Some(Table.Run(p, acc, events))
    decreases |ranges|
  {
    if ranges != [] {
      var piece := parse(s[ranges[0].start..ranges[0].end]);
      if piece.Rows? {
        MergeIsRun(p, acc, piece.events);
        var next := Table.Run(p, acc, piece.events);
        MergeChunksIsRun(p, next, s, ranges[1..], parse);
        var rest := ParseRanges(s, ranges[1..], parse);
        if rest.Rows? { Table.RunConcat(p, acc, piece.events, rest.events); }
      }
    }
  }

  /** The table of an input read in one piece. */
  function ReadWhole(p: Table.Plan, s: string, parse: Parser): Option<Table.Model> {
    match parse(s)
    case Failed => None
    case Rows(events) => Some(Table.Run(p, Table.Empty(), events))
  }

  /** If the chunks give the events of the whole, merging their builders gives the table of one
      builder fed everything: the same rows, the same columns, in the same order. */
  lemma ChunkedReadAgrees(p: Table.Plan, s: string, points: seq<nat>, parse: Parser)
    requires Closes(parse)
    requires forall r :: r in Ranges(points, |s|) ==> r.start <= r.end <= |s|
    requires ParseRanges(s, Ranges(points, |s|), parse) == parse(s)
    ensures MergeChunks(p, Table.Empty(), s, Ranges(points, |s|), parse) == ReadWhole(p, s, parse)
  {
    MergeChunksIsRun(p, Table.Empty(), s, Ranges(points, |s|), parse);
  }

  /** One chunk: fed to a builder of its own, which is merged onto `acc`. */
  method ReadOne(p: Table.Plan, acc: TableBuilder, events: seq<Event>)
    requires acc.Valid() && acc.plan == p && Table.Typed(p, acc.model) && acc.model.current == map[]
    requires Bracketed(events, false)
    modifies acc
    ensures acc.Valid() && Table.Typed(p, acc.model) && acc.model.current == map[]
    ensures acc.model == Merge.Merged(p.conversions, old(acc.model), Table.Run(p, Table.Empty(), events))
  {
    var chunk := new TableBuilder(p);
    chunk.Feed(events);
    MergeOne(p, acc.model, events);
    var ok := Merge.Extend(acc, chunk);
  }

  /** Parse every chunk into a builder and merge them in order. */
  method ReadChunked(p: Table.Plan, s: string, points: seq<nat>, parse: Parser) returns (table: Option<TableBuilder>)
    requires Closes(parse) && forall r :: r in Ranges(points, |s|) ==> r.start <= r.end <= |s|
    ensures table.Some? ==> table.value.Valid()
    ensures match MergeChunks(p, Table.Empty(), s, Ranges(points, |s|), parse)
            case None => table.None?
            case Some(m) => table.Some? && table.value.model == m
  {
    var ranges := Ranges(points, |s|);
    var acc := new TableBuilder(p);
    ghost var all := MergeChunks(p, Table.Empty(), s, ranges, parse);
    assert ranges[0..] == ranges;
    for i := 0 to |ranges|
      invariant fresh(acc) && acc.Valid() && acc.plan == p && Table.Typed(p, acc.model) && acc.model.current == map[]
      invariant MergeChunks(p, acc.model, s, ranges[i..], parse) == all
    {
      assert ranges[i..][0] == ranges[i] && ranges[i..][1..] == ranges[i + 1..];
      var outcome := parse(s[ranges[i].start..ranges[i].end]);
      if outcome.Failed? { return None; }
      ReadOne(p, acc, outcome.events);
    }
    return Some(acc);
  }

  lemma MergeOne(p: Table.Plan, acc: Table.Model, events: seq<Event>)
    requires Table.Valid(acc) && Table.Typed(p, acc) && acc.current == map[] && Bracketed(events, false)
    ensures var chunk := Table.Run(p, Table.Empty(), events);
            && Table.Normalized(chunk) == chunk && Table.Normalized(acc) == acc
            && Merge.Unifiable(Merge.Widen(p, acc, chunk), chunk)
            && Merge.Merged(p.conversions, Merge.Widen(p, acc, chunk), chunk) == Merge.Merged(p.conversions, acc, chunk)
            && Table.Typed(p, Merge.Merged(p.conversions, acc, chunk))
  {
    MergeIsRun(p, acc, events);
    BracketedEnds(p, Table.Empty(), events, false);
    Table.RunTyped(p, Table.Empty(), events);
    Table.RunKeepsValid(p, Table.Empty(), events);
    var chunk := Table.Run(p, Table.Empty(), events);
    Merge.TypedMerge(p.conversions, p, acc, chunk);
    Merge.MergedIsJoin(p, acc, chunk);
  }
}
