/** Whole runs of the spilling sink: which inputs keep all their rows. */
module SpillRuns {
  import opened Values
  import opened Filters
  import opened TableBuilders
  import opened Spill
  import Table

  /** The event sends a value to a column that the plan keeps. */
  predicate Kept(p: Table.Plan, event: Event) {
    event.Put? && Table.ResolveField(p, event.name).Some?
  }

  predicate Stores(p: Table.Plan, events: seq<Event>) {
    exists i :: 0 <= i < |events| && Kept(p, events[i])
  }

  /** Every row that ends has stored a value first; `stored` tells so of the row that is open. */
  predicate EachRowStores(p: Table.Plan, events: seq<Event>, stored: bool)
    decreases |events|
  {
    events != [] ==>
      var next := events[0];
      (next.EndRow? ==> stored)
      && EachRowStores(p, events[1..], if next.EndRow? then false else stored || Kept(p, next))
  }

  predicate NoneEmpty(rows: seq<Row>) { forall r :: 0 <= r < |rows| ==> rows[r] != map[] }

  lemma {:induction false} RowsStored(p: Table.Plan, m: Table.Model, events: seq<Event>)
    requires EachRowStores(p, events, m.current != map[]) && NoneEmpty(m.rows)
    ensures NoneEmpty(Table.Run(p, m, events).rows)
    decreases |events|
  {
    if events != [] {
      var event, n := events[0], Table.Step(p, m, events[0]);
      if Kept(p, event) { assert Table.ResolveField(p, event.name).value in n.current; }
      assert (n.current != map[]) == if event.EndRow? then false else m.current != map[] || Kept(p, event);
      RowsStored(p, n, events[1..]);
    }
  }

  lemma StoresMore(p: Table.Plan, events: seq<Event>, i: nat)
    requires i < |events|
    ensures Stores(p, events[..i + 1]) <==> Stores(p, events[..i]) || Kept(p, events[i])
  {
    assert events[..i + 1] == events[..i] + [events[i]];
    if Stores(p, events[..i]) {
      var j :| 0 <= j < i && Kept(p, events[..i][j]);
      assert Kept(p, events[..i + 1][j]);
    }
    if Kept(p, events[i]) { assert Kept(p, events[..i + 1][i]); }
  }

  /** Where a run stands after `i` events: there is a column if a kept value was sent, and the
      first batch had one if a kept value was sent before it was flushed. */
  ghost predicate Standing(p: Table.Plan, events: seq<Event>, i: nat, m: Table.Model, consumed: seq<Batch>,
                           at: seq<nat>)
    requires i <= |events| && |at| == |consumed|
  {
    && Table.Valid(m) && (m.order != [] <==> Stores(p, events[..i]))
    && (at != [] ==> at[0] < |events| && (consumed[0].order != [] <==> Stores(p, events[..at[0]])))
  }

  lemma StandingMore(p: Table.Plan, events: seq<Event>, i: nat, m: Table.Model, was: seq<Batch>,
                     consumed: seq<Batch>, at: seq<nat>)
    requires i < |events| && |at| == |was| && Standing(p, events, i, m, was, at)
    requires consumed == was || (events[i].EndRow? && Grew(was, consumed, Table.Step(p, m, events[i]).order))
    ensures Standing(p, events, i + 1, Table.Step(p, m, events[i]), consumed, if consumed == was then at else at + [i])
  {
    var n := Table.Step(p, m, events[i]);
    StoresMore(p, events, i);
    Table.StepKeepsValid(p, m, events[i]);
    assert n.order != [] <==> m.order != [] || Kept(p, events[i]);
    if was != [] { assert consumed[0] == was[0] && (at + [i])[0] == at[0]; }
  }

  /** The number of finished rows of the whole table after event `i`. */
  ghost function RowsAfter(p: Table.Plan, events: seq<Event>, i: nat): nat
    requires i < |events|
  {
    |Table.Run(p, Table.Empty(), events[..i + 1]).rows|
  }

  /** The rows that the batches flushed at these events hold. */
  ghost function Flushed(p: Table.Plan, events: seq<Event>, at: seq<nat>): nat
    requires forall k :: 0 <= k < |at| ==> at[k] < |events|
  {
    if at == [] then 0 else RowsAfter(p, events, at[|at| - 1])
  }

  /** The events at which a batch was handed over: each the end of a row, with `rowsPerBatch` rows
      gathered since the batch before or the capacity at the soft cap of a read that is not
      oversize; and each batch exported, fitted the budget and was consumed. */
  ghost predicate HandedOver(p: Table.Plan, l: Limits, events: seq<Event>, answers: seq<Surroundings>, at: seq<nat>)
    requires |answers| == |events|
  {
    forall k :: 0 <= k < |at| ==>
      && at[k] < |events| && events[at[k]].EndRow? && (k > 0 ==> at[k - 1] < at[k])
      && answers[at[k]].exports && answers[at[k]].fits && answers[at[k]].consumes
      && (|| RowsAfter(p, events, at[k]) - (if k > 0 then RowsAfter(p, events, at[k - 1]) else 0) >= l.rowsPerBatch
          || (!l.oversize && answers[at[k]].capacity >= l.softCapBytes))
  }

  /** What the sink holds after `i` events of a run without a failure: the rows since the last
      batch, and never a full batch. After a row end at or over the soft cap it holds nothing. */
  ghost predicate Holding(p: Table.Plan, l: Limits, events: seq<Event>, answers: seq<Surroundings>, i: nat,
                          at: seq<nat>, held: nat)
    requires |answers| == |events| && i <= |events|
    requires forall k :: 0 <= k < |at| ==> at[k] < |events|
  {
    && (at != [] ==> at[|at| - 1] < i)
    && held == |Table.Run(p, Table.Empty(), events[..i]).rows| - Flushed(p, events, at)
    && (held == 0 || held < l.rowsPerBatch)
    && (i > 0 && events[i - 1].EndRow? && !l.oversize && answers[i - 1].capacity >= l.softCapBytes ==> held == 0)
  }

  lemma PrefixStep(p: Table.Plan, events: seq<Event>, i: nat)
    requires i < |events|
    ensures Table.Run(p, Table.Empty(), events[..i + 1])
            == Table.Step(p, Table.Run(p, Table.Empty(), events[..i]), events[i])
  {
    var before := Table.Run(p, Table.Empty(), events[..i]);
    var after := Table.Step(p, before, events[i]);
    assert events[..i + 1] == events[..i] + [events[i]];
    Table.RunConcat(p, Table.Empty(), events[..i], [events[i]]);
    assert [events[i]][1..] == [] && Table.Run(p, after, []) == after;
  }

  /** A row end that flushes is one more entry. */
  lemma HandedMore(p: Table.Plan, l: Limits, events: seq<Event>, answers: seq<Surroundings>, i: nat, at: seq<nat>,
                   held: nat, n: nat)
    requires |answers| == |events| && i < |events| && HandedOver(p, l, events, answers, at)
    requires Holding(p, l, events, answers, i, at, held)
    requires n - held == RowsAfter(p, events, i) - |Table.Run(p, Table.Empty(), events[..i]).rows|
    requires events[i].EndRow? && answers[i].exports && answers[i].fits && answers[i].consumes
    requires n >= l.rowsPerBatch || (!l.oversize && answers[i].capacity >= l.softCapBytes)
    ensures HandedOver(p, l, events, answers, at + [i])
    ensures Holding(p, l, events, answers, i + 1, at + [i], 0)
  {
    var more := at + [i];
    forall k | 0 <= k < |more|
      ensures more[k] < |events| && events[more[k]].EndRow? && (k > 0 ==> more[k - 1] < more[k])
      ensures answers[more[k]].exports && answers[more[k]].fits && answers[more[k]].consumes
      ensures var before := if k > 0 then RowsAfter(p, events, more[k - 1]) else 0;
              || RowsAfter(p, events, more[k]) - before >= l.rowsPerBatch
              || (!l.oversize && answers[more[k]].capacity >= l.softCapBytes)
    {
      if k < |at| { assert more[k] == at[k] && (k > 0 ==> more[k - 1] == at[k - 1]); }
    }
  }

  /** Both builders finish the row or neither does, and only at its end. */
  lemma SameGrowth(p: Table.Plan, m: Table.Model, whole: Table.Model, event: Event)
    requires m.current == whole.current
    ensures |Table.Step(p, m, event).rows| - |m.rows| == |Table.Step(p, whole, event).rows| - |whole.rows|
    ensures !event.EndRow? ==> Table.Step(p, m, event).rows == m.rows
  {
  }

  /** An event that flushes nothing leaves the rows where they are. */
  lemma HoldsMore(p: Table.Plan, l: Limits, events: seq<Event>, answers: seq<Surroundings>, i: nat, at: seq<nat>,
                  held: nat, n: nat)
    requires |answers| == |events| && i < |events| && HandedOver(p, l, events, answers, at)
    requires Holding(p, l, events, answers, i, at, held)
    requires n - held == RowsAfter(p, events, i) - |Table.Run(p, Table.Empty(), events[..i]).rows|
    requires if events[i].EndRow? then n == 0 || !Full(l, n, answers[i].capacity) else n == held
    ensures Holding(p, l, events, answers, i + 1, at, n)
  {
  }

  /** What is known of a run between two events. */
  ghost predicate Going(p: Table.Plan, l: Limits, events: seq<Event>, answers: seq<Surroundings>, i: nat,
                        whole: Table.Model, consumed: seq<Batch>, at: seq<nat>, failed: bool, held: seq<Row>)
    requires |answers| == |events| && i <= |events|
  {
    && whole == Table.Run(p, Table.Empty(), events[..i])
    && |at| == |consumed| && HandedOver(p, l, events, answers, at)
    && (!failed ==>
          && Standing(p, events, i, whole, consumed, at)
          && Holding(p, l, events, answers, i, at, |held|))
  }

  /** An event after which the run goes on, with the batches in `consumed` and `kept` in the builder. */
  lemma GoesOn(p: Table.Plan, l: Limits, events: seq<Event>, answers: seq<Surroundings>, i: nat,
               whole: Table.Model, was: seq<Batch>, at: seq<nat>, m: Table.Model,
               consumed: seq<Batch>, kept: seq<Row>)
    requires |answers| == |events| && i < |events|
    requires Going(p, l, events, answers, i, whole, was, at, false, m.rows) && m.current == whole.current
    requires var n := Table.Step(p, m, events[i]);
             if Flushes(l, events[i], n, answers[i].capacity)
             then kept == [] && Takes(answers[i]) && Grew(was, consumed, Table.Step(p, whole, events[i]).order)
             else kept == n.rows && consumed == was
    ensures Going(p, l, events, answers, i + 1, Table.Step(p, whole, events[i]), consumed,
                  if consumed == was then at else at + [i], false, kept)
  {
    var n := |Table.Step(p, m, events[i]).rows|;
    PrefixStep(p, events, i);
    SameGrowth(p, m, whole, events[i]);
    StandingMore(p, events, i, whole, was, consumed, at);
    if consumed == was {
      HoldsMore(p, l, events, answers, i, at, |m.rows|, n);
    } else {
      HandedMore(p, l, events, answers, i, at, |m.rows|, n);
    }
  }

  lemma Starting(p: Table.Plan, l: Limits, events: seq<Event>, answers: seq<Surroundings>)
    requires |answers| == |events|
    ensures Going(p, l, events, answers, 0, Table.Empty(), [], [], false, [])
  {
    assert Table.Valid(Table.Empty()) && events[..0] == [];
  }

  /** One event of a run, and the batch it may hand over. */
  method RunOne(sink: SpillSink, events: seq<Event>, answers: seq<Surroundings>, i: nat, ghost at: seq<nat>)
    returns (ghost after: seq<nat>)
    requires sink.Valid() && |answers| == |events| && i < |events|
    requires Going(sink.engine.plan, sink.limits, events, answers, i, sink.unspilled, sink.consumed, at, sink.failed,
                   sink.engine.model.rows)
    modifies sink, sink.engine
    ensures sink.Valid()
    ensures Going(sink.engine.plan, sink.limits, events, answers, i + 1, sink.unspilled, sink.consumed, after,
                  sink.failed, sink.engine.model.rows)
    ensures !old(sink.failed) && answers[i].exports && answers[i].fits && answers[i].consumes ==> !sink.failed
  {
    ghost var p, m, whole, was := sink.engine.plan, sink.engine.model, sink.unspilled, sink.consumed;
    PrefixStep(p, events, i);
    sink.Send(events[i], answers[i]);
    after := at;
    if !sink.failed {
      GoesOn(p, sink.limits, events, answers, i, whole, was, at, m, sink.consumed, sink.engine.model.rows);
      if sink.consumed != was { after := at + [i]; }
    }
  }

  /** All events of a run. `at` are the events at which a batch was handed over. */
  method RunAll(sink: SpillSink, events: seq<Event>, answers: seq<Surroundings>) returns (ghost at: seq<nat>)
    requires sink.Valid() && |answers| == |events|
    requires !sink.failed && sink.consumed == [] && sink.unspilled == sink.engine.model == Table.Empty()
    modifies sink, sink.engine
    ensures sink.Valid()
    ensures Going(sink.engine.plan, sink.limits, events, answers, |events|, sink.unspilled, sink.consumed, at,
                  sink.failed, sink.engine.model.rows)
    ensures (forall i :: 0 <= i < |answers| ==> answers[i].exports && answers[i].fits && answers[i].consumes) ==>
              !sink.failed
  {
    at := [];
    Starting(sink.engine.plan, sink.limits, events, answers);
    for i := 0 to |events|
      invariant sink.Valid()
      invariant Going(sink.engine.plan, sink.limits, events, answers, i, sink.unspilled, sink.consumed, at,
                      sink.failed, sink.engine.model.rows)
      invariant (forall j :: 0 <= j < i ==> answers[j].exports && answers[j].fits && answers[j].consumes) ==>
                  !sink.failed
    {
      at := RunOne(sink, events, answers, i, at);
    }
  }

  /** A run of the sink over all events of a parser, each with what the surroundings answer. It
      ends well unless some spill is refused. Then every row is counted; the batches hold every
      row exactly when there is none or a kept value was sent before the first flush; and so they
      do whenever every row stores a value. Batches before the last were handed over at the
      events `at`. */
  method SpillRun(p: Table.Plan, l: Limits, events: seq<Event>, answers: seq<Surroundings>, last: Surroundings)
    returns (consumed: seq<Batch>, stats: Stats, ok: bool, ghost at: seq<nat>)
    requires |answers| == |events|
    ensures last.exports && last.fits && last.consumes
            && (forall i :: 0 <= i < |answers| ==> answers[i].exports && answers[i].fits && answers[i].consumes) ==>
              ok
    ensures HandedOver(p, l, events, answers, at) && |at| <= |consumed| <= |at| + 1
    ensures ok && |consumed| == |at| + 1 ==> last.exports && last.fits && last.consumes
    ensures var rows := Table.Run(p, Table.Empty(), events).rows;
            ok ==>
              && stats == Stats(|consumed|, |rows|) && |AllRows(consumed)| <= |rows|
              && (SameTable(AllRows(consumed), rows) <==> |AllRows(consumed)| == |rows|)
              && (SameTable(AllRows(consumed), rows)
                  <==> rows == [] || Stores(p, events[..if at == [] then |events| else at[0]]))
              && (EachRowStores(p, events, false) ==> SameTable(AllRows(consumed), rows))
  {
    var engine := new TableBuilder(p);
    var sink := new SpillSink(engine, l);
    at := RunAll(sink, events, answers);
    assert events[..|events|] == events;
    ghost var was := sink.consumed;
    ok := sink.FinishRun(last);
    consumed, stats := sink.consumed, sink.stats;
    if was != [] { assert consumed[0] == was[0]; }
    if EachRowStores(p, events, false) { RowsStored(p, Table.Empty(), events); }
  }

  /** A row that stores nothing, flushed before any column exists, is counted and lost. */
  method EmptyRowLost(p: Table.Plan) returns (consumed: seq<Batch>, stats: Stats, ok: bool)
    requires p.filter.None?
    ensures ok && stats.rows == 1 && AllRows(consumed) == []
    ensures Table.Run(p, Table.Empty(), [BeginRow, EndRow]).rows == [map[]]
  {
    var takes := Surroundings(0, true, true, true);
    var events := [BeginRow, EndRow];
    var l := Limits(1, 0, true);
    assert Table.Step(p, Table.Empty(), BeginRow) == Table.Empty();
    ghost var held := Table.Step(p, Table.Empty(), EndRow);
    assert held.rows == [map[]] && Flushes(l, EndRow, held, 0);
    assert events[1..] == [EndRow] && [EndRow][1..] == [];
    assert events[..1] == [BeginRow] && !Kept(p, BeginRow);
    assert Table.Run(p, Table.Empty(), [EndRow]) == Table.Run(p, held, []) == held;
    assert Table.Run(p, Table.Empty(), events) == held;
    ghost var at;
    consumed, stats, ok, at := SpillRun(p, l, events, [takes, takes], takes);
  }
}
