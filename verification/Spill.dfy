/** The spilling sink: full batches leave the builder while the parser goes on. */
module Spill {
  import opened Values
  import opened Filters
  import opened TableBuilders
  import Table

  /** An exported batch. */
  datatype Batch = Batch(order: seq<string>, columns: seq<Column>, rowCount: nat)

  /** The batch exported from the table `m`: with no column it has no rows either. */
  ghost predicate Exports(b: Batch, m: Table.Model) {
    && b.order == m.order && |b.columns| == |b.order|
    && b.rowCount == (if m.order == [] then 0 else |m.rows|)
    && forall i :: 0 <= i < |b.order| ==> Holds(b.columns[i], b.order[i], false, m)
  }

  /** Row `r` as the batch shows it. */
  function RowAt(order: seq<string>, columns: seq<Column>, r: nat): Row
    requires |order| == |columns| && forall i :: 0 <= i < |columns| ==> r < |columns[i].cells|
  {
    if order == [] then map[]
    else
      var last := |order| - 1;
      RowAt(order[..last], columns[..last], r)[order[last] := columns[last].cells[r]]
  }

  lemma {:induction false} RowAtCell(order: seq<string>, columns: seq<Column>, r: nat, n: string)
    requires |order| == |columns| && forall i :: 0 <= i < |columns| ==> r < |columns[i].cells|
    ensures n in RowAt(order, columns, r) <==> n in order
    ensures Table.Distinct(order) ==>
              forall i :: 0 <= i < |order| && order[i] == n ==>
                CellOf(RowAt(order, columns, r), n) == columns[i].cells[r]
  {
    if order != [] {
      var last := |order| - 1;
      RowAtCell(order[..last], columns[..last], r, n);
      assert order == order[..last] + [order[last]];
    }
  }

  /** The rows of a batch whose columns are long enough. */
  function BatchRows(b: Batch): seq<Row> {
    if |b.order| == |b.columns| && forall i :: 0 <= i < |b.columns| ==> b.rowCount <= |b.columns[i].cells|
    then seq(b.rowCount, r requires 0 <= r < b.rowCount => RowAt(b.order, b.columns, r))
    else []
  }

  /** The same rows, where a missing column counts as a null one. */
  ghost predicate SameTable(a: seq<Row>, b: seq<Row>) {
    |a| == |b| && forall r :: 0 <= r < |a| ==> SameCells(a[r], b[r])
  }

  lemma ExportedRows(b: Batch, m: Table.Model)
    requires Exports(b, m) && Table.Valid(m)
    ensures |BatchRows(b)| == b.rowCount
    ensures m.order != [] ==> SameTable(BatchRows(b), m.rows)
  {
    forall i | 0 <= i < |b.columns| ensures |b.columns[i].cells| == |m.rows| {
      assert Holds(b.columns[i], b.order[i], false, m);
      CellsAt(m.rows, b.order[i]);
    }
    if m.order != [] {
      forall r | 0 <= r < b.rowCount ensures SameCells(BatchRows(b)[r], m.rows[r]) {
        RowShown(b, m, r);
      }
    }
  }

  lemma RowShown(b: Batch, m: Table.Model, r: nat)
    requires Exports(b, m) && Table.Valid(m) && r < |m.rows|
    ensures forall i :: 0 <= i < |b.columns| ==> r < |b.columns[i].cells|
    ensures SameCells(RowAt(b.order, b.columns, r), m.rows[r])
  {
    forall i | 0 <= i < |b.columns| ensures r < |b.columns[i].cells| {
      assert Holds(b.columns[i], b.order[i], false, m);
      CellsAt(m.rows, b.order[i]);
    }
    forall n: string ensures CellOf(RowAt(b.order, b.columns, r), n) == CellOf(m.rows[r], n) {
      RowAtCell(b.order, b.columns, r, n);
      if n in b.order {
        var i :| 0 <= i < |b.order| && b.order[i] == n;
        assert Holds(b.columns[i], b.order[i], false, m);
        CellsAt(m.rows, n);
      } else {
        assert m.rows[r].Keys <= m.kinds.Keys;
      }
    }
  }

  datatype Stats = Stats(batches: nat, rows: nat)

  /** What the surroundings answer around one spill: the builder's capacity, whether the batch
      exports, whether it fits the budget, and whether the consumer takes it. */
  datatype Surroundings = Surroundings(capacity: nat, exports: bool, fits: bool, consumes: bool)

  predicate Takes(s: Surroundings) { s.exports && s.fits && s.consumes }

  /** When a batch is full: enough rows, or enough bytes unless the reader asked for oversize. */
  datatype Limits = Limits(rowsPerBatch: nat, softCapBytes: nat, oversize: bool)

  predicate Full(l: Limits, rows: nat, capacity: nat) {
    rows >= l.rowsPerBatch || (!l.oversize && capacity >= l.softCapBytes)
  }

  /** One batch more, with these columns. */
  ghost predicate Grew(was: seq<Batch>, consumed: seq<Batch>, order: seq<string>) {
    |consumed| == |was| + 1 && was <= consumed && consumed[|was|].order == order
  }

  function RowsOf(parts: seq<Table.Model>): seq<Row> {
    if parts == [] then [] else RowsOf(parts[..|parts| - 1]) + parts[|parts| - 1].rows
  }

  function AllRows(batches: seq<Batch>): seq<Row> {
    if batches == [] then [] else AllRows(batches[..|batches| - 1]) + BatchRows(batches[|batches| - 1])
  }

  ghost predicate ExportsOf(batches: seq<Batch>, parts: seq<Table.Model>) {
    && |batches| == |parts|
    && (parts != [] ==>
          && Exports(batches[|parts| - 1], parts[|parts| - 1])
          && ExportsOf(batches[..|parts| - 1], parts[..|parts| - 1]))
  }

  /** The spilled parts: none is empty, their columns only grow, up to those of `order`. */
  ghost predicate Parts(parts: seq<Table.Model>, order: seq<string>) {
    parts != [] ==>
      var last := parts[|parts| - 1];
      last.rows != [] && last.order <= order && Table.Valid(last) && Parts(parts[..|parts| - 1], last.order)
  }

  lemma {:induction false} SameRows(batches: seq<Batch>, parts: seq<Table.Model>, order: seq<string>)
    requires ExportsOf(batches, parts) && Parts(parts, order) && (parts != [] ==> parts[0].order != [])
    ensures SameTable(AllRows(batches), RowsOf(parts))
    ensures parts != [] ==> order != []
  {
    if parts != [] {
      var last := |parts| - 1;
      SameRows(batches[..last], parts[..last], parts[last].order);
      ExportedRows(batches[last], parts[last]);
    }
  }

  lemma {:induction false} FewerRows(batches: seq<Batch>, parts: seq<Table.Model>, order: seq<string>)
    requires ExportsOf(batches, parts) && Parts(parts, order)
    ensures |AllRows(batches)| <= |RowsOf(parts)|
    ensures parts != [] && parts[0].order == [] ==> |AllRows(batches)| < |RowsOf(parts)|
  {
    if parts != [] {
      var last := |parts| - 1;
      FewerRows(batches[..last], parts[..last], parts[last].order);
      ExportedRows(batches[last], parts[last]);
      if last == 0 { assert |AllRows(batches[..0])| == 0; }
    }
  }

  /** The batches hold every spilled row exactly when the first one spilled had a column. */
  lemma LosslessIff(batches: seq<Batch>, parts: seq<Table.Model>, order: seq<string>)
    requires ExportsOf(batches, parts) && Parts(parts, order)
    ensures SameTable(AllRows(batches), RowsOf(parts)) <==> parts == [] || parts[0].order != []
  {
    if parts == [] || parts[0].order != [] {
      SameRows(batches, parts, order);
    } else {
      FewerRows(batches, parts, order);
    }
  }

  method Export(part: TableBuilder) returns (batch: Batch)
    requires part.Valid() && part.model.current == map[]
    ensures Exports(batch, part.model)
  {
    batch := Batch(part.columnOrder, part.columns, if part.columnOrder == [] then 0 else part.rowCount);
    forall i | 0 <= i < |batch.order| ensures Holds(batch.columns[i], batch.order[i], false, part.model) {
      assert Holds(part.columns[i], part.model.order[i], Dirty(part.rowDirty, i), part.model);
    }
  }

  /** What was spilled and what the builder `m` still holds, against the unspilled table. */
  ghost predicate Tally(consumed: seq<Batch>, parts: seq<Table.Model>, stats: Stats, failed: bool,
                        m: Table.Model, whole: Table.Model)
  {
    && Table.Valid(whole) && m.order == whole.order && m.kinds == whole.kinds
    && ExportsOf(consumed, parts) && Parts(parts, whole.order)
    && stats == Stats(|parts|, |RowsOf(parts)|)
    && (!failed ==> RowsOf(parts) + m.rows == whole.rows)
  }

  /** What a run that did not fail has delivered. */
  lemma TallyEnd(consumed: seq<Batch>, parts: seq<Table.Model>, stats: Stats, m: Table.Model, whole: Table.Model)
    requires Tally(consumed, parts, stats, false, m, whole) && m.rows == []
    ensures stats == Stats(|consumed|, |whole.rows|)
    ensures SameTable(AllRows(consumed), whole.rows) <==> consumed == [] || consumed[0].order != []
    ensures |AllRows(consumed)| <= |whole.rows|
    ensures SameTable(AllRows(consumed), whole.rows) <==> |AllRows(consumed)| == |whole.rows|
    ensures consumed == [] <==> whole.rows == []
    ensures (forall r :: 0 <= r < |whole.rows| ==> whole.rows[r] != map[]) ==> SameTable(AllRows(consumed), whole.rows)
  {
    LosslessIff(consumed, parts, whole.order);
    PrefixOrders(consumed, parts, whole.order);
    FewerRows(consumed, parts, whole.order);
    assert RowsOf(parts) + [] == RowsOf(parts) == whole.rows;
    if parts != [] { FirstPartStores(parts, whole.order); }
  }

  /** If the first row stores anything, the first part has a column. */
  lemma FirstPartStores(parts: seq<Table.Model>, order: seq<string>)
    requires parts != [] && Parts(parts, order)
    ensures RowsOf(parts) != [] && (RowsOf(parts)[0] != map[] ==> parts[0].order != [])
  {
    FirstPart(parts, order);
    var row := parts[0].rows[0];
    assert row == RowsOf(parts)[0] && row.Keys <= parts[0].kinds.Keys;
    if n :| n in row { assert n in parts[0].order; }
  }

  /** The first part holds the first rows. */
  lemma {:induction false} FirstPart(parts: seq<Table.Model>, order: seq<string>)
    requires parts != [] && Parts(parts, order)
    ensures parts[0].rows != [] && Table.Valid(parts[0]) && parts[0].rows <= RowsOf(parts)
  {
    var last := |parts| - 1;
    if last > 0 { FirstPart(parts[..last], parts[last].order); }
  }

  lemma {:induction false} PrefixOrders(consumed: seq<Batch>, parts: seq<Table.Model>, order: seq<string>)
    requires ExportsOf(consumed, parts) && Parts(parts, order)
    ensures forall i :: 0 <= i < |consumed| ==> consumed[i].order <= order
    ensures consumed != [] ==> consumed[0].order == parts[0].order
  {
    if parts != [] {
      var last := |parts| - 1;
      PrefixOrders(consumed[..last], parts[..last], parts[last].order);
      forall i | 0 <= i < |consumed| ensures consumed[i].order <= order {
        if i < last { assert consumed[i] == consumed[..last][i]; }
      }
    }
  }

  /** Take all rows out of a builder as a batch. */
  method TakeBatch(engine: TableBuilder) returns (batch: Batch)
    requires engine.Valid() && engine.rowCount > 0
    modifies engine
    ensures Exports(batch, FirstRows(old(engine.model), |old(engine.model).rows|))
    ensures engine.model == RestOfRows(old(engine.model), |old(engine.model).rows|)
    ensures old(engine.model).current == map[] ==> engine.Valid()
  {
    var part := engine.SplitOff(engine.rowCount);
    batch := Export(part);
  }

  /** Hand a batch on: counted if it exports, fits and is taken, and an error otherwise. */
  method Deliver(s: Surroundings, batch: Batch, n: nat, was: seq<Batch>, ghost wasParts: seq<Table.Model>,
                 wasStats: Stats, ghost m: Table.Model, ghost whole: Table.Model)
    returns (consumed: seq<Batch>, ghost parts: seq<Table.Model>, stats: Stats, failed: bool)
    requires Tally(was, wasParts, wasStats, false, m, whole) && Table.Valid(m) && n == |m.rows| > 0
    requires Exports(batch, FirstRows(m, n))
    ensures Tally(consumed, parts, stats, failed, RestOfRows(m, n), whole)
    ensures failed == !Takes(s)
    ensures if failed then consumed == was && stats == wasStats else Grew(was, consumed, m.order)
  {
    consumed, parts, stats, failed := was, wasParts, wasStats, false;
    if !s.exports || !s.fits || !s.consumes {
      failed := true;
      return;
    }
    consumed, parts := consumed + [batch], parts + [FirstRows(m, n)];
    stats := Stats(stats.batches + 1, stats.rows + n);
  }

  /** Take the builder's rows as a batch and hand it on. */
  method SpillFrom(engine: TableBuilder, s: Surroundings, was: seq<Batch>, ghost wasParts: seq<Table.Model>,
                   wasStats: Stats, ghost whole: Table.Model)
    returns (consumed: seq<Batch>, ghost parts: seq<Table.Model>, stats: Stats, failed: bool)
    requires engine.Valid() && engine.rowCount > 0
    requires Tally(was, wasParts, wasStats, false, engine.model, whole)
    modifies engine
    ensures Tally(consumed, parts, stats, failed, engine.model, whole)
    ensures engine.model == RestOfRows(old(engine.model), |old(engine.model).rows|)
    ensures old(engine.model).current == map[] ==> engine.Valid()
    ensures failed == !Takes(s)
    ensures if failed then consumed == was && stats == wasStats else Grew(was, consumed, whole.order)
  {
    ghost var m := engine.model;
    var n := engine.rowCount;
    var batch := TakeBatch(engine);
    consumed, parts, stats, failed := Deliver(s, batch, n, was, wasParts, wasStats, m, whole);
  }

  /** With `held` in the builder after the event, a batch is flushed. */
  ghost predicate Flushes(l: Limits, event: Event, held: Table.Model, capacity: nat) {
    event.EndRow? && held.rows != [] && Full(l, |held.rows|, capacity)
  }

  class SpillSink {
    const limits: Limits
    const engine: TableBuilder
    var consumed: seq<Batch>
    var stats: Stats
    var failed: bool
    /** What a builder that never spills would hold, and the parts spilled so far. */
    ghost var unspilled: Table.Model
    ghost var parts: seq<Table.Model>

    ghost predicate Valid()
      reads this, engine
    {
      engine.Valid() && engine.model.current == unspilled.current && Tallied()
    }

    ghost predicate Tallied()
      reads this, engine
    {
      Tally(consumed, parts, stats, failed, engine.model, unspilled)
    }

    constructor (engine: TableBuilder, limits: Limits)
      requires engine.Valid()
      ensures Valid() && this.engine == engine && this.limits == limits && unspilled == engine.model
      ensures !failed && consumed == [] && stats == Stats(0, 0)
    {
      this.engine, this.limits := engine, limits;
      consumed, stats, failed := [], Stats(0, 0), false;
      unspilled, parts := engine.model, [];
    }

    predicate ShouldSpill(capacity: nat)
      reads this, engine
    {
      !failed && Full(limits, engine.rowCount, capacity)
    }

    /** Take over the outcome of one spill. */
    method Record(consumed: seq<Batch>, ghost parts: seq<Table.Model>, stats: Stats, failed: bool)
      requires Tally(consumed, parts, stats, failed, engine.model, unspilled)
      modifies this`consumed, this`stats, this`failed, this`parts
      ensures Tallied() && this.consumed == consumed && this.stats == stats && this.failed == failed
    {
      this.consumed, this.parts, this.stats, this.failed := consumed, parts, stats, failed;
    }

    /** Flush the rows as one batch. They leave the builder even when the batch then fails. */
    method SpillInner(s: Surroundings)
      requires engine.Valid() && Tallied() && !failed && engine.rowCount > 0
      modifies this`consumed, this`stats, this`failed, this`parts, engine
      ensures Tallied() && engine.model == RestOfRows(old(engine.model), |old(engine.model).rows|)
      ensures old(engine.model).current == map[] ==> engine.Valid()
      ensures failed == !Takes(s)
      ensures if failed then consumed == old(consumed) && stats == old(stats)
              else Grew(old(consumed), consumed, unspilled.order)
    {
      var all, counted, bad;
      ghost var done;
      all, done, counted, bad := SpillFrom(engine, s, consumed, parts, stats, unspilled);
      Record(all, done, counted, bad);
    }

    /** Nothing to do after a failure or without rows. */
    method SpillRows(s: Surroundings)
      requires Valid()
      modifies this`consumed, this`stats, this`failed, this`parts, engine
      ensures unspilled.current == map[] ==> Valid()
      ensures Tallied() && (!failed ==> engine.model.rows == [])
      ensures failed == (old(failed) || (old(engine.model).rows != [] && !Takes(s)))
      ensures if failed || old(engine.model).rows == [] then consumed == old(consumed) && stats == old(stats)
              else Grew(old(consumed), consumed, unspilled.order)
    {
      if failed || engine.rowCount == 0 { return; }
      SpillInner(s);
    }

    /** One event of the parser; a full batch is flushed at the end of a row, and at no other
        time. After a failure nothing is consumed any more. */
    method Send(event: Event, s: Surroundings)
      requires Valid()
      modifies this, engine
      ensures Valid() && unspilled == Table.Step(engine.plan, old(unspilled), event)
      ensures var held := Table.Step(engine.plan, old(engine.model), event);
              var flush := !old(failed) && Flushes(limits, event, held, s.capacity);
              && failed == (old(failed) || (flush && !Takes(s)))
              && (if failed || !flush then consumed == old(consumed) && stats == old(stats)
                  else Grew(old(consumed), consumed, unspilled.order))
              && (!failed ==> engine.model.rows == if flush then [] else held.rows)
    {
      ghost var p := engine.plan;
      ghost var before, m := unspilled, engine.model;
      engine.Send(event);
      unspilled := Table.Step(p, unspilled, event);
      SameStep(p, before, m, event, RowsOf(parts));
      if event.EndRow? && ShouldSpill(s.capacity) { SpillRows(s); }
    }

    /** The last batch. If nothing failed, the batches hold all the rows of the unspilled table
        when every row stores something, and exactly when the first batch had a column. */
    method FinishRun(s: Surroundings) returns (ok: bool)
      requires Valid()
      modifies this`consumed, this`stats, this`failed, this`parts, engine
      ensures ok == !failed && failed == (old(failed) || (old(engine.model).rows != [] && !Takes(s)))
      ensures if !ok || old(engine.model).rows == [] then consumed == old(consumed)
              else Grew(old(consumed), consumed, unspilled.order)
      ensures ok ==> stats == Stats(|consumed|, |unspilled.rows|)
      ensures ok ==> (SameTable(AllRows(consumed), unspilled.rows) <==> consumed == [] || consumed[0].order != [])
      ensures ok ==> (consumed == [] <==> unspilled.rows == []) && |AllRows(consumed)| <= |unspilled.rows|
      ensures ok ==> (SameTable(AllRows(consumed), unspilled.rows) <==> |AllRows(consumed)| == |unspilled.rows|)
      ensures ok && (forall r :: 0 <= r < |unspilled.rows| ==> unspilled.rows[r] != map[]) ==>
                SameTable(AllRows(consumed), unspilled.rows)
      ensures forall i :: 0 <= i < |consumed| ==> consumed[i].order <= unspilled.order
    {
      SpillRows(s);
      PrefixOrders(consumed, parts, unspilled.order);
      if !failed { TallyEnd(consumed, parts, stats, engine.model, unspilled); }
      return !failed;
    }
  }

  /** The builder that spilled does with an event what the unspilled one does. */
  lemma SameStep(p: Table.Plan, whole: Table.Model, m: Table.Model, event: Event, spilled: seq<Row>)
    requires m == whole.(rows := m.rows) && Table.Valid(whole)
    ensures var w, n := Table.Step(p, whole, event), Table.Step(p, m, event);
            && n == w.(rows := n.rows) && Table.Valid(w) && whole.order <= w.order
            && (spilled + m.rows == whole.rows ==> spilled + n.rows == w.rows)
  {
    Table.StepKeepsValid(p, whole, event);
    match event
    case BeginRow =>
    case Put(_, _) =>
    case EndRow =>
      if Table.Accepts(p, whole.current) { assert spilled + (m.rows + [m.current]) == spilled + m.rows + [m.current]; }
  }
}
