/** What a source's plan means is what the table builder does. */
module PlanMeaning {
  import opened Values
  import opened Filters
  import Table
  import Fusion
  import Pushdown

  /** The builder has the same names, drops and filter, no schema, and stores in each column what
      the column's type stores. */
  ghost predicate Matches(t: Table.Plan, p: Fusion.Plan, c: Fusion.Casts) {
    && t.fieldMap == p.mapping && t.dropFields == p.drops && t.filter == p.filter && p.schema.None?
    && forall n: string, v: Value :: t.conversions.store(t.columnType(n), v) == c.store(Fusion.ColumnType(p, n), v)
  }

  function Puts(r: Fusion.Record): seq<Event> {
    seq(|r|, i requires 0 <= i < |r| => Put(r[i].name, r[i].value))
  }

  function RowEvents(r: Fusion.Record): seq<Event> { [BeginRow] + Puts(r) + [EndRow] }

  function AllEvents(records: seq<Fusion.Record>): seq<Event> {
    if records == [] then [] else RowEvents(records[0]) + AllEvents(records[1..])
  }

  ghost predicate KeepsAny(p: Fusion.Plan, r: Fusion.Record) {
    exists i :: 0 <= i < |r| && Fusion.KeptName(p, r[i].name).Some?
  }

  /** After the fields of a record, the builder's open row is the stored row of the plan. */
  lemma {:induction false} RowIsStored(t: Table.Plan, p: Fusion.Plan, c: Fusion.Casts, m: Table.Model, r: Fusion.Record)
    requires Matches(t, p, c) && Table.Typed(t, m) && Table.Valid(m) && m.current == map[]
    ensures var after := Table.Run(t, m, Puts(r));
            && after.rows == m.rows && after.current == Fusion.StoredRow(p, r, c)
            && Table.Typed(t, after) && Table.Valid(after)
            && (after.order != [] <==> m.order != [] || KeepsAny(p, r))
    decreases |r|
  {
    Table.RunTyped(t, m, Puts(r));
    Table.RunKeepsValid(t, m, Puts(r));
    if r == [] {
      assert Puts(r) == [];
    } else {
      var last := |r| - 1;
      var init, f := r[..last], r[last];
      RowIsStored(t, p, c, m, init);
      assert Puts(r) == Puts(init) + [Put(f.name, f.value)];
      Table.RunConcat(t, m, Puts(init), [Put(f.name, f.value)]);
      FieldStored(t, p, c, Table.Run(t, m, Puts(init)), f);
      assert KeepsAny(p, r) <==> KeepsAny(p, init) || Fusion.KeptName(p, f.name).Some? by { KeepsMore(p, r); }
    }
  }

  lemma KeepsMore(p: Fusion.Plan, r: Fusion.Record)
    requires r != []
    ensures KeepsAny(p, r) <==> KeepsAny(p, r[..|r| - 1]) || Fusion.KeptName(p, r[|r| - 1].name).Some?
  {
    var init := r[..|r| - 1];
    forall i | 0 <= i < |init| ensures init[i] == r[i] {
    }
    if KeepsAny(p, init) {
      var i :| 0 <= i < |init| && Fusion.KeptName(p, init[i].name).Some?;
      assert Fusion.KeptName(p, r[i].name).Some?;
    }
  }

  /** One field more in the builder. */
  lemma FieldStored(t: Table.Plan, p: Fusion.Plan, c: Fusion.Casts, m: Table.Model, f: Fusion.Field)
    requires Matches(t, p, c) && Table.Typed(t, m) && Table.Valid(m)
    ensures var after, name := Table.Run(t, m, [Put(f.name, f.value)]), Fusion.KeptName(p, f.name);
            && after.rows == m.rows && (after.order != [] <==> m.order != [] || name.Some?)
            && after.current == match name
                                case None => m.current
                                case Some(n) => m.current[n := c.store(Fusion.ColumnType(p, n), f.value)]
  {
    var put := Put(f.name, f.value);
    var after := Table.Step(t, m, put);
    assert [put][1..] == [] && Table.Run(t, after, []) == after;
    Table.StepKeepsValid(t, m, put);
    var name := Fusion.KeptName(p, f.name);
    assert Table.ResolveField(t, f.name) == name;
    if name.Some? {
      assert Table.AddColumn(t, m, name.value).kinds[name.value] == t.columnType(name.value);
      assert name.value in after.kinds && name.value in after.order;
    }
  }

  /** One record: the builder finishes the row that the plan keeps, and no row if the plan filters
      it out. Only a text that fails under a strict plan is an error. */
  lemma RecordMeaning(t: Table.Plan, p: Fusion.Plan, c: Fusion.Casts, m: Table.Model, r: Fusion.Record)
    requires Matches(t, p, c) && Table.Typed(t, m) && Table.Valid(m) && m.current == map[]
    ensures var after := Table.Run(t, m, RowEvents(r));
            && Table.Typed(t, after) && Table.Valid(after) && after.current == map[]
            && (after.order != [] <==> m.order != [] || KeepsAny(p, r))
            && match Fusion.PlanRow(p, r, c)
               case Bad => p.strict && Fusion.Violates(p, r, c)
               case Gone => after.rows == m.rows
               case Kept(row) => after.rows == m.rows + [row]
  {
    RowIsStored(t, p, c, m, r);
    var filled := Table.Run(t, m, Puts(r));
    assert Table.Run(t, m, [BeginRow]) == m by { assert [BeginRow][1..] == [] && Table.Step(t, m, BeginRow) == m; }
    Table.RunConcat(t, m, [BeginRow], Puts(r));
    Table.RunConcat(t, m, [BeginRow] + Puts(r), [EndRow]);
    assert Table.Run(t, filled, [EndRow]) == Table.FinishRow(t, filled) by { assert [EndRow][1..] == []; }
    Table.StepKeepsValid(t, filled, EndRow);
  }

  /** A whole table: unless it fails, what the plan stores is what the builder holds, in order. */
  lemma {:induction false} TableMeaning(t: Table.Plan, p: Fusion.Plan, c: Fusion.Casts, m: Table.Model,
                                        records: seq<Fusion.Record>)
    requires Matches(t, p, c) && Table.Typed(t, m) && Table.Valid(m) && m.current == map[]
    ensures var after, stored := Table.Run(t, m, AllEvents(records)), Pushdown.Stored(p, records, c);
            && (stored.None? ==> p.strict) && (stored.Some? ==> after.rows == m.rows + stored.value)
            && (after.order != [] <==> m.order != [] || Pushdown.ShowsColumn(p, records))
    decreases |records|
  {
    if records == [] {
      assert m.rows + [] == m.rows;
    } else {
      var first, rest := records[0], records[1..];
      RecordMeaning(t, p, c, m, first);
      var next := Table.Run(t, m, RowEvents(first));
      TableMeaning(t, p, c, next, rest);
      Table.RunConcat(t, m, RowEvents(first), AllEvents(rest));
      ShowsMore(p, records);
      StoredFirst(p, records, c, m.rows);
    }
  }

  /** The first record of a table, and the rows that come of it. */
  lemma StoredFirst(p: Fusion.Plan, records: seq<Fusion.Record>, c: Fusion.Casts, before: seq<Row>)
    requires records != []
    ensures var head, tail := Fusion.PlanRow(p, records[0], c), Pushdown.Stored(p, records[1..], c);
            var all := Pushdown.Stored(p, records, c);
            && (all.None? <==> head.Bad? || tail.None?)
            && (all.Some? && head.Gone? ==> all == tail)
            && (all.Some? && head.Kept? ==> before + all.value == before + [head.row] + tail.value)
  {
  }

  lemma ShowsMore(p: Fusion.Plan, records: seq<Fusion.Record>)
    requires records != [] && p.schema.None?
    ensures Pushdown.ShowsColumn(p, records) <==> KeepsAny(p, records[0]) || Pushdown.ShowsColumn(p, records[1..])
  {
    assert records == [records[0]] + records[1..];
    if KeepsAny(p, records[0]) {
      var i: nat :| i < |records[0]| && Fusion.KeptName(p, records[0][i].name).Some?;
      assert records[0] in records;
    }
  }

  /** The exported table of a fresh builder, which has no rows if it has no column, is the plan's
      table. */
  lemma ExportMeaning(t: Table.Plan, p: Fusion.Plan, c: Fusion.Casts, records: seq<Fusion.Record>)
    requires Matches(t, p, c)
    ensures var whole, result := Table.Run(t, Table.Empty(), AllEvents(records)), Pushdown.RunPlan(p, records, c);
            result.Some? ==> result.value == if whole.order == [] then [] else whole.rows
  {
    TableMeaning(t, p, c, Table.Empty(), records);
    var stored := Pushdown.Stored(p, records, c);
    if stored.Some? { assert [] + stored.value == stored.value; }
  }

  /** Pushdown, down to the builder: a builder with the merged plan, and then the stages that are
      left, give what the source's plan and then all stages give. */
  lemma PushdownInBuilder(t: Table.Plan, p: Fusion.Plan, stages: seq<Fusion.Stage>, c: Fusion.Casts,
                          records: seq<Fusion.Record>)
    requires Pushdown.AllSafe(p, Fusion.PlanRank(p), stages, records, c) && Fusion.Sound(c)
    requires var n := Fusion.Pushed(p, Fusion.PlanRank(p), stages);
             n <= |stages| && (forall i :: 0 <= i < n ==> !stages[i].Custom?)
             && Matches(t, Fusion.PushAll(p, stages[..n]), c)
    ensures var n := Fusion.Pushed(p, Fusion.PlanRank(p), stages);
            var whole := Table.Run(t, Table.Empty(), AllEvents(records));
            var merged := Pushdown.RunPlan(Fusion.PushAll(p, stages[..n]), records, c);
            && Pushdown.RunStages(stages[n..], merged, c)
               == Pushdown.RunStages(stages, Pushdown.RunPlan(p, records, c), c)
            && (merged.Some? ==> merged.value == if whole.order == [] then [] else whole.rows)
  {
    var n := Fusion.Pushed(p, Fusion.PlanRank(p), stages);
    Pushdown.PushdownPreserves(p, Fusion.PlanRank(p), stages, records, c);
    ExportMeaning(t, Fusion.PushAll(p, stages[..n]), c, records);
  }
}
