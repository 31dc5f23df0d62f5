/** The plain meaning of a table builder: a list of rows, each a map from field to value. */
module Table {
  import opened Wrappers
  import opened Values
  import opened Filters

  datatype Plan = Plan(fieldMap: map<string, string>, dropFields: set<string>, columnType: string -> Variant,
                       filter: Option<Filter>, conversions: Conversions)

  /** `resolve_field`: rename, then drop. */
  function ResolveField(p: Plan, raw: string): Option<string> {
    var resolved := Resolve(raw, p.fieldMap);
    if resolved in p.dropFields then None else Some(resolved)
  }

  /** The columns in order of first appearance with their types, the finished rows, and the row
      being filled. A row holds only the fields it was sent. */
  datatype Model = Model(order: seq<string>, kinds: map<string, Variant>, rows: seq<Row>, current: Row)

  function Empty(): Model { Model([], map[], [], map[]) }

  ghost predicate Distinct(names: seq<string>) {
    forall i, j :: 0 <= i < j < |names| ==> names[i] != names[j]
  }

  ghost predicate Valid(m: Model) {
    && Distinct(m.order) && (forall n :: n in m.kinds <==> n in m.order)
    && (forall r :: 0 <= r < |m.rows| ==> m.rows[r].Keys <= m.kinds.Keys)
    && m.current.Keys <= m.kinds.Keys
  }

  function AddColumn(p: Plan, m: Model, name: string): Model {
    if name in m.kinds then m
    else m.(order := m.order + [name], kinds := m.kinds[name := p.columnType(name)])
  }

  /** A later value for the same field of a row replaces the earlier one. */
  function PutResolved(p: Plan, m: Model, name: string, value: Value): Model {
    var n := AddColumn(p, m, name);
    n.(current := n.current[name := p.conversions.store(n.kinds[name], value)])
  }

  function PutField(p: Plan, m: Model, raw: string, value: Value): Model {
    match ResolveField(p, raw)
    case None => m
    case Some(name) => PutResolved(p, m, name, value)
  }

  predicate Accepts(p: Plan, row: Row) {
    p.filter.None? || Check(p.filter.value, row, p.fieldMap)
  }

  function FinishRow(p: Plan, m: Model): Model {
    m.(rows := if Accepts(p, m.current) then m.rows + [m.current] else m.rows, current := map[])
  }

  function Step(p: Plan, m: Model, event: Event): Model {
    match event
    case BeginRow => m
    case Put(name, value) => PutField(p, m, name, value)
    case EndRow => FinishRow(p, m)
  }

  function Run(p: Plan, m: Model, events: seq<Event>): Model
    decreases |events|
  {
    if events == [] then m else Run(p, Step(p, m, events[0]), events[1..])
  }

  /** A field goes under its new name into the row being filled, unless that name is dropped: a
      new column comes last and takes the name's type, and every other cell stays. */
  lemma PutExact(p: Plan, m: Model, raw: string, value: Value)
    ensures var name, after := if raw in p.fieldMap then p.fieldMap[raw] else raw, PutField(p, m, raw, value);
            if name in p.dropFields then after == m
            else
              var kind := if name in m.kinds then m.kinds[name] else p.columnType(name);
              && after.order == (if name in m.kinds then m.order else m.order + [name])
              && after.kinds == m.kinds[name := kind] && after.rows == m.rows
              && after.current.Keys == m.current.Keys + {name}
              && after.current[name] == p.conversions.store(kind, value)
              && forall n :: n in m.current && n != name ==> after.current[n] == m.current[n]
  {
  }

  /** A builder without a filter keeps every row. */
  lemma UnfilteredKeeps(p: Plan, m: Model)
    requires p.filter.None?
    ensures FinishRow(p, m) == Model(m.order, m.kinds, m.rows + [m.current], map[])
  {
  }

  /** A builder with this filter keeps the row that it is filling. */
  predicate KeepsRow(p: Plan, f: Filter, m: Model) { FinishRow(p.(filter := Some(f)), m).rows == m.rows + [m.current] }

  /** It keeps the row or leaves the finished rows as they are. */
  lemma KeptOrNot(p: Plan, f: Filter, m: Model)
    ensures var after := FinishRow(p.(filter := Some(f)), m);
            && after.current == map[] && (KeepsRow(p, f, m) || after.rows == m.rows)
            && (KeepsRow(p, f, m) ==> after.rows != m.rows)
  {
    assert |m.rows + [m.current]| != |m.rows|;
  }

  /** A constant keeps all rows or none, and a negation keeps those that its filter rejects. */
  lemma NotLaws(p: Plan, f: Filter, m: Model)
    ensures KeepsRow(p, Always(true), m) && !KeepsRow(p, Always(false), m)
    ensures KeepsRow(p, Not(f), m) <==> !KeepsRow(p, f, m)
  {
    assert |m.rows + [m.current]| != |m.rows|;
  }

  /** Two filters together keep the rows that both keep, and one or the other those of either. */
  lemma FilterLaws(p: Plan, f: Filter, g: Filter, m: Model)
    ensures KeepsRow(p, And(f, g), m) <==> KeepsRow(p, f, m) && KeepsRow(p, g, m)
    ensures KeepsRow(p, Or(f, g), m) <==> KeepsRow(p, f, m) || KeepsRow(p, g, m)
  {
    assert |m.rows + [m.current]| != |m.rows|;
  }

  /** De Morgan's laws, of the rows that are kept. */
  lemma FilterDuals(p: Plan, f: Filter, g: Filter, m: Model)
    ensures KeepsRow(p, Not(And(f, g)), m) <==> KeepsRow(p, Or(Not(f), Not(g)), m)
    ensures KeepsRow(p, Not(Or(f, g)), m) <==> KeepsRow(p, And(Not(f), Not(g)), m)
  {
    FilterLaws(p, f, g, m);
    FilterLaws(p, Not(f), Not(g), m);
    NotLaws(p, f, m);
    NotLaws(p, g, m);
    NotLaws(p, And(f, g), m);
    NotLaws(p, Or(f, g), m);
  }

  /** A test of one field sees the cell under the field's new name, or a null one. */
  lemma OneField(p: Plan, field: string, test: Option<Cell> -> bool, m: Model)
    ensures var name := if field in p.fieldMap then p.fieldMap[field] else field;
            KeepsRow(p, One(field, test), m)
            <==> test(if name in m.current then m.current[name] else None)
  {
    assert |m.rows + [m.current]| != |m.rows|;
  }

  /** A comparison of two fields takes the first for its first operand and the second for its
      second: one that ignores either is a test of the other. */
  lemma TwoFields(p: Plan, a: string, b: string, compare: (Option<Cell>, Option<Cell>) -> bool,
                  test: Option<Cell> -> bool, m: Model)
    ensures (forall u, v :: compare(u, v) == test(u)) ==>
              (KeepsRow(p, Two(a, b, compare), m) <==> KeepsRow(p, One(a, test), m))
    ensures (forall u, v :: compare(u, v) == test(v)) ==>
              (KeepsRow(p, Two(a, b, compare), m) <==> KeepsRow(p, One(b, test), m))
  {
    assert |m.rows + [m.current]| != |m.rows|;
  }

  /** Drop a row that was not finished. */
  function Normalized(m: Model): Model { m.(current := map[]) }

  lemma StepKeepsValid(p: Plan, m: Model, event: Event)
    requires Valid(m)
    ensures Valid(Step(p, m, event))
  {
  }

  lemma {:induction false} RunKeepsValid(p: Plan, m: Model, events: seq<Event>)
    requires Valid(m)
    ensures Valid(Run(p, m, events))
    decreases |events|
  {
    if events != [] {
      StepKeepsValid(p, m, events[0]);
      RunKeepsValid(p, Step(p, m, events[0]), events[1..]);
    }
  }

  lemma {:induction false} RunConcat(p: Plan, m: Model, a: seq<Event>, b: seq<Event>)
    ensures Run(p, m, a + b) == Run(p, Run(p, m, a), b)
    decreases |a|
  {
    if a == [] {
      assert a + b == b;
    } else {
      assert (a + b)[1..] == a[1..] + b;
      RunConcat(p, Step(p, m, a[0]), a[1..], b);
    }
  }

  // ---------------------------------------------------------------- the last value wins

  /** The last value that the events send to the column `name`. */
  function LastSent(p: Plan, events: seq<Event>, name: string): Option<Value> {
    if events == [] then None
    else
      var last := events[|events| - 1];
      if last.Put? && ResolveField(p, last.name) == Some(name) then Some(last.value)
      else LastSent(p, events[..|events| - 1], name)
  }

  ghost predicate OneRow(events: seq<Event>) { forall i :: 0 <= i < |events| ==> !events[i].EndRow? }

  ghost predicate Typed(p: Plan, m: Model) { forall n :: n in m.kinds ==> m.kinds[n] == p.columnType(n) }

  lemma {:induction false} RunTyped(p: Plan, m: Model, events: seq<Event>)
    requires Typed(p, m)
    ensures Typed(p, Run(p, m, events))
    decreases |events|
  {
    if events != [] { RunTyped(p, Step(p, m, events[0]), events[1..]); }
  }

  /** Within a row each column holds the last value sent to it, and a column sent none is null;
      the rows before it are not touched. */
  lemma {:induction false} LastWriteWins(p: Plan, m: Model, events: seq<Event>, name: string)
    requires OneRow(events) && Typed(p, m) && name !in m.current
    ensures var after := Run(p, m, events);
            && after.rows == m.rows
            && (name in after.current <==> LastSent(p, events, name).Some?)
            && CellOf(after.current, name) == (match LastSent(p, events, name)
                                               case None => None
                                               case Some(value) => p.conversions.store(p.columnType(name), value))
  {
    if events != [] {
      var before, last := events[..|events| - 1], events[|events| - 1];
      LastWriteWins(p, m, before, name);
      assert events == before + [last];
      RunConcat(p, m, before, [last]);
      RunTyped(p, m, before);
      assert Run(p, Run(p, m, before), [last]) == Step(p, Run(p, m, before), last);
    }
  }

  // ---------------------------------------------------------------- joining tables

  /** The names not among `known`, in their order. */
  function Fresh(names: seq<string>, known: set<string>): seq<string> {
    if names == [] then []
    else
      var rest := Fresh(names[..|names| - 1], known);
      var last := names[|names| - 1];
      if last in known then rest else rest + [last]
  }

  /** One table after another: the columns of the second that are new come last. */
  function Join(first: Model, second: Model): Model {
    Model(first.order + Fresh(second.order, first.kinds.Keys), second.kinds + first.kinds,
          first.rows + second.rows, second.current)
  }

  lemma {:induction false} FreshIn(names: seq<string>, known: set<string>, n: string)
    ensures n in Fresh(names, known) <==> n in names && n !in known
  {
    if names != [] {
      FreshIn(names[..|names| - 1], known, n);
      assert names == names[..|names| - 1] + [names[|names| - 1]];
    }
  }

  lemma OverrideKeeps<K, V>(over: map<K, V>, base: map<K, V>, k: K, v: V)
    ensures k in over ==> base[k := v] + over == base + over
    ensures k !in over ==> base[k := v] + over == (base + over)[k := v]
  {
    if k in over { assert base[k := v] + over == base + over; }
  }

  lemma JoinAddColumn(p: Plan, m: Model, x: Model, name: string)
    requires Typed(p, m) && Typed(p, x)
    ensures AddColumn(p, Join(m, x), name) == Join(m, AddColumn(p, x, name))
  {
    var kind := p.columnType(name);
    OverrideKeeps(m.kinds, x.kinds, name, kind);
  }

  lemma JoinPut(p: Plan, m: Model, x: Model, name: string, value: Value)
    requires Typed(p, m) && Typed(p, x)
    ensures PutResolved(p, Join(m, x), name, value) == Join(m, PutResolved(p, x, name, value))
  {
    JoinAddColumn(p, m, x, name);
    var n := AddColumn(p, x, name);
    assert name in n.kinds;
    assert Join(m, n).kinds[name] == n.kinds[name];
  }

  /** Working on a joined table is working on its second part. */
  lemma JoinStep(p: Plan, m: Model, x: Model, event: Event)
    requires Typed(p, m) && Typed(p, x)
    ensures Step(p, Join(m, x), event) == Join(m, Step(p, x, event))
  {
    match event
    case BeginRow =>
    case Put(name, value) =>
      var resolved := ResolveField(p, name);
      if resolved.Some? {
        JoinPut(p, m, x, resolved.value, value);
      }
    case EndRow =>
  }

  lemma {:induction false} RunJoined(p: Plan, m: Model, x: Model, events: seq<Event>)
    requires Typed(p, m) && Typed(p, x)
    ensures Run(p, Join(m, x), events) == Join(m, Run(p, x, events))
    decreases |events|
  {
    if events != [] {
      JoinStep(p, m, x, events[0]);
      RunJoined(p, m, Step(p, x, events[0]), events[1..]);
    }
  }

  /** Between rows, a builder that goes on is the join of what it has and of a fresh builder fed
      the rest. */
  lemma RunSplits(p: Plan, m: Model, events: seq<Event>)
    requires Typed(p, m) && m.current == map[]
    ensures Run(p, m, events) == Join(m, Run(p, Empty(), events))
  {
    assert m.rows + [] == m.rows;
    assert Join(m, Empty()) == m;
    RunJoined(p, m, Empty(), events);
  }
}
