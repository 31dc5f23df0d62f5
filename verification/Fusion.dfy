/** Stage pushdown: moving a prefix of the stages into the plan of the parser. */
module Fusion {
  import opened Wrappers
  import opened Values
  import opened Filters

  /** A field as the parser sends it. A record may send a field again: the later value hides the
      earlier one. */
  datatype Field = Field(name: string, value: Value)

  type Record = seq<Field>

  /** What conversions do. `store`: the cell a value becomes in a column of that type. `parses`:
      whether a text is one of that type. `show`: the text of a native value. `text`: the text of
      a cell, if it is one. `recast`: a stage's cast of any other cell, unless that fails. */
  datatype Casts = Casts(store: (Variant, Value) -> Option<Cell>, parses: (Variant, string) -> bool,
                         show: Value -> string, text: Cell -> Option<string>,
                         recast: (Variant, Cell) -> Option<Option<Cell>>)

  function Shown(v: Value, c: Casts): string { if v.Str? then v.text else c.show(v) }

  /** Nulls stay null, a text is stored exactly if it parses, and an untyped column keeps texts. */
  ghost predicate Sound(c: Casts) {
    && (forall t: Variant :: c.store(t, Null) == None)
    && (forall t: Variant, s: string :: c.store(t, Str(s)).Some? <==> c.parses(t, s))
    && (forall v: Value :: v != Null ==>
          c.store(StringColumn, v).Some? && c.text(c.store(StringColumn, v).value) == Some(Shown(v, c)))
  }

  datatype Stage =
    | Rename(mapping: map<string, string>)
    | Drop(fields: set<string>)
    | CastTypes(types: map<string, Variant>)
    | FilterRows(filter: Filter)
    | Observe
    | Custom(run: seq<Row> -> Option<seq<Row>>)

  /** The source's plan. With a schema only those columns are given, null where nothing was sent. */
  datatype Plan = Plan(mapping: map<string, string>, drops: set<string>, types: map<string, Variant>, strict: bool,
                       filter: Option<Filter>, observed: bool, schema: Option<set<string>>)

  // ---------------------------------------------------------------- what a plan means

  function FieldsOf(f: Filter): set<string> {
    match f
    case Always(_) => {}
    case One(field, _) => {field}
    case Two(a, b, _) => {a, b}
    case And(left, right) => FieldsOf(left) + FieldsOf(right)
    case Or(left, right) => FieldsOf(left) + FieldsOf(right)
    case Not(inner) => FieldsOf(inner)
  }

  /** Inside the schema, or read by the filter. */
  predicate Wanted(p: Plan, name: string) {
    || p.schema.None? || name in p.schema.value
    || (p.filter.Some? && exists field :: field in FieldsOf(p.filter.value) && Resolve(field, p.mapping) == name)
  }

  /** `resolve_field`: rename, then drop, then the schema. */
  function KeptName(p: Plan, raw: string): Option<string> {
    var name := Resolve(raw, p.mapping);
    if name in p.drops || !Wanted(p, name) then None else Some(name)
  }

  function ColumnType(p: Plan, name: string): Variant { if name in p.types then p.types[name] else StringColumn }

  /** The row that the parse stores: for each kept name the last value sent to it. */
  function StoredRow(p: Plan, r: Record, c: Casts): Row {
    if r == [] then map[]
    else
      var row, last := StoredRow(p, r[..|r| - 1], c), r[|r| - 1];
      match KeptName(p, last.name)
      case None => row
      case Some(name) => row[name := c.store(ColumnType(p, name), last.value)]
  }

  /** A text that does not parse as its column's type: the only strict violation. */
  predicate FieldFails(p: Plan, f: Field, c: Casts) {
    match KeptName(p, f.name)
    case None => false
    case Some(name) => name in p.types && f.value.Str? && !c.parses(p.types[name], f.value.text)
  }

  predicate Violates(p: Plan, r: Record, c: Casts) { exists i :: 0 <= i < |r| && FieldFails(p, r[i], c) }

  function Project(p: Plan, row: Row): Row {
    if p.schema.None? then row else map n | n in p.schema.value - p.drops :: CellOf(row, n)
  }

  /** A record after a step: kept as a row, filtered out, or an error. */
  datatype Outcome = Bad | Gone | Kept(row: Row)

  function Filtered(filter: Option<Filter>, mapping: map<string, string>, row: Row): bool {
    filter.Some? && !Check(filter.value, row, mapping)
  }

  /** The engine's fixed order: rename, drop, store, filter. The filter's names go through the
      rename map once more. */
  function PlanRow(p: Plan, r: Record, c: Casts): Outcome {
    var row := StoredRow(p, r, c);
    if p.strict && Violates(p, r, c) then Bad
    else if Filtered(p.filter, p.mapping, row) then Gone
    else Kept(Project(p, row))
  }

  // ---------------------------------------------------------------- what stages mean

  ghost function Origin(mapping: map<string, string>, row: Row, name: string): (k: string)
    requires exists k :: k in row && Resolve(k, mapping) == name
    ensures k in row && Resolve(k, mapping) == name
  {
    var k :| k in row && Resolve(k, mapping) == name;
    k
  }

  function Image(mapping: map<string, string>, names: set<string>): set<string> {
    set k | k in names :: Resolve(k, mapping)
  }

  /** Every column under its new name. Which one wins if two get the same name is left open. */
  ghost function RenameRow(mapping: map<string, string>, row: Row): Row {
    map name | name in Image(mapping, row.Keys) :: row[Origin(mapping, row, name)]
  }

  /** A stage's cast of one cell: nulls stay, a text must parse. */
  function CastCell(t: Variant, cell: Option<Cell>, c: Casts): Option<Option<Cell>> {
    if cell.None? then Some(None)
    else match c.text(cell.value)
      case Some(s) => if c.parses(t, s) then Some(c.store(t, Str(s))) else None
      case None => c.recast(t, cell.value)
  }

  function CastRow(types: map<string, Variant>, row: Row, c: Casts): Outcome {
    if forall n :: n in row && n in types ==> CastCell(types[n], row[n], c).Some?
    then Kept(map n | n in row :: if n in types then CastCell(types[n], row[n], c).value else row[n])
    else Bad
  }

  /** A stage that works row by row. */
  ghost function StageRow(s: Stage, row: Row, c: Casts): Outcome
    requires !s.Custom?
  {
    match s
    case Rename(mapping) => Kept(RenameRow(mapping, row))
    case Drop(fields) => Kept(row - fields)
    case CastTypes(types) => CastRow(types, row, c)
    case FilterRows(filter) => if Filtered(Some(filter), map[], row) then Gone else Kept(row)
    case Observe => Kept(row)
  }

  ghost function Then(first: Outcome, s: Stage, c: Casts): Outcome
    requires !s.Custom?
  {
    if first.Kept? then StageRow(s, first.row, c) else first
  }

  // ---------------------------------------------------------------- plan_split

  /** What a stage can put into the plan; a cast of nothing and a custom stage cannot be pushed. */
  predicate Pushable(s: Stage) { !s.Custom? && (s.CastTypes? ==> s.types != map[]) }

  function StageRank(s: Stage): int
    requires !s.Custom?
  {
    match s
    case Rename(_) => 0
    case Drop(_) => 1
    case CastTypes(_) => 2
    case FilterRows(_) => 3
    case Observe => 4
  }

  function PlanRank(p: Plan): int {
    if p.observed then 4 else if p.filter.Some? then 3 else if p.types != map[] then 2
    else if p.drops != {} then 1 else if p.mapping != map[] then 0 else -1
  }

  /** The stage keeps the engine's order, and neither renames nor types twice. */
  predicate Fits(p: Plan, rank: int, s: Stage) {
    && Pushable(s) && StageRank(s) >= rank
    && (s.Rename? ==> s.mapping == map[] || p.mapping == map[])
    && (s.CastTypes? ==> s.types.Keys !! p.types.Keys)
  }

  function Conjunction(specs: seq<Filter>): Option<Filter> {
    if specs == [] then None
    else if |specs| == 1 then Some(specs[0])
    else Some(And(Conjunction(specs[..|specs| - 1]).value, specs[|specs| - 1]))
  }

  /** The plan with the stage merged in. An empty rename replaces the mapping all the same. */
  function Push(p: Plan, s: Stage): Plan
    requires !s.Custom?
  {
    match s
    case Rename(mapping) => p.(mapping := mapping)
    case Drop(fields) => p.(drops := p.drops + fields)
    case CastTypes(types) => p.(types := p.types + types, strict := true)
    case FilterRows(filter) => p.(filter := Some(if p.filter.Some? then And(p.filter.value, filter) else filter))
    case Observe => p.(observed := true)
  }

  function Max(a: int, b: int): int { if a < b then b else a }

  /** How many stages go into the plan. */
  function Pushed(p: Plan, rank: int, stages: seq<Stage>): nat
    decreases |stages|
  {
    if stages == [] || !Fits(p, rank, stages[0]) then 0
    else 1 + Pushed(Push(p, stages[0]), Max(rank, StageRank(stages[0])), stages[1..])
  }

  function PushAll(p: Plan, stages: seq<Stage>): Plan
    requires forall i :: 0 <= i < |stages| ==> !stages[i].Custom?
    decreases |stages|
  {
    if stages == [] then p else PushAll(Push(p, stages[0]), stages[1..])
  }

  lemma {:induction false} PushedFits(p: Plan, rank: int, stages: seq<Stage>)
    ensures Pushed(p, rank, stages) <= |stages|
    ensures forall i :: 0 <= i < Pushed(p, rank, stages) ==> !stages[i].Custom?
    decreases |stages|
  {
    if stages != [] && Fits(p, rank, stages[0]) {
      PushedFits(Push(p, stages[0]), Max(rank, StageRank(stages[0])), stages[1..]);
    }
  }

  // ---------------------------------------------------------------- which stages are pushed

  /** The stage may go into the plan of `source` after those in `before`, of which `p` has come:
      what the engine does later than the stage has not been asked for yet. */
  ghost predicate Allowed(source: Plan, before: seq<Stage>, p: Plan, s: Stage) {
    match s
    case Rename(mapping) =>
      && source.drops == {} && source.types == map[] && source.filter.None? && !source.observed
      && (forall b :: b in before ==> b.Rename?) && (mapping == map[] || p.mapping == map[])
    case Drop(_) =>
      && source.types == map[] && source.filter.None? && !source.observed
      && (forall b :: b in before ==> b.Rename? || b.Drop?)
    case CastTypes(types) =>
      && source.filter.None? && !source.observed && (forall b :: b in before ==> !b.FilterRows? && !b.Observe?)
      && types != map[] && types.Keys !! p.types.Keys
    case FilterRows(_) => !source.observed && forall b :: b in before ==> !b.Observe?
    case Observe => true
    case Custom(_) => false
  }

  /** The rank is the highest of the plan's and of the stages so far. */
  ghost predicate Ranked(rank: int, source: Plan, before: seq<Stage>) {
    && (forall b :: b in before ==> !b.Custom? && StageRank(b) <= rank) && PlanRank(source) <= rank
    && (rank == PlanRank(source) || exists b :: b in before && !b.Custom? && StageRank(b) == rank)
  }

  lemma RankedMore(rank: int, source: Plan, before: seq<Stage>, s: Stage)
    requires Ranked(rank, source, before) && !s.Custom?
    ensures Ranked(Max(rank, StageRank(s)), source, before + [s])
  {
    assert s in before + [s] && forall b :: b in before ==> b in before + [s];
  }

  lemma FitsExact(rank: int, source: Plan, before: seq<Stage>, p: Plan, s: Stage)
    requires Ranked(rank, source, before)
    ensures Fits(p, rank, s) <==> Allowed(source, before, p, s)
  {
    if !s.Custom? {
      assert StageRank(s) >= rank
             <==> StageRank(s) >= PlanRank(source) && forall b :: b in before ==> StageRank(s) >= StageRank(b);
    }
  }

  /** Stage `i` may be pushed after those before it. */
  ghost predicate AllowedAt(source: Plan, before: seq<Stage>, p: Plan, stages: seq<Stage>, i: nat)
    requires i < |stages| && forall k :: 0 <= k < i ==> !stages[k].Custom?
  {
    Allowed(source, before + stages[..i], PushAll(p, stages[..i]), stages[i])
  }

  lemma AllowedLater(source: Plan, before: seq<Stage>, p: Plan, stages: seq<Stage>, i: nat)
    requires 0 < i < |stages| && forall k :: 0 <= k < i ==> !stages[k].Custom?
    ensures AllowedAt(source, before, p, stages, i)
            <==> AllowedAt(source, before + [stages[0]], Push(p, stages[0]), stages[1..], i - 1)
  {
    assert stages[..i][0] == stages[0] && stages[..i][1..] == stages[1..][..i - 1];
    assert before + stages[..i] == before + [stages[0]] + stages[1..][..i - 1];
  }

  /** As many stages are pushed as may be, one after the other; the first of the others may not. */
  lemma {:induction false} PushedExact(source: Plan, before: seq<Stage>, p: Plan, rank: int, stages: seq<Stage>)
    requires Ranked(rank, source, before)
    ensures var n := Pushed(p, rank, stages);
            && n <= |stages| && (forall i :: 0 <= i < n ==> !stages[i].Custom?)
            && (forall i :: 0 <= i <= n && i < |stages| ==> (AllowedAt(source, before, p, stages, i) <==> i < n))
    decreases |stages|
  {
    PushedFits(p, rank, stages);
    if stages != [] {
      var s, n := stages[0], Pushed(p, rank, stages);
      FitsExact(rank, source, before, p, s);
      assert before + stages[..0] == before;
      if Fits(p, rank, s) {
        RankedMore(rank, source, before, s);
        PushedExact(source, before + [s], Push(p, s), Max(rank, StageRank(s)), stages[1..]);
        forall i | 0 < i <= n && i < |stages| ensures AllowedAt(source, before, p, stages, i) <==> i < n {
          AllowedLater(source, before, p, stages, i);
        }
      }
    }
  }

  /** The plan of `plan_split`, for which no stage came before. */
  lemma SplitExact(source: Plan, stages: seq<Stage>)
    ensures var n := Pushed(source, PlanRank(source), stages);
            && n <= |stages| && (forall i :: 0 <= i < n ==> !stages[i].Custom?)
            && (forall i :: 0 <= i < n ==> Allowed(source, stages[..i], PushAll(source, stages[..i]), stages[i]))
            && (n < |stages| ==> !Allowed(source, stages[..n], PushAll(source, stages[..n]), stages[n]))
  {
    var n := Pushed(source, PlanRank(source), stages);
    PushedExact(source, [], source, PlanRank(source), stages);
    forall i | 0 <= i <= n && i < |stages|
      ensures AllowedAt(source, [], source, stages, i)
              <==> Allowed(source, stages[..i], PushAll(source, stages[..i]), stages[i])
    {
      assert [] + stages[..i] == stages[..i];
    }
  }

  /** Rows are observed if the source's are or a stage observes them. */
  lemma {:induction false} ObservedExact(p: Plan, stages: seq<Stage>)
    requires forall i :: 0 <= i < |stages| ==> !stages[i].Custom?
    ensures PushAll(p, stages).observed <==> p.observed || Observe in stages
    decreases |stages|
  {
    if stages != [] { ObservedExact(Push(p, stages[0]), stages[1..]); }
  }

  /** The overrides of the source plan: only the keys that some stage set. */
  datatype Overrides = Overrides(mapping: Option<map<string, string>>, drops: Option<set<string>>,
                                 types: Option<map<string, Variant>>, strict: bool, filter: Option<Filter>,
                                 observed: bool)

  function Updated(p: Plan, o: Overrides): Plan {
    Plan(if o.mapping.Some? then o.mapping.value else p.mapping, if o.drops.Some? then o.drops.value else p.drops,
         if o.types.Some? then o.types.value else p.types, p.strict || o.strict,
         if o.filter.Some? then o.filter else p.filter, p.observed || o.observed, p.schema)
  }

  /** The keys that one stage sets. */
  method MergeStage(existing: Plan, was: Overrides, wasSpecs: seq<Filter>, stage: Stage, ghost source: Plan)
    returns (overrides: Overrides, specs: seq<Filter>)
    requires !stage.Custom? && Updated(source, was) == existing && Conjunction(wasSpecs) == existing.filter
    ensures Updated(source, overrides) == Push(existing, stage) && Conjunction(specs) == Push(existing, stage).filter
  {
    overrides, specs := was, wasSpecs;
    match stage
    case Rename(mapping) => overrides := overrides.(mapping := Some(mapping));
    case Drop(fields) => overrides := overrides.(drops := Some(existing.drops + fields));
    case CastTypes(types) => overrides := overrides.(types := Some(existing.types + types), strict := true);
    case FilterRows(filter) =>
      assert (specs + [filter])[..|specs|] == specs;
      specs := specs + [filter];
      overrides := overrides.(filter := Conjunction(specs));
    case Observe => overrides := overrides.(observed := true);
  }

  /** `plan_split`: the overrides to hand to the source, and the stages left to run. */
  method PlanSplit(stages: seq<Stage>, source: Plan) returns (overrides: Overrides, remaining: seq<Stage>)
    ensures var n := Pushed(source, PlanRank(source), stages);
            && n <= |stages| && remaining == stages[n..]
            && (forall i :: 0 <= i < n ==> !stages[i].Custom?)
            && Updated(source, overrides) == PushAll(source, stages[..n])
  {
    PushedFits(source, PlanRank(source), stages);
    ghost var n := Pushed(source, PlanRank(source), stages);
    var existing, rank := source, PlanRank(source);
    overrides := Overrides(None, None, None, false, None, false);
    var specs := if source.filter.Some? then [source.filter.value] else [];
    assert stages[0..] == stages && stages[0..n] == stages[..n];
    for index := 0 to |stages|
      invariant index <= n && n == index + Pushed(existing, rank, stages[index..])
      invariant PushAll(existing, stages[index..n]) == PushAll(source, stages[..n])
      invariant Updated(source, overrides) == existing && Conjunction(specs) == existing.filter
    {
      var stage := stages[index];
      assert stages[index..][0] == stage && stages[index..][1..] == stages[index + 1..];
      if !Fits(existing, rank, stage) { return overrides, stages[index..]; }
      assert stages[index..n][0] == stage && stages[index..n][1..] == stages[index + 1..n];
      overrides, specs := MergeStage(existing, overrides, specs, stage, source);
      existing := Push(existing, stage);
      rank := Max(rank, StageRank(stage));
    }
    return overrides, [];
  }

}
