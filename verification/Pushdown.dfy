/** When a stage may be pushed into the plan: exactly when, stage by stage, and for whole pipelines. */
module Pushdown {
  import opened Wrappers
  import opened Values
  import opened Filters
  import opened Fusion

  // ---------------------------------------------------------------- the stored row

  /** The last value sent to the column `name`. */
  function LastValue(p: Plan, r: Record, name: string): Option<Value> {
    if r == [] then None
    else
      var last := r[|r| - 1];
      if KeptName(p, last.name) == Some(name) then Some(last.value) else LastValue(p, r[..|r| - 1], name)
  }

  lemma {:induction false} StoredAt(p: Plan, r: Record, c: Casts, name: string)
    ensures var row, last := StoredRow(p, r, c), LastValue(p, r, name);
            && (name in row <==> last.Some?)
            && (last.Some? ==> row[name] == c.store(ColumnType(p, name), last.value))
  {
    if r != [] { StoredAt(p, r[..|r| - 1], c, name); }
  }

  lemma {:induction false} LastIs(p: Plan, r: Record, name: string) returns (i: nat)
    requires LastValue(p, r, name).Some?
    ensures i < |r| && KeptName(p, r[i].name) == Some(name) && LastValue(p, r, name) == Some(r[i].value)
    ensures forall j :: i < j < |r| ==> KeptName(p, r[j].name) != Some(name)
  {
    i := |r| - 1;
    if KeptName(p, r[i].name) != Some(name) {
      var init := r[..i];
      i := LastIs(p, init, name);
      assert r[i] == init[i];
      forall j | i < j < |r| ensures KeptName(p, r[j].name) != Some(name) {
        if j < |init| { assert r[j] == init[j]; }
      }
    }
  }

  lemma {:induction false} LastSent(p: Plan, r: Record, name: string, i: nat)
    requires i < |r| && KeptName(p, r[i].name) == Some(name)
    ensures LastValue(p, r, name).Some?
  {
    if i < |r| - 1 { LastSent(p, r[..|r| - 1], name, i); }
  }

  lemma SameRow(a: Row, b: Row)
    requires forall n: string :: n in a <==> n in b
    requires forall n: string :: n in a && n in b ==> a[n] == b[n]
    ensures a == b
  {
  }

  lemma {:induction false} SameNames(p: Plan, q: Plan, r: Record, name: string)
    requires forall raw :: KeptName(q, raw) == Some(name) <==> KeptName(p, raw) == Some(name)
    ensures LastValue(q, r, name) == LastValue(p, r, name)
  {
    if r != [] { SameNames(p, q, r[..|r| - 1], name); }
  }

  /** Plans that keep the same names and agree on their types store the same rows. */
  lemma SameStored(p: Plan, q: Plan, r: Record, c: Casts)
    requires forall raw :: KeptName(q, raw) == KeptName(p, raw)
    requires forall n :: ColumnType(q, n) == ColumnType(p, n)
    ensures StoredRow(q, r, c) == StoredRow(p, r, c)
  {
    forall n: string
      ensures n in StoredRow(q, r, c) <==> n in StoredRow(p, r, c)
      ensures n in StoredRow(q, r, c) ==> StoredRow(q, r, c)[n] == StoredRow(p, r, c)[n]
    {
      SameNames(p, q, r, n);
      StoredAt(p, r, c, n);
      StoredAt(q, r, c, n);
    }
    SameRow(StoredRow(q, r, c), StoredRow(p, r, c));
  }

  /** What one field stores. */
  lemma StoredOne(p: Plan, f: Field, c: Casts)
    ensures StoredRow(p, [f], c) == match KeptName(p, f.name)
                                    case None => map[]
                                    case Some(name) => map[name := c.store(ColumnType(p, name), f.value)]
    ensures Violates(p, [f], c) <==> FieldFails(p, f, c)
  {
    assert [f][..0] == [] && [f][0] == f;
  }

  /** The plan with the stage does to this record what the plan and then the stage do. */
  ghost predicate SameOn(p: Plan, s: Stage, r: Record, c: Casts)
    requires !s.Custom?
  {
    PlanRow(Push(p, s), r, c) == Then(PlanRow(p, r, c), s, c)
  }

  // ---------------------------------------------------------------- drop

  /** Dropping the union is dropping one set after the other. */
  lemma PushDrop(p: Plan, fields: set<string>, r: Record, c: Casts)
    requires PlanRank(p) <= 1
    ensures SameOn(p, Drop(fields), r, c)
  {
    var q := Push(p, Drop(fields));
    forall n: string
      ensures LastValue(q, r, n) == if n in fields then None else LastValue(p, r, n)
    {
      DropLast(p, fields, r, n);
    }
    var before, after := StoredRow(p, r, c), StoredRow(q, r, c);
    forall n: string
      ensures n in after <==> n in before && n !in fields
      ensures n in after ==> after[n] == before[n]
    {
      StoredAt(p, r, c, n);
      StoredAt(q, r, c, n);
    }
    SameRow(Project(q, after), Project(p, before) - fields);
  }

  lemma {:induction false} DropLast(p: Plan, fields: set<string>, r: Record, name: string)
    requires p.filter.None?
    ensures LastValue(Push(p, Drop(fields)), r, name) == if name in fields then None else LastValue(p, r, name)
  {
    if r != [] { DropLast(p, fields, r[..|r| - 1], name); }
  }

  // ---------------------------------------------------------------- rename

  /** No two different names that the record sends get one name. */
  predicate NoClash(mapping: map<string, string>, r: Record) {
    forall i, j :: 0 <= i < |r| && 0 <= j < |r| && Resolve(r[i].name, mapping) == Resolve(r[j].name, mapping) ==>
      r[i].name == r[j].name
  }

  ghost predicate Injective(mapping: map<string, string>, names: set<string>) {
    forall m, n :: m in names && n in names && Resolve(m, mapping) == Resolve(n, mapping) ==> m == n
  }

  /** The mapping permutes the schema, and brings nothing into it from outside. */
  ghost predicate SchemaFits(mapping: map<string, string>, schema: set<string>) {
    Injective(mapping, schema) && forall n :: n in schema <==> Resolve(n, mapping) in schema
  }

  lemma {:induction false} RenamedLast(p: Plan, q: Plan, r: Record, k: string, name: string)
    requires forall i :: 0 <= i < |r| ==> (KeptName(q, r[i].name) == Some(name) <==> KeptName(p, r[i].name) == Some(k))
    ensures LastValue(q, r, name) == LastValue(p, r, k)
  {
    if r != [] {
      var init := r[..|r| - 1];
      forall i | 0 <= i < |init|
        ensures KeptName(q, init[i].name) == Some(name) <==> KeptName(p, init[i].name) == Some(k)
      {
        assert init[i] == r[i];
      }
      RenamedLast(p, q, init, k, name);
    }
  }

  /** A row that has every column under its new name, and no other, is the renamed row. */
  lemma RenameIs(mapping: map<string, string>, row: Row, after: Row)
    requires forall k :: k in row ==> Resolve(k, mapping) in after && after[Resolve(k, mapping)] == row[k]
    requires forall n :: n in after ==> n in Image(mapping, row.Keys)
    ensures RenameRow(mapping, row) == after
  {
    SameRow(RenameRow(mapping, row), after);
  }

  /** Without a schema the renamed columns hold what the columns held. */
  lemma PushRename(p: Plan, mapping: map<string, string>, r: Record, c: Casts)
    requires PlanRank(p) < 0 && p.schema.None? && NoClash(mapping, r)
    ensures SameOn(p, Rename(mapping), r, c)
  {
    var before, after := StoredRow(p, r, c), StoredRow(Push(p, Rename(mapping)), r, c);
    forall k | k in before ensures Resolve(k, mapping) in after && after[Resolve(k, mapping)] == before[k] {
      ColumnMoves(p, mapping, r, c, k);
    }
    forall n | n in after ensures n in Image(mapping, before.Keys) {
      var k := ColumnFrom(p, mapping, r, c, n);
    }
    RenameIs(mapping, before, after);
  }

  lemma ColumnMoves(p: Plan, mapping: map<string, string>, r: Record, c: Casts, k: string)
    requires PlanRank(p) < 0 && p.schema.None? && NoClash(mapping, r) && k in StoredRow(p, r, c)
    ensures var after, n := StoredRow(Push(p, Rename(mapping)), r, c), Resolve(k, mapping);
            n in after && after[n] == StoredRow(p, r, c)[k]
  {
    var q, n := Push(p, Rename(mapping)), Resolve(k, mapping);
    StoredAt(p, r, c, k);
    StoredAt(q, r, c, n);
    var i := LastIs(p, r, k);
    RenamedLast(p, q, r, k, n);
  }

  lemma ColumnFrom(p: Plan, mapping: map<string, string>, r: Record, c: Casts, n: string) returns (k: string)
    requires PlanRank(p) < 0 && p.schema.None? && n in StoredRow(Push(p, Rename(mapping)), r, c)
    ensures k in StoredRow(p, r, c) && Resolve(k, mapping) == n
  {
    var q := Push(p, Rename(mapping));
    StoredAt(q, r, c, n);
    var i := LastIs(q, r, n);
    k := r[i].name;
    LastSent(p, r, k, i);
    StoredAt(p, r, c, k);
  }

  lemma ImageMore(mapping: map<string, string>, names: set<string>, m: string)
    requires m in names
    ensures Image(mapping, names) == Image(mapping, names - {m}) + {Resolve(m, mapping)}
  {
    forall n | n in Image(mapping, names) ensures n in Image(mapping, names - {m}) + {Resolve(m, mapping)} {
      var k :| k in names && Resolve(k, mapping) == n;
    }
  }

  lemma {:induction false} ImageSize(mapping: map<string, string>, names: set<string>)
    ensures |Image(mapping, names)| <= |names|
    decreases |names|
  {
    if names != {} {
      var m :| m in names;
      ImageMore(mapping, names, m);
      ImageSize(mapping, names - {m});
    }
  }

  lemma {:induction false} InjectiveSize(mapping: map<string, string>, names: set<string>)
    requires Injective(mapping, names)
    ensures |Image(mapping, names)| == |names|
    decreases |names|
  {
    if names != {} {
      var m :| m in names;
      ImageMore(mapping, names, m);
      InjectiveSize(mapping, names - {m});
      assert Resolve(m, mapping) !in Image(mapping, names - {m});
    }
  }

  lemma {:induction false} SubsetSize(a: set<string>, b: set<string>)
    requires a <= b && |a| == |b|
    ensures a == b
    decreases |a|
  {
    if a != {} {
      var m :| m in a;
      SubsetSize(a - {m}, b - {m});
      assert a == a - {m} + {m} && b == b - {m} + {m};
    }
  }

  /** A permuted schema is the schema. */
  lemma SchemaOnto(mapping: map<string, string>, schema: set<string>)
    requires SchemaFits(mapping, schema)
    ensures Image(mapping, schema) == schema
  {
    InjectiveSize(mapping, schema);
    SubsetSize(Image(mapping, schema), schema);
  }

  /** With a schema: the columns of the schema change places. */
  lemma PushRenameSchema(p: Plan, mapping: map<string, string>, r: Record, c: Casts)
    requires PlanRank(p) < 0 && p.schema.Some? && SchemaFits(mapping, p.schema.value)
    ensures SameOn(p, Rename(mapping), r, c)
  {
    PlainPlan(p, r, c);
    PlainPlan(Push(p, Rename(mapping)), r, c);
    SchemaRow(p, mapping, r, c);
  }

  /** Without casts and filter every record is kept. */
  lemma PlainPlan(p: Plan, r: Record, c: Casts)
    requires PlanRank(p) <= 1
    ensures PlanRow(p, r, c) == Kept(Project(p, StoredRow(p, r, c)))
  {
  }

  lemma SchemaRow(p: Plan, mapping: map<string, string>, r: Record, c: Casts)
    requires PlanRank(p) < 0 && p.schema.Some? && SchemaFits(mapping, p.schema.value)
    ensures var q := Push(p, Rename(mapping));
            RenameRow(mapping, Project(p, StoredRow(p, r, c))) == Project(q, StoredRow(q, r, c))
  {
    var q, schema := Push(p, Rename(mapping)), p.schema.value;
    var before, after := Project(p, StoredRow(p, r, c)), Project(q, StoredRow(q, r, c));
    ProjectAll(p, StoredRow(p, r, c));
    ProjectAll(q, StoredRow(q, r, c));
    forall k | k in schema ensures Resolve(k, mapping) in after && after[Resolve(k, mapping)] == before[k] {
      SchemaColumn(p, mapping, r, c, k);
    }
    SchemaOnto(mapping, schema);
    RenameIs(mapping, before, after);
  }

  /** Without drops the projection shows all columns of the schema and no other. */
  lemma ProjectAll(p: Plan, row: Row)
    requires p.drops == {} && p.schema.Some?
    ensures Project(p, row).Keys == p.schema.value
    ensures forall n :: n in p.schema.value ==> Project(p, row)[n] == CellOf(row, n)
  {
    assert p.schema.value - p.drops == p.schema.value;
  }

  lemma SchemaColumn(p: Plan, mapping: map<string, string>, r: Record, c: Casts, k: string)
    requires PlanRank(p) < 0 && p.schema.Some? && SchemaFits(mapping, p.schema.value) && k in p.schema.value
    ensures CellOf(StoredRow(Push(p, Rename(mapping)), r, c), Resolve(k, mapping)) == CellOf(StoredRow(p, r, c), k)
  {
    var q, n := Push(p, Rename(mapping)), Resolve(k, mapping);
    RenamedLast(p, q, r, k, n);
    StoredAt(p, r, c, k);
    StoredAt(q, r, c, n);
  }

  /** Into a source with a schema a rename may be pushed exactly if it permutes the schema and
      brings nothing into it. */
  lemma RenameSchemaExact(p: Plan, mapping: map<string, string>, c: Casts)
    requires PlanRank(p) < 0 && p.schema.Some? && Sound(c)
    ensures (forall r: Record :: SameOn(p, Rename(mapping), r, c)) <==> SchemaFits(mapping, p.schema.value)
  {
    if SchemaFits(mapping, p.schema.value) {
      forall r: Record ensures SameOn(p, Rename(mapping), r, c) { PushRenameSchema(p, mapping, r, c); }
    } else if forall r: Record :: SameOn(p, Rename(mapping), r, c) {
      var schema := p.schema.value;
      assert SameOn(p, Rename(mapping), [], c);
      SchemaKept(p, mapping, c);
      var n :| n !in schema && Resolve(n, mapping) in schema;
      BroughtIn(p, mapping, n, c);
      assert false;
    }
  }

  lemma CollisionShrinks(mapping: map<string, string>, names: set<string>, m: string, n: string)
    requires m in names && n in names && m != n && Resolve(m, mapping) == Resolve(n, mapping)
    ensures |Image(mapping, names)| < |names|
  {
    ImageMore(mapping, names, m);
    ImageSize(mapping, names - {m});
    assert n in names - {m} && Resolve(n, mapping) in Image(mapping, names - {m});
    assert Image(mapping, names) == Image(mapping, names - {m});
  }

  /** Even the empty record shows that the mapping permutes the schema. */
  lemma SchemaKept(p: Plan, mapping: map<string, string>, c: Casts)
    requires PlanRank(p) < 0 && p.schema.Some? && SameOn(p, Rename(mapping), [], c)
    ensures Injective(mapping, p.schema.value)
    ensures forall n :: n in p.schema.value ==> Resolve(n, mapping) in p.schema.value
  {
    var schema := p.schema.value;
    EmptyRows(p, mapping, c);
    assert Image(mapping, schema) == schema;
    forall m, n | m in schema && n in schema && Resolve(m, mapping) == Resolve(n, mapping) ensures m == n {
      if m != n { CollisionShrinks(mapping, schema, m, n); }
    }
  }

  lemma RenamedKeys(mapping: map<string, string>, row: Row)
    ensures RenameRow(mapping, row).Keys == Image(mapping, row.Keys)
  {
  }

  lemma EmptyRows(p: Plan, mapping: map<string, string>, c: Casts)
    requires PlanRank(p) < 0 && p.schema.Some? && SameOn(p, Rename(mapping), [], c)
    ensures Image(mapping, p.schema.value) == p.schema.value
  {
    var q, schema := Push(p, Rename(mapping)), p.schema.value;
    var before, after := Project(p, map[]), Project(q, map[]);
    assert PlanRow(p, [], c) == Kept(before) && PlanRow(q, [], c) == Kept(after);
    ProjectAll(p, map[]);
    ProjectAll(q, map[]);
    RenamedKeys(mapping, before);
  }

  /** A name outside the schema that is renamed into it: sent a text, it shows after the push only. */
  lemma BroughtIn(p: Plan, mapping: map<string, string>, n: string, c: Casts)
    requires PlanRank(p) < 0 && p.schema.Some? && Sound(c)
    requires n !in p.schema.value && Resolve(n, mapping) in p.schema.value
    ensures !SameOn(p, Rename(mapping), [Field(n, Str(""))], c)
  {
    var q, f, to_ := Push(p, Rename(mapping)), Field(n, Str("")), Resolve(n, mapping);
    StoredOne(p, f, c);
    StoredOne(q, f, c);
    var before, after := Project(p, map[]), Project(q, StoredRow(q, [f], c));
    assert PlanRow(p, [f], c) == Kept(before) && PlanRow(q, [f], c) == Kept(after);
    assert Str("") != Null && after[to_].Some?;
    assert forall k :: k in RenameRow(mapping, before) ==> RenameRow(mapping, before)[k] == None;
  }

  /** An empty rename replaces the source's mapping. That is harmless exactly when the source
      renames nothing, or nothing that its schema shows. */
  lemma EmptyRenameExact(p: Plan, c: Casts)
    requires PlanRank(p) <= 0 && Sound(c)
    ensures Fits(p, PlanRank(p), Rename(map[]))
    ensures (forall r: Record :: SameOn(p, Rename(map[]), r, c))
            <==> forall k :: k in p.mapping ==>
                   || p.mapping[k] == k
                   || (p.schema.Some? && k !in p.schema.value && p.mapping[k] !in p.schema.value)
  {
    var q := Push(p, Rename(map[]));
    if forall k :: k in p.mapping ==>
         p.mapping[k] == k || (p.schema.Some? && k !in p.schema.value && p.mapping[k] !in p.schema.value)
    {
      forall r: Record ensures SameOn(p, Rename(map[]), r, c) {
        SameStored(p, q, r, c);
        RenameNothing(Project(p, StoredRow(p, r, c)));
      }
    } else {
      var k :| k in p.mapping && p.mapping[k] != k
               && (p.schema.None? || k in p.schema.value || p.mapping[k] in p.schema.value);
      MappingLost(p, k, c);
    }
  }

  lemma RenameNothing(row: Row)
    ensures RenameRow(map[], row) == row
  {
    assert forall k :: k in row ==> Resolve(k, map[]) == k;
    SameRow(RenameRow(map[], row), row);
  }

  lemma MappingLost(p: Plan, k: string, c: Casts)
    requires PlanRank(p) <= 0 && Sound(c) && k in p.mapping && p.mapping[k] != k
    requires p.schema.None? || k in p.schema.value || p.mapping[k] in p.schema.value
    ensures !SameOn(p, Rename(map[]), [Field(k, Str(""))], c)
  {
    var q, f, n := Push(p, Rename(map[])), Field(k, Str("")), p.mapping[k];
    StoredOne(p, f, c);
    StoredOne(q, f, c);
    var before, after := Project(p, StoredRow(p, [f], c)), Project(q, StoredRow(q, [f], c));
    RenameNothing(before);
    assert PlanRow(p, [f], c) == Kept(before) && PlanRow(q, [f], c) == Kept(after);
    assert Str("") != Null && c.store(StringColumn, Str("")).Some?;
    if p.schema.None? || k in p.schema.value {
      assert CellOf(after, k).Some? && CellOf(before, k).None?;
    } else {
      assert CellOf(before, n).Some? && CellOf(after, n).None?;
    }
  }

  // ---------------------------------------------------------------- cast

  /** A native value that a typed column stores as it would store the value's text. */
  predicate ValueFits(t: Variant, v: Value, c: Casts) {
    v.Str? || v.Null? || (c.parses(t, c.show(v)) && c.store(t, v) == c.store(t, Str(c.show(v))))
  }

  /** What this record sends to a column that is cast: texts, nulls and native values that fit, and
      no text that fails is hidden by a later value. */
  predicate CastFits(p: Plan, types: map<string, Variant>, r: Record, c: Casts) {
    forall i :: 0 <= i < |r| ==>
      var name := KeptName(p, r[i].name);
      name.Some? && name.value in types ==>
        && ValueFits(types[name.value], r[i].value, c)
        && (r[i].value.Str? && !c.parses(types[name.value], r[i].value.text) ==>
              forall j :: i < j < |r| ==> KeptName(p, r[j].name) != name)
  }

  /** A cast column of the pushed plan and the stage's cast of the untyped column. */
  lemma CastAt(p: Plan, types: map<string, Variant>, r: Record, c: Casts, n: string)
    requires PlanRank(p) <= 2 && types.Keys !! p.types.Keys && Sound(c) && CastFits(p, types, r, c)
    ensures var q := Push(p, CastTypes(types));
            var before, after := StoredRow(p, r, c), StoredRow(q, r, c);
            && (n in after <==> n in before)
            && (n in before && n !in types ==> after[n] == before[n])
            && (n in before && n in types ==>
                  var cell := CastCell(types[n], before[n], c);
                  && (cell.Some? ==> after[n] == cell.value)
                  && (cell.None? ==>
                        exists s :: LastValue(p, r, n) == Some(Str(s)) && !c.parses(types[n], s)))
  {
    var q := Push(p, CastTypes(types));
    SameNames(p, q, r, n);
    StoredAt(p, r, c, n);
    StoredAt(q, r, c, n);
    if LastValue(p, r, n).Some? {
      var i := LastIs(p, r, n);
      assert n in types ==> ValueFits(types[n], r[i].value, c);
    }
  }

  /** If some text sent to a cast column fails, the stage fails on what was stored last. */
  lemma BothFail(p: Plan, types: map<string, Variant>, r: Record, c: Casts, i: nat)
    requires PlanRank(p) <= 2 && types.Keys !! p.types.Keys && Sound(c) && CastFits(p, types, r, c)
    requires i < |r| && KeptName(p, r[i].name).Some?
    requires var n := KeptName(p, r[i].name).value;
             n in types && r[i].value.Str? && !c.parses(types[n], r[i].value.text)
    ensures CastRow(types, StoredRow(p, r, c), c).Bad? && CastRow(types, Project(p, StoredRow(p, r, c)), c).Bad?
  {
    var n, row := KeptName(p, r[i].name).value, StoredRow(p, r, c);
    LastSent(p, r, n, i);
    var last := LastIs(p, r, n);
    assert last == i;
    StoredAt(p, r, c, n);
    assert n in row && n in Project(p, row) && Project(p, row)[n] == row[n];
    assert CastCell(types[n], row[n], c).None?;
  }

  /** One record: the source is strict or meets no text that fails, and what is sent to the cast
      columns fits. */
  lemma PushCast(p: Plan, types: map<string, Variant>, r: Record, c: Casts)
    requires PlanRank(p) <= 2 && types.Keys !! p.types.Keys && Sound(c)
    requires (p.strict || !Violates(p, r, c)) && CastFits(p, types, r, c)
    ensures SameOn(p, CastTypes(types), r, c)
  {
    var q := Push(p, CastTypes(types));
    var before, after := StoredRow(p, r, c), StoredRow(q, r, c);
    assert forall raw :: KeptName(q, raw) == KeptName(p, raw);
    if Violates(p, r, c) {
      var i :| 0 <= i < |r| && FieldFails(p, r[i], c);
      assert FieldFails(q, r[i], c);
    } else if Violates(q, r, c) {
      var i :| 0 <= i < |r| && FieldFails(q, r[i], c);
      assert !FieldFails(p, r[i], c);
      BothFail(p, types, r, c, i);
    } else {
      CastsAgree(p, types, r, c);
    }
  }

  /** Nothing fails on either side, and the rows are the same. */
  lemma CastsAgree(p: Plan, types: map<string, Variant>, r: Record, c: Casts)
    requires PlanRank(p) <= 2 && types.Keys !! p.types.Keys && Sound(c) && CastFits(p, types, r, c)
    requires !Violates(Push(p, CastTypes(types)), r, c)
    ensures var q := Push(p, CastTypes(types));
            CastRow(types, Project(p, StoredRow(p, r, c)), c) == Kept(Project(q, StoredRow(q, r, c)))
  {
    var q := Push(p, CastTypes(types));
    var before, after := Project(p, StoredRow(p, r, c)), Project(q, StoredRow(q, r, c));
    forall n: string
      ensures n in after <==> n in before
      ensures n in before && n !in types ==> after[n] == before[n]
      ensures n in before && n in types ==> CastCell(types[n], before[n], c) == Some(after[n])
    {
      CastAt(p, types, r, c, n);
      if n in StoredRow(p, r, c) && n in types {
        StoredAt(p, r, c, n);
        var i := LastIs(p, r, n);
        assert !FieldFails(q, r[i], c);
      }
    }
    SameRow(CastRow(types, before, c).row, after);
  }

  // ---------------------------------------------------------------- exactly when a cast may be pushed

  ghost predicate Reaches(p: Plan, name: string) { exists raw :: KeptName(p, raw) == Some(name) }

  /** Every text is one of the source's types, wherever a text can get. */
  ghost predicate SourceParses(p: Plan, c: Casts) {
    forall n: string, s: string :: n in p.types && Reaches(p, n) ==> c.parses(p.types[n], s)
  }

  ghost predicate TextsParse(p: Plan, types: map<string, Variant>, c: Casts) {
    forall n: string, s: string :: n in types && Reaches(p, n) ==> c.parses(types[n], s)
  }

  /** The native values that the parser may send to the cast columns fit. */
  ghost predicate NativesFit(p: Plan, types: map<string, Variant>, natives: (string, Value) -> bool, c: Casts) {
    forall raw: string, v: Value :: natives(raw, v) ==>
      var name := KeptName(p, raw); name.Some? && name.value in types ==> ValueFits(types[name.value], v, c)
  }

  /** No column is sent two values. */
  predicate NoRepeat(p: Plan, r: Record) {
    forall i, j :: 0 <= i < j < |r| && KeptName(p, r[i].name).Some? ==> KeptName(p, r[j].name) != KeptName(p, r[i].name)
  }

  /** What a parser may send: any texts and nulls, these native values, and perhaps a field twice. */
  predicate Admits(p: Plan, natives: (string, Value) -> bool, repeats: bool, r: Record) {
    && (forall i :: 0 <= i < |r| ==> r[i].value.Str? || r[i].value.Null? || natives(r[i].name, r[i].value))
    && (repeats || NoRepeat(p, r))
  }

  /** Pushing the cast changes nothing on any record that the parser may send. */
  ghost predicate CastRight(p: Plan, types: map<string, Variant>, natives: (string, Value) -> bool, repeats: bool,
                            c: Casts)
  {
    forall r: Record :: Admits(p, natives, repeats, r) ==> SameOn(p, CastTypes(types), r, c)
  }

  /** A cast may be pushed exactly if the source is strict already or none of its texts can fail,
      the native values for the cast columns store what their own texts would, and, where a record
      may repeat a field, no text for a cast column can fail. */
  lemma CastExact(p: Plan, types: map<string, Variant>, natives: (string, Value) -> bool, repeats: bool, c: Casts)
    requires Fits(p, PlanRank(p), CastTypes(types)) && Sound(c)
    ensures CastRight(p, types, natives, repeats, c)
            <==> && (p.strict || SourceParses(p, c)) && NativesFit(p, types, natives, c)
                 && (repeats ==> TextsParse(p, types, c))
  {
    if CastRight(p, types, natives, repeats, c) {
      NeedsSourceTexts(p, types, natives, repeats, c);
      NeedsNatives(p, types, natives, repeats, c);
      if repeats { NeedsTexts(p, types, natives, c); }
    }
    if (p.strict || SourceParses(p, c)) && NativesFit(p, types, natives, c) && (repeats ==> TextsParse(p, types, c)) {
      forall r: Record | Admits(p, natives, repeats, r) ensures SameOn(p, CastTypes(types), r, c) {
        AdmittedFits(p, types, natives, repeats, r, c);
        PushCast(p, types, r, c);
      }
    }
  }

  lemma NeedsSourceTexts(p: Plan, types: map<string, Variant>, natives: (string, Value) -> bool, repeats: bool,
                         c: Casts)
    requires Fits(p, PlanRank(p), CastTypes(types)) && Sound(c) && CastRight(p, types, natives, repeats, c)
    ensures p.strict || SourceParses(p, c)
  {
    if !p.strict {
      forall n: string, s: string | n in p.types && Reaches(p, n) ensures c.parses(p.types[n], s) {
        var raw :| KeptName(p, raw) == Some(n);
        if !c.parses(p.types[n], s) { StrictLeaks(p, types, raw, s, c); }
        assert Admits(p, natives, repeats, [Field(raw, Str(s))]);
      }
    }
  }

  lemma NeedsNatives(p: Plan, types: map<string, Variant>, natives: (string, Value) -> bool, repeats: bool, c: Casts)
    requires Fits(p, PlanRank(p), CastTypes(types)) && Sound(c) && CastRight(p, types, natives, repeats, c)
    ensures NativesFit(p, types, natives, c)
  {
    forall raw: string, v: Value | natives(raw, v) && KeptName(p, raw).Some? && KeptName(p, raw).value in types
      ensures ValueFits(types[KeptName(p, raw).value], v, c)
    {
      assert Admits(p, natives, repeats, [Field(raw, v)]);
      if !ValueFits(types[KeptName(p, raw).value], v, c) { NativeDiffers(p, types, raw, v, c); }
    }
  }

  lemma NeedsTexts(p: Plan, types: map<string, Variant>, natives: (string, Value) -> bool, c: Casts)
    requires Fits(p, PlanRank(p), CastTypes(types)) && Sound(c) && CastRight(p, types, natives, true, c)
    ensures TextsParse(p, types, c)
  {
    forall n: string, s: string | n in types && Reaches(p, n) ensures c.parses(types[n], s) {
      var raw :| KeptName(p, raw) == Some(n);
      assert Admits(p, natives, true, [Field(raw, Str(s)), Field(raw, Null)]);
      if !c.parses(types[n], s) { HiddenTextFails(p, types, raw, s, c); }
    }
  }

  lemma AdmittedFits(p: Plan, types: map<string, Variant>, natives: (string, Value) -> bool, repeats: bool, r: Record,
                     c: Casts)
    requires Admits(p, natives, repeats, r) && NativesFit(p, types, natives, c)
    requires (p.strict || SourceParses(p, c)) && (repeats ==> TextsParse(p, types, c))
    ensures (p.strict || !Violates(p, r, c)) && CastFits(p, types, r, c)
  {
    forall i | 0 <= i < |r| && KeptName(p, r[i].name).Some? ensures p.strict || !FieldFails(p, r[i], c) {
      assert Reaches(p, KeptName(p, r[i].name).value);
    }
    forall i | 0 <= i < |r| && KeptName(p, r[i].name).Some? && KeptName(p, r[i].name).value in types
      ensures ValueFits(types[KeptName(p, r[i].name).value], r[i].value, c)
      ensures r[i].value.Str? && !c.parses(types[KeptName(p, r[i].name).value], r[i].value.text) ==>
                forall j :: i < j < |r| ==> KeptName(p, r[j].name) != KeptName(p, r[i].name)
    {
      assert Reaches(p, KeptName(p, r[i].name).value);
    }
  }

  /** A text that a lenient source would null fails the whole read after the push. */
  lemma StrictLeaks(p: Plan, types: map<string, Variant>, raw: string, s: string, c: Casts)
    requires Fits(p, PlanRank(p), CastTypes(types)) && Sound(c) && !p.strict
    requires var name := KeptName(p, raw); name.Some? && name.value in p.types && !c.parses(p.types[name.value], s)
    ensures var r := [Field(raw, Str(s))];
            PlanRow(Push(p, CastTypes(types)), r, c).Bad? && Then(PlanRow(p, r, c), CastTypes(types), c).Kept?
  {
    var q, f, n := Push(p, CastTypes(types)), Field(raw, Str(s)), KeptName(p, raw).value;
    StoredOne(p, f, c);
    StoredOne(q, f, c);
    assert KeptName(q, raw) == Some(n) && FieldFails(q, f, c);
    NullsCast(p, types, StoredRow(p, [f], c), c);
  }

  /** Nulls pass every cast. */
  lemma NullsCast(p: Plan, types: map<string, Variant>, row: Row, c: Casts)
    requires forall n :: n in row ==> row[n] == None
    ensures CastRow(types, Project(p, row), c).Kept?
  {
    assert forall n :: n in Project(p, row) ==> Project(p, row)[n] == None;
  }

  /** A native value whose text fails, or stores something else: the push changes the result. */
  lemma NativeDiffers(p: Plan, types: map<string, Variant>, raw: string, v: Value, c: Casts)
    requires Fits(p, PlanRank(p), CastTypes(types)) && Sound(c)
    requires var name := KeptName(p, raw); name.Some? && name.value in types && !ValueFits(types[name.value], v, c)
    ensures !SameOn(p, CastTypes(types), [Field(raw, v)], c)
  {
    var q, f, n := Push(p, CastTypes(types)), Field(raw, v), KeptName(p, raw).value;
    StoredOne(p, f, c);
    StoredOne(q, f, c);
    assert KeptName(q, raw) == Some(n);
    var before, after := Project(p, StoredRow(p, [f], c)), Project(q, StoredRow(q, [f], c));
    assert n in before && before[n] == c.store(StringColumn, v) && after[n] == c.store(types[n], v);
    assert CastCell(types[n], before[n], c)
           == if c.parses(types[n], c.show(v)) then Some(c.store(types[n], Str(c.show(v)))) else None;
  }

  /** A text that fails is an error even when a later value hides it; the stage never sees it. */
  lemma HiddenTextFails(p: Plan, types: map<string, Variant>, raw: string, s: string, c: Casts)
    requires Fits(p, PlanRank(p), CastTypes(types)) && Sound(c)
    requires var name := KeptName(p, raw); name.Some? && name.value in types && !c.parses(types[name.value], s)
    ensures var r := [Field(raw, Str(s)), Field(raw, Null)];
            PlanRow(Push(p, CastTypes(types)), r, c).Bad? && Then(PlanRow(p, r, c), CastTypes(types), c).Kept?
  {
    var q, f, n := Push(p, CastTypes(types)), Field(raw, Str(s)), KeptName(p, raw).value;
    var r := [f, Field(raw, Null)];
    assert KeptName(q, raw) == Some(n) && FieldFails(q, r[0], c);
    assert r[..1] == [f] && r[1] == Field(raw, Null);
    StoredOne(p, f, c);
    assert StoredRow(p, r, c) == map[n := None];
    assert !Violates(p, r, c);
    NullsCast(p, types, StoredRow(p, r, c), c);
  }

  /** The instance: an untyped source sends a native value that the integer type does not store as
      it stores the value's text, here not at all. */
  lemma NativeExample(v: Value, c: Casts)
    requires Sound(c) && !v.Str? && !v.Null? && !c.parses(Int64Column, c.show(v))
    ensures var p, s := Plan(map[], {}, map[], false, None, false, None), CastTypes(map["x" := Int64Column]);
            && Fits(p, PlanRank(p), s)
            && PlanRow(Push(p, s), [Field("x", v)], c) == Kept(map["x" := c.store(Int64Column, v)])
            && Then(PlanRow(p, [Field("x", v)], c), s, c).Bad?
  {
    var p, types := Plan(map[], {}, map[], false, None, false, None), map["x" := Int64Column];
    var q, f := Push(p, CastTypes(types)), Field("x", v);
    StoredOne(p, f, c);
    StoredOne(q, f, c);
    assert CastCell(Int64Column, c.store(StringColumn, v), c) == None;
  }

  // ---------------------------------------------------------------- filter

  /** A filter looks at the cells of its fields alone. */
  lemma {:induction false} CheckAgrees(f: Filter, a: Row, mapA: map<string, string>, b: Row, mapB: map<string, string>)
    requires forall g :: g in FieldsOf(f) ==> CellOf(a, Resolve(g, mapA)) == CellOf(b, Resolve(g, mapB))
    ensures Check(f, a, mapA) == Check(f, b, mapB)
  {
    match f
    case Always(_) =>
    case One(field, _) => assert field in FieldsOf(f);
    case Two(x, y, _) => assert x in FieldsOf(f) && y in FieldsOf(f);
    case And(left, right) =>
      CheckAgrees(left, a, mapA, b, mapB);
      CheckAgrees(right, a, mapA, b, mapB);
    case Or(left, right) =>
      CheckAgrees(left, a, mapA, b, mapB);
      CheckAgrees(right, a, mapA, b, mapB);
    case Not(inner) => CheckAgrees(inner, a, mapA, b, mapB);
  }

  /** The column is shown, or dropped before the schema is looked at. */
  predicate Settled(p: Plan, name: string) { p.schema.None? || name in p.schema.value || name in p.drops }

  /** No field of the filter is renamed, and the schema shows them all. */
  predicate FilterFits(p: Plan, filter: Filter) {
    FieldsOf(filter) !! p.mapping.Keys && forall g :: g in FieldsOf(filter) ==> Settled(p, g)
  }

  lemma PushFilter(p: Plan, filter: Filter, r: Record, c: Casts)
    requires FilterFits(p, filter)
    ensures SameOn(p, FilterRows(filter), r, c)
  {
    var q := Push(p, FilterRows(filter));
    FilterKeeps(p, filter);
    SameStored(p, q, r, c);
    assert Violates(p, r, c) <==> Violates(q, r, c) by {
      assert forall i :: 0 <= i < |r| ==> FieldFails(p, r[i], c) == FieldFails(q, r[i], c);
    }
    var row := StoredRow(p, r, c);
    forall g | g in FieldsOf(filter)
      ensures CellOf(row, Resolve(g, p.mapping)) == CellOf(Project(p, row), Resolve(g, map[]))
    {
      DroppedNull(p, r, c, g);
    }
    CheckAgrees(filter, row, p.mapping, Project(p, row), map[]);
  }

  lemma FilterKeeps(p: Plan, filter: Filter)
    requires FilterFits(p, filter)
    ensures forall raw :: KeptName(Push(p, FilterRows(filter)), raw) == KeptName(p, raw)
  {
    var q := Push(p, FilterRows(filter));
    forall n, g | n !in p.drops && g in FieldsOf(q.filter.value) && Resolve(g, p.mapping) == n ensures Wanted(p, n) {
      if g in FieldsOf(filter) { assert Settled(p, g); }
    }
  }

  lemma DroppedNull(p: Plan, r: Record, c: Casts, n: string)
    ensures n in p.drops ==> n !in StoredRow(p, r, c)
  {
    StoredAt(p, r, c, n);
    if n in p.drops && LastValue(p, r, n).Some? {
      var i := LastIs(p, r, n);
      assert false;
    }
  }

  // ---------------------------------------------------------------- exactly when a filter may be pushed

  /** The cell can stand in this column: it is null, or some value sent there stores it. */
  ghost predicate Held(p: Plan, name: string, cell: Option<Cell>, c: Casts) {
    cell.None?
    || exists f: Field ::
         KeptName(p, f.name) == Some(name) && !(p.strict && FieldFails(p, f, c))
         && c.store(ColumnType(p, name), f.value) == cell
  }

  /** The cell can stand in this column of the result. */
  ghost predicate HeldShown(p: Plan, name: string, cell: Option<Cell>, c: Casts) {
    cell.None? || ((p.schema.None? || name in p.schema.value) && Held(p, name, cell, c))
  }

  /** Reading a column for the filter alone raises no strict error. */
  ghost predicate ReadsQuietly(p: Plan, name: string, c: Casts) {
    Settled(p, name) || (p.strict && name in p.types ==> forall s: string :: c.parses(p.types[name], s))
  }

  lemma RowHolds(p: Plan, r: Record, c: Casts, n: string)
    requires !(p.strict && Violates(p, r, c))
    ensures Held(p, n, CellOf(StoredRow(p, r, c), n), c)
  {
    StoredAt(p, r, c, n);
    if LastValue(p, r, n).Some? {
      var i := LastIs(p, r, n);
      assert !(p.strict && FieldFails(p, r[i], c));
    }
  }

  /** The plan with a filter on one field also keeps the column that the filter reads. */
  lemma FilterNames(p: Plan, field: string, test: Option<Cell> -> bool)
    requires p.filter.None?
    ensures var q, name := Push(p, FilterRows(One(field, test))), Resolve(field, p.mapping);
            forall raw :: KeptName(q, raw) == if Resolve(raw, p.mapping) == name && name !in p.drops then Some(name)
                                              else KeptName(p, raw)
  {
    assert FieldsOf(One(field, test)) == {field};
  }

  /** What that changes: the result's columns hold the same, and only a text in a column that is
      read for the filter alone can add a violation. */
  lemma FilterReads(p: Plan, field: string, test: Option<Cell> -> bool, r: Record, c: Casts)
    requires p.filter.None?
    ensures var q, name := Push(p, FilterRows(One(field, test))), Resolve(field, p.mapping);
            && Project(q, StoredRow(q, r, c)) == Project(p, StoredRow(p, r, c))
            && (Settled(p, name) ==> StoredRow(q, r, c) == StoredRow(p, r, c))
            && (Violates(p, r, c) ==> Violates(q, r, c))
            && (p.strict && ReadsQuietly(p, name, c) && Violates(q, r, c) ==> Violates(p, r, c))
  {
    var q, name := Push(p, FilterRows(One(field, test))), Resolve(field, p.mapping);
    FilterNames(p, field, test);
    forall i | 0 <= i < |r| && FieldFails(p, r[i], c) ensures FieldFails(q, r[i], c) {
    }
    forall i | 0 <= i < |r| && p.strict && ReadsQuietly(p, name, c) && FieldFails(q, r[i], c)
      ensures FieldFails(p, r[i], c)
    {
    }
    if Settled(p, name) { SameStored(p, q, r, c); } else { ReadAside(p, q, name, r, c); }
  }

  lemma ReadAside(p: Plan, q: Plan, name: string, r: Record, c: Casts)
    requires !Settled(p, name) && q.schema == p.schema && q.drops == p.drops && q.types == p.types
    requires forall raw ::
               KeptName(q, raw) == KeptName(p, raw) || (KeptName(q, raw) == Some(name) && KeptName(p, raw) == None)
    ensures Project(q, StoredRow(q, r, c)) == Project(p, StoredRow(p, r, c))
  {
    forall n | n in p.schema.value - p.drops ensures CellOf(StoredRow(q, r, c), n) == CellOf(StoredRow(p, r, c), n) {
      SameNames(p, q, r, n);
      StoredAt(p, r, c, n);
      StoredAt(q, r, c, n);
    }
  }

  /** A filter on one field, pushed into a plan without a filter of its own, is right exactly when
      the plan does not rename the field and the schema shows it; or reading the column is quiet and
      the test tells no cell that the column read can hold from any that the result's column of that
      name can show. */
  lemma FilterExact(p: Plan, field: string, test: Option<Cell> -> bool, c: Casts)
    requires p.filter.None? && Sound(c)
    ensures var s, name := FilterRows(One(field, test)), Resolve(field, p.mapping);
            (forall r: Record :: SameOn(p, s, r, c))
            <==> || (name == field && Settled(p, name))
                 || (ReadsQuietly(p, name, c)
                     && forall u, v :: Held(Push(p, s), name, u, c) && HeldShown(p, field, v, c) ==> test(u) == test(v))
  {
    var s, name := FilterRows(One(field, test)), Resolve(field, p.mapping);
    if (name == field && Settled(p, name))
       || (ReadsQuietly(p, name, c)
           && forall u, v :: Held(Push(p, s), name, u, c) && HeldShown(p, field, v, c) ==> test(u) == test(v))
    {
      forall r: Record ensures SameOn(p, s, r, c) { FilterAgrees(p, field, test, r, c); }
    } else if !ReadsQuietly(p, name, c) {
      var s :| !c.parses(p.types[name], s);
      FilterLoud(p, field, test, s, c);
    } else {
      var u, v :| Held(Push(p, s), name, u, c) && HeldShown(p, field, v, c) && test(u) != test(v);
      FilterDiffers(p, field, test, u, v, c);
    }
  }

  lemma FilterAgrees(p: Plan, field: string, test: Option<Cell> -> bool, r: Record, c: Casts)
    requires p.filter.None?
    requires var s, name := FilterRows(One(field, test)), Resolve(field, p.mapping);
             || (name == field && Settled(p, name))
             || (ReadsQuietly(p, name, c)
                 && forall u, v :: Held(Push(p, s), name, u, c) && HeldShown(p, field, v, c) ==> test(u) == test(v))
    ensures SameOn(p, FilterRows(One(field, test)), r, c)
  {
    var s, name := FilterRows(One(field, test)), Resolve(field, p.mapping);
    var q := Push(p, s);
    FilterReads(p, field, test, r, c);
    if !(p.strict && Violates(p, r, c)) {
      RowHolds(q, r, c, name);
      ResultHolds(p, r, c, field);
      assert Resolve(field, map[]) == field;
      TestsAgree(p, field, test, r, c);
    }
  }

  lemma ResultHolds(p: Plan, r: Record, c: Casts, n: string)
    requires !(p.strict && Violates(p, r, c))
    ensures HeldShown(p, n, CellOf(Project(p, StoredRow(p, r, c)), n), c)
    ensures (p.schema.None? || n in p.schema.value || n in p.drops) ==>
              CellOf(Project(p, StoredRow(p, r, c)), n) == CellOf(StoredRow(p, r, c), n)
  {
    RowHolds(p, r, c, n);
    DroppedNull(p, r, c, n);
  }

  /** The same verdict on both sides. */
  lemma TestsAgree(p: Plan, field: string, test: Option<Cell> -> bool, r: Record, c: Casts)
    requires p.filter.None? && !(p.strict && Violates(p, r, c))
    requires var q := Push(p, FilterRows(One(field, test)));
             && !(q.strict && Violates(q, r, c)) && Project(q, StoredRow(q, r, c)) == Project(p, StoredRow(p, r, c))
             && test(CellOf(StoredRow(q, r, c), Resolve(field, p.mapping)))
                == test(CellOf(Project(p, StoredRow(p, r, c)), field))
    ensures SameOn(p, FilterRows(One(field, test)), r, c)
  {
  }

  /** A text that fails in a column that only the filter reads. */
  lemma FilterLoud(p: Plan, field: string, test: Option<Cell> -> bool, s: string, c: Casts)
    requires p.filter.None? && p.strict
    requires var name := Resolve(field, p.mapping);
             !Settled(p, name) && name in p.types && !c.parses(p.types[name], s)
    ensures !SameOn(p, FilterRows(One(field, test)), [Field(field, Str(s))], c)
  {
    var q, f := Push(p, FilterRows(One(field, test))), Field(field, Str(s));
    FilterNames(p, field, test);
    StoredOne(p, f, c);
    StoredOne(q, f, c);
    assert KeptName(p, field) == None && FieldFails(q, f, c);
  }

  /** At most one field, which shows the cell in its column. */
  lemma Showing(p: Plan, name: string, cell: Option<Cell>, c: Casts) returns (x: Record)
    requires Held(p, name, cell, c)
    ensures |x| <= 1 && (x == [] <==> cell.None?)
    ensures x != [] ==>
              && KeptName(p, x[0].name) == Some(name) && !(p.strict && FieldFails(p, x[0], c))
              && c.store(ColumnType(p, name), x[0].value) == cell
  {
    x := [];
    if cell.Some? {
      var f: Field :| KeptName(p, f.name) == Some(name) && !(p.strict && FieldFails(p, f, c))
                      && c.store(ColumnType(p, name), f.value) == cell;
      x := [f];
    }
  }

  lemma Pair(p: Plan, x: Record, y: Record, c: Casts, n: string)
    requires |x| <= 1 && |y| <= 1
    ensures CellOf(StoredRow(p, x + y, c), n)
            == if y != [] && KeptName(p, y[0].name) == Some(n) then c.store(ColumnType(p, n), y[0].value)
               else if x != [] && KeptName(p, x[0].name) == Some(n) then c.store(ColumnType(p, n), x[0].value)
               else None
    ensures Violates(p, x + y, c) <==> (x != [] && FieldFails(p, x[0], c)) || (y != [] && FieldFails(p, y[0], c))
  {
    if y != [] {
      assert (x + y)[..|x|] == x && (x + y)[|x|] == y[0];
    } else {
      assert x + y == x;
    }
    if x != [] { assert (x + y)[0] == x[0] && x[..0] == []; }
    StoredAt(p, x + y, c, n);
  }

  lemma FilterDiffers(p: Plan, field: string, test: Option<Cell> -> bool, u: Option<Cell>, v: Option<Cell>, c: Casts)
    requires p.filter.None?
    requires var s, name := FilterRows(One(field, test)), Resolve(field, p.mapping);
             && !(name == field && Settled(p, name))
             && Held(Push(p, s), name, u, c) && HeldShown(p, field, v, c) && test(u) != test(v)
    ensures exists r: Record :: !SameOn(p, FilterRows(One(field, test)), r, c)
  {
    var s, name := FilterRows(One(field, test)), Resolve(field, p.mapping);
    var q := Push(p, s);
    FilterNames(p, field, test);
    var x := Showing(q, name, u, c);
    var y := Showing(p, field, v, c);
    assert y != [] ==> name != field && KeptName(q, y[0].name) == Some(field);
    FilterColumn(p, q, x, y, name, field, c, u);
    ShownColumn(p, q, x, y, name, field, c, v);
    FilterSees(p, field, test, x + y, c, u, v);
  }

  /** The column that the filter reads holds what `x` sends. */
  lemma FilterColumn(p: Plan, q: Plan, x: Record, y: Record, name: string, field: string, c: Casts, u: Option<Cell>)
    requires |x| <= 1 && |y| <= 1 && (x == [] ==> u.None?)
    requires q.strict == p.strict && q.types == p.types
    requires x != [] ==>
               && KeptName(q, x[0].name) == Some(name) && !(q.strict && FieldFails(q, x[0], c))
               && c.store(ColumnType(q, name), x[0].value) == u
    requires y != [] ==>
               && name != field && KeptName(q, y[0].name) == Some(field) && KeptName(p, y[0].name) == Some(field)
               && !(p.strict && FieldFails(p, y[0], c))
    ensures CellOf(StoredRow(q, x + y, c), name) == u && !(p.strict && Violates(q, x + y, c))
  {
    Pair(q, x, y, c, name);
  }

  /** The column of the result holds what `y` sends. */
  lemma ShownColumn(p: Plan, q: Plan, x: Record, y: Record, name: string, field: string, c: Casts, v: Option<Cell>)
    requires |x| <= 1 && |y| <= 1 && (y == [] ==> v.None?)
    requires x != [] ==> KeptName(q, x[0].name) == Some(name) && Resolve(x[0].name, p.mapping) == name
    requires y != [] ==> KeptName(p, y[0].name) == Some(field) && c.store(ColumnType(p, field), y[0].value) == v
    requires !(name == field && Settled(p, name)) && (v.Some? ==> p.schema.None? || field in p.schema.value)
    requires p.filter.None?
    ensures CellOf(Project(p, StoredRow(p, x + y, c)), field) == v
  {
    Pair(p, x, y, c, field);
    DroppedNull(p, x + y, c, field);
  }

  /** A record on which the filter reads `u` and the stage `v`. */
  lemma FilterSees(p: Plan, field: string, test: Option<Cell> -> bool, r: Record, c: Casts, u: Option<Cell>,
                   v: Option<Cell>)
    requires p.filter.None? && test(u) != test(v)
    requires var q := Push(p, FilterRows(One(field, test)));
             && CellOf(StoredRow(q, r, c), Resolve(field, p.mapping)) == u && !(p.strict && Violates(q, r, c))
    requires CellOf(Project(p, StoredRow(p, r, c)), field) == v
    ensures !SameOn(p, FilterRows(One(field, test)), r, c)
  {
    FilterReads(p, field, test, r, c);
  }

  // ---------------------------------------------------------------- one push, one record

  /** What makes a push right on this record. */
  ghost predicate Safe(p: Plan, s: Stage, r: Record, c: Casts) {
    match s
    case Rename(mapping) =>
      if mapping == map[] then p.mapping == map[]
      else if p.schema.None? then NoClash(mapping, r)
      else SchemaFits(mapping, p.schema.value)
    case CastTypes(types) => (p.strict || !Violates(p, r, c)) && CastFits(p, types, r, c)
    case FilterRows(filter) => FilterFits(p, filter)
    case _ => true
  }

  lemma PushOne(p: Plan, rank: int, s: Stage, r: Record, c: Casts)
    requires PlanRank(p) <= rank && Fits(p, rank, s) && Safe(p, s, r, c) && Sound(c)
    ensures SameOn(p, s, r, c)
  {
    match s
    case Rename(mapping) =>
      if mapping == map[] {
        RenameNothing(Project(p, StoredRow(p, r, c)));
        assert Push(p, s) == p;
      } else if p.schema.None? {
        PushRename(p, mapping, r, c);
      } else {
        PushRenameSchema(p, mapping, r, c);
      }
    case Drop(fields) => PushDrop(p, fields, r, c);
    case CastTypes(types) => PushCast(p, types, r, c);
    case FilterRows(filter) => PushFilter(p, filter, r, c);
    case Observe => ObserveNothing(p, r, c);
  }

  lemma ObserveNothing(p: Plan, r: Record, c: Casts)
    ensures SameOn(p, Observe, r, c)
  {
    var q := Push(p, Observe);
    SameStored(p, q, r, c);
    assert forall i :: 0 <= i < |r| ==> FieldFails(p, r[i], c) == FieldFails(q, r[i], c);
  }

  // ---------------------------------------------------------------- tables

  /** Some column is shown; a table without one is exported without rows. */
  ghost predicate ShowsColumn(p: Plan, rows: seq<Record>) {
    if p.schema.Some? then p.schema.value - p.drops != {}
    else exists r: Record, i: nat :: r in rows && i < |r| && KeptName(p, r[i].name).Some?
  }

  /** The source's table: any error fails the read. */
  ghost function Stored(p: Plan, rows: seq<Record>, c: Casts): Option<seq<Row>> {
    if rows == [] then Some([])
    else
      var first, rest := PlanRow(p, rows[0], c), Stored(p, rows[1..], c);
      if first.Bad? || rest.None? then None else if first.Gone? then rest else Some([first.row] + rest.value)
  }

  ghost function RunPlan(p: Plan, rows: seq<Record>, c: Casts): Option<seq<Row>> {
    var stored := Stored(p, rows, c);
    if stored.Some? && !ShowsColumn(p, rows) then Some([]) else stored
  }

  /** A stage on a table: any error fails the whole. */
  ghost function Each(s: Stage, rows: seq<Row>, c: Casts): Option<seq<Row>>
    requires !s.Custom?
  {
    if rows == [] then Some([])
    else
      var first, rest := StageRow(s, rows[0], c), Each(s, rows[1..], c);
      if first.Bad? || rest.None? then None else if first.Gone? then rest else Some([first.row] + rest.value)
  }

  ghost function RunStage(s: Stage, rows: seq<Row>, c: Casts): Option<seq<Row>> {
    if s.Custom? then s.run(rows) else Each(s, rows, c)
  }

  /** The stages from left to right. */
  ghost function RunStages(stages: seq<Stage>, rows: Option<seq<Row>>, c: Casts): Option<seq<Row>> {
    if stages == [] || rows.None? then rows
    else RunStages(stages[1..], RunStage(stages[0], rows.value, c), c)
  }

  lemma EachFirst(s: Stage, row: Row, rest: seq<Row>, c: Casts)
    requires !s.Custom?
    ensures Each(s, [row] + rest, c)
            == var first, others := StageRow(s, row, c), Each(s, rest, c);
               if first.Bad? || others.None? then None
               else if first.Gone? then others else Some([first.row] + others.value)
  {
    assert ([row] + rest)[0] == row && ([row] + rest)[1..] == rest;
  }

  /** If a push is right on every record it is right on what is stored. */
  lemma {:induction false} StoredThen(p: Plan, s: Stage, rows: seq<Record>, c: Casts)
    requires !s.Custom? && forall r :: r in rows ==> SameOn(p, s, r, c)
    ensures Stored(Push(p, s), rows, c)
            == var once := Stored(p, rows, c); if once.Some? then Each(s, once.value, c) else None
  {
    if rows != [] {
      StoredThen(p, s, rows[1..], c);
      assert SameOn(p, s, rows[0], c);
      var head, rest := PlanRow(p, rows[0], c), Stored(p, rows[1..], c);
      if head.Kept? && rest.Some? { EachFirst(s, head.row, rest.value, c); }
    }
  }

  /** Without a column every stored row is empty, and no stage fails on an empty row. */
  lemma {:induction false} NoColumns(p: Plan, s: Stage, rows: seq<Record>, c: Casts)
    requires !s.Custom? && !ShowsColumn(p, rows) && Stored(p, rows, c).Some?
    ensures Each(s, Stored(p, rows, c).value, c).Some?
  {
    if rows != [] {
      forall r: Record, i: nat | r in rows[1..] && i < |r| && p.schema.None? ensures KeptName(p, r[i].name).None? {
        assert r in rows;
      }
      NoColumns(p, s, rows[1..], c);
      var head, rest := PlanRow(p, rows[0], c), Stored(p, rows[1..], c);
      if head.Kept? {
        EmptyRow(p, rows[0], c);
        EachFirst(s, head.row, rest.value, c);
      }
    }
  }

  lemma EmptyRow(p: Plan, r: Record, c: Casts)
    requires if p.schema.Some? then p.schema.value - p.drops == {}
             else forall i :: 0 <= i < |r| ==> KeptName(p, r[i].name).None?
    ensures Project(p, StoredRow(p, r, c)) == map[]
  {
    if p.schema.None? {
      forall n: string ensures n !in StoredRow(p, r, c) {
        StoredAt(p, r, c, n);
        if LastValue(p, r, n).Some? { var i := LastIs(p, r, n); }
      }
    }
  }

  /** Without casts and filter every record is stored. */
  lemma {:induction false} AllStored(p: Plan, rows: seq<Record>, c: Casts)
    requires PlanRank(p) <= 1
    ensures Stored(p, rows, c).Some? && |Stored(p, rows, c).value| == |rows|
  {
    if rows != [] {
      PlainPlan(p, rows[0], c);
      AllStored(p, rows[1..], c);
    }
  }

  lemma {:induction false} DropKeepsRows(fields: set<string>, rows: seq<Row>, c: Casts)
    ensures Each(Drop(fields), rows, c).Some? && |Each(Drop(fields), rows, c).value| == |rows|
  {
    if rows != [] { DropKeepsRows(fields, rows[1..], c); }
  }

  /** Only a drop can take the last column away. */
  lemma SameColumns(p: Plan, rank: int, s: Stage, rows: seq<Record>)
    requires PlanRank(p) <= rank && Fits(p, rank, s) && !s.Drop?
    requires s.FilterRows? ==> FilterFits(p, s.filter)
    ensures ShowsColumn(Push(p, s), rows) <==> ShowsColumn(p, rows)
  {
    var q := Push(p, s);
    if p.schema.None? {
      if s.Rename? {
        assert p.drops == {};
        assert forall raw :: KeptName(p, raw).Some? && KeptName(q, raw).Some?;
      } else {
        assert forall raw :: KeptName(p, raw) == KeptName(q, raw);
      }
    }
  }

  /** After a push, the table; a drop must leave a column, unless there is no row or was none. */
  ghost predicate ColumnsFit(p: Plan, s: Stage, rows: seq<Record>, c: Casts)
    requires !s.Custom?
  {
    s.Drop? ==> ShowsColumn(Push(p, s), rows) || !ShowsColumn(p, rows) || Stored(p, rows, c) == Some([])
  }

  lemma PushStep(p: Plan, rank: int, s: Stage, rows: seq<Record>, c: Casts)
    requires PlanRank(p) <= rank && Fits(p, rank, s) && Sound(c)
    requires (forall r :: r in rows ==> Safe(p, s, r, c)) && ColumnsFit(p, s, rows, c)
    requires s.FilterRows? ==> FilterFits(p, s.filter)
    ensures RunPlan(Push(p, s), rows, c)
            == var once := RunPlan(p, rows, c); if once.Some? then RunStage(s, once.value, c) else None
  {
    forall r | r in rows ensures SameOn(p, s, r, c) { PushOne(p, rank, s, r, c); }
    StoredThen(p, s, rows, c);
    if s.Drop? {
      if ShowsColumn(Push(p, s), rows) { DropShows(p, s.fields, rows); }
    } else {
      SameColumns(p, rank, s, rows);
    }
    if Stored(p, rows, c).Some? && !ShowsColumn(p, rows) { NoColumns(p, s, rows, c); }
  }

  lemma DropShows(p: Plan, fields: set<string>, rows: seq<Record>)
    requires ShowsColumn(Push(p, Drop(fields)), rows)
    ensures ShowsColumn(p, rows)
  {
    var q := Push(p, Drop(fields));
    if p.schema.Some? {
      var n :| n in p.schema.value - q.drops;
      assert n in p.schema.value - p.drops;
    }
  }

  /** A drop may be pushed exactly if a column is left, or there was none, or no row. */
  lemma DropExact(p: Plan, fields: set<string>, rows: seq<Record>, c: Casts)
    requires PlanRank(p) <= 1 && Sound(c)
    ensures RunPlan(p, rows, c).Some?
    ensures RunPlan(Push(p, Drop(fields)), rows, c) == RunStage(Drop(fields), RunPlan(p, rows, c).value, c)
            <==> ColumnsFit(p, Drop(fields), rows, c)
  {
    AllStored(p, rows, c);
    DropKeepsRows(fields, Stored(p, rows, c).value, c);
    forall r | r in rows ensures SameOn(p, Drop(fields), r, c) { PushDrop(p, fields, r, c); }
    StoredThen(p, Drop(fields), rows, c);
    if ShowsColumn(Push(p, Drop(fields)), rows) { DropShows(p, fields, rows); }
  }

  // ---------------------------------------------------------------- whole pipelines

  /** Every stage that is pushed is safe on every record that is sent, and leaves a column. */
  ghost predicate AllSafe(p: Plan, rank: int, stages: seq<Stage>, rows: seq<Record>, c: Casts)
    decreases |stages|
  {
    stages != [] && Fits(p, rank, stages[0]) ==>
      var s := stages[0];
      && (forall r :: r in rows ==> Safe(p, s, r, c)) && ColumnsFit(p, s, rows, c)
      && (s.FilterRows? ==> FilterFits(p, s.filter))
      && AllSafe(Push(p, s), Max(rank, StageRank(s)), stages[1..], rows, c)
  }

  /** `plan_split` preserves meaning: the merged plan, then the stages left, give on every table
      what the source's plan and then all the stages give, left to right. */
  lemma {:induction false} PushdownPreserves(p: Plan, rank: int, stages: seq<Stage>, rows: seq<Record>, c: Casts)
    requires PlanRank(p) <= rank && AllSafe(p, rank, stages, rows, c) && Sound(c)
    ensures var n := Pushed(p, rank, stages);
            && n <= |stages| && (forall i :: 0 <= i < n ==> !stages[i].Custom?)
            && RunStages(stages[n..], RunPlan(PushAll(p, stages[..n]), rows, c), c)
               == RunStages(stages, RunPlan(p, rows, c), c)
    decreases |stages|
  {
    PushedFits(p, rank, stages);
    if stages == [] || !Fits(p, rank, stages[0]) {
      assert stages[0..] == stages && stages[..0] == [];
    } else {
      var s, rest := stages[0], stages[1..];
      var next, nextRank := Push(p, s), Max(rank, StageRank(s));
      var n := Pushed(next, nextRank, rest);
      PushdownPreserves(next, nextRank, rest, rows, c);
      assert stages[..n + 1][0] == s && stages[..n + 1][1..] == rest[..n] && stages[n + 1..] == rest[n..];
      PushStep(p, rank, s, rows, c);
    }
  }
}
