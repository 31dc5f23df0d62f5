/** The columnar table builder: rows arrive field by field, columns grow in place. */
module TableBuilders {
  import opened Wrappers
  import opened Bits
  import opened Values
  import opened Filters
  import Table

  datatype Column = Column(variant: Variant, cells: seq<Option<Cell>>)

  function Push(col: Column, cell: Option<Cell>): Column { col.(cells := col.cells + [cell]) }

  function Pop(col: Column): Column { if col.cells == [] then col else col.(cells := col.cells[..|col.cells| - 1]) }

  // ---------------------------------------------------------------- the dirty mask

  /** Bit `i % 64` of word `i / 64`. */
  predicate Dirty(words: seq<Word>, i: nat) { i / 64 < |words| && words[i / 64][i % 64] }

  function SetDirty(words: seq<Word>, i: nat): (r: seq<Word>)
    requires i / 64 < |words|
    ensures |r| == |words| && forall j: nat :: Dirty(r, j) <==> j == i || Dirty(words, j)
  {
    var r := words[i / 64 := words[i / 64][i % 64 := true]];
    assert forall j: nat :: j / 64 == i / 64 && j % 64 == i % 64 ==> j == i;
    r
  }

  function Clear(n: nat): (r: seq<Word>)
    ensures |r| == n && forall j: nat :: !Dirty(r, j)
  {
    seq(n, _ => Zero())
  }

  predicate AllOnes(w: Word) { forall i :: 0 <= i < 64 ==> w[i] }

  /** The test by whole words: every full word is all ones, and the last has exactly the
      remaining low bits. */
  method IsFull(words: seq<Word>, ncols: nat) returns (full: bool)
    requires ncols <= 64 * |words| && forall j: nat :: j >= ncols ==> !Dirty(words, j)
    ensures full == forall j: nat :: j < ncols ==> Dirty(words, j)
  {
    var fullWords, rem := ncols / 64, ncols % 64;
    for w := 0 to fullWords
      invariant forall j: nat :: j < 64 * w ==> Dirty(words, j)
    {
      if !AllOnes(words[w]) {
        WordDecides(words, w, 64, ncols);
        return false;
      }
      assert forall j: nat :: 64 * w <= j < 64 * (w + 1) ==> j / 64 == w;
    }
    if rem == 0 { return true; }
    WordDecides(words, fullWords, rem, ncols);
    return words[fullWords] == Below(rem);
  }

  /** The first `n` bits of word `w` are the dirty bits of its columns. */
  lemma WordDecides(words: seq<Word>, w: nat, n: nat, ncols: nat)
    requires w < |words| && 0 < n <= 64 && 64 * w + n <= ncols && (n < 64 ==> 64 * w + n == ncols)
    requires forall j: nat :: j >= ncols ==> !Dirty(words, j)
    ensures (forall j: nat :: 64 * w <= j < 64 * w + n ==> Dirty(words, j))
            <==> if n == 64 then AllOnes(words[w]) else words[w] == Below(n)
  {
    forall i | 0 <= i < 64 ensures Dirty(words, 64 * w + i) == words[w][i] {
      assert (64 * w + i) / 64 == w && (64 * w + i) % 64 == i;
    }
  }

  // ---------------------------------------------------------------- a column and its rows

  /** The cells of one field in every row. */
  function CellsOf(rows: seq<Row>, name: string): seq<Option<Cell>> {
    if rows == [] then [] else CellsOf(rows[..|rows| - 1], name) + [CellOf(rows[|rows| - 1], name)]
  }

  lemma {:induction false} CellsAt(rows: seq<Row>, name: string)
    ensures |CellsOf(rows, name)| == |rows|
    ensures forall r :: 0 <= r < |rows| ==> CellsOf(rows, name)[r] == CellOf(rows[r], name)
  {
    if rows != [] { CellsAt(rows[..|rows| - 1], name); }
  }

  lemma CellsAre(cells: seq<Option<Cell>>, rows: seq<Row>, name: string)
    requires |cells| == |rows| && forall r :: 0 <= r < |rows| ==> cells[r] == CellOf(rows[r], name)
    ensures CellsOf(rows, name) == cells
  {
    CellsAt(rows, name);
  }

  lemma CellsSplit(rows: seq<Row>, name: string, n: nat)
    requires n <= |rows|
    ensures |CellsOf(rows, name)| == |rows|
    ensures CellsOf(rows[..n], name) == CellsOf(rows, name)[..n] && CellsOf(rows[n..], name) == CellsOf(rows, name)[n..]
  {
    CellsAt(rows, name);
    CellsAre(CellsOf(rows, name)[..n], rows[..n], name);
    CellsAre(CellsOf(rows, name)[n..], rows[n..], name);
  }

  /** The column of `name`: one cell a finished row, and one more if this row was sent one. */
  function Stored(m: Table.Model, name: string): Column
    requires name in m.kinds
  {
    Column(m.kinds[name], CellsOf(m.rows, name) + (if name in m.current then [m.current[name]] else []))
  }

  ghost predicate Holds(col: Column, name: string, dirty: bool, m: Table.Model) {
    name in m.kinds && col == Stored(m, name) && (dirty <==> name in m.current)
  }

  /** The column once missing cells are filled with nulls. */
  ghost predicate Filled(col: Column, name: string, m: Table.Model) {
    name in m.kinds && col == Column(m.kinds[name], CellsOf(m.rows, name) + [CellOf(m.current, name)])
  }

  ghost predicate AllHold(columns: seq<Column>, words: seq<Word>, m: Table.Model) {
    && |columns| == |m.order| && |columns| <= 64 * |words|
    && (forall i :: 0 <= i < |columns| ==> Holds(columns[i], m.order[i], Dirty(words, i), m))
    && (forall j: nat :: j >= |columns| ==> !Dirty(words, j))
  }

  /** The index of names is the inverse of the order of the columns. */
  ghost predicate Indexes(index: map<string, nat>, order: seq<string>) {
    && (forall i :: 0 <= i < |order| ==> order[i] in index && index[order[i]] == i)
    && (forall n :: n in index ==> index[n] < |order| && order[index[n]] == n)
  }

  /** The fields of a builder stand for the table `m`. */
  ghost predicate StandsFor(columns: seq<Column>, index: map<string, nat>, order: seq<string>, rowCount: nat,
                            words: seq<Word>, m: Table.Model)
  {
    && Table.Valid(m) && order == m.order && rowCount == |m.rows|
    && Indexes(index, order) && AllHold(columns, words, m)
  }

  function WithColumn(m: Table.Model, name: string, variant: Variant): Table.Model {
    m.(order := m.order + [name], kinds := m.kinds[name := variant])
  }

  lemma NewColumnHolds(columns: seq<Column>, words: seq<Word>, m: Table.Model, name: string, variant: Variant,
                       col: Column, more: seq<Word>)
    requires Table.Valid(m) && AllHold(columns, words, m) && name !in m.kinds
    requires |columns| < 64 * |more| && forall j: nat :: Dirty(more, j) == Dirty(words, j)
    requires col == Column(variant, seq(|m.rows|, _ => None))
    ensures AllHold(columns + [col], more, WithColumn(m, name, variant))
  {
    var n := WithColumn(m, name, variant);
    forall r | 0 <= r < |m.rows| ensures CellOf(m.rows[r], name) == None { assert m.rows[r].Keys <= m.kinds.Keys; }
    CellsAre(col.cells, m.rows, name);
    assert Holds(col, name, false, n);
    forall i | 0 <= i < |columns| ensures Holds(columns[i], n.order[i], Dirty(more, i), n) {
      assert Holds(columns[i], m.order[i], Dirty(words, i), m);
      assert m.order[i] in m.order;
    }
  }

  lemma NewHolds(columns: seq<Column>, index: map<string, nat>, order: seq<string>, rowCount: nat, words: seq<Word>,
                 m: Table.Model, name: string, variant: Variant, col: Column, more: seq<Word>)
    requires StandsFor(columns, index, order, rowCount, words, m) && name !in m.kinds
    requires |columns| < 64 * |more| && forall j: nat :: Dirty(more, j) == Dirty(words, j)
    requires col == Column(variant, seq(rowCount, _ => None))
    ensures StandsFor(columns + [col], index[name := |columns|], order + [name], rowCount, more,
                      WithColumn(m, name, variant))
  {
    NewColumnHolds(columns, words, m, name, variant, col, more);
    assert name !in m.order;
    NewValid(m, name, variant);
  }

  lemma NewValid(m: Table.Model, name: string, variant: Variant)
    requires Table.Valid(m) && name !in m.kinds
    ensures Table.Valid(WithColumn(m, name, variant))
  {
    assert name !in m.order;
  }

  lemma PutHolds(p: Table.Plan, columns: seq<Column>, index: map<string, nat>, order: seq<string>, rowCount: nat,
                 words: seq<Word>, m: Table.Model, idx: nat, value: Value, col: Column)
    requires StandsFor(columns, index, order, rowCount, words, m) && idx < |columns|
    requires var was := columns[idx];
             && col.variant == was.variant
             && col.cells == CellsOf(m.rows, order[idx]) + [p.conversions.store(was.variant, value)]
    ensures StandsFor(columns[idx := col], index, order, rowCount, SetDirty(words, idx),
                      Table.PutResolved(p, m, order[idx], value))
  {
    PutAllHold(p, columns, words, m, idx, value, col);
    PutValid(p, m, m.order[idx], value);
  }

  lemma PutValid(p: Table.Plan, m: Table.Model, name: string, value: Value)
    requires Table.Valid(m) && name in m.kinds
    ensures var n := Table.PutResolved(p, m, name, value);
            Table.Valid(n) && n.order == m.order && n.rows == m.rows
  {
  }

  lemma PutAllHold(p: Table.Plan, columns: seq<Column>, words: seq<Word>, m: Table.Model, idx: nat, value: Value,
                   col: Column)
    requires Table.Valid(m) && AllHold(columns, words, m) && idx < |columns|
    requires var was := columns[idx];
             && col.variant == was.variant
             && col.cells == CellsOf(m.rows, m.order[idx]) + [p.conversions.store(was.variant, value)]
    ensures AllHold(columns[idx := col], SetDirty(words, idx), Table.PutResolved(p, m, m.order[idx], value))
  {
    var name := m.order[idx];
    var n := Table.PutResolved(p, m, name, value);
    assert Holds(columns[idx], name, Dirty(words, idx), m);
    forall i | 0 <= i < |columns| ensures Holds(columns[idx := col][i], n.order[i], Dirty(SetDirty(words, idx), i), n) {
      assert Holds(columns[i], m.order[i], Dirty(words, i), m);
    }
  }

  ghost predicate AllFilled(columns: seq<Column>, m: Table.Model) {
    |columns| == |m.order| && forall i :: 0 <= i < |columns| ==> Filled(columns[i], m.order[i], m)
  }

  lemma FilledHolds(columns: seq<Column>, index: map<string, nat>, order: seq<string>, rowCount: nat, words: seq<Word>,
                    m: Table.Model, p: Table.Plan)
    requires Table.Valid(m) && Indexes(index, order) && order == m.order && rowCount == |m.rows|
    requires AllFilled(columns, m) && |columns| <= 64 * |words| && forall j: nat :: !Dirty(words, j)
    requires Table.Accepts(p, m.current)
    ensures StandsFor(columns, index, order, rowCount + 1, words, Table.FinishRow(p, m))
  {
    var n := Table.FinishRow(p, m);
    forall i | 0 <= i < |columns| ensures Holds(columns[i], n.order[i], false, n) {
      assert Filled(columns[i], m.order[i], m);
    }
  }

  /** The row at `r` as the columns store it. */
  function StoredRow(columns: seq<Column>, index: map<string, nat>, r: nat): Row
    requires forall n :: n in index ==> index[n] < |columns| && r < |columns[index[n]].cells|
  {
    map n | n in index :: columns[index[n]].cells[r]
  }

  lemma StoredFits(columns: seq<Column>, index: map<string, nat>, m: Table.Model)
    requires Indexes(index, m.order) && AllFilled(columns, m)
    ensures forall n :: n in index ==> index[n] < |columns| && |m.rows| < |columns[index[n]].cells|
  {
    forall n | n in index ensures index[n] < |columns| && |m.rows| < |columns[index[n]].cells| {
      assert Filled(columns[index[n]], m.order[index[n]], m);
      CellsAt(m.rows, n);
    }
  }

  lemma StoredIsCurrent(columns: seq<Column>, index: map<string, nat>, m: Table.Model)
    requires Table.Valid(m) && Indexes(index, m.order) && AllFilled(columns, m)
    requires forall n :: n in index ==> index[n] < |columns| && |m.rows| < |columns[index[n]].cells|
    ensures SameCells(StoredRow(columns, index, |m.rows|), m.current)
  {
    var row := StoredRow(columns, index, |m.rows|);
    forall n: string ensures CellOf(row, n) == CellOf(m.current, n) {
      if n in index {
        assert Filled(columns[index[n]], m.order[index[n]], m);
        CellsAt(m.rows, n);
      } else {
        assert n !in m.order;
      }
    }
  }

  method NullColumn(variant: Variant, n: nat) returns (col: Column)
    ensures col == Column(variant, seq(n, _ => None))
  {
    col := Column(variant, []);
    for r := 0 to n
      invariant col == Column(variant, seq(r, _ => None))
    {
      col := Push(col, None);
    }
  }

  /** Fill in what this row was not sent. */
  method NullFill(columns: seq<Column>, words: seq<Word>, ghost m: Table.Model) returns (filled: seq<Column>)
    requires AllHold(columns, words, m)
    ensures AllFilled(filled, m)
  {
    var full := IsFull(words, |columns|);
    filled := columns;
    if full {
      forall i | 0 <= i < |columns| ensures Filled(columns[i], m.order[i], m) {
        assert Holds(columns[i], m.order[i], Dirty(words, i), m);
      }
      return;
    }
    for i := 0 to |columns|
      invariant |filled| == |columns|
      invariant forall k :: 0 <= k < i ==> Filled(filled[k], m.order[k], m)
      invariant forall k :: i <= k < |columns| ==> filled[k] == columns[k]
    {
      assert Holds(columns[i], m.order[i], Dirty(words, i), m);
      if !Dirty(words, i) { filled := filled[i := Push(filled[i], None)]; }
    }
  }

  /** Undo a filled row. */
  method PopAll(columns: seq<Column>, words: seq<Word>, ghost m: Table.Model) returns (popped: seq<Column>)
    requires AllFilled(columns, m) && |columns| <= 64 * |words| && forall j: nat :: !Dirty(words, j)
    ensures AllHold(popped, words, Table.Normalized(m))
  {
    ghost var after := Table.Normalized(m);
    popped := columns;
    for i := 0 to |columns|
      invariant |popped| == |columns|
      invariant forall k :: 0 <= k < i ==> Holds(popped[k], m.order[k], false, after)
      invariant forall k :: i <= k < |columns| ==> popped[k] == columns[k]
    {
      assert Filled(columns[i], m.order[i], m);
      popped := popped[i := Pop(popped[i])];
    }
  }

  method PopTo(col: Column, n: nat) returns (cut: Column)
    requires n <= |col.cells|
    ensures cut == col.(cells := col.cells[..n])
  {
    cut := col;
    while |cut.cells| > n
      invariant cut.variant == col.variant && n <= |cut.cells| <= |col.cells| && cut.cells == col.cells[..|cut.cells|]
      decreases |cut.cells|
    {
      cut := Pop(cut);
    }
  }

  /** Cut every column back to the finished rows. */
  method CutAll(columns: seq<Column>, words: seq<Word>, rowCount: nat, ghost m: Table.Model) returns (cut: seq<Column>)
    requires AllHold(columns, words, m) && rowCount == |m.rows|
    ensures AllHold(cut, Clear(|words|), Table.Normalized(m))
  {
    ghost var after := Table.Normalized(m);
    cut := columns;
    for i := 0 to |columns|
      invariant |cut| == |columns|
      invariant forall k :: 0 <= k < i ==> Holds(cut[k], m.order[k], false, after)
      invariant forall k :: i <= k < |columns| ==> cut[k] == columns[k]
    {
      assert Holds(columns[i], m.order[i], Dirty(words, i), m);
      CellsAt(m.rows, m.order[i]);
      var col := PopTo(columns[i], rowCount);
      cut := cut[i := col];
    }
  }

  /** The filter on a row just filled. */
  method TestRow(columns: seq<Column>, index: map<string, nat>, rowCount: nat, p: Table.Plan, ghost m: Table.Model)
    returns (keep: bool)
    requires Table.Valid(m) && rowCount == |m.rows| && Indexes(index, m.order)
    requires AllFilled(columns, m) && p.filter.Some?
    ensures keep == Table.Accepts(p, m.current)
  {
    StoredFits(columns, index, m);
    StoredIsCurrent(columns, index, m);
    var stored := StoredRow(columns, index, rowCount);
    MissingIsNull(p.filter.value, stored, m.current, p.fieldMap);
    keep := Check(p.filter.value, stored, p.fieldMap);
  }

  // ---------------------------------------------------------------- moving columns

  /** Every name has a column of its own. */
  ghost predicate Located(index: map<string, nat>, columns: seq<Column>) {
    && (forall n :: n in index ==> index[n] < |columns|)
    && (forall a, b :: a in index && b in index && index[a] == index[b] ==> a == b)
  }

  /** Remove the column at `index[name]` by moving the last one into its place. */
  method SwapRemove(columns: seq<Column>, index: map<string, nat>, name: string)
    returns (left: seq<Column>, leftIndex: map<string, nat>)
    requires Located(index, columns) && name in index
    ensures Located(leftIndex, left) && leftIndex.Keys == index.Keys - {name}
    ensures forall n :: n in leftIndex ==> left[leftIndex[n]] == columns[index[n]]
  {
    var idx, last := index[name], |columns| - 1;
    leftIndex := index - {name};
    if idx == last {
      left := columns[..last];
    } else {
      left := columns[idx := columns[last]][..last];
      if moved :| moved in leftIndex && leftIndex[moved] == last {
        leftIndex := leftIndex[moved := idx];
      }
    }
  }

  method SplitColumn(col: Column, n: nat) returns (head: Column, tail: Column)
    requires n <= |col.cells|
    ensures head == col.(cells := col.cells[..n]) && tail == col.(cells := col.cells[n..])
  {
    head, tail := col.(cells := col.cells[..n]), col.(cells := col.cells[n..]);
  }

  function FirstRows(m: Table.Model, n: nat): Table.Model
    requires n <= |m.rows|
  {
    m.(rows := m.rows[..n], current := map[])
  }

  function RestOfRows(m: Table.Model, n: nat): Table.Model
    requires n <= |m.rows|
  {
    m.(rows := m.rows[n..], current := map[])
  }

  lemma SplitHolds(col: Column, name: string, dirty: bool, m: Table.Model, n: nat)
    requires Holds(col, name, dirty, m) && n <= |m.rows|
    ensures n <= |col.cells| && Holds(col.(cells := col.cells[..n]), name, false, FirstRows(m, n))
    ensures !dirty ==> Holds(col.(cells := col.cells[n..]), name, false, RestOfRows(m, n))
  {
    CellsSplit(m.rows, name, n);
  }

  /** Split every column after `n` rows. */
  method SplitAll(columns: seq<Column>, words: seq<Word>, n: nat, ghost m: Table.Model)
    returns (heads: seq<Column>, tails: seq<Column>)
    requires AllHold(columns, words, m) && n <= |m.rows|
    ensures AllHold(heads, Clear((|columns| + 63) / 64), FirstRows(m, n))
    ensures m.current == map[] ==> AllHold(tails, Clear((|columns| + 63) / 64), RestOfRows(m, n))
  {
    heads, tails := [], [];
    for i := 0 to |columns|
      invariant |heads| == |tails| == i
      invariant forall k :: 0 <= k < i ==> Holds(heads[k], m.order[k], false, FirstRows(m, n))
      invariant m.current == map[] ==> forall k :: 0 <= k < i ==> Holds(tails[k], m.order[k], false, RestOfRows(m, n))
    {
      SplitHolds(columns[i], m.order[i], Dirty(words, i), m, n);
      var head, tail := SplitColumn(columns[i], n);
      heads, tails := heads + [head], tails + [tail];
    }
  }

  lemma FirstRowsValid(m: Table.Model, n: nat)
    requires Table.Valid(m) && n <= |m.rows|
    ensures Table.Valid(FirstRows(m, n)) && Table.Valid(RestOfRows(m, n))
  {
  }

  /** Both parts of a builder's fields. */
  method SplitFields(columns: seq<Column>, index: map<string, nat>, order: seq<string>, rowCount: nat, words: seq<Word>,
                     n: nat, ghost m: Table.Model)
    returns (heads: seq<Column>, tails: seq<Column>, clear: seq<Word>)
    requires StandsFor(columns, index, order, rowCount, words, m) && n <= rowCount
    ensures StandsFor(heads, index, order, n, clear, FirstRows(m, n))
    ensures m.current == map[] ==> StandsFor(tails, index, order, rowCount - n, clear, RestOfRows(m, n))
  {
    heads, tails := SplitAll(columns, words, n, m);
    clear := Clear((|columns| + 63) / 64);
    FirstRowsValid(m, n);
  }

  /** Store a value in column `idx`, in place of an earlier one of this row. */
  method PutCell(columns: seq<Column>, index: map<string, nat>, order: seq<string>, rowCount: nat, words: seq<Word>,
                 idx: nat, value: Value, p: Table.Plan, ghost m: Table.Model)
    returns (put: seq<Column>, dirty: seq<Word>)
    requires StandsFor(columns, index, order, rowCount, words, m) && idx < |columns|
    ensures StandsFor(put, index, order, rowCount, dirty, Table.PutResolved(p, m, order[idx], value))
  {
    var col := columns[idx];
    assert Holds(col, order[idx], Dirty(words, idx), m);
    CellsAt(m.rows, order[idx]);
    if |col.cells| > rowCount { col := Pop(col); }
    col := Push(col, p.conversions.store(col.variant, value));
    PutHolds(p, columns, index, order, rowCount, words, m, idx, value, col);
    put, dirty := columns[idx := col], SetDirty(words, idx);
  }

  class TableBuilder {
    const plan: Table.Plan
    var columns: seq<Column>
    var fieldIndex: map<string, nat>
    var columnOrder: seq<string>
    var rowCount: nat
    var rowDirty: seq<Word>
    /** The table that the columns stand for. */
    ghost var model: Table.Model

    ghost predicate Valid()
      reads this
    {
      StandsFor(columns, fieldIndex, columnOrder, rowCount, rowDirty, model)
    }

    constructor (plan: Table.Plan)
      ensures this.plan == plan && Valid() && model == Table.Empty()
    {
      this.plan := plan;
      columns, fieldIndex, columnOrder, rowCount, rowDirty := [], map[], [], 0, [];
      model := Table.Empty();
    }

    /** The first rows of another builder. */
    constructor Part(plan: Table.Plan, columns: seq<Column>, index: map<string, nat>, order: seq<string>, rows: nat,
                     words: seq<Word>, ghost m: Table.Model)
      requires StandsFor(columns, index, order, rows, words, m)
      ensures this.plan == plan && Valid() && model == m
    {
      this.plan, this.columns, fieldIndex, columnOrder := plan, columns, index, order;
      rowCount, rowDirty, model := rows, words, m;
    }

    /** A new column, null in every finished row. */
    method NewColumn(name: string, variant: Variant) returns (idx: nat)
      requires Valid() && name !in model.kinds
      modifies this`columns, this`fieldIndex, this`columnOrder, this`rowDirty, this`model
      ensures Valid() && idx < |columns| && columnOrder[idx] == name
      ensures model == WithColumn(old(model), name, variant)
    {
      var col := NullColumn(variant, rowCount);
      idx := |columns|;
      var words := rowDirty;
      if 64 * |words| < idx + 1 { words := words + Clear(1); }
      NewHolds(columns, fieldIndex, columnOrder, rowCount, rowDirty, model, name, variant, col, words);
      columns, rowDirty := columns + [col], words;
      fieldIndex := fieldIndex[name := idx];
      columnOrder := columnOrder + [name];
      model := WithColumn(model, name, variant);
    }

    method EnsureColumnIdx(name: string) returns (idx: nat)
      requires Valid()
      modifies this`columns, this`fieldIndex, this`columnOrder, this`rowDirty, this`model
      ensures Valid() && idx < |columns| && columnOrder[idx] == name
      ensures model == Table.AddColumn(plan, old(model), name)
    {
      if name in fieldIndex { return fieldIndex[name]; }
      idx := NewColumn(name, plan.columnType(name));
    }

    method PushFieldResolved(name: string, value: Value)
      requires Valid()
      modifies this`columns, this`fieldIndex, this`columnOrder, this`rowDirty, this`model
      ensures Valid() && model == Table.PutResolved(plan, old(model), name, value)
    {
      var idx := EnsureColumnIdx(name);
      columns, rowDirty := PutCell(columns, fieldIndex, columnOrder, rowCount, rowDirty, idx, value, plan, model);
      model := Table.PutResolved(plan, model, name, value);
    }

    /** Resolve the name first; a dropped field changes nothing. */
    method PushField(raw: string, value: Value)
      requires Valid()
      modifies this`columns, this`fieldIndex, this`columnOrder, this`rowDirty, this`model
      ensures Valid() && model == Table.PutField(plan, old(model), raw, value)
    {
      var resolved := Table.ResolveField(plan, raw);
      if resolved.Some? { PushFieldResolved(resolved.value, value); }
    }

    /** Finish the row: fill it, test it, and keep it or undo it. */
    method FinishRow()
      requires Valid()
      modifies this
      ensures Valid() && model == Table.FinishRow(plan, old(model))
    {
      var filled := NullFill(columns, rowDirty, model);
      var words := Clear(|rowDirty|);
      var keep := true;
      if plan.filter.Some? { keep := TestRow(filled, fieldIndex, rowCount, plan, model); }
      if keep {
        FilledHolds(filled, fieldIndex, columnOrder, rowCount, words, model, plan);
        columns, rowDirty, rowCount := filled, words, rowCount + 1;
      } else {
        columns := PopAll(filled, words, model);
        rowDirty := words;
      }
      model := Table.FinishRow(plan, model);
    }

    /** Drop the values of an unfinished row. */
    method Normalize()
      requires Valid()
      modifies this`columns, this`rowDirty, this`model
      ensures Valid() && model == Table.Normalized(old(model)) && model == old(model).(current := map[])
    {
      columns := CutAll(columns, rowDirty, rowCount, model);
      rowDirty := Clear(|rowDirty|);
      model := Table.Normalized(model);
    }

    /** Keep only the rows after the first `n`, and give up the columns of those. */
    method DropFirst(n: nat) returns (heads: seq<Column>, words: seq<Word>)
      requires Valid() && 0 < n <= rowCount
      modifies this`columns, this`rowCount, this`rowDirty, this`model
      ensures StandsFor(heads, fieldIndex, columnOrder, n, words, FirstRows(old(model), n))
      ensures old(model).current == map[] ==> Valid()
      ensures model == RestOfRows(old(model), n) && rowCount == old(rowCount) - n
    {
      var tails;
      heads, tails, words := SplitFields(columns, fieldIndex, columnOrder, rowCount, rowDirty, n, model);
      columns, rowCount, rowDirty, model := tails, rowCount - n, words, RestOfRows(model, n);
    }

    /** Move the first `n` rows to a builder of their own. Between rows, the rest stays a table; a
        row half filled at that moment would lose its dirty bits. */
    method SplitOff(n: nat) returns (other: TableBuilder)
      requires Valid() && 0 < n <= rowCount
      modifies this
      ensures fresh(other) && other.plan == plan && other.Valid() && other.model == FirstRows(old(model), n)
      ensures old(model).current == map[] ==> Valid()
      ensures model == RestOfRows(old(model), n) && rowCount == old(rowCount) - n
    {
      ghost var first := FirstRows(model, n);
      var heads, words := DropFirst(n);
      other := new TableBuilder.Part(plan, heads, fieldIndex, columnOrder, n, words, first);
    }

    /** Remove a column by name: every other name keeps its own column. */
    method TakeColumn(name: string) returns (taken: Option<Column>)
      requires Located(fieldIndex, columns)
      modifies this`columns, this`fieldIndex, this`rowDirty
      ensures Located(fieldIndex, columns) && fieldIndex.Keys == old(fieldIndex.Keys) - {name}
      ensures taken == if name in old(fieldIndex) then Some(old(columns[fieldIndex[name]])) else None
      ensures forall n :: n in fieldIndex ==> columns[fieldIndex[n]] == old(columns)[old(fieldIndex)[n]]
    {
      if name !in fieldIndex { return None; }
      taken := Some(columns[fieldIndex[name]]);
      rowDirty := Clear((|columns| + 63) / 64);
      columns, fieldIndex := SwapRemove(columns, fieldIndex, name);
    }

    /** One event of a parser. */
    method Send(event: Event)
      requires Valid()
      modifies this
      ensures Valid() && model == Table.Step(plan, old(model), event)
    {
      match event
      case BeginRow =>
      case Put(name, value) => PushField(name, value);
      case EndRow => FinishRow();
    }

    /** Every event of a run. */
    method Feed(events: seq<Event>)
      requires Valid()
      modifies this
      ensures Valid() && model == Table.Run(plan, old(model), events)
    {
      assert events[0..] == events;
      for i := 0 to |events|
        invariant Valid() && Table.Run(plan, model, events[i..]) == Table.Run(plan, old(model), events)
      {
        assert events[i..][1..] == events[i + 1..];
        Send(events[i]);
      }
    }
  }
}
