/** Merging the builders of two chunks. */
module Merge {
  import opened Wrappers
  import opened Bits
  import opened Values
  import opened Filters
  import opened TableBuilders
  import Table

  // ---------------------------------------------------------------- promotion

  /** The storage that both columns can move to without losing a value. */
  function Unify(a: Variant, b: Variant): Option<Variant> {
    if a == b then Some(a)
    else if (a.Int64Column? && b.Float64Column?) || (a.Float64Column? && b.Int64Column?) then Some(Float64Column)
    else if (a.StringColumn? && b.DictionaryColumn?) || (a.DictionaryColumn? && b.StringColumn?)
    then Some(DictionaryColumn)
    else None
  }

  /** The only columns that can be brought together: of one storage, whole numbers and floats as
      floats, and strings with and without a dictionary as a dictionary. */
  lemma UnifyExact(a: Variant, b: Variant, t: Variant)
    ensures Unify(a, b) == Some(t)
            <==> || (a == t && b == t)
                 || ({a, b} == {Int64Column, Float64Column} && t == Float64Column)
                 || ({a, b} == {StringColumn, DictionaryColumn} && t == DictionaryColumn)
  {
    assert a in {a, b} && b in {a, b};
    assert {Int64Column, Float64Column} == {Float64Column, Int64Column};
    assert {StringColumn, DictionaryColumn} == {DictionaryColumn, StringColumn};
    if {a, b} == {Int64Column, Float64Column} { assert Int64Column in {a, b} && Float64Column in {a, b}; }
    if {a, b} == {StringColumn, DictionaryColumn} { assert StringColumn in {a, b} && DictionaryColumn in {a, b}; }
  }

  /** A cell after promotion; dictionary encoding does not change what it decodes to. */
  function Recast(c: Conversions, variant: Variant, target: Variant, cell: Option<Cell>): Option<Cell> {
    if variant.Int64Column? && target.Float64Column? && cell.Some? then Some(c.widen(cell.value)) else cell
  }

  function RecastAll(c: Conversions, variant: Variant, target: Variant,
                     cells: seq<Option<Cell>>): (r: seq<Option<Cell>>)
    ensures |r| == |cells| && forall i :: 0 <= i < |cells| ==> r[i] == Recast(c, variant, target, cells[i])
  {
    if cells == [] then [] else [Recast(c, variant, target, cells[0])] + RecastAll(c, variant, target, cells[1..])
  }

  /** `promote_to_variant`: only the two safe promotions. */
  method PromoteToVariant(c: Conversions, col: Column, target: Variant) returns (promoted: Option<Column>)
    ensures promoted.Some? <==> Unify(col.variant, target) == Some(target)
    ensures promoted.Some? ==> promoted.value == Column(target, RecastAll(c, col.variant, target, col.cells))
    ensures promoted.Some? <==> || target == col.variant
                                || (col.variant == Int64Column && target == Float64Column)
                                || (col.variant == StringColumn && target == DictionaryColumn)
    ensures promoted.Some? ==>
              && promoted.value.variant == target && |promoted.value.cells| == |col.cells|
              && forall i :: 0 <= i < |col.cells| ==>
                   promoted.value.cells[i]
                   == if col.cells[i].Some? && col.variant == Int64Column && target == Float64Column
                      then Some(c.widen(col.cells[i].value)) else col.cells[i]
  {
    if col.variant == target {
      return Some(col);
    }
    if col.variant.Int64Column? {
      if !target.Float64Column? { return None; }
      return Some(Column(target, RecastAll(c, col.variant, target, col.cells)));
    }
    if col.variant.StringColumn? {
      if !target.DictionaryColumn? { return None; }
      return Some(Column(target, col.cells));
    }
    return None;
  }

  /** Bring two columns to a common storage and append the second to the first. */
  method Append(c: Conversions, first: Column, second: Column) returns (joined: Option<Column>)
    ensures joined.Some? <==> Unify(first.variant, second.variant).Some?
    ensures joined.Some? ==> joined.value == Joined(c, Unify(first.variant, second.variant).value, first, second)
  {
    var a, b := first, second;
    if a.variant != b.variant {
      var target := Unify(a.variant, b.variant);
      if target.None? { return None; }
      var x := PromoteToVariant(c, a, target.value);
      var y := PromoteToVariant(c, b, target.value);
      a, b := x.value, y.value;
    }
    return Some(a.(cells := a.cells + b.cells));
  }

  // ---------------------------------------------------------------- what a merge means

  /** The columns that both tables have can be unified. */
  ghost predicate Unifiable(a: Table.Model, b: Table.Model) {
    forall n :: n in a.kinds && n in b.kinds ==> Unify(a.kinds[n], b.kinds[n]).Some?
  }

  function KindIn(a: Table.Model, b: Table.Model, n: string): Variant {
    if n in a.kinds && n in b.kinds && Unify(a.kinds[n], b.kinds[n]).Some? then Unify(a.kinds[n], b.kinds[n]).value
    else if n in a.kinds then a.kinds[n]
    else if n in b.kinds then b.kinds[n]
    else StringColumn
  }

  function RecastRow(c: Conversions, row: Row, kinds: map<string, Variant>, a: Table.Model, b: Table.Model): Row {
    map n | n in row :: if n in kinds then Recast(c, kinds[n], KindIn(a, b, n), row[n]) else row[n]
  }

  function RecastRows(c: Conversions, rows: seq<Row>, kinds: map<string, Variant>, a: Table.Model,
                      b: Table.Model): (r: seq<Row>)
    ensures |r| == |rows| && forall i :: 0 <= i < |rows| ==> r[i] == RecastRow(c, rows[i], kinds, a, b)
  {
    if rows == [] then [] else [RecastRow(c, rows[0], kinds, a, b)] + RecastRows(c, rows[1..], kinds, a, b)
  }

  /** The rows of the first table, then those of the second; the columns of the first, then those
      that only the second has. Unfinished rows are dropped. */
  function Merged(c: Conversions, a: Table.Model, b: Table.Model): Table.Model {
    Table.Model(a.order + Table.Fresh(b.order, a.kinds.Keys),
                map n | n in a.kinds.Keys + b.kinds.Keys :: KindIn(a, b, n),
                RecastRows(c, a.rows, a.kinds, a, b) + RecastRows(c, b.rows, b.kinds, a, b), map[])
  }

  lemma RecastRowSame(c: Conversions, row: Row, kinds: map<string, Variant>, a: Table.Model, b: Table.Model)
    requires row.Keys <= kinds.Keys && forall n :: n in row ==> KindIn(a, b, n) == kinds[n]
    ensures RecastRow(c, row, kinds, a, b) == row
  {
  }

  lemma RecastRowsSame(c: Conversions, rows: seq<Row>, kinds: map<string, Variant>, a: Table.Model, b: Table.Model)
    requires forall i :: 0 <= i < |rows| ==> rows[i].Keys <= kinds.Keys
    requires forall n :: n in kinds ==> KindIn(a, b, n) == kinds[n]
    ensures RecastRows(c, rows, kinds, a, b) == rows
  {
    forall i | 0 <= i < |rows| ensures RecastRow(c, rows[i], kinds, a, b) == rows[i] {
      RecastRowSame(c, rows[i], kinds, a, b);
    }
  }

  lemma SameKind(p: Table.Plan, a: Table.Model, b: Table.Model)
    requires Table.Typed(p, a) && Table.Typed(p, b)
    ensures Unifiable(a, b)
    ensures forall n :: n in a.kinds ==> KindIn(a, b, n) == a.kinds[n]
    ensures forall n :: n in b.kinds ==> KindIn(a, b, n) == b.kinds[n]
  {
  }

  lemma JoinedKinds(c: Conversions, a: Table.Model, b: Table.Model)
    requires Table.Valid(a) && Table.Valid(b)
    requires forall n :: n in a.kinds ==> KindIn(a, b, n) == a.kinds[n]
    requires forall n :: n in b.kinds ==> KindIn(a, b, n) == b.kinds[n]
    ensures Merged(c, a, b).kinds == b.kinds + a.kinds
  {
  }

  /** Between builders of one plan nothing is promoted, and a merge is plain concatenation. */
  lemma MergedIsJoin(p: Table.Plan, a: Table.Model, b: Table.Model)
    requires Table.Valid(a) && Table.Valid(b) && Table.Typed(p, a) && Table.Typed(p, b)
    ensures Unifiable(a, b)
    ensures Merged(p.conversions, a, b) == Table.Join(a, Table.Normalized(b))
  {
    SameKind(p, a, b);
    var c := p.conversions;
    assert RecastRows(c, a.rows, a.kinds, a, b) == a.rows by { RecastRowsSame(c, a.rows, a.kinds, a, b); }
    assert RecastRows(c, b.rows, b.kinds, a, b) == b.rows by { RecastRowsSame(c, b.rows, b.kinds, a, b); }
    JoinedKinds(c, a, b);
  }

  // ---------------------------------------------------------------- one column

  /** The first table, with the columns it lacks. */
  function AddAll(p: Table.Plan, m: Table.Model, names: seq<string>): Table.Model {
    if names == [] then m else Table.AddColumn(p, AddAll(p, m, names[..|names| - 1]), names[|names| - 1])
  }

  lemma {:induction false} AddAllKinds(p: Table.Plan, m: Table.Model, names: seq<string>)
    ensures var n := AddAll(p, m, names);
            && n.rows == m.rows && n.current == m.current
            && (forall k :: k in n.kinds <==> k in m.kinds || k in names)
            && (forall k :: k in n.kinds ==> n.kinds[k] == if k in m.kinds then m.kinds[k] else p.columnType(k))
  {
    if names != [] {
      var before, last := names[..|names| - 1], names[|names| - 1];
      AddAllKinds(p, m, before);
      assert names == before + [last];
    }
  }

  lemma {:induction false} AddAllOrder(p: Table.Plan, m: Table.Model, names: seq<string>)
    requires Table.Distinct(names)
    ensures AddAll(p, m, names).order == m.order + Table.Fresh(names, m.kinds.Keys)
  {
    if names != [] {
      var before, last := names[..|names| - 1], names[|names| - 1];
      AddAllOrder(p, m, before);
      AddAllKinds(p, m, before);
      assert last !in before;
    }
  }

  /** The first table with its new columns, before anything is appended. */
  ghost predicate Widened(w: Table.Model, a: Table.Model, b: Table.Model) {
    && w.rows == a.rows && w.current == map[]
    && (forall n :: n in w.kinds <==> n in a.kinds || n in b.kinds)
    && (forall n :: n in w.kinds ==> w.kinds[n] == if n in a.kinds then a.kinds[n] else b.kinds[n])
  }

  /** The cell of column `n` in row `r` of a merge. */
  function MergedCellOf(c: Conversions, a: Table.Model, b: Table.Model, n: string, r: nat): Option<Cell>
    requires n in a.kinds.Keys + b.kinds.Keys && r < |a.rows| + |b.rows|
  {
    var kind := KindIn(a, b, n);
    if r < |a.rows| then (if n in a.kinds then Recast(c, a.kinds[n], kind, CellOf(a.rows[r], n)) else None)
    else if n in b.kinds then Recast(c, b.kinds[n], kind, CellOf(b.rows[r - |a.rows|], n)) else None
  }

  lemma MergedRows(c: Conversions, a: Table.Model, b: Table.Model)
    ensures var m := Merged(c, a, b);
            && |m.rows| == |a.rows| + |b.rows|
            && (forall r :: 0 <= r < |a.rows| ==> m.rows[r] == RecastRow(c, a.rows[r], a.kinds, a, b))
            && (forall k :: 0 <= k < |b.rows| ==> m.rows[|a.rows| + k] == RecastRow(c, b.rows[k], b.kinds, a, b))
  {
  }

  lemma MergedCell(c: Conversions, a: Table.Model, b: Table.Model, n: string, r: nat)
    requires Table.Valid(a) && Table.Valid(b) && n in a.kinds.Keys + b.kinds.Keys && r < |a.rows| + |b.rows|
    ensures CellOf(Merged(c, a, b).rows[r], n) == MergedCellOf(c, a, b, n, r)
  {
    if r < |a.rows| {
      FirstRow(c, a, b, n, r);
      assert MergedCellOf(c, a, b, n, r)
             == if n in a.kinds then Recast(c, a.kinds[n], KindIn(a, b, n), CellOf(a.rows[r], n)) else None;
    } else {
      var k := r - |a.rows|;
      SecondRow(c, a, b, n, k);
      assert MergedCellOf(c, a, b, n, r)
             == if n in b.kinds then Recast(c, b.kinds[n], KindIn(a, b, n), CellOf(b.rows[k], n)) else None;
    }
  }

  lemma FirstRow(c: Conversions, a: Table.Model, b: Table.Model, n: string, r: nat)
    requires Table.Valid(a) && n in a.kinds.Keys + b.kinds.Keys && r < |a.rows|
    ensures |Merged(c, a, b).rows| == |a.rows| + |b.rows|
    ensures CellOf(Merged(c, a, b).rows[r], n)
            == if n in a.kinds then Recast(c, a.kinds[n], KindIn(a, b, n), CellOf(a.rows[r], n)) else None
  {
    MergedRows(c, a, b);
    RecastCell(c, a.rows[r], a.kinds, a, b, n);
  }

  lemma SecondRow(c: Conversions, a: Table.Model, b: Table.Model, n: string, k: nat)
    requires Table.Valid(b) && n in a.kinds.Keys + b.kinds.Keys && k < |b.rows|
    ensures |Merged(c, a, b).rows| == |a.rows| + |b.rows|
    ensures CellOf(Merged(c, a, b).rows[|a.rows| + k], n)
            == if n in b.kinds then Recast(c, b.kinds[n], KindIn(a, b, n), CellOf(b.rows[k], n)) else None
  {
    MergedRows(c, a, b);
    RecastCell(c, b.rows[k], b.kinds, a, b, n);
  }

  lemma RecastCell(c: Conversions, row: Row, kinds: map<string, Variant>, a: Table.Model, b: Table.Model, n: string)
    requires row.Keys <= kinds.Keys
    ensures CellOf(RecastRow(c, row, kinds, a, b), n)
            == if n in kinds then Recast(c, kinds[n], KindIn(a, b, n), CellOf(row, n)) else None
  {
  }

  /** A cell is widened exactly if its column of whole numbers becomes one of floats. */
  predicate Widens(own: Variant, n: string, other: map<string, Variant>) {
    own == Int64Column && n in other && other[n] == Float64Column
  }

  lemma RecastKept(c: Conversions, a: Table.Model, b: Table.Model, n: string, cell: Option<Cell>)
    ensures n in a.kinds ==> Recast(c, a.kinds[n], KindIn(a, b, n), cell)
                             == if cell.Some? && Widens(a.kinds[n], n, b.kinds) then Some(c.widen(cell.value)) else cell
    ensures n in b.kinds && (n in a.kinds ==> Unify(a.kinds[n], b.kinds[n]).Some?) ==>
              Recast(c, b.kinds[n], KindIn(a, b, n), cell)
              == if cell.Some? && Widens(b.kinds[n], n, a.kinds) then Some(c.widen(cell.value)) else cell
  {
  }

  /** What a merge does to a cell of the first table: it stays where it is, null or not, and is
      widened exactly if its column of whole numbers becomes one of floats. */
  lemma FirstKept(c: Conversions, a: Table.Model, b: Table.Model, n: string, r: nat)
    requires Table.Valid(a) && Table.Valid(b) && n in a.kinds && r < |a.rows|
    ensures |Merged(c, a, b).rows| == |a.rows| + |b.rows|
    ensures var was := CellOf(a.rows[r], n);
            var widens := a.kinds[n] == Int64Column && n in b.kinds && b.kinds[n] == Float64Column;
            CellOf(Merged(c, a, b).rows[r], n) == if was.Some? && widens then Some(c.widen(was.value)) else was
  {
    FirstRow(c, a, b, n, r);
    RecastKept(c, a, b, n, CellOf(a.rows[r], n));
  }

  /** And to a cell of the second, which comes after all rows of the first. */
  lemma SecondKept(c: Conversions, a: Table.Model, b: Table.Model, n: string, r: nat)
    requires Table.Valid(a) && Table.Valid(b) && n in b.kinds && r < |b.rows|
    requires n in a.kinds ==> Unify(a.kinds[n], b.kinds[n]).Some?
    ensures |Merged(c, a, b).rows| == |a.rows| + |b.rows|
    ensures var was := CellOf(b.rows[r], n);
            var widens := b.kinds[n] == Int64Column && n in a.kinds && a.kinds[n] == Float64Column;
            CellOf(Merged(c, a, b).rows[|a.rows| + r], n)
            == if was.Some? && widens then Some(c.widen(was.value)) else was
  {
    SecondRow(c, a, b, n, r);
    RecastKept(c, a, b, n, CellOf(b.rows[r], n));
  }

  /** A column that only one table has is null in the rows of the other. */
  lemma OtherNull(c: Conversions, a: Table.Model, b: Table.Model, n: string, r: nat)
    requires Table.Valid(a) && Table.Valid(b) && n in a.kinds.Keys + b.kinds.Keys
    ensures n !in a.kinds && r < |a.rows| ==> CellOf(Merged(c, a, b).rows[r], n) == None
    ensures n !in b.kinds && r < |b.rows| ==> CellOf(Merged(c, a, b).rows[|a.rows| + r], n) == None
  {
    if n !in a.kinds && r < |a.rows| { FirstRow(c, a, b, n, r); }
    if n !in b.kinds && r < |b.rows| { SecondRow(c, a, b, n, r); }
  }

  /** The type of a merged column. */
  lemma KindKept(c: Conversions, a: Table.Model, b: Table.Model, n: string)
    requires Unifiable(a, b) && n in a.kinds.Keys + b.kinds.Keys
    ensures var kind := Merged(c, a, b).kinds[n];
            && (n !in b.kinds ==> kind == a.kinds[n]) && (n !in a.kinds ==> kind == b.kinds[n])
            && (n in a.kinds && n in b.kinds ==>
                  || kind == a.kinds[n] == b.kinds[n]
                  || ({a.kinds[n], b.kinds[n]} == {Int64Column, Float64Column} && kind == Float64Column)
                  || ({a.kinds[n], b.kinds[n]} == {StringColumn, DictionaryColumn} && kind == DictionaryColumn))
  {
    if n in a.kinds && n in b.kinds { UnifyExact(a.kinds[n], b.kinds[n], KindIn(a, b, n)); }
  }

  function Joined(c: Conversions, target: Variant, col: Column, other: Column): Column {
    Column(target, RecastAll(c, col.variant, target, col.cells) + RecastAll(c, other.variant, target, other.cells))
  }

  lemma AppendedCells(c: Conversions, a: Table.Model, b: Table.Model, w: Table.Model, n: string, col: Column,
                      other: Column)
    requires Table.Valid(a) && Widened(w, a, b) && n in b.kinds
    requires Holds(col, n, false, w) && Holds(other, n, false, Table.Normalized(b))
    ensures var cells := Joined(c, KindIn(a, b, n), col, other).cells;
            |cells| == |a.rows| + |b.rows| && forall r :: 0 <= r < |cells| ==> cells[r] == MergedCellOf(c, a, b, n, r)
  {
    CellsAt(a.rows, n);
    CellsAt(b.rows, n);
    forall r | 0 <= r < |a.rows| ensures n !in a.kinds ==> CellOf(a.rows[r], n) == None {
      assert a.rows[r].Keys <= a.kinds.Keys;
    }
  }

  /** A column that holds the merged cells is the merged column. */
  lemma MergedColumn(c: Conversions, a: Table.Model, b: Table.Model, n: string, cells: seq<Option<Cell>>)
    requires Table.Valid(a) && Table.Valid(b) && n in a.kinds.Keys + b.kinds.Keys
    requires |cells| == |a.rows| + |b.rows| && forall r :: 0 <= r < |cells| ==> cells[r] == MergedCellOf(c, a, b, n, r)
    ensures Holds(Column(KindIn(a, b, n), cells), n, false, Merged(c, a, b))
  {
    var m := Merged(c, a, b);
    forall r | 0 <= r < |cells| ensures cells[r] == CellOf(m.rows[r], n) { MergedCell(c, a, b, n, r); }
    CellsAre(cells, m.rows, n);
  }

  lemma AppendedHolds(c: Conversions, a: Table.Model, b: Table.Model, w: Table.Model, n: string, col: Column,
                      other: Column)
    requires Table.Valid(a) && Table.Valid(b) && Widened(w, a, b) && n in b.kinds
    requires Holds(col, n, false, w) && Holds(other, n, false, Table.Normalized(b))
    requires Unify(col.variant, other.variant).Some?
    ensures Holds(Joined(c, Unify(col.variant, other.variant).value, col, other), n, false, Merged(c, a, b))
  {
    AppendedCells(c, a, b, w, n, col, other);
    MergedColumn(c, a, b, n, Joined(c, KindIn(a, b, n), col, other).cells);
  }

  lemma PaddedHolds(c: Conversions, a: Table.Model, b: Table.Model, w: Table.Model, n: string, col: Column)
    requires Table.Valid(a) && Table.Valid(b) && Widened(w, a, b) && n !in b.kinds && Holds(col, n, false, w)
    ensures Holds(col.(cells := col.cells + seq(|b.rows|, _ => None)), n, false, Merged(c, a, b))
  {
    CellsAt(a.rows, n);
    MergedColumn(c, a, b, n, col.cells + seq(|b.rows|, _ => None));
  }

  method Pad(col: Column, n: nat) returns (padded: Column)
    ensures padded == col.(cells := col.cells + seq(n, _ => None))
  {
    padded := col;
    for r := 0 to n
      invariant padded == col.(cells := col.cells + seq(r, _ => None))
    {
      padded := Push(padded, None);
    }
  }

  /** Append the other table's column of this name, or pad with nulls. */
  method MergeColumn(c: Conversions, col: Column, taken: Option<Column>, otherRows: nat, n: string,
                     ghost a: Table.Model, ghost b: Table.Model, ghost w: Table.Model)
    returns (joined: Option<Column>)
    requires Table.Valid(a) && Table.Valid(b) && Widened(w, a, b) && otherRows == |b.rows| && Holds(col, n, false, w)
    requires taken.Some? <==> n in b.kinds
    requires taken.Some? ==> Holds(taken.value, n, false, Table.Normalized(b))
    ensures joined.Some? ==> Holds(joined.value, n, false, Merged(c, a, b))
    ensures joined.Some? <==> (n in a.kinds && n in b.kinds ==> Unify(a.kinds[n], b.kinds[n]).Some?)
  {
    match taken
    case Some(other) =>
      joined := Append(c, col, other);
      if joined.Some? { AppendedHolds(c, a, b, w, n, col, other); }
    case None =>
      var padded := Pad(col, otherRows);
      PaddedHolds(c, a, b, w, n, col);
      joined := Some(padded);
  }

  // ---------------------------------------------------------------- extend

  /** Create the columns that only the other table has. */
  method AddMissing(self: TableBuilder, names: seq<string>, p: Table.Plan)
    requires self.Valid()
    modifies self`columns, self`fieldIndex, self`columnOrder, self`rowDirty, self`model
    ensures self.Valid() && self.model == AddAll(p, old(self.model), names)
  {
    for i := 0 to |names|
      invariant self.Valid() && self.model == AddAll(p, old(self.model), names[..i])
    {
      assert names[..i + 1][..i] == names[..i];
      if names[i] !in self.fieldIndex {
        var idx := self.NewColumn(names[i], p.columnType(names[i]));
      }
    }
    assert names[..|names|] == names;
  }

  /** What is left to take from the other table: its columns but for the first `i` names. */
  ghost predicate LeftToTake(columns: seq<Column>, index: map<string, nat>, b: Table.Model, taken: seq<string>) {
    && Located(index, columns)
    && (forall n :: n in index <==> n in b.kinds && n !in taken)
    && (forall n :: n in index ==> Holds(columns[index[n]], n, false, Table.Normalized(b)))
  }

  lemma NothingTaken(columns: seq<Column>, index: map<string, nat>, order: seq<string>, rows: nat, words: seq<Word>,
                     b: Table.Model)
    requires StandsFor(columns, index, order, rows, words, Table.Normalized(b))
    ensures LeftToTake(columns, index, b, [])
  {
    var m := Table.Normalized(b);
    forall n | n in index ensures Holds(columns[index[n]], n, false, m) {
      assert Holds(columns[index[n]], m.order[index[n]], Dirty(words, index[n]), m);
    }
    forall n ensures n in index <==> n in b.kinds {
      if n in index { assert m.order[index[n]] in m.order; }
      if n in m.order {
        var i :| 0 <= i < |m.order| && m.order[i] == n;
        assert m.order[i] in index;
      }
    }
  }

  /** The first `i` columns are merged, the others wait. */
  ghost predicate PartlyMerged(columns: seq<Column>, order: seq<string>, i: nat, w: Table.Model, m: Table.Model) {
    && |columns| == |order| && i <= |order|
    && (forall k :: 0 <= k < i ==> Holds(columns[k], order[k], false, m))
    && (forall k :: i <= k < |order| ==> Holds(columns[k], order[k], false, w))
  }

  ghost predicate UnifiableAmong(a: Table.Model, b: Table.Model, names: seq<string>) {
    forall n :: n in names && n in a.kinds && n in b.kinds ==> Unify(a.kinds[n], b.kinds[n]).Some?
  }

  lemma WidenedStart(p: Table.Plan, a: Table.Model, b: Table.Model)
    requires Table.Valid(b) && a.current == map[]
    ensures var w := AddAll(p, a, b.order); Widened(w, w, b) && w.order + Table.Fresh(b.order, w.kinds.Keys) == w.order
  {
    AddAllKinds(p, a, b.order);
    NoneFresh(b.order, AddAll(p, a, b.order).kinds.Keys);
  }

  lemma {:induction false} NoneFresh(names: seq<string>, known: set<string>)
    requires forall n :: n in names ==> n in known
    ensures Table.Fresh(names, known) == []
  {
    if names != [] {
      assert names == names[..|names| - 1] + [names[|names| - 1]];
      NoneFresh(names[..|names| - 1], known);
    }
  }

  /** If the second table has the columns of its own plan, as every builder fresh from a parser
      does, creating its columns in the first beforehand changes nothing: the merge is that of
      the two tables. */
  lemma TypedMerge(c: Conversions, p: Table.Plan, a: Table.Model, b: Table.Model)
    requires Table.Valid(a) && Table.Valid(b) && Table.Typed(p, b) && a.current == map[]
    ensures var w := AddAll(p, a, b.order);
            (Unifiable(w, b) <==> Unifiable(a, b)) && Merged(c, w, b) == Merged(c, a, b)
  {
    var w := AddAll(p, a, b.order);
    WidenedStart(p, a, b);
    WidenedUnify(p, a, b);
    WidenedRows(c, p, a, b);
    AddAllOrder(p, a, b.order);
    WidenedKinds(p, a, b);
    AddAllKinds(p, a, b.order);
    assert Merged(c, w, b).kinds == Merged(c, a, b).kinds;
  }

  lemma WidenedRows(c: Conversions, p: Table.Plan, a: Table.Model, b: Table.Model)
    requires Table.Valid(a) && Table.Valid(b) && Table.Typed(p, b)
    ensures var w := AddAll(p, a, b.order);
            && RecastRows(c, w.rows, w.kinds, w, b) == RecastRows(c, a.rows, a.kinds, a, b)
            && RecastRows(c, b.rows, b.kinds, w, b) == RecastRows(c, b.rows, b.kinds, a, b)
  {
    var w := AddAll(p, a, b.order);
    AddAllKinds(p, a, b.order);
    WidenedKinds(p, a, b);
    RecastsAgree(c, a.rows, w.kinds, a.kinds, w, a, b);
    RecastsAgree(c, b.rows, b.kinds, b.kinds, w, a, b);
  }

  lemma WidenedKinds(p: Table.Plan, a: Table.Model, b: Table.Model)
    requires Table.Valid(b) && Table.Typed(p, b)
    ensures var w := AddAll(p, a, b.order); forall n :: KindIn(w, b, n) == KindIn(a, b, n)
  {
    AddAllKinds(p, a, b.order);
  }

  lemma WidenedUnify(p: Table.Plan, a: Table.Model, b: Table.Model)
    requires Table.Valid(b) && Table.Typed(p, b)
    ensures Unifiable(AddAll(p, a, b.order), b) <==> Unifiable(a, b)
  {
    AddAllKinds(p, a, b.order);
  }

  lemma RecastsAgree(c: Conversions, rows: seq<Row>, some: map<string, Variant>, other: map<string, Variant>,
                     w: Table.Model, a: Table.Model, b: Table.Model)
    requires forall n :: KindIn(w, b, n) == KindIn(a, b, n)
    requires forall r :: 0 <= r < |rows| ==> rows[r].Keys <= other.Keys
    requires forall n :: n in other ==> n in some && some[n] == other[n]
    ensures RecastRows(c, rows, some, w, b) == RecastRows(c, rows, other, a, b)
  {
    forall r | 0 <= r < |rows| ensures RecastRow(c, rows[r], some, w, b) == RecastRow(c, rows[r], other, a, b) {
      assert rows[r].Keys <= other.Keys;
    }
  }

  lemma TakenLeaves(before: seq<Column>, index: map<string, nat>, left: seq<Column>, leftIndex: map<string, nat>,
                    b: Table.Model, order: seq<string>, i: nat)
    requires i < |order| && LeftToTake(before, index, b, order[..i])
    requires Located(leftIndex, left) && leftIndex.Keys == index.Keys - {order[i]}
    requires forall n :: n in leftIndex ==> left[leftIndex[n]] == before[index[n]]
    ensures LeftToTake(left, leftIndex, b, order[..i + 1])
  {
    assert order[..i + 1] == order[..i] + [order[i]];
    forall n | n in leftIndex ensures Holds(left[leftIndex[n]], n, false, Table.Normalized(b)) {
      assert n in index;
    }
  }

  /** One column: take it from the other table, if it has it, and append it. */
  method AppendOne(self: TableBuilder, other: TableBuilder, order: seq<string>, i: nat, otherRows: nat,
                   ghost a: Table.Model, ghost b: Table.Model, ghost w: Table.Model)
    returns (ok: bool)
    requires self != other && Table.Valid(a) && Table.Valid(b) && otherRows == |b.rows| && Widened(w, a, b)
    requires i < |order| && order[i] !in order[..i] && Indexes(self.fieldIndex, order)
    requires PartlyMerged(self.columns, order, i, w, Merged(self.plan.conversions, a, b))
    requires LeftToTake(other.columns, other.fieldIndex, b, order[..i])
    modifies self`columns, other`columns, other`fieldIndex, other`rowDirty
    ensures ok <==> UnifiableAmong(a, b, [order[i]])
    ensures ok ==> PartlyMerged(self.columns, order, i + 1, w, Merged(self.plan.conversions, a, b))
    ensures ok ==> LeftToTake(other.columns, other.fieldIndex, b, order[..i + 1])
  {
    var name := order[i];
    var idx := self.fieldIndex[name];
    ghost var before, index := other.columns, other.fieldIndex;
    var taken := other.TakeColumn(name);
    var joined := MergeColumn(self.plan.conversions, self.columns[idx], taken, otherRows, name, a, b, w);
    if joined.None? { return false; }
    TakenLeaves(before, index, other.columns, other.fieldIndex, b, order, i);
    OneMoreMerged(self.columns, order, i, w, Merged(self.plan.conversions, a, b), joined.value);
    self.columns := self.columns[idx := joined.value];
    return true;
  }

  lemma OneMoreMerged(columns: seq<Column>, order: seq<string>, i: nat, w: Table.Model, m: Table.Model, col: Column)
    requires PartlyMerged(columns, order, i, w, m) && i < |order| && Holds(col, order[i], false, m)
    ensures PartlyMerged(columns[i := col], order, i + 1, w, m)
  {
  }

  lemma OneMoreUnifies(a: Table.Model, b: Table.Model, order: seq<string>, i: nat)
    requires i < |order|
    ensures UnifiableAmong(a, b, order[..i + 1])
        <==> UnifiableAmong(a, b, order[..i]) && UnifiableAmong(a, b, [order[i]])
  {
    assert order[..i + 1] == order[..i] + [order[i]];
  }

  /** Append the other table's values column by column. */
  method AppendAll(self: TableBuilder, other: TableBuilder, order: seq<string>, otherRows: nat,
                   ghost a: Table.Model, ghost b: Table.Model, ghost w: Table.Model)
    returns (ok: bool)
    requires self != other && Table.Valid(a) && Table.Valid(b) && otherRows == |b.rows| && Widened(w, a, b)
    requires Table.Distinct(order) && Indexes(self.fieldIndex, order)
    requires PartlyMerged(self.columns, order, 0, w, Merged(self.plan.conversions, a, b))
    requires LeftToTake(other.columns, other.fieldIndex, b, [])
    modifies self`columns, other`columns, other`fieldIndex, other`rowDirty
    ensures ok <==> UnifiableAmong(a, b, order)
    ensures ok ==> PartlyMerged(self.columns, order, |order|, w, Merged(self.plan.conversions, a, b))
  {
    assert order[..0] == [];
    for i := 0 to |order|
      invariant PartlyMerged(self.columns, order, i, w, Merged(self.plan.conversions, a, b))
      invariant LeftToTake(other.columns, other.fieldIndex, b, order[..i])
      invariant UnifiableAmong(a, b, order[..i])
    {
      OneMoreUnifies(a, b, order, i);
      ok := AppendOne(self, other, order, i, otherRows, a, b, w);
      if !ok {
        return false;
      }
    }
    assert order[..|order|] == order;
    return true;
  }

  lemma MergedValid(c: Conversions, a: Table.Model, b: Table.Model)
    requires Table.Valid(a) && Table.Valid(b)
    ensures Table.Valid(Merged(c, a, b))
  {
    var m := Merged(c, a, b);
    FreshDistinct(a.order, b.order, a.kinds.Keys);
    forall n ensures n in m.kinds <==> n in m.order {
      Table.FreshIn(b.order, a.kinds.Keys, n);
    }
  }

  lemma {:induction false} FreshDistinct(first: seq<string>, names: seq<string>, known: set<string>)
    requires Table.Distinct(first) && Table.Distinct(names) && forall n :: n in known <==> n in first
    ensures Table.Distinct(first + Table.Fresh(names, known))
  {
    if names != [] {
      var before, last := names[..|names| - 1], names[|names| - 1];
      FreshDistinct(first, before, known);
      Table.FreshIn(before, known, last);
      assert last !in before;
      var so := first + Table.Fresh(before, known);
      if last !in known { assert first + Table.Fresh(names, known) == so + [last] && last !in so; }
    }
  }

  lemma MergedStands(c: Conversions, columns: seq<Column>, index: map<string, nat>, words: seq<Word>, w: Table.Model,
                     a: Table.Model, b: Table.Model)
    requires Table.Valid(a) && Table.Valid(b) && Indexes(index, w.order) && |w.order| <= 64 * |words|
    requires w.order == Merged(c, a, b).order && forall j: nat :: !Dirty(words, j)
    requires PartlyMerged(columns, w.order, |w.order|, w, Merged(c, a, b))
    ensures StandsFor(columns, index, w.order, |a.rows| + |b.rows|, words, Merged(c, a, b))
  {
    MergedValid(c, a, b);
  }

  /** All columns are merged: so is the table. */
  method FinishMerge(self: TableBuilder, rows: nat, ghost w: Table.Model, ghost b: Table.Model)
    requires Table.Valid(w) && Table.Valid(b) && rows == |w.rows| + |b.rows|
    requires Indexes(self.fieldIndex, w.order) && |w.order| <= 64 * |self.rowDirty| && self.columnOrder == w.order
    requires w.order == Merged(self.plan.conversions, w, b).order && forall j: nat :: !Dirty(self.rowDirty, j)
    requires PartlyMerged(self.columns, w.order, |w.order|, w, Merged(self.plan.conversions, w, b))
    modifies self`rowCount, self`model
    ensures self.Valid() && self.model == Merged(self.plan.conversions, w, b)
  {
    MergedStands(self.plan.conversions, self.columns, self.fieldIndex, self.rowDirty, w, w, b);
    self.rowCount, self.model := rows, Merged(self.plan.conversions, w, b);
  }

  lemma AllWait(columns: seq<Column>, words: seq<Word>, w: Table.Model, m: Table.Model)
    requires AllHold(columns, words, w) && w.current == map[]
    ensures PartlyMerged(columns, w.order, 0, w, m)
  {
    forall k | 0 <= k < |w.order| ensures Holds(columns[k], w.order[k], false, w) {
      assert Holds(columns[k], w.order[k], Dirty(words, k), w);
    }
  }

  lemma NoneDirty(columns: seq<Column>, words: seq<Word>, w: Table.Model)
    requires AllHold(columns, words, w) && w.current == map[]
    ensures |w.order| <= 64 * |words| && forall j: nat :: !Dirty(words, j)
  {
    forall j: nat ensures !Dirty(words, j) {
      if j < |columns| { assert Holds(columns[j], w.order[j], Dirty(words, j), w); }
    }
  }

  lemma UnifiableInOrder(a: Table.Model, b: Table.Model, order: seq<string>)
    requires Table.Valid(a) && forall n :: n in a.kinds ==> n in order
    ensures UnifiableAmong(a, b, order) <==> Unifiable(a, b)
  {
  }

  /** With all columns in place: the values column by column. */
  method AppendInto(self: TableBuilder, other: TableBuilder, ghost w: Table.Model, ghost b: Table.Model)
    returns (ok: bool)
    requires self != other && self.Valid() && other.Valid() && w == self.model && b == other.model
    requires w.current == b.current == map[] && Widened(w, w, b)
    requires w.order + Table.Fresh(b.order, w.kinds.Keys) == w.order
    modifies self`columns, self`rowCount, self`model, other`columns, other`fieldIndex, other`rowDirty
    ensures ok <==> Unifiable(w, b)
    ensures ok ==> self.Valid() && self.model == Merged(self.plan.conversions, w, b)
  {
    var rows := self.rowCount + other.rowCount;
    UnifiableInOrder(w, b, w.order);
    NoneDirty(self.columns, self.rowDirty, w);
    AllWait(self.columns, self.rowDirty, w, Merged(self.plan.conversions, w, b));
    assert Table.Normalized(b) == b;
    NothingTaken(other.columns, other.fieldIndex, other.columnOrder, other.rowCount, other.rowDirty, b);
    ok := AppendAll(self, other, self.columnOrder, other.rowCount, w, b, w);
    if ok { FinishMerge(self, rows, w, b); }
  }

  /** `extend` once both builders are between rows: the first gets the columns it lacks, with the
      types that the second's plan gives them, and then the values column by column. */
  method ExtendBetweenRows(self: TableBuilder, other: TableBuilder, ghost a: Table.Model, ghost b: Table.Model)
    returns (ok: bool)
    requires self != other && self.Valid() && other.Valid()
    requires a == self.model && b == other.model && a.current == b.current == map[]
    modifies self, other
    ensures ok <==> Unifiable(AddAll(other.plan, a, b.order), b)
    ensures ok ==> self.Valid() && self.model == Merged(self.plan.conversions, AddAll(other.plan, a, b.order), b)
  {
    AddMissing(self, other.columnOrder, other.plan);
    WidenedStart(other.plan, a, b);
    ok := AppendInto(self, other, self.model, b);
  }

  /** The first table with the columns that it lacks, typed by the second's plan. */
  function Widen(p: Table.Plan, a: Table.Model, b: Table.Model): Table.Model {
    AddAll(p, Table.Normalized(a), b.order)
  }

  /** `extend`: append another builder's table. It fails exactly when a column cannot be brought
      to one type. */
  method Extend(self: TableBuilder, other: TableBuilder) returns (ok: bool)
    requires self != other && self.Valid() && other.Valid()
    modifies self, other
    ensures ok <==> Unifiable(Widen(other.plan, old(self.model), old(other.model)), old(other.model))
    ensures ok ==> self.Valid() && self.model == Merged(self.plan.conversions,
                                                        Widen(other.plan, old(self.model), old(other.model)),
                                                        Table.Normalized(old(other.model)))
  {
    self.Normalize();
    other.Normalize();
    ok := ExtendBetweenRows(self, other, self.model, other.model);
  }
}
