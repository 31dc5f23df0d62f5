/** Dictionary encoding: codes, a value table, and the index that inverts it. */
module Dictionaries {
  import opened Wrappers
  import opened Arena

  datatype Dict = Dict(data: string, offsets: seq<int>, index: map<string, int>)

  ghost predicate Distinct(values: seq<string>) {
    forall i, j :: 0 <= i < j < |values| ==> values[i] != values[j]
  }

  /** The index gives each value a code of its own that the table gives back. */
  ghost predicate Inverts(index: map<string, int>, values: seq<string>) {
    && (forall v :: v in index ==> 0 <= index[v] < |values| && values[index[v]] == v)
    && (forall i :: 0 <= i < |values| ==> values[i] in index && index[values[i]] == i)
  }

  ghost predicate Represents(d: Dict, values: seq<string>) {
    Holds(d.data, d.offsets, values) && Inverts(d.index, values)
  }

  function EmptyDict(): Dict { Dict("", [0], map[]) }

  /** `dict_code`: the code of `v`, added to the table if it is new. */
  method DictCode(d: Dict, v: string, ghost values: seq<string>)
    returns (after: Dict, code: int, ghost extended: seq<string>)
    requires Represents(d, values) && |d.data| + |v| <= I32_MAX && |values| < I32_MAX
    ensures extended == if v in d.index then values else values + [v]
    ensures Represents(after, extended) && 0 <= code < |extended| && extended[code] == v
    ensures |after.data| <= |d.data| + |v| && |extended| <= |values| + 1
  {
    if v in d.index { return d, d.index[v], values; }
    code := AsI32(|d.offsets|) - 1;
    var data := d.data + v;
    after := Dict(data, d.offsets + [AsI32(|data|)], d.index[v := code]);
    extended := values + [v];
    NewEntry(d, v, values, code);
  }

  lemma NewEntry(d: Dict, v: string, values: seq<string>, code: int)
    requires Represents(d, values) && v !in d.index && |d.data| + |v| <= I32_MAX && |values| < I32_MAX
    requires code == AsI32(|d.offsets|) - 1
    ensures code == |values|
    ensures Represents(Dict(d.data + v, d.offsets + [AsI32(|d.data + v|)], d.index[v := code]), values + [v])
  {
    PushValue(d.data, d.offsets, values, v);
  }

  // ---------------------------------------------------------------- columns of codes

  datatype DictColumn = DictColumn(codes: seq<Option<int>>, dict: Dict)

  /** The column decodes to these cells. */
  ghost predicate Decodes(codes: seq<Option<int>>, values: seq<string>, cells: seq<Option<string>>) {
    |codes| == |cells| && forall i :: 0 <= i < |codes| ==>
      (codes[i].None? ==> cells[i] == None)
      && (codes[i].Some? ==> 0 <= codes[i].value < |values| && cells[i] == Some(values[codes[i].value]))
  }

  ghost predicate Encodes(col: DictColumn, values: seq<string>, cells: seq<Option<string>>) {
    Represents(col.dict, values) && Decodes(col.codes, values, cells)
  }

  /** The code at row `i`, if it has one, names a slot of the value table. */
  predicate Readable(col: DictColumn, i: nat)
    requires i < |col.codes|
  {
    col.codes[i].Some? ==>
      var c := col.codes[i].value;
      0 <= c && c + 1 < |col.dict.offsets| && 0 <= col.dict.offsets[c] <= col.dict.offsets[c + 1] <= |col.dict.data|
  }

  /** The stored text of row `i`. */
  function Decode(col: DictColumn, i: nat): Option<string>
    requires i < |col.codes| && Readable(col, i)
  {
    match col.codes[i]
    case None => None
    case Some(c) => Some(col.dict.data[col.dict.offsets[c]..col.dict.offsets[c + 1]])
  }

  /** Reading every row of the column gives these cells. */
  ghost predicate ReadsAs(col: DictColumn, cells: seq<Option<string>>) {
    |col.codes| == |cells| && forall i :: 0 <= i < |cells| ==> Readable(col, i) && Decode(col, i) == cells[i]
  }

  /** What is read back is the cells. */
  lemma DecodeIsCells(col: DictColumn, values: seq<string>, cells: seq<Option<string>>)
    requires Holds(col.dict.data, col.dict.offsets, values) && Decodes(col.codes, values, cells)
    ensures ReadsAs(col, cells)
  {
    forall i | 0 <= i < |cells| ensures Readable(col, i) && Decode(col, i) == cells[i] {
      if col.codes[i].Some? { SliceAt(col.dict.data, col.dict.offsets, values, col.codes[i].value); }
    }
  }

  function TextSize(cells: seq<Option<string>>): nat {
    if cells == [] then 0
    else TextSize(cells[..|cells| - 1]) + (if cells[|cells| - 1].Some? then |cells[|cells| - 1].value| else 0)
  }

  lemma SizeOneMore(cells: seq<Option<string>>, i: nat)
    requires i < |cells|
    ensures TextSize(cells[..i + 1]) == TextSize(cells[..i]) + (if cells[i].Some? then |cells[i].value| else 0)
    ensures TextSize(cells[..i + 1]) <= TextSize(cells)
    decreases |cells|
  {
    assert cells[..i + 1][..i] == cells[..i];
    if i + 1 < |cells| {
      var init := cells[..|cells| - 1];
      SizeOneMore(init, i);
      assert init[..i + 1] == cells[..i + 1];
    } else {
      assert cells[..i + 1] == cells;
    }
  }

  /** Encode a string column: the same cells come back. Promotion and automatic upgrade share it. */
  method EncodeAll(cells: seq<Option<string>>) returns (col: DictColumn, ghost values: seq<string>)
    requires TextSize(cells) <= I32_MAX && |cells| < I32_MAX
    ensures Encodes(col, values, cells) && ReadsAs(col, cells)
  {
    var codes, d := [], EmptyDict();
    values := [];
    for i := 0 to |cells|
      invariant Represents(d, values) && |d.data| <= TextSize(cells[..i]) && |values| <= i
      invariant Decodes(codes, values, cells[..i])
    {
      SizeOneMore(cells, i);
      assert cells[..i + 1] == cells[..i] + [cells[i]];
      match cells[i]
      case None =>
        codes := codes + [None];
      case Some(v) =>
        var code;
        d, code, values := DictCode(d, v, values);
        codes := codes + [Some(code)];
    }
    assert cells[..|cells|] == cells;
    col := DictColumn(codes, d);
    DecodeIsCells(col, values, cells);
  }

  // ---------------------------------------------------------------- automatic upgrade

  datatype Storage = Text(cells: seq<Option<string>>) | Coded(column: DictColumn)

  /** The distinct values that are not null. */
  function Seen(cells: seq<Option<string>>): (seen: set<string>)
    ensures forall v :: v in seen <==> Some(v) in cells
  {
    if cells == [] then {}
    else Seen(cells[..|cells| - 1]) + (if cells[|cells| - 1].Some? then {cells[|cells| - 1].value} else {})
  }

  function Cap(ratioCap: nat, maxSize: nat): nat {
    var floored := if ratioCap < 16 then 16 else ratioCap;
    if floored <= maxSize then floored else maxSize
  }

  /** `try_upgrade_to_dict`: encode a string column if it has rows enough and few enough distinct
      values. `ratioCap` is the share of the rows that may be distinct. */
  method TryUpgrade(cells: seq<Option<string>>, minRows: nat, ratioCap: nat, maxSize: nat)
    returns (after: Storage, ghost values: seq<string>)
    requires TextSize(cells) <= I32_MAX && |cells| < I32_MAX
    ensures var n := |Seen(cells)|;
            after.Coded? <==> |cells| >= minRows && n <= maxSize && (n <= ratioCap || n <= 16)
    ensures after.Coded? ==> Encodes(after.column, values, cells) && ReadsAs(after.column, cells)
    ensures after.Text? ==> after.cells == cells
  {
    values := [];
    if |cells| < minRows { return Text(cells), values; }
    var seen := {};
    for i := 0 to |cells|
      invariant seen == Seen(cells[..i])
    {
      assert cells[..i + 1][..i] == cells[..i];
      if cells[i].Some? { seen := seen + {cells[i].value}; }
    }
    assert cells[..|cells|] == cells;
    if |seen| > Cap(ratioCap, maxSize) { return Text(cells), values; }
    var col;
    col, values := EncodeAll(cells);
    return Coded(col), values;
  }

  // ---------------------------------------------------------------- appending a dictionary column

  /** Each code of the second table, in the first. */
  ghost predicate Remaps(remap: seq<int>, values: seq<string>, local: seq<string>, n: nat) {
    n <= |local| && |remap| == n
    && forall j :: 0 <= j < n ==> 0 <= remap[j] < |values| && values[remap[j]] == local[j]
  }

  lemma RemapMore(remap: seq<int>, values: seq<string>, more: seq<string>, local: seq<string>, n: nat, code: int)
    requires Remaps(remap, values, local, n) && n < |local| && values <= more
    requires 0 <= code < |more| && more[code] == local[n]
    ensures Remaps(remap + [code], more, local, n + 1)
  {
  }

  /** Add the second table's values to the first. */
  method AddValues(a: Dict, b: Dict, ghost values: seq<string>, ghost local: seq<string>)
    returns (after: Dict, remap: seq<int>, ghost extended: seq<string>)
    requires Represents(a, values) && Represents(b, local)
    requires |a.data| + |b.data| <= I32_MAX && |values| + |local| < I32_MAX
    ensures Represents(after, extended) && values <= extended && Remaps(remap, extended, local, |local|)
  {
    after, remap, extended := a, [], values;
    for i := 0 to |b.offsets| - 1
      invariant Represents(after, extended) && values <= extended && Remaps(remap, extended, local, i)
      invariant |after.data| <= |a.data| + |Concat(local[..i])| && |extended| <= |values| + i
    {
      SliceAt(b.data, b.offsets, local, i);
      ConcatPrefix(local, i + 1);
      assert local[..i + 1][..i] == local[..i];
      var val := b.data[b.offsets[i]..b.offsets[i + 1]];
      ghost var before := extended;
      var code;
      after, code, extended := DictCode(after, val, extended);
      RemapMore(remap, before, extended, local, i, code);
      remap := remap + [code];
    }
  }

  method AppendCodes(codes: seq<Option<int>>, more: seq<Option<int>>, remap: seq<int>, ghost values: seq<string>,
                     ghost local: seq<string>, ghost cells: seq<Option<string>>, ghost moreCells: seq<Option<string>>)
    returns (all: seq<Option<int>>)
    requires Decodes(codes, values, cells) && Decodes(more, local, moreCells) && Remaps(remap, values, local, |local|)
    ensures Decodes(all, values, cells + moreCells)
  {
    all := codes;
    assert cells + moreCells[..0] == cells;
    for i := 0 to |more|
      invariant Decodes(all, values, cells + moreCells[..i])
    {
      var code := if more[i].Some? then Some(remap[more[i].value]) else None;
      assert cells + moreCells[..i] + [moreCells[i]] == cells + moreCells[..i + 1];
      all := all + [code];
    }
    assert moreCells[..|more|] == moreCells;
  }

  /** `extend_owned` on dictionary columns: the cells of the first, then those of the second. */
  method ExtendOwned(a: DictColumn, b: DictColumn, ghost values: seq<string>, ghost local: seq<string>,
                     ghost cells: seq<Option<string>>, ghost moreCells: seq<Option<string>>)
    returns (joined: DictColumn, ghost extended: seq<string>)
    requires Encodes(a, values, cells) && Encodes(b, local, moreCells)
    requires |a.dict.data| + |b.dict.data| <= I32_MAX && |values| + |local| < I32_MAX
    ensures Encodes(joined, extended, cells + moreCells) && ReadsAs(joined, cells + moreCells)
  {
    if |a.codes| == 0 {
      assert cells + moreCells == moreCells;
      DecodeIsCells(b, local, moreCells);
      return b, local;
    }
    var dict, remap;
    dict, remap, extended := AddValues(a.dict, b.dict, values, local);
    var codes := AppendCodes(a.codes, b.codes, remap, extended, local, cells, moreCells);
    joined := DictColumn(codes, dict);
    DecodeIsCells(joined, extended, cells + moreCells);
  }
}
