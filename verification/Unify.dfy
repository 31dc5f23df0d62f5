/** Unifying the dictionaries of chunks with a seed. */
module Unify {
  import opened Wrappers
  import opened Arena
  import opened Dictionaries

  /** The index only tells the truth about the values; it may miss some. */
  ghost predicate Sound(index: map<string, int>, values: seq<string>) {
    forall v :: v in index ==> 0 <= index[v] < |values| && values[index[v]] == v
  }

  /** `SeedDict::new`: a later copy of a value takes over its code. */
  method NewSeed(values: seq<string>) returns (seed: Dict)
    requires |Concat(values)| <= I32_MAX && |values| <= I32_MAX
    ensures Holds(seed.data, seed.offsets, values) && Sound(seed.index, values)
    ensures forall v :: v in seed.index <==> v in values
    ensures Distinct(values) ==> Inverts(seed.index, values)
  {
    var d := EmptyDict();
    for i := 0 to |values|
      invariant SeedSoFar(d, values, i)
    {
      d := AddSeed(d, values, i);
    }
    assert values[..|values|] == values;
    seed := d;
  }

  /** The seed of the first `i` values. */
  ghost predicate SeedSoFar(d: Dict, values: seq<string>, i: nat) {
    && i <= |values| && Holds(d.data, d.offsets, values[..i]) && Sound(d.index, values[..i])
    && forall v :: v in d.index <==> v in values[..i]
  }

  method AddSeed(d: Dict, values: seq<string>, i: nat) returns (after: Dict)
    requires |Concat(values)| <= I32_MAX && |values| <= I32_MAX && i < |values| && SeedSoFar(d, values, i)
    ensures SeedSoFar(after, values, i + 1)
  {
    var data := d.data + values[i];
    SizeSoFar(values, i);
    PushValue(d.data, d.offsets, values[..i], values[i]);
    var index := d.index[values[i] := AsI32(i)];
    SeedMore(d.index, values, i, index);
    after := Dict(data, d.offsets + [AsI32(|data|)], index);
  }

  lemma SeedMore(index: map<string, int>, values: seq<string>, i: nat, after: map<string, int>)
    requires i < |values| && i <= I32_MAX && Sound(index, values[..i]) && forall v :: v in index <==> v in values[..i]
    requires after == index[values[i] := AsI32(i)]
    ensures values[..i + 1] == values[..i] + [values[i]]
    ensures Sound(after, values[..i + 1]) && forall v :: v in after <==> v in values[..i + 1]
  {
    assert AsI32(i) == i;
  }

  // ---------------------------------------------------------------- the global dictionary

  /** The table being unified: data, offsets and index, with the next code. */
  datatype Global = Global(dict: Dict, nextCode: int)

  ghost predicate Stands(g: Global, values: seq<string>) {
    Holds(g.dict.data, g.dict.offsets, values) && Sound(g.dict.index, values) && g.nextCode == |values|
  }

  /** Every value of `local` from position `from` up to `to_` is in the index. */
  ghost predicate Covers(index: map<string, int>, local: seq<string>, from: nat, upTo: nat) {
    forall i :: from <= i < upTo && i < |local| ==> local[i] in index
  }

  /** Every code from `n` on stands for a value that the seed's index `known` lacks, and for none
      twice; and the codes of that index are kept. */
  ghost predicate AddedOnce(known: map<string, int>, n: nat, index: map<string, int>, values: seq<string>) {
    && (forall i :: n <= i < |values| ==> values[i] in index && index[values[i]] == i && values[i] !in known)
    && (forall v :: v in known ==> v in index && index[v] == known[v])
  }

  function Tail(own: seq<string>, from: nat): seq<string> { own[if from <= |own| then from else |own|..] }

  /** Entry `i` of a table. */
  method EntryAt(local: Dict, i: nat, ghost own: seq<string>) returns (val: string)
    requires Holds(local.data, local.offsets, own) && i < |own|
    ensures val == own[i]
  {
    SliceAt(local.data, local.offsets, own, i);
    val := local.data[local.offsets[i]..local.offsets[i + 1]];
  }

  /** The index knows the values of `own` from `from` to `upTo`, what `before` knew, and no more. */
  ghost predicate Grown(before: set<string>, index: set<string>, own: seq<string>, from: nat, upTo: nat) {
    from <= upTo <= |own| && index == before + set v | v in own[from..upTo]
  }

  lemma GrownMore(before: set<string>, index: set<string>, own: seq<string>, from: nat, i: nat)
    requires Grown(before, index, own, from, i) && i < |own|
    ensures Grown(before, index + {own[i]}, own, from, i + 1)
  {
    assert own[from..i + 1] == own[from..i] + [own[i]];
  }

  lemma SizeSoFar(own: seq<string>, i: nat)
    requires i < |own|
    ensures |Concat(own[..i + 1])| == |Concat(own[..i])| + |own[i]| <= |Concat(own)|
  {
    ConcatPrefix(own, i + 1);
    assert own[..i + 1][..i] == own[..i];
  }

  /** Collect the values of one chunk past the seed. */
  method CollectOverflow(g: Global, local: Dict, seedLen: nat, ghost values: seq<string>, ghost own: seq<string>,
                         ghost known: map<string, int>)
    returns (after: Global, ghost extended: seq<string>)
    requires Stands(g, values) && Holds(local.data, local.offsets, own)
    requires |g.dict.data| + |local.data| <= I32_MAX && AddedOnce(known, seedLen, g.dict.index, values)
    ensures AddedOnce(known, seedLen, after.dict.index, extended)
    ensures Stands(after, extended) && values <= extended && g.dict.index.Keys <= after.dict.index.Keys
    ensures Covers(after.dict.index, own, seedLen, |own|)
    ensures forall v :: v in after.dict.index ==> v in g.dict.index || v in Tail(own, seedLen)
    ensures |after.dict.data| <= |g.dict.data| + |local.data|
  {
    after, extended := g, values;
    var count := |local.offsets| - 1;
    if seedLen >= count { return; }
    for i := seedLen to count
      invariant Collecting(g, after, values, extended, own, seedLen, i, known)
    {
      after, extended := CollectOne(g, after, local, seedLen, i, values, extended, own, known);
    }
    AllCollected(g, after, values, extended, own, seedLen, known);
  }

  lemma AllCollected(g: Global, after: Global, values: seq<string>, extended: seq<string>, own: seq<string>,
                     seedLen: nat, known: map<string, int>)
    requires Collecting(g, after, values, extended, own, seedLen, |own|, known)
    ensures Stands(after, extended) && values <= extended && AddedOnce(known, seedLen, after.dict.index, extended)
    ensures g.dict.index.Keys <= after.dict.index.Keys && Covers(after.dict.index, own, seedLen, |own|)
    ensures forall v :: v in after.dict.index ==> v in g.dict.index || v in Tail(own, seedLen)
    ensures |after.dict.data| <= |g.dict.data| + |Concat(own)|
  {
    assert own[..|own|] == own && own[seedLen..|own|] == Tail(own, seedLen);
  }

  /** The values up to position `i` are collected. */
  ghost predicate Collecting(g: Global, after: Global, values: seq<string>, extended: seq<string>, own: seq<string>,
                             seedLen: nat, i: nat, known: map<string, int>)
  {
    && Stands(after, extended) && values <= extended && AddedOnce(known, seedLen, after.dict.index, extended)
    && Grown(g.dict.index.Keys, after.dict.index.Keys, own, seedLen, i)
    && |after.dict.data| <= |g.dict.data| + |Concat(own[..i])|
  }

  method CollectOne(ghost g: Global, was: Global, local: Dict, ghost seedLen: nat, i: nat, ghost values: seq<string>,
                    ghost wasValues: seq<string>, ghost own: seq<string>, ghost known: map<string, int>)
    returns (after: Global, ghost extended: seq<string>)
    requires Holds(local.data, local.offsets, own) && i < |own| && |g.dict.data| + |local.data| <= I32_MAX
    requires Collecting(g, was, values, wasValues, own, seedLen, i, known)
    ensures Collecting(g, after, values, extended, own, seedLen, i + 1, known)
  {
    SizeSoFar(own, i);
    GrownMore(g.dict.index.Keys, was.dict.index.Keys, own, seedLen, i);
    var val := EntryAt(local, i, own);
    after, extended := AddIfNew(was, val, wasValues, known, seedLen);
  }

  method AddIfNew(g: Global, val: string, ghost values: seq<string>, ghost known: map<string, int>,
                  ghost seedLen: nat)
    returns (after: Global, ghost extended: seq<string>)
    requires Stands(g, values) && |g.dict.data| + |val| <= I32_MAX
    requires AddedOnce(known, seedLen, g.dict.index, values)
    ensures Stands(after, extended) && values <= extended && AddedOnce(known, seedLen, after.dict.index, extended)
    ensures after.dict.index.Keys == g.dict.index.Keys + {val}
    ensures |after.dict.data| <= |g.dict.data| + |val|
  {
    after, extended := g, values;
    if val !in g.dict.index { after, extended := AddOverflow(g, val, values, known, seedLen); }
  }

  method AddOverflow(g: Global, val: string, ghost values: seq<string>, ghost known: map<string, int>,
                     ghost seedLen: nat)
    returns (after: Global, ghost extended: seq<string>)
    requires Stands(g, values) && val !in g.dict.index && |g.dict.data| + |val| <= I32_MAX
    requires AddedOnce(known, seedLen, g.dict.index, values)
    ensures AddedOnce(known, seedLen, after.dict.index, extended)
    ensures extended == values + [val] && Stands(after, extended)
    ensures after.dict.index.Keys == g.dict.index.Keys + {val} && |after.dict.data| == |g.dict.data| + |val|
  {
    extended := values + [val];
    var data := g.dict.data + val;
    PushValue(g.dict.data, g.dict.offsets, values, val);
    after := Global(Dict(data, g.dict.offsets + [AsI32(|data|)], g.dict.index[val := g.nextCode]), g.nextCode + 1);
  }

  // ---------------------------------------------------------------- remap tables

  datatype Remap = Remap(codes: seq<int>, isIdentity: bool)

  /** The global code of local entry `i`, or `i` itself when the index does not know the value. */
  function RemapEntry(global: map<string, int>, index: map<string, int>, value: string, i: int): int {
    if value in global && value in index then global[value] else i
  }

  ghost predicate RemapOf(r: Remap, global: map<string, int>, local: Dict, own: seq<string>, seedLen: nat) {
    && |r.codes| == |own| && (forall i :: 0 <= i < |own| ==> r.codes[i] == RemapEntry(global, local.index, own[i], i))
    && (r.isIdentity <==>
          |own| <= seedLen
          && forall i :: 0 <= i < |own| && own[i] in global && own[i] in local.index ==>
               global[own[i]] == local.index[own[i]])
  }

  method BuildRemap(global: map<string, int>, local: Dict, seedLen: nat, ghost own: seq<string>) returns (r: Remap)
    requires Holds(local.data, local.offsets, own)
    ensures RemapOf(r, global, local, own, seedLen)
  {
    var codes: seq<int>, isIdentity := [], true;
    for i := 0 to |local.offsets| - 1
      invariant |codes| == i && forall k :: 0 <= k < i ==> codes[k] == RemapEntry(global, local.index, own[k], k)
      invariant isIdentity <==> forall k :: 0 <= k < i && own[k] in global && own[k] in local.index ==>
                                  global[own[k]] == local.index[own[k]]
    {
      var val := EntryAt(local, i, own);
      if val in global && val in local.index {
        if global[val] != local.index[val] { isIdentity := false; }
        codes := codes + [global[val]];
      } else {
        codes := codes + [i];
      }
    }
    if |local.offsets| - 1 > seedLen { isIdentity := false; }
    r := Remap(codes, isIdentity);
  }

  function DataSize(locals: seq<Dict>): nat {
    if locals == [] then 0 else DataSize(locals[..|locals| - 1]) + |locals[|locals| - 1].data|
  }

  lemma SizeUpTo(locals: seq<Dict>, i: nat)
    requires i < |locals|
    ensures DataSize(locals[..i + 1]) == DataSize(locals[..i]) + |locals[i].data|
    ensures DataSize(locals[..i + 1]) <= DataSize(locals)
    decreases |locals|
  {
    assert locals[..i + 1][..i] == locals[..i];
    if i + 1 < |locals| {
      var init := locals[..|locals| - 1];
      SizeUpTo(init, i);
      assert init[..i + 1] == locals[..i + 1];
    } else {
      assert locals[..i + 1] == locals;
    }
  }

  /** The values that the unified index knows: those of the seed's index, and every local value
      past the length of the seed. */
  ghost predicate Known(seed: Dict, owns: seq<seq<string>>, seedLen: nat, v: string) {
    v in seed.index || exists k, i :: 0 <= k < |owns| && seedLen <= i < |owns[k]| && owns[k][i] == v
  }

  ghost predicate AllHold(locals: seq<Dict>, owns: seq<seq<string>>) {
    |locals| == |owns| && forall k :: 0 <= k < |locals| ==> Holds(locals[k].data, locals[k].offsets, owns[k])
  }

  method CollectAll(seed: Dict, locals: seq<Dict>, ghost seedValues: seq<string>, ghost owns: seq<seq<string>>)
    returns (g: Global, ghost values: seq<string>)
    requires Holds(seed.data, seed.offsets, seedValues) && Sound(seed.index, seedValues) && AllHold(locals, owns)
    requires |seed.data| + DataSize(locals) <= I32_MAX && |seedValues| <= I32_MAX
    ensures Stands(g, values) && seedValues <= values
    ensures forall v :: v in g.dict.index <==> Known(seed, owns, |seedValues|, v)
    ensures AddedOnce(seed.index, |seedValues|, g.dict.index, values)
  {
    g, values := Global(seed, AsI32(|seed.offsets| - 1)), seedValues;
    for k := 0 to |locals|
      invariant Stands(g, values) && seedValues <= values
      invariant AddedOnce(seed.index, |seedValues|, g.dict.index, values)
      invariant |g.dict.data| <= |seed.data| + DataSize(locals[..k])
      invariant Collected(seed, owns, |seedValues|, g.dict.index, k)
    {
      SizeUpTo(locals, k);
      g, values := CollectOverflow(g, locals[k], |seed.offsets| - 1, values, owns[k], seed.index);
    }
  }

  /** After `k` chunks the index knows the seed's values, theirs, and nothing else. */
  ghost predicate Collected(seed: Dict, owns: seq<seq<string>>, seedLen: nat, index: map<string, int>, k: nat) {
    && k <= |owns| && seed.index.Keys <= index.Keys
    && (forall j :: 0 <= j < k ==> Covers(index, owns[j], seedLen, |owns[j]|))
    && (forall v :: v in index ==> Known(seed, owns, seedLen, v))
  }

  /** `unify_dictionaries`: one table for all chunks, and for each chunk where its codes went. */
  method UnifyDictionaries(seed: Dict, locals: seq<Dict>, ghost seedValues: seq<string>, ghost owns: seq<seq<string>>)
    returns (global: Dict, remaps: seq<Remap>, ghost values: seq<string>)
    requires Holds(seed.data, seed.offsets, seedValues) && Sound(seed.index, seedValues) && AllHold(locals, owns)
    requires |seed.data| + DataSize(locals) <= I32_MAX && |seedValues| <= I32_MAX
    ensures Holds(global.data, global.offsets, values) && Sound(global.index, values) && seedValues <= values
    ensures forall v :: v in global.index <==> Known(seed, owns, |seedValues|, v)
    ensures AddedOnce(seed.index, |seedValues|, global.index, values)
    ensures |remaps| == |locals|
    ensures forall k :: 0 <= k < |locals| ==> RemapOf(remaps[k], global.index, locals[k], owns[k], |seedValues|)
  {
    var g;
    g, values := CollectAll(seed, locals, seedValues, owns);
    remaps := [];
    for k := 0 to |locals|
      invariant |remaps| == k
      invariant forall j :: 0 <= j < k ==> RemapOf(remaps[j], g.dict.index, locals[j], owns[j], |seedValues|)
    {
      var r := BuildRemap(g.dict.index, locals[k], |seed.offsets| - 1, owns[k]);
      remaps := remaps + [r];
    }
    global := g.dict;
  }

  /** Where a remap sends one code: codes outside the table stay. */
  function NewCode(r: Remap, code: Option<int>): Option<int> {
    if code.Some? && 0 <= code.value < |r.codes| then Some(r.codes[code.value]) else code
  }

  /** What a remap does to the codes of a column. */
  ghost predicate Remapped(codes: seq<Option<int>>, after: seq<Option<int>>, r: Remap) {
    && |after| == |codes| && (r.isIdentity ==> after == codes)
    && (!r.isIdentity ==> forall i :: 0 <= i < |codes| ==> after[i] == NewCode(r, codes[i]))
  }

  /** `apply_remap`: codes outside the table stay as they are. */
  method ApplyRemap(codes: seq<Option<int>>, r: Remap) returns (after: seq<Option<int>>)
    ensures Remapped(codes, after, r)
    ensures forall i :: 0 <= i < |codes| ==>
              after[i] == if !r.isIdentity && codes[i].Some? && 0 <= codes[i].value < |r.codes|
                          then Some(r.codes[codes[i].value]) else codes[i]
  {
    if r.isIdentity { return codes; }
    after := codes;
    for i := 0 to |codes|
      invariant |after| == |codes|
      invariant forall k :: 0 <= k < i ==> after[k] == NewCode(r, codes[k])
      invariant forall k :: i <= k < |codes| ==> after[k] == codes[k]
    {
      if codes[i].Some? && 0 <= codes[i].value < |r.codes| {
        after := after[i := Some(r.codes[codes[i].value])];
      }
    }
  }

  // ---------------------------------------------------------------- when decoding survives

  /** Local entry `i` decodes, through its new code, to what it was. */
  ghost predicate EntryKept(r: Remap, values: seq<string>, own: seq<string>, i: nat)
    requires i < |own| && i < |r.codes|
  {
    0 <= r.codes[i] < |values| && values[r.codes[i]] == own[i]
  }

  /** A local entry below the length of the seed is known, or is the seed's own entry there. */
  ghost predicate EntryCovered(seed: Dict, seedValues: seq<string>, owns: seq<seq<string>>, own: seq<string>, i: nat)
    requires i < |own|
  {
    i < |seedValues| ==> Known(seed, owns, |seedValues|, own[i]) || seedValues[i] == own[i]
  }

  /** Entry by entry, the remap is right exactly when the entry is covered. */
  lemma EntryExact(seed: Dict, seedValues: seq<string>, owns: seq<seq<string>>, k: nat, local: Dict, global: Dict,
                   values: seq<string>, r: Remap, i: nat)
    requires k < |owns| && i < |owns[k]| && Inverts(local.index, owns[k])
    requires seedValues <= values && Sound(global.index, values)
    requires forall v :: v in global.index <==> Known(seed, owns, |seedValues|, v)
    requires RemapOf(r, global.index, local, owns[k], |seedValues|)
    ensures EntryKept(r, values, owns[k], i) <==> EntryCovered(seed, seedValues, owns, owns[k], i)
  {
    var own := owns[k];
    assert own[i] in local.index;
    if i < |seedValues| {
      assert values[i] == seedValues[i];
    } else {
      assert Known(seed, owns, |seedValues|, own[i]);
    }
  }

  /** A whole chunk: every code decodes to what it was exactly when all its entries are covered. */
  lemma ChunkExact(seed: Dict, seedValues: seq<string>, owns: seq<seq<string>>, k: nat, local: Dict, global: Dict,
                   values: seq<string>, r: Remap)
    requires k < |owns| && Inverts(local.index, owns[k])
    requires seedValues <= values && Sound(global.index, values)
    requires forall v :: v in global.index <==> Known(seed, owns, |seedValues|, v)
    requires RemapOf(r, global.index, local, owns[k], |seedValues|)
    ensures (forall i :: 0 <= i < |owns[k]| ==> EntryKept(r, values, owns[k], i))
            <==> forall i :: 0 <= i < |owns[k]| ==> EntryCovered(seed, seedValues, owns, owns[k], i)
  {
    forall i | 0 <= i < |owns[k]|
      ensures EntryKept(r, values, owns[k], i) <==> EntryCovered(seed, seedValues, owns, owns[k], i)
    {
      EntryExact(seed, seedValues, owns, k, local, global, values, r, i);
    }
  }

  /** A chunk whose dictionary starts with the seed, or an index that knows every seed value and a
      chunk that draws on them, is covered. */
  lemma SeededCovers(seed: Dict, seedValues: seq<string>, owns: seq<seq<string>>, own: seq<string>)
    requires seedValues <= own
             || (Inverts(seed.index, seedValues)
                 && forall i :: 0 <= i < |own| && i < |seedValues| ==> own[i] in seedValues)
    ensures forall i :: 0 <= i < |own| ==> EntryCovered(seed, seedValues, owns, own, i)
  {
    forall i | 0 <= i < |own| ensures EntryCovered(seed, seedValues, owns, own, i) {
      if i < |seedValues| && !(seedValues <= own) {
        var j :| 0 <= j < |seedValues| && seedValues[j] == own[i];
        assert seedValues[j] in seed.index;
      }
    }
  }

  /** A remap marked as the identity moves no code, so skipping it changes nothing. */
  lemma IdentityMovesNothing(r: Remap, global: map<string, int>, local: Dict, own: seq<string>, seedLen: nat)
    requires RemapOf(r, global, local, own, seedLen) && Inverts(local.index, own) && r.isIdentity
    ensures forall i :: 0 <= i < |own| ==> r.codes[i] == i
  {
    forall i | 0 <= i < |own| ensures r.codes[i] == i {
      assert own[i] in local.index && local.index[own[i]] == i;
    }
  }

  /** A column remapped by a table that keeps every entry decodes to the same cells. */
  lemma RemappedDecodes(codes: seq<Option<int>>, after: seq<Option<int>>, r: Remap, global: map<string, int>,
                        local: Dict, own: seq<string>, values: seq<string>, seedLen: nat, cells: seq<Option<string>>)
    requires Decodes(codes, own, cells) && RemapOf(r, global, local, own, seedLen) && Inverts(local.index, own)
    requires forall i :: 0 <= i < |own| ==> EntryKept(r, values, own, i)
    requires Remapped(codes, after, r)
    ensures Decodes(after, values, cells)
  {
    if r.isIdentity { IdentityMovesNothing(r, global, local, own, seedLen); }
    forall i | 0 <= i < |codes| && codes[i].Some?
      ensures after[i].Some? && 0 <= after[i].value < |values| && cells[i] == Some(values[after[i].value])
    {
      assert EntryKept(r, values, own, codes[i].value);
    }
  }

  /** Every code that the column uses stands for an entry that is covered. */
  ghost predicate UsedCovered(seed: Dict, seedValues: seq<string>, owns: seq<seq<string>>, own: seq<string>,
                              codes: seq<Option<int>>)
  {
    forall i :: 0 <= i < |codes| && codes[i].Some? && 0 <= codes[i].value < |own| ==>
      EntryCovered(seed, seedValues, owns, own, codes[i].value)
  }

  /** After remapping, a column decodes to its cells exactly when every entry it uses is covered. */
  lemma ColumnExact(seed: Dict, seedValues: seq<string>, owns: seq<seq<string>>, k: nat, local: Dict, global: Dict,
                    values: seq<string>, r: Remap, codes: seq<Option<int>>, after: seq<Option<int>>,
                    cells: seq<Option<string>>)
    requires k < |owns| && Inverts(local.index, owns[k]) && Decodes(codes, owns[k], cells)
    requires seedValues <= values && Sound(global.index, values)
    requires forall v :: v in global.index <==> Known(seed, owns, |seedValues|, v)
    requires RemapOf(r, global.index, local, owns[k], |seedValues|) && Remapped(codes, after, r)
    ensures Decodes(after, values, cells) <==> UsedCovered(seed, seedValues, owns, owns[k], codes)
  {
    var own := owns[k];
    if r.isIdentity { IdentityMovesNothing(r, global.index, local, own, |seedValues|); }
    forall i | 0 <= i < |codes| && codes[i].Some?
      ensures after[i] == Some(r.codes[codes[i].value])
      ensures EntryKept(r, values, own, codes[i].value) <==> EntryCovered(seed, seedValues, owns, own, codes[i].value)
    {
      EntryExact(seed, seedValues, owns, k, local, global, values, r, codes[i].value);
    }
  }

  /** The global table reads as the cells of a column. */
  lemma MovedReads(global: Dict, values: seq<string>, after: seq<Option<int>>, cells: seq<Option<string>>)
    requires Holds(global.data, global.offsets, values)
    ensures Decodes(after, values, cells) ==> ReadsAs(DictColumn(after, global), cells)
  {
    if Decodes(after, values, cells) { DecodeIsCells(DictColumn(after, global), values, cells); }
  }

  /** The remap of every chunk applied to its column. */
  method MoveColumns(columns: seq<seq<Option<int>>>, remaps: seq<Remap>) returns (moved: seq<seq<Option<int>>>)
    requires |remaps| == |columns|
    ensures |moved| == |columns| && forall k :: 0 <= k < |columns| ==> Remapped(columns[k], moved[k], remaps[k])
  {
    moved := [];
    for k := 0 to |columns|
      invariant |moved| == k && forall j :: 0 <= j < k ==> Remapped(columns[j], moved[j], remaps[j])
    {
      var after := ApplyRemap(columns[k], remaps[k]);
      moved := moved + [after];
    }
  }

  /** The chunks as they come to be unified: the values of each dictionary, the index that inverts
      it, and the cells that each column encodes with it. */
  ghost predicate ChunksStand(locals: seq<Dict>, columns: seq<seq<Option<int>>>, owns: seq<seq<string>>,
                              cells: seq<seq<Option<string>>>)
  {
    && AllHold(locals, owns) && |columns| == |cells| == |locals|
    && forall k :: 0 <= k < |locals| ==> Inverts(locals[k].index, owns[k]) && Decodes(columns[k], owns[k], cells[k])
  }

  /** The whole of it: the dictionaries unified, and the column of every chunk moved to the global
      one. A chunk still decodes to its cells exactly when every entry it uses is covered. */
  method UnifyColumns(seed: Dict, locals: seq<Dict>, columns: seq<seq<Option<int>>>, ghost seedValues: seq<string>,
                      ghost owns: seq<seq<string>>, ghost cells: seq<seq<Option<string>>>)
    returns (global: Dict, moved: seq<seq<Option<int>>>, ghost values: seq<string>)
    requires Holds(seed.data, seed.offsets, seedValues) && Sound(seed.index, seedValues)
    requires ChunksStand(locals, columns, owns, cells)
    requires |seed.data| + DataSize(locals) <= I32_MAX && |seedValues| <= I32_MAX
    ensures Holds(global.data, global.offsets, values) && seedValues <= values && |moved| == |columns|
    ensures forall k :: 0 <= k < |columns| ==>
              (Decodes(moved[k], values, cells[k]) <==> UsedCovered(seed, seedValues, owns, owns[k], columns[k]))
    ensures forall k :: 0 <= k < |columns| && UsedCovered(seed, seedValues, owns, owns[k], columns[k]) ==>
              ReadsAs(DictColumn(moved[k], global), cells[k])
  {
    var remaps;
    global, remaps, values := UnifyDictionaries(seed, locals, seedValues, owns);
    moved := MoveColumns(columns, remaps);
    forall k | 0 <= k < |columns|
      ensures Decodes(moved[k], values, cells[k]) <==> UsedCovered(seed, seedValues, owns, owns[k], columns[k])
      ensures Decodes(moved[k], values, cells[k]) ==> ReadsAs(DictColumn(moved[k], global), cells[k])
    {
      ColumnExact(seed, seedValues, owns, k, locals[k], global, values, remaps[k], columns[k], moved[k], cells[k]);
      MovedReads(global, values, moved[k], cells[k]);
    }
  }

  /** With a seed whose index is empty, a chunk that does not start with the seed is decoded wrong. */
  lemma UnseededChunkLost(seed: Dict, global: Dict, values: seq<string>, local: Dict, r: Remap)
    requires seed.index == map[] && Inverts(local.index, ["b"])
    requires ["a"] <= values && Sound(global.index, values)
    requires forall v :: v in global.index <==> Known(seed, [["a"], ["b"]], 1, v)
    requires RemapOf(r, global.index, local, ["b"], 1)
    ensures !EntryKept(r, values, ["b"], 0) && values[r.codes[0]] == "a"
  {
    var owns := [["a"], ["b"]];
    EntryExact(seed, ["a"], owns, 1, local, global, values, r, 0);
    assert forall k :: 0 <= k < |owns| ==> |owns[k]| == 1;
    assert !Known(seed, owns, 1, "b");
    assert "b" !in global.index;
  }
}
