/** The flat string column: one buffer, offsets, and a validity bitmap. */
module StrColumns {
  import opened Wrappers
  import opened Arena
  import opened Bitmap

  /** A null takes no bytes. */
  function Texts(cells: seq<Option<string>>): (r: seq<string>)
    ensures |r| == |cells|
  {
    if cells == [] then []
    else Texts(cells[..|cells| - 1]) + [if cells[|cells| - 1].Some? then cells[|cells| - 1].value else ""]
  }

  function Validity(cells: seq<Option<string>>): (r: seq<bool>)
    ensures |r| == |cells|
  {
    if cells == [] then [] else Validity(cells[..|cells| - 1]) + [cells[|cells| - 1].Some?]
  }

  /** The buffer, offsets and bits of these cells. */
  ghost predicate StandsFor(data: string, offsets: seq<int>, valid: seq<bool>, cells: seq<Option<string>>) {
    Holds(data, offsets, Texts(cells)) && valid == Validity(cells)
  }

  lemma {:induction false} CellAt(cells: seq<Option<string>>, i: nat)
    requires i < |cells|
    ensures Validity(cells)[i] == cells[i].Some?
    ensures Texts(cells)[i] == if cells[i].Some? then cells[i].value else ""
  {
    if i < |cells| - 1 { CellAt(cells[..|cells| - 1], i); }
  }

  lemma {:induction false} CellsConcat(a: seq<Option<string>>, b: seq<Option<string>>)
    ensures Texts(a + b) == Texts(a) + Texts(b) && Validity(a + b) == Validity(a) + Validity(b)
  {
    if b == [] {
      assert a + b == a;
    } else {
      assert (a + b)[..|a + b| - 1] == a + b[..|b| - 1];
      CellsConcat(a, b[..|b| - 1]);
    }
  }

  // ---------------------------------------------------------------- joining and splitting arenas

  function Shifted(offsets: seq<int>, delta: int): (r: seq<int>)
    ensures |r| == |offsets| && forall i :: 0 <= i < |offsets| ==> r[i] == offsets[i] + delta
  {
    if offsets == [] then [] else Shifted(offsets[..|offsets| - 1], delta) + [offsets[|offsets| - 1] + delta]
  }

  lemma {:induction false} ConcatConcat(a: seq<string>, b: seq<string>)
    ensures Concat(a + b) == Concat(a) + Concat(b)
  {
    if b == [] {
      assert a + b == a;
    } else {
      var init, last := b[..|b| - 1], b[|b| - 1];
      assert (a + b)[..|a + b| - 1] == a + init;
      ConcatConcat(a, init);
      assert Concat(a) + Concat(init) + last == Concat(a) + (Concat(init) + last);
    }
  }

  lemma OffsetInJoin(a: seq<string>, b: seq<string>, i: nat)
    requires i <= |a| + |b|
    ensures Offsets(a + b)[i] == if i <= |a| then Offsets(a)[i] else Offsets(b)[i - |a|] + |Concat(a)|
  {
    if i <= |a| {
      assert (a + b)[..i] == a[..i];
    } else {
      ConcatConcat(a, b[..i - |a|]);
      assert (a + b)[..i] == a + b[..i - |a|];
    }
  }

  lemma OffsetsConcat(a: seq<string>, b: seq<string>)
    ensures Offsets(a + b) == Offsets(a) + Shifted(Offsets(b)[1..], |Concat(a)|)
  {
    var x, y, delta, all := Offsets(a), Offsets(b), |Concat(a)|, Offsets(a + b);
    assert |x| == |a| + 1 && |y| == |b| + 1 && |all| == |a| + |b| + 1;
    var joined := x + Shifted(y[1..], delta);
    forall i | 0 <= i < |all| ensures all[i] == joined[i] {
      OffsetInJoin(a, b, i);
    }
  }

  lemma JoinArenas(data: string, offsets: seq<int>, a: seq<string>, more: string, moreOffsets: seq<int>, b: seq<string>)
    requires Holds(data, offsets, a) && Holds(more, moreOffsets, b) && |data| + |more| <= I32_MAX
    ensures Holds(data + more, offsets + Shifted(moreOffsets[1..], |data|), a + b)
  {
    ConcatConcat(a, b);
    OffsetsConcat(a, b);
  }

  lemma FirstArena(data: string, offsets: seq<int>, values: seq<string>, n: nat)
    requires Holds(data, offsets, values) && n <= |values|
    ensures 0 <= offsets[n] <= |data| && Holds(data[..offsets[n]], offsets[..n + 1], values[..n])
  {
    ConcatPrefix(values, n);
    forall i | 0 <= i <= n ensures offsets[..n + 1][i] == Offsets(values[..n])[i] {
      assert values[..i] == values[..n][..i];
    }
  }

  lemma RestArena(data: string, offsets: seq<int>, a: seq<string>, b: seq<string>)
    requires Holds(data, offsets, a + b)
    ensures 0 <= offsets[|a|] <= |data|
    ensures Holds(data[offsets[|a|]..], [0] + Shifted(offsets[|a| + 1..], -offsets[|a|]), b)
  {
    ConcatConcat(a, b);
    OffsetsConcat(a, b);
    OffsetInJoin(a, b, |a|);
    assert a[..|a|] == a;
    var rest := [0] + Shifted(offsets[|a| + 1..], -offsets[|a|]);
    assert offsets[|a| + 1..] == Shifted(Offsets(b)[1..], |Concat(a)|);
  }

  /** Split after `n` values: the offsets of the rest are rebased. */
  lemma SplitArena(data: string, offsets: seq<int>, values: seq<string>, n: nat)
    requires Holds(data, offsets, values) && n <= |values|
    ensures 0 <= offsets[n] <= |data|
    ensures Holds(data[..offsets[n]], offsets[..n + 1], values[..n])
    ensures Holds(data[offsets[n]..], [0] + Shifted(offsets[n + 1..], -offsets[n]), values[n..])
  {
    FirstArena(data, offsets, values, n);
    assert values == values[..n] + values[n..];
    RestArena(data, offsets, values[..n], values[n..]);
  }

  class StrColumn {
    var data: string
    var offsets: seq<int>
    const validity: ValidityBitmap
    ghost var cells: seq<Option<string>>

    ghost predicate Valid()
      reads this, validity
    {
      validity.Valid() && StandsFor(data, offsets, validity.contents, cells)
    }

    constructor ()
      ensures Valid() && cells == [] && fresh(validity)
    {
      data, offsets, cells := "", [0], [];
      validity := new ValidityBitmap();
    }

    /** The offset is stored as 32 bits: it stays an offset exactly while the buffer fits. */
    method Push(v: Option<string>)
      requires Valid()
      modifies this, validity
      ensures cells == old(cells) + [v]
      ensures |data| <= I32_MAX ==> Valid()
      ensures |data| == |old(data)| + (if v.Some? then |v.value| else 0)
      ensures I32_MAX < |data| < 0x1_0000_0000 && |data| > |old(data)| ==> offsets != [] && offsets[|offsets| - 1] < 0
    {
      var text := if v.Some? then v.value else "";
      PushValue(data, offsets, Texts(cells), text);
      CellsConcat(cells, [v]);
      assert Texts([v]) == [text] && Validity([v]) == [v.Some?];
      data := data + text;
      offsets := offsets + [AsI32(|data|)];
      validity.Push(v.Some?);
      cells := cells + [v];
    }

    /** Undo a push. */
    method Pop()
      requires Valid()
      modifies this, validity
      ensures Valid() && cells == if old(cells) == [] then [] else old(cells)[..|old(cells)| - 1]
    {
      var popped := validity.Pop();
      if popped.Some? {
        var n := |offsets| - 2;
        SplitArena(data, offsets, Texts(cells), n);
        offsets := offsets[..n + 1];
        data := data[..offsets[|offsets| - 1]];
        cells := cells[..|cells| - 1];
      }
    }

    /** The text of a row, `None` for a null or past the end. */
    method Get(i: nat) returns (r: Option<string>)
      requires Valid()
      ensures r == if i < |cells| then cells[i] else None
    {
      var valid := validity.IsValid(i);
      if !valid {
        if i < |cells| { CellAt(cells, i); }
        return None;
      }
      CellAt(cells, i);
      SliceAt(data, offsets, Texts(cells), i);
      return Some(data[offsets[i]..offsets[i + 1]]);
    }

    /** Move all values of `other` behind these. */
    method Append(other: StrColumn)
      requires Valid() && other.Valid() && other != this && other.validity != validity
      requires |data| + |other.data| <= I32_MAX
      modifies this, validity
      ensures Valid() && cells == old(cells) + other.cells
    {
      JoinStands(data, offsets, validity.contents, cells, other.data, other.offsets, other.validity.contents,
                 other.cells);
      ghost var all, bits := cells + other.cells, other.validity.contents;
      var moved, more := Shifted(other.offsets[1..], AsI32(|data|)), other.data;
      validity.Append(other.validity);
      data, offsets, cells := data + more, offsets + moved, all;
    }

    /** Move the first `n` values to a column of their own. For `n == 0` the column given back has
        no offsets at all, and cannot take values. */
    method SplitOff(n: nat) returns (other: StrColumn)
      requires Valid() && n <= |cells|
      modifies this, validity
      ensures fresh(other) && fresh(other.validity) && Valid()
      ensures n > 0 ==> other.Valid() && other.cells == old(cells)[..n] && cells == old(cells)[n..]
      ensures n == 0 ==> other.data == "" && other.offsets == [] && cells == old(cells)
    {
      if n == 0 {
        other := new StrColumn.Default();
        return;
      }
      var head, headOffsets, bits := DropFirst(n);
      other := new StrColumn.With(head, headOffsets, bits, old(cells)[..n]);
    }

    method DropFirst(n: nat) returns (head: string, headOffsets: seq<int>, bits: ValidityBitmap)
      requires Valid() && n <= |cells|
      modifies this, validity
      ensures fresh(bits) && bits.Valid() && StandsFor(head, headOffsets, bits.contents, old(cells)[..n])
      ensures Valid() && cells == old(cells)[n..]
    {
      SplitStands(data, offsets, validity.contents, cells, n);
      var cut := offsets[n];
      head, headOffsets := data[..cut], offsets[..n + 1];
      var tail, tailOffsets := data[cut..], [0] + Shifted(offsets[n + 1..], -cut);
      ghost var rest := cells[n..];
      bits := validity.SplitOff(n);
      data, offsets, cells := tail, tailOffsets, rest;
    }

    constructor Default()
      ensures fresh(validity) && data == "" && offsets == []
    {
      data, offsets, cells := "", [], [];
      validity := new ValidityBitmap();
    }

    constructor With(data: string, offsets: seq<int>, validity: ValidityBitmap, ghost cells: seq<Option<string>>)
      requires validity.Valid() && StandsFor(data, offsets, validity.contents, cells)
      ensures this.validity == validity && Valid() && this.cells == cells
    {
      this.data, this.offsets, this.validity, this.cells := data, offsets, validity, cells;
    }
  }

  lemma JoinStands(data: string, offsets: seq<int>, valid: seq<bool>, cells: seq<Option<string>>,
                   more: string, moreOffsets: seq<int>, moreValid: seq<bool>, moreCells: seq<Option<string>>)
    requires StandsFor(data, offsets, valid, cells) && StandsFor(more, moreOffsets, moreValid, moreCells)
    requires |data| + |more| <= I32_MAX
    ensures moreOffsets != [] && AsI32(|data|) == |data|
    ensures StandsFor(data + more, offsets + Shifted(moreOffsets[1..], |data|), valid + moreValid, cells + moreCells)
  {
    CellsConcat(cells, moreCells);
    JoinArenas(data, offsets, Texts(cells), more, moreOffsets, Texts(moreCells));
    FitsI32(|data|);
  }

  lemma FitsI32(n: nat)
    requires n <= I32_MAX
    ensures AsI32(n) == n
  {
  }

  lemma SplitStands(data: string, offsets: seq<int>, valid: seq<bool>, cells: seq<Option<string>>, n: nat)
    requires StandsFor(data, offsets, valid, cells) && n <= |cells|
    ensures n < |offsets| && 0 <= offsets[n] <= |data| && n <= |valid|
    ensures StandsFor(data[..offsets[n]], offsets[..n + 1], valid[..n], cells[..n])
    ensures StandsFor(data[offsets[n]..], [0] + Shifted(offsets[n + 1..], -offsets[n]), valid[n..], cells[n..])
  {
    var a, b := cells[..n], cells[n..];
    assert cells == a + b;
    CellsConcat(a, b);
    assert Texts(cells)[..n] == Texts(a) && Texts(cells)[n..] == Texts(b);
    assert Validity(cells)[..n] == Validity(a) && Validity(cells)[n..] == Validity(b);
    SplitArena(data, offsets, Texts(cells), n);
  }

}
