/** One validity bit a row, packed into bytes. */
module Bitmap {
  import opened Wrappers

  type Octet = s: seq<bool> | |s| == 8 witness seq(8, _ => false)

  function ZeroOctet(): Octet { seq(8, _ => false) }

  function BytesFor(n: nat): nat { (n + 7) / 8 }

  /** Bit `i` is bit `i % 8` of byte `i / 8`. */
  predicate BitAt(bits: seq<Octet>, i: nat) { i / 8 < |bits| && bits[i / 8][i % 8] }

  /** The bytes for these bits; the bits that are not used are zero. */
  function Pack(c: seq<bool>): seq<Octet> {
    seq(BytesFor(|c|), (k: nat) => seq(8, (b: nat) => 8 * k + b < |c| && c[8 * k + b]))
  }

  function Nulls(c: seq<bool>): nat {
    if c == [] then 0 else Nulls(c[..|c| - 1]) + (if c[|c| - 1] then 0 else 1)
  }

  lemma PackAt(c: seq<bool>)
    ensures |Pack(c)| == BytesFor(|c|)
    ensures forall i: nat :: BitAt(Pack(c), i) <==> i < |c| && c[i]
  {
  }

  lemma PackIs(bits: seq<Octet>, c: seq<bool>)
    requires |bits| == BytesFor(|c|)
    requires forall i: nat :: i < 8 * |bits| ==> (BitAt(bits, i) <==> i < |c| && c[i])
    ensures bits == Pack(c)
  {
    var packed := Pack(c);
    forall k | 0 <= k < |bits| ensures bits[k] == packed[k] {
      forall b | 0 <= b < 8 ensures bits[k][b] == packed[k][b] {
        var i: nat := 8 * k + b;
        assert i / 8 == k && i % 8 == b && BitAt(bits, i) == bits[k][b];
      }
    }
  }

  lemma {:induction false} NullsConcat(a: seq<bool>, b: seq<bool>)
    ensures Nulls(a + b) == Nulls(a) + Nulls(b)
  {
    if b == [] {
      assert a + b == a;
    } else {
      assert (a + b)[..|a + b| - 1] == a + b[..|b| - 1];
      NullsConcat(a, b[..|b| - 1]);
    }
  }

  function WithBit(bits: seq<Octet>, i: nat, v: bool): seq<Octet>
    requires i / 8 < |bits|
  {
    bits[i / 8 := bits[i / 8][i % 8 := v]]
  }

  /** One more bit: a new byte if the last is full, then the bit set. */
  method PushBit(bits: seq<Octet>, valid: bool, ghost c: seq<bool>, len: nat) returns (after: seq<Octet>)
    requires bits == Pack(c) && len == |c|
    ensures after == Pack(c + [valid])
  {
    PackAt(c);
    after := bits;
    if len % 8 == 0 { after := after + [ZeroOctet()]; }
    assert forall i: nat :: BitAt(after, i) <==> i < |c| && c[i];
    if valid { after := WithBit(after, len, true); }
    PackIs(after, c + [valid]);
  }

  /** Take the last bit off, clearing it, and its byte if that was its only bit. */
  method PopBit(bits: seq<Octet>, ghost c: seq<bool>, len: nat) returns (after: seq<Octet>, valid: bool)
    requires bits == Pack(c) && len == |c| > 0
    ensures valid == c[|c| - 1] && after == Pack(c[..|c| - 1])
  {
    PackAt(c);
    var last := len - 1;
    valid := bits[last / 8][last % 8];
    assert valid == BitAt(bits, last);
    after := WithBit(bits, last, false);
    if last % 8 == 0 { after := DropLast(after); }
    PackIs(after, c[..last]);
  }

  function DropLast(bits: seq<Octet>): (r: seq<Octet>)
    requires bits != []
    ensures forall i: nat :: i < 8 * |r| ==> BitAt(r, i) == BitAt(bits, i)
  {
    bits[..|bits| - 1]
  }

  /** `x & ((1 << n) - 1)`. */
  function Masked(x: Octet, n: nat): Octet { seq(8, b requires 0 <= b < 8 => x[b] && b < n) }

  /** On a byte boundary: the bytes of the other bitmap, the last one masked. */
  method AppendBytes(bits: seq<Octet>, other: seq<Octet>, total: nat, ghost c: seq<bool>, ghost d: seq<bool>)
    returns (after: seq<Octet>)
    requires bits == Pack(c) && other == Pack(d) && |c| % 8 == 0 && total == |c| + |d|
    ensures after == Pack(c + d)
  {
    JoinedBytes(bits, other, c, d);
    after := bits + other;
    if total % 8 != 0 && after != [] {
      MaskKeeps(after, c + d);
      after := after[|after| - 1 := Masked(after[|after| - 1], total % 8)];
    }
  }

  lemma JoinedBytes(bits: seq<Octet>, other: seq<Octet>, c: seq<bool>, d: seq<bool>)
    requires bits == Pack(c) && other == Pack(d) && |c| % 8 == 0
    ensures bits + other == Pack(c + d)
  {
    PackAt(c);
    PackAt(d);
    PastBytes(|c|, |c|);
    forall i: nat ensures BitAt(bits + other, i) <==> i < |c + d| && (c + d)[i] { JoinedBit(bits, other, c, d, i); }
    PackIs(bits + other, c + d);
  }

  lemma PastBytes(i: nat, n: nat)
    requires n % 8 == 0 && i >= n
    ensures i / 8 == n / 8 + (i - n) / 8 && i % 8 == (i - n) % 8 && BytesFor(n) == n / 8
  {
  }

  lemma JoinedBit(bits: seq<Octet>, other: seq<Octet>, c: seq<bool>, d: seq<bool>, i: nat)
    requires 8 * |bits| == |c| && (BitAt(bits, i) <==> i < |c| && c[i])
    requires i >= |c| ==> (BitAt(other, i - |c|) <==> i - |c| < |d| && d[i - |c|])
    ensures BitAt(bits + other, i) <==> i < |c + d| && (c + d)[i]
  {
    BitInJoin(bits, other, i);
  }

  /** Whole bytes in front shift the bits of what follows. */
  lemma BitInJoin(bits: seq<Octet>, other: seq<Octet>, i: nat)
    ensures var j := i - 8 * |bits|;
            BitAt(bits + other, i) == if j < 0 then BitAt(bits, i) else BitAt(other, j)
  {
    if i >= 8 * |bits| { PastBytes(i, 8 * |bits|); }
  }

  /** The mask leaves the first `n` bits of an octet and no other. */
  lemma MaskedBits(x: Octet, n: nat, b: nat)
    requires b < 8
    ensures Masked(x, n)[b] <==> b < n && x[b]
  {
  }

  /** The unused bits are zero already, so the mask takes nothing away. */
  lemma MaskKeeps(bits: seq<Octet>, c: seq<bool>)
    requires bits == Pack(c) && |c| % 8 != 0
    ensures bits != [] && Masked(bits[|bits| - 1], |c| % 8) == bits[|bits| - 1]
  {
    PackAt(c);
    var k := |bits| - 1;
    forall b | 0 <= b < 8 ensures Masked(bits[k], |c| % 8)[b] == bits[k][b] {
      var i: nat := 8 * k + b;
      assert i / 8 == k && i % 8 == b && BitAt(bits, i) == bits[k][b];
    }
  }

  class ValidityBitmap {
    var bits: seq<Octet>
    var len: nat
    var nullCount: nat
    ghost var contents: seq<bool>

    ghost predicate Valid()
      reads this
    {
      bits == Pack(contents) && len == |contents| && nullCount == Nulls(contents)
    }

    constructor ()
      ensures Valid() && contents == []
    {
      bits, len, nullCount, contents := [], 0, 0, [];
    }

    method Push(valid: bool)
      requires Valid()
      modifies this
      ensures Valid() && contents == old(contents) + [valid]
    {
      NullsConcat(contents, [valid]);
      bits := PushBit(bits, valid, contents, len);
      contents := contents + [valid];
      len, nullCount := len + 1, if valid then nullCount else nullCount + 1;
    }

    method Pop() returns (valid: Option<bool>)
      requires Valid()
      modifies this
      ensures Valid()
      ensures old(contents) == [] ==> valid == None && contents == []
      ensures old(contents) != [] ==> valid.Some? && old(contents) == contents + [valid.value]
    {
      if len == 0 { return None; }
      var v;
      bits, v := PopBit(bits, contents, len);
      len, nullCount := len - 1, if v then nullCount else nullCount - 1;
      contents := contents[..|contents| - 1];
      valid := Some(v);
    }

    method IsValid(i: nat) returns (valid: bool)
      requires Valid()
      ensures valid == (i < |contents| && contents[i])
    {
      PackAt(contents);
      valid := i < len && BitAt(bits, i);
    }

    /** Byte by byte on a byte boundary, bit by bit otherwise: the same bits either way. */
    method Append(other: ValidityBitmap)
      requires Valid() && other.Valid() && other != this
      modifies this
      ensures Valid() && contents == old(contents) + other.contents
    {
      if len % 8 == 0 {
        NullsConcat(contents, other.contents);
        bits := AppendBytes(bits, other.bits, len + other.len, contents, other.contents);
        contents := contents + other.contents;
        len, nullCount := len + other.len, nullCount + other.nullCount;
        return;
      }
      for i := 0 to other.len
        invariant Valid() && other.Valid() && contents == old(contents) + other.contents[..i]
      {
        var valid := other.IsValid(i);
        Push(valid);
        assert other.contents[..i + 1] == other.contents[..i] + [valid];
      }
      assert other.contents[..|other.contents|] == other.contents;
    }

    /** Move the first `n` bits to a bitmap of their own. */
    method SplitOff(n: nat) returns (other: ValidityBitmap)
      requires Valid() && n <= len
      modifies this
      ensures fresh(other) && other.Valid() && Valid()
      ensures other.contents == old(contents[..n]) && contents == old(contents[n..])
      ensures other.contents + contents == old(contents)
    {
      other := new ValidityBitmap();
      for i := 0 to n
        invariant fresh(other) && other.Valid() && Valid() && contents == old(contents) && len == old(len)
        invariant other.contents == contents[..i]
      {
        var valid := IsValid(i);
        other.Push(valid);
      }
      var remaining := BitsFrom(n);
      Refill(remaining);
    }

    method BitsFrom(n: nat) returns (remaining: seq<bool>)
      requires Valid() && n <= len
      ensures remaining == contents[n..]
    {
      remaining := [];
      for i := n to len
        invariant remaining == contents[n..i]
      {
        var valid := IsValid(i);
        remaining := remaining + [valid];
      }
    }

    method Refill(remaining: seq<bool>)
      modifies this
      ensures Valid() && contents == remaining
    {
      bits, len, nullCount, contents := [], 0, 0, [];
      for i := 0 to |remaining|
        invariant Valid() && contents == remaining[..i]
      {
        Push(remaining[i]);
      }
    }
  }
}
