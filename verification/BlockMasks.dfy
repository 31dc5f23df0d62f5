/** The 64-byte block scanner: cached delimiter masks, and a forward cursor that skips
    quoted regions. */
module BlockMasks {
  import opened Wrappers
  import opened Bits
  import opened QuoteScan

  const USIZE_MAX: nat := 0xFFFF_FFFF_FFFF_FFFF
  const MAX_DELIMS: nat := 8

  /** The exact mask of byte `d` in the 64-byte block at `base`; bytes past the end are unset. */
  ghost function BlockMask(buf: seq<Byte>, base: nat, d: Byte): Word {
    seq(64, i requires 0 <= i < 64 => base + i < |buf| && buf[base + i] == d)
  }

  /** The scalar `mask64` over 64 readable bytes. */
  method Mask64(p: seq<Byte>, needle: Byte) returns (mask: Word)
    requires |p| == 64
    ensures forall i :: 0 <= i < 64 ==> mask[i] == (p[i] == needle)
  {
    mask := Zero();
    for i := 0 to 64
      invariant forall j :: 0 <= j < 64 ==> mask[j] == (j < i && p[j] == needle)
    {
      if p[i] == needle { mask := mask[i := true]; }
    }
  }

  /** Bit positions `>= pos`; zero once `pos >= 64`. */
  function FromMask(pos: nat): (m: Word)
    ensures forall i :: 0 <= i < 64 ==> m[i] == (i >= pos)
  {
    if pos >= 64 then Zero() else ShiftLeft(Not(Zero()), pos)
  }

  /** Inside the block at `base`, the first set bit of a delimiter mask cut off below `cur`
      answers the linear scan; an empty mask moves the scan to the next block. */
  lemma MaskAnswers(buf: seq<Byte>, base: nat, cur: nat, m: Word, ds: seq<Byte>)
    requires base <= cur < base + 64
    requires forall i :: 0 <= i < 64 ==> m[i] == (i >= cur - base && base + i < |buf| && buf[base + i] in ds)
    ensures FindAny(buf, cur, ds) ==
            if IsZero(m) then FindAny(buf, base + 64, ds) else Some(base + TrailingZeros(m))
  {
    var t := TrailingZeros(m);
    assert t < 64 ==> m[t];
    forall k | cur <= k < base + t && k < |buf| ensures buf[k] !in ds { assert !m[k - base]; }
    FindAnySkip(buf, cur, base + t, ds);
  }

  // ------------------------------------------------------------ quoted regions

  function BlockEnd(buf: seq<Byte>, base: nat): nat {
    if base + 64 <= |buf| then base + 64 else |buf|
  }

  lemma {:induction false} ParityOfNone(a: seq<bool>, lo: nat, hi: nat)
    requires lo <= hi <= |a| && forall i :: lo <= i < hi ==> !a[i]
    ensures !Parity(a, lo, hi)
    decreases hi - lo
  {
    if lo < hi { ParityOfNone(a, lo, hi - 1); }
  }

  ghost predicate OnlyQuote(buf: seq<Byte>, base: nat, pos: nat, q: Byte, quotes: seq<Byte>) {
    forall k :: base + pos <= k < BlockEnd(buf, base) && buf[k] in quotes ==> buf[k] == q
  }

  /** The byte occurs at or after block offset `pos`. */
  ghost predicate Remains(buf: seq<Byte>, base: nat, pos: nat, q: Byte) {
    exists k :: base + pos <= k < BlockEnd(buf, base) && buf[k] == q
  }

  /** Entry `n` is the only one of the quote set that remains in the block. */
  ghost predicate Alone(buf: seq<Byte>, base: nat, pos: nat, quotes: seq<Byte>, n: nat) {
    && n < |quotes| && Remains(buf, base, pos, quotes[n])
    && forall j :: 0 <= j < |quotes| && Remains(buf, base, pos, quotes[j]) ==> j == n
  }

  /** How often the quote set lists `q`. */
  function Listed(q: Byte, quotes: seq<Byte>): nat {
    if quotes == [] then 0 else Listed(q, quotes[..|quotes| - 1]) + if quotes[|quotes| - 1] == q then 1 else 0
  }

  ghost predicate OnlyEntry(q: Byte, quotes: seq<Byte>, n: nat) {
    n < |quotes| && quotes[n] == q && forall j :: 0 <= j < |quotes| && quotes[j] == q ==> j == n
  }

  lemma {:induction false} ListedIn(q: Byte, quotes: seq<Byte>)
    ensures Listed(q, quotes) > 0 <==> q in quotes
  {
    if quotes != [] {
      ListedIn(q, quotes[..|quotes| - 1]);
      assert quotes == quotes[..|quotes| - 1] + [quotes[|quotes| - 1]];
    }
  }

  lemma {:induction false} ListedOnce(q: Byte, quotes: seq<Byte>, n: nat)
    requires OnlyEntry(q, quotes, n)
    ensures Listed(q, quotes) == 1
  {
    var last := |quotes| - 1;
    ListedIn(q, quotes[..last]);
    if n < last { ListedOnce(q, quotes[..last], n); }
  }

  lemma {:induction false} OnceListed(q: Byte, quotes: seq<Byte>) returns (n: nat)
    requires Listed(q, quotes) == 1
    ensures OnlyEntry(q, quotes, n)
  {
    n := |quotes| - 1;
    ListedIn(q, quotes[..n]);
    if quotes[n] != q { n := OnceListed(q, quotes[..n]); }
  }

  /** The delimiter is not listed once among the quotes, and 0 is not, unless the delimiter is
      listed, too. */
  predicate Scannable(d: Byte, quotes: seq<Byte>) {
    Listed(d, quotes) != 1 && (Listed(0, quotes) == 1 ==> Listed(d, quotes) > 0)
  }

  /** The delimiter bits the fast path keeps: at or after `pos` and outside by parity. */
  ghost function FastHits(buf: seq<Byte>, base: nat, pos: nat, d: Byte, q: Byte): Word {
    var qmask := And(BlockMask(buf, base, q), FromMask(pos));
    seq(64, i requires 0 <= i < 64 => BlockMask(buf, base, d)[i] && i >= pos && !Parity(qmask, 0, i + 1))
  }

  /** When `q` is the only quote byte left in the block, being inside a region is the parity
      of the `q` bytes read so far. */
  lemma {:induction false} ParityReach(buf: seq<Byte>, base: nat, pos: nat, i: nat, d: Byte, q: Byte, quotes: seq<Byte>)
    requires pos <= i <= 64 && base + i <= |buf| && q != 0 && q in quotes && d != q
    requires OnlyQuote(buf, base, pos, q, quotes)
    requires forall k :: pos <= k < i ==> !FastHits(buf, base, pos, d, q)[k]
    ensures var qmask := And(BlockMask(buf, base, q), FromMask(pos));
            Reaches(buf, base + pos, 0, base + i, if Parity(qmask, 0, i) then q else 0, d, quotes)
    decreases i
  {
    var qmask := And(BlockMask(buf, base, q), FromMask(pos));
    if i == pos {
      ParityOfNone(qmask, 0, pos);
    } else {
      ParityReach(buf, base, pos, i - 1, d, q, quotes);
      assert !FastHits(buf, base, pos, d, q)[i - 1];
      assert Parity(qmask, 0, i) == (qmask[i - 1] != Parity(qmask, 0, i - 1));
      assert qmask[i - 1] == (buf[base + i - 1] == q) && BlockMask(buf, base, d)[i - 1] == (buf[base + i - 1] == d);
      ReachOne(buf, base + pos, 0, base + i - 1, if Parity(qmask, 0, i - 1) then q else 0, d, quotes);
    }
  }

  /** What a block scan from position `from` in state `active` must answer, and leave behind. */
  ghost predicate BlockAnswer(buf: seq<Byte>, base: nat, from: nat, active: Byte, d: Byte, quotes: seq<Byte>,
                              r: Option<nat>, after: Byte)
  {
    match r
    case None => Reaches(buf, from, active, BlockEnd(buf, base), after, d, quotes)
    case Some(p) =>
      && base + p < BlockEnd(buf, base) && buf[base + p] == d && d !in quotes
      && after == 0 && Reaches(buf, from, active, base + p, 0, d, quotes)
  }

  lemma FastPathMiss(buf: seq<Byte>, base: nat, pos: nat, d: Byte, q: Byte, quotes: seq<Byte>)
    requires base + pos <= BlockEnd(buf, base)
    requires d != q && q in quotes && q != 0 && OnlyQuote(buf, base, pos, q, quotes)
    requires IsZero(FastHits(buf, base, pos, d, q))
    ensures var qmask := And(BlockMask(buf, base, q), FromMask(pos));
            BlockAnswer(buf, base, base + pos, 0, d, quotes, None, if Parity(qmask, 0, 64) then q else 0)
  {
    var qmask := And(BlockMask(buf, base, q), FromMask(pos));
    var n := BlockEnd(buf, base) - base;
    ParityReach(buf, base, pos, n, d, q, quotes);
    ParitySplit(qmask, 0, n, 64);
    ParityOfNone(qmask, n, 64);
  }

  lemma FastPathHit(buf: seq<Byte>, base: nat, pos: nat, d: Byte, q: Byte, quotes: seq<Byte>)
    requires base + pos <= BlockEnd(buf, base)
    requires d != q && q in quotes && q != 0 && OnlyQuote(buf, base, pos, q, quotes)
    requires !IsZero(FastHits(buf, base, pos, d, q))
    ensures BlockAnswer(buf, base, base + pos, 0, d, quotes, Some(TrailingZeros(FastHits(buf, base, pos, d, q))), 0)
  {
    var qmask := And(BlockMask(buf, base, q), FromMask(pos));
    var t := TrailingZeros(FastHits(buf, base, pos, d, q));
    assert FastHits(buf, base, pos, d, q)[t] && pos <= t;
    ParityReach(buf, base, pos, t, d, q, quotes);
    assert Parity(qmask, 0, t + 1) == (qmask[t] != Parity(qmask, 0, t));
  }

  /** The prefix-XOR path and the event-walking path answer the same. */
  lemma FastPathAnswers(buf: seq<Byte>, base: nat, pos: nat, d: Byte, q: Byte, quotes: seq<Byte>)
    requires base + pos <= BlockEnd(buf, base)
    requires d != q && q in quotes && q != 0 && OnlyQuote(buf, base, pos, q, quotes)
    ensures var hits := FastHits(buf, base, pos, d, q);
            var qmask := And(BlockMask(buf, base, q), FromMask(pos));
            if IsZero(hits)
            then BlockAnswer(buf, base, base + pos, 0, d, quotes, None, if Parity(qmask, 0, 64) then q else 0)
            else BlockAnswer(buf, base, base + pos, 0, d, quotes, Some(TrailingZeros(hits)), 0)
  {
    if IsZero(FastHits(buf, base, pos, d, q)) {
      FastPathMiss(buf, base, pos, d, q, quotes);
    } else {
      FastPathHit(buf, base, pos, d, q, quotes);
    }
  }

  /** The answer that the fast path takes from its hits. */
  ghost function HitsAnswer(hits: Word): Option<nat> { if IsZero(hits) then None else Some(TrailingZeros(hits)) }

  /** The fast path's answer on a buffer of at most one block, scanned from its start. */
  ghost function FastAnswer(buf: seq<Byte>, d: Byte, q: Byte): Option<nat> { HitsAnswer(FastHits(buf, 0, 0, d, q)) }

  /** With only zero bytes for quotes and no delimiter left, there is no hit, and none is due. */
  lemma ZeroAlone(buf: seq<Byte>, base: nat, pos: nat, d: Byte, q: Byte, quotes: seq<Byte>)
    requires base + pos <= BlockEnd(buf, base) && !Remains(buf, base, pos, d) && OnlyQuote(buf, base, pos, 0, quotes)
    ensures IsZero(FastHits(buf, base, pos, d, q)) && BlockAnswer(buf, base, base + pos, 0, d, quotes, None, 0)
  {
    forall i | 0 <= i < 64 ensures !FastHits(buf, base, pos, d, q)[i] {
      if BlockMask(buf, base, d)[i] && i >= pos { assert base + i < BlockEnd(buf, base); }
    }
    StaysOutside(buf, base + pos, BlockEnd(buf, base), d, quotes);
  }

  /** When one entry is alone in a scannable quote set, the fast path is right. */
  lemma AloneAnswers(buf: seq<Byte>, base: nat, pos: nat, d: Byte, n: nat, quotes: seq<Byte>)
    requires base + pos <= BlockEnd(buf, base) && Alone(buf, base, pos, quotes, n) && Scannable(d, quotes)
    ensures var hits := FastHits(buf, base, pos, d, quotes[n]);
            var qmask := And(BlockMask(buf, base, quotes[n]), FromMask(pos));
            BlockAnswer(buf, base, base + pos, 0, d, quotes, HitsAnswer(hits),
                        if IsZero(hits) && Parity(qmask, 0, 64) then quotes[n] else 0)
  {
    var q := quotes[n];
    AloneIsOnly(buf, base, pos, quotes, n);
    ListedOnce(q, quotes, n);
    if q != 0 {
      FastPathAnswers(buf, base, pos, d, q, quotes);
    } else {
      ListedIn(d, quotes);
      var j :| 0 <= j < |quotes| && quotes[j] == d;
      assert j != n;
      ZeroAlone(buf, base, pos, d, q, quotes);
    }
  }

  /** If the entry `q` is alone in a scannable quote set, this is the block's answer. */
  ghost predicate ParityRight(buf: seq<Byte>, base: nat, pos: nat, d: Byte, q: Byte, quotes: seq<Byte>, r: Option<nat>,
                              after: Byte)
  {
    forall n: nat :: Alone(buf, base, pos, quotes, n) && quotes[n] == q && Scannable(d, quotes) ==>
      BlockAnswer(buf, base, base + pos, 0, d, quotes, r, after)
  }

  lemma ParityAnswers(buf: seq<Byte>, base: nat, pos: nat, d: Byte, q: Byte, quotes: seq<Byte>)
    requires base + pos <= BlockEnd(buf, base)
    ensures var hits, qmask := FastHits(buf, base, pos, d, q), And(BlockMask(buf, base, q), FromMask(pos));
            ParityRight(buf, base, pos, d, q, quotes, HitsAnswer(hits),
                        if IsZero(hits) && Parity(qmask, 0, 64) then q else 0)
  {
    forall n: nat | Alone(buf, base, pos, quotes, n) && quotes[n] == q && Scannable(d, quotes)
      ensures var hits, qmask := FastHits(buf, base, pos, d, q), And(BlockMask(buf, base, q), FromMask(pos));
              BlockAnswer(buf, base, base + pos, 0, d, quotes, HitsAnswer(hits),
                          if IsZero(hits) && Parity(qmask, 0, 64) then q else 0)
    {
      AloneAnswers(buf, base, pos, d, n, quotes);
    }
  }

  lemma AloneIsOnly(buf: seq<Byte>, base: nat, pos: nat, quotes: seq<Byte>, n: nat)
    requires Alone(buf, base, pos, quotes, n)
    ensures OnlyQuote(buf, base, pos, quotes[n], quotes) && OnlyEntry(quotes[n], quotes, n)
  {
    forall k | base + pos <= k < BlockEnd(buf, base) && buf[k] in quotes ensures buf[k] == quotes[n] {
      var j :| 0 <= j < |quotes| && quotes[j] == buf[k];
      assert Remains(buf, base, pos, quotes[j]);
    }
  }

  lemma AnswerAfter(buf: seq<Byte>, base: nat, from: nat, active: Byte, mid: nat, state: Byte, d: Byte,
                    quotes: seq<Byte>, r: Option<nat>, after: Byte)
    requires Reaches(buf, from, active, mid, state, d, quotes)
    requires BlockAnswer(buf, base, mid, state, d, quotes, r, after)
    ensures BlockAnswer(buf, base, from, active, d, quotes, r, after)
  {
    var until := if r.Some? then base + r.value else BlockEnd(buf, base);
    ReachTrans(buf, from, active, mid, state, until, after, d, quotes);
  }

  /** What the whole scan from `from` in state `active` must answer, and leave behind. */
  ghost predicate ScanAnswer(buf: seq<Byte>, from: nat, active: Byte, d: Byte, quotes: seq<Byte>, r: Option<nat>,
                             after: Byte)
  {
    match r
    case None => Reaches(buf, from, active, |buf|, after, d, quotes)
    case Some(p) =>
      p < |buf| && buf[p] == d && d !in quotes && after == 0 && Reaches(buf, from, active, p, 0, d, quotes)
  }

  /** Such an answer is the reference's, and the state left behind is the one it would replay. */
  lemma AnswerMeans(buf: seq<Byte>, from: nat, active: Byte, d: Byte, quotes: seq<Byte>, r: Option<nat>, after: Byte)
    requires from <= |buf| && ScanAnswer(buf, from, active, d, quotes, r, after)
    ensures r == ScanFrom(buf, from, active, d, quotes)
    ensures active == Replay(buf, from, quotes) ==>
              after == Replay(buf, if r.Some? then r.value + 1 else |buf|, quotes)
  {
    var until := if r.Some? then r.value else |buf|;
    ReachScan(buf, from, active, until, after, d, quotes);
    if active == Replay(buf, from, quotes) { ReachReplay(buf, from, until, after, d, quotes); }
  }

  /** One block's answer after a stretch without hits: a hit is the scan's, and so is the end of
      the last block; any other block hands its state on. */
  lemma RoundAnswer(buf: seq<Byte>, base: nat, from: nat, active: Byte, cur: nat, state: Byte, d: Byte,
                    quotes: seq<Byte>, hit: Option<nat>, after: Byte)
    requires Reaches(buf, from, active, cur, state, d, quotes)
    requires BlockAnswer(buf, base, cur, state, d, quotes, hit, after)
    ensures hit.Some? ==> ScanAnswer(buf, from, active, d, quotes, Some(base + hit.value), after)
    ensures hit.None? && |buf| <= base + 64 ==> ScanAnswer(buf, from, active, d, quotes, None, after)
    ensures hit.None? && base + 64 <= |buf| ==> Reaches(buf, from, active, base + 64, after, d, quotes)
  {
    AnswerAfter(buf, base, from, active, cur, state, d, quotes, hit, after);
  }

  /** From outside, up to the first delimiter or quote bit. */
  lemma OutsideWalk(buf: seq<Byte>, base: nat, pos: nat, d: Byte, quotes: seq<Byte>, g: Word, q: Word)
    requires base + pos <= BlockEnd(buf, base)
    requires forall i :: 0 <= i < 64 ==> g[i] == (i >= pos && base + i < |buf| && buf[base + i] == d)
    requires forall i :: 0 <= i < 64 ==> q[i] == (i >= pos && base + i < |buf| && buf[base + i] in quotes)
    ensures var gpos, qpos := TrailingZeros(g), TrailingZeros(q);
            if gpos < qpos then BlockAnswer(buf, base, base + pos, 0, d, quotes, Some(gpos), 0)
            else if qpos == 64 then BlockAnswer(buf, base, base + pos, 0, d, quotes, None, 0)
            else pos <= qpos && base + qpos < |buf|
                 && Reaches(buf, base + pos, 0, base + qpos + 1, buf[base + qpos], d, quotes)
  {
    var gpos, qpos := TrailingZeros(g), TrailingZeros(q);
    var until := if gpos < qpos then base + gpos else if qpos < 64 then base + qpos else BlockEnd(buf, base);
    assert gpos < 64 ==> g[gpos];
    assert qpos < 64 ==> q[qpos];
    assert gpos < qpos ==> !q[gpos];
    forall k | base + pos <= k < until ensures buf[k] !in quotes && buf[k] != d { assert !q[k - base] && !g[k - base]; }
    StaysOutside(buf, base + pos, until, d, quotes);
    if qpos <= gpos && qpos < 64 { ReachOne(buf, base + pos, 0, base + qpos, 0, d, quotes); }
  }

  /** From inside, up to the closing byte. */
  lemma InsideWalk(buf: seq<Byte>, base: nat, pos: nat, active: Byte, d: Byte, quotes: seq<Byte>, c: Word)
    requires base + pos <= BlockEnd(buf, base) && active != 0
    requires forall i :: 0 <= i < 64 ==> c[i] == (i >= pos && base + i < |buf| && buf[base + i] == active)
    ensures if IsZero(c) then BlockAnswer(buf, base, base + pos, active, d, quotes, None, active)
            else var t := TrailingZeros(c);
                 pos <= t && base + t < |buf| && Reaches(buf, base + pos, active, base + t + 1, 0, d, quotes)
  {
    var t := TrailingZeros(c);
    var until := if t < 64 then base + t else BlockEnd(buf, base);
    assert t < 64 ==> c[t];
    forall k | base + pos <= k < until ensures buf[k] != active { assert !c[k - base]; }
    StaysInside(buf, base + pos, until, active, d, quotes);
    if t < 64 { ReachOne(buf, base + pos, active, base + t, active, d, quotes); }
  }

  class Scanner {
    const buf: seq<Byte>
    const delims: seq<Byte>
    const quotes: seq<Byte>
    var base: nat
    var loaded: bool
    var computed: seq<bool>
    var masks: seq<Word>
    var inQuote: Byte
    var quotePos: nat

    constructor (buf: seq<Byte>, delims: seq<Byte>, quotes: seq<Byte>)
      requires |buf| + 64 <= USIZE_MAX && |delims| <= MAX_DELIMS
      requires forall q :: q in quotes ==> q in delims
      ensures Valid() && Cursor() && InSync() && quotePos == 0
      ensures this.buf == buf && this.delims == delims && this.quotes == quotes
    {
      this.buf, this.delims, this.quotes := buf, delims, quotes;
      base, loaded, computed := USIZE_MAX, false, seq(8, _ => false);
      masks, inQuote, quotePos := seq(8, _ => Zero()), 0, 0;
    }

    /** Every mask marked computed is the exact mask of the loaded block. */
    ghost predicate Valid()
      reads this
    {
      && |buf| + 64 <= USIZE_MAX && |delims| <= MAX_DELIMS && |computed| == 8 && |masks| == 8
      && (forall q :: q in quotes ==> q in delims)
      && (if loaded then base % 64 == 0 && base < |buf| else base == USIZE_MAX)
      && (forall i :: 0 <= i < |delims| && computed[i] ==> loaded && masks[i] == BlockMask(buf, base, delims[i]))
      && (forall i :: |delims| <= i < 8 ==> !computed[i])
    }

    /** The quote cursor stands in the loaded block or just past it. */
    ghost predicate Cursor()
      reads this
    {
      && (inQuote == 0 || inQuote in quotes)
      && if loaded && quotes != [] then base <= quotePos <= base + 64 else quotePos == 0 && inQuote == 0
    }

    /** The carried quote state is the one the reference scan would replay. */
    ghost predicate InSync()
      reads this
    {
      quotePos <= |buf| ==> inQuote == Replay(buf, quotePos, quotes)
    }

    /** `delims.iter().position`: the first index holding `d`. */
    function DelimIndex(d: Byte): (i: nat)
      requires d in delims
      ensures i < |delims| && delims[i] == d
    {
      FirstIndex(delims, d)
    }

    static function FirstIndex(s: seq<Byte>, d: Byte): (i: nat)
      requires d in s
      ensures i < |s| && s[i] == d
    {
      if s[0] == d then 0 else 1 + FirstIndex(s[1..], d)
    }

    /** A single delimiter's mask for the loaded block, trimmed at the end of the buffer. */
    method ComputeOne(d: Byte) returns (mask: Word)
      requires Valid() && loaded
      ensures mask == BlockMask(buf, base, d)
    {
      if base + 64 <= |buf| {
        mask := Mask64(buf[base..base + 64], d);
      } else {
        var rem := |buf| - base;
        var tmp := buf[base..] + seq(64 - rem, _ => 0);
        mask := Mask64(tmp, d);
        mask := And(mask, Below(rem));
        assert forall i :: 0 <= i < rem ==> tmp[i] == buf[base + i];
      }
    }

    method LoadAt(newBase: nat)
      requires Valid() && newBase % 64 == 0 && newBase < |buf|
      modifies this`base, this`loaded, this`computed
      ensures Valid() && loaded && base == newBase
    {
      base, loaded, computed := newBase, true, seq(8, _ => false);
    }

    /** Select the block containing `from`, reloading only if it changed. */
    method SelectBlock(from: nat)
      requires Valid() && from < |buf|
      modifies this`base, this`loaded, this`computed
      ensures Valid() && loaded && base <= from < base + 64
    {
      var newBase := from - from % 64;
      if newBase != base || !loaded { LoadAt(newBase); }
    }

    method AdvanceBlock() returns (more: bool)
      requires Valid() && loaded
      modifies this`base, this`loaded, this`computed
      ensures Valid() && loaded && more == (old(base) + 64 < |buf|)
      ensures base == if more then old(base) + 64 else old(base)
    {
      var next := base + 64;
      if next >= |buf| { return false; }
      LoadAt(next);
      return true;
    }

    /** The mask of `d`, from the cache when it is already computed. */
    method MaskFor(d: Byte) returns (mask: Word)
      requires Valid() && loaded && d in delims
      modifies this`masks, this`computed
      ensures Valid() && mask == BlockMask(buf, base, d)
    {
      var i := DelimIndex(d);
      if !computed[i] {
        var one := ComputeOne(d);
        masks, computed := masks[i := one], computed[i := true];
      }
      mask := masks[i];
    }

    predicate AllComputed()
      reads this
      requires |computed| == 8 && |delims| <= 8
    {
      forall i :: 0 <= i < |delims| ==> computed[i]
    }

    /** Compute every delimiter mask of the loaded block in one pass. */
    method EnsureAll()
      requires Valid() && loaded
      modifies this`masks, this`computed
      ensures Valid() && AllComputed()
    {
      if AllComputed() { return; }
      var out: seq<Word> := seq(8, _ => Zero());
      for i := 0 to |delims|
        invariant Valid() && loaded && base == old(base) && |out| == 8
        invariant forall j :: 0 <= j < i ==> out[j] == BlockMask(buf, base, delims[j])
      {
        var one := ComputeOne(delims[i]);
        out := out[i := one];
      }
      masks, computed := out, seq(8, i => i < |delims|);
    }

    /** The cached mask of a delimiter once all are computed. */
    function Mask(d: Byte): (m: Word)
      requires Valid() && AllComputed() && d in delims
      reads this
      ensures m == BlockMask(buf, base, d)
    {
      masks[DelimIndex(d)]
    }

    /** The loaded block's part of a single-delimiter search: the first hit, or 64. */
    method OneInBlock(cur: nat, d: Byte) returns (t: nat)
      requires Valid() && loaded && base <= cur < base + 64 && d in delims
      modifies this`masks, this`computed
      ensures Valid() && t <= 64
      ensures FindAny(buf, cur, [d]) == if t == 64 then FindAny(buf, base + 64, [d]) else Some(base + t)
    {
      var all := MaskFor(d);
      var m := And(all, FromMask(cur - base));
      MaskAnswers(buf, base, cur, m, [d]);
      t := TrailingZeros(m);
    }

    /** Next occurrence of `d` at or after `from`, from any position after any earlier queries. */
    method Next(from: nat, d: Byte) returns (r: Option<nat>)
      requires Valid() && d in delims
      modifies this`base, this`loaded, this`computed, this`masks
      ensures Valid() && r == FindAny(buf, from, [d])
    {
      if from >= |buf| { return None; }
      var cur := from;
      while true
        invariant Valid() && cur < |buf|
        invariant FindAny(buf, from, [d]) == FindAny(buf, cur, [d])
        decreases |buf| - cur
      {
        if cur < base || cur >= base + 64 { SelectBlock(cur); }
        var t := OneInBlock(cur, d);
        if t < 64 { return Some(base + t); }
        var more := AdvanceBlock();
        if !more { return None; }
        cur := base;
      }
    }

    /** The union of the cached masks of `ds`. */
    method Combine(ds: seq<Byte>) returns (combined: Word)
      requires Valid() && AllComputed() && forall d :: d in ds ==> d in delims
      ensures forall i :: 0 <= i < 64 ==> combined[i] == (base + i < |buf| && buf[base + i] in ds)
    {
      combined := Zero();
      for n := 0 to |ds|
        invariant forall i :: 0 <= i < 64 ==> combined[i] == (base + i < |buf| && buf[base + i] in ds[..n])
      {
        assert ds[..n + 1] == ds[..n] + [ds[n]];
        combined := Or(combined, Mask(ds[n]));
      }
      assert ds[..|ds|] == ds;
    }

    /** The loaded block's part of a search: the first hit at or after `cur`, or 64. */
    method AnyInBlock(cur: nat, ds: seq<Byte>) returns (t: nat)
      requires Valid() && loaded && base <= cur < base + 64 && forall d :: d in ds ==> d in delims
      modifies this`masks, this`computed
      ensures Valid() && AllComputed() && t <= 64
      ensures t < 64 ==> base + t < |buf| && buf[base + t] in ds
      ensures FindAny(buf, cur, ds) == if t == 64 then FindAny(buf, base + 64, ds) else Some(base + t)
    {
      EnsureAll();
      var combined := Combine(ds);
      var masked := And(combined, FromMask(cur - base));
      MaskAnswers(buf, base, cur, masked, ds);
      t := TrailingZeros(masked);
    }

    /** The first of `ds` whose mask has bit `t`; the source's fallback is never reached. */
    method WhichDelim(ds: seq<Byte>, t: nat) returns (d: Byte)
      requires Valid() && AllComputed() && forall d :: d in ds ==> d in delims
      requires t < 64 && base + t < |buf| && buf[base + t] in ds
      ensures d == buf[base + t]
    {
      d := 0;
      for n := 0 to |ds|
        invariant buf[base + t] !in ds[..n]
      {
        if Mask(ds[n])[t] { return ds[n]; }
      }
      assert false;
    }

    /** Next occurrence of any of `ds` at or after `from`, with the byte found there. */
    method NextAny(from: nat, ds: seq<Byte>) returns (r: Option<(nat, Byte)>)
      requires Valid() && forall d :: d in ds ==> d in delims
      modifies this`base, this`loaded, this`computed, this`masks
      ensures Valid()
      ensures match FindAny(buf, from, ds)
              case None => r == None
              case Some(pos) => pos < |buf| && r == Some((pos, buf[pos]))
    {
      if from >= |buf| { return None; }
      var cur := from;
      while true
        invariant Valid() && cur < |buf|
        invariant FindAny(buf, from, ds) == FindAny(buf, cur, ds)
        decreases |buf| - cur
      {
        if cur < base || cur >= base + 64 { SelectBlock(cur); }
        var t := AnyInBlock(cur, ds);
        if t < 64 {
          var d := WhichDelim(ds, t);
          return Some((base + t, d));
        }
        var more := AdvanceBlock();
        if !more { return None; }
        cur := base;
      }
    }

    // ---------------------------------------------------------- next_unquoted

    /** If exactly one entry of the quote set occurs at or after block offset `pos`, its
        delimiter index. */
    method SingleQuoteRemaining(pos: nat) returns (found: Option<nat>)
      requires Valid() && loaded && AllComputed()
      ensures found.Some? <==> exists n: nat :: Alone(buf, base, pos, quotes, n)
      ensures found.Some? ==> found.value < |delims|
                              && forall n: nat :: Alone(buf, base, pos, quotes, n) ==> quotes[n] == delims[found.value]
    {
      found := None;
      ghost var at := 0;
      for n := 0 to |quotes|
        invariant found.Some? ==>
                    && at < n && found.value < |delims| && quotes[at] == delims[found.value]
                    && Remains(buf, base, pos, quotes[at])
        invariant forall j :: 0 <= j < n && Remains(buf, base, pos, quotes[j]) ==> found.Some? && j == at
      {
        var qi := DelimIndex(quotes[n]);
        var m := And(Mask(quotes[n]), FromMask(pos));
        if !IsZero(m) {
          assert m[TrailingZeros(m)] && buf[base + TrailingZeros(m)] == quotes[n];
          if found.Some? { return None; }
          found, at := Some(qi), n;
        } else {
          forall k | base + pos <= k < BlockEnd(buf, base) ensures buf[k] != quotes[n] { assert !m[k - base]; }
        }
      }
      if found.Some? { assert Alone(buf, base, pos, quotes, at); }
    }

    /** The delimiter bits outside by the parity of one quote mask, and that mask's whole parity. */
    method HitsByParity(pos: nat, d: Byte, qi: nat) returns (hits: Word, odd: bool)
      requires Valid() && loaded && AllComputed() && d in delims && qi < |delims|
      ensures hits == FastHits(buf, base, pos, d, delims[qi])
      ensures odd == Parity(And(BlockMask(buf, base, delims[qi]), FromMask(pos)), 0, 64)
    {
      var qmask := And(masks[qi], FromMask(pos));
      var inside := PrefixXor(qmask);
      assert qmask == And(BlockMask(buf, base, delims[qi]), FromMask(pos));
      hits := And(And(Mask(d), FromMask(pos)), Not(inside));
      odd := Parity(qmask, 0, 64);
      forall i | 0 <= i < 64 ensures hits[i] == FastHits(buf, base, pos, d, delims[qi])[i] {
      }
    }

    /** The fast path, when one quote byte is left: parity of its mask. */
    method ScanByParity(pos: nat, d: Byte, qi: nat) returns (r: Option<nat>)
      requires Valid() && loaded && AllComputed() && d in delims
      requires qi < |delims| && delims[qi] in quotes
      requires inQuote == 0 && base + pos <= BlockEnd(buf, base)
      modifies this`inQuote
      ensures inQuote == 0 || inQuote in quotes
      ensures r == HitsAnswer(FastHits(buf, base, pos, d, delims[qi]))
      ensures ParityRight(buf, base, pos, d, delims[qi], quotes, r, inQuote)
    {
      var hits, odd := HitsByParity(pos, d, qi);
      ParityAnswers(buf, base, pos, d, delims[qi], quotes);
      if IsZero(hits) && odd { inQuote := delims[qi]; }
      r := if IsZero(hits) then None else Some(TrailingZeros(hits));
    }

    /** A delimiter's mask cut off below `pos`, and the union of the quote masks likewise. */
    method MasksFrom(pos: nat, d: Byte) returns (g: Word, q: Word)
      requires Valid() && loaded && AllComputed() && d in delims
      ensures forall i :: 0 <= i < 64 ==> g[i] == (i >= pos && base + i < |buf| && buf[base + i] == d)
      ensures forall i :: 0 <= i < 64 ==> q[i] == (i >= pos && base + i < |buf| && buf[base + i] in quotes)
    {
      var qbits := Combine(quotes);
      g := And(Mask(d), FromMask(pos));
      q := And(qbits, FromMask(pos));
    }

    /** Outside a region: the offset just past the next quote, now open, if it comes before the
        next delimiter; otherwise the answer, which is that delimiter or the end of the block. */
    method OutsideEvent(pos: nat, d: Byte) returns (hit: Option<nat>, next: Option<nat>)
      requires Valid() && loaded && AllComputed() && d in delims
      requires inQuote == 0 && base + pos <= BlockEnd(buf, base)
      modifies this`inQuote
      ensures next.None? ==> inQuote == 0 && BlockAnswer(buf, base, base + pos, 0, d, quotes, hit, 0)
      ensures next.Some? ==>
                && pos < next.value && base + next.value <= BlockEnd(buf, base) && inQuote in quotes
                && Reaches(buf, base + pos, 0, base + next.value, inQuote, d, quotes)
    {
      var g, q := MasksFrom(pos, d);
      var gpos, qpos := TrailingZeros(g), TrailingZeros(q);
      OutsideWalk(buf, base, pos, d, quotes, g, q);
      if !IsZero(g) && (IsZero(q) || gpos < qpos) { return Some(gpos), None; }
      if IsZero(q) { return None, None; }
      inQuote := WhichDelim(quotes, qpos);
      return None, Some(qpos + 1);
    }

    /** Inside a region: the offset just past the closing byte, or nothing in this block. */
    method InsideEvent(pos: nat, d: Byte) returns (next: Option<nat>)
      requires Valid() && loaded && AllComputed()
      requires inQuote in quotes && inQuote != 0 && base + pos <= BlockEnd(buf, base)
      modifies this`inQuote
      ensures next.None? ==>
                inQuote == old(inQuote) && BlockAnswer(buf, base, base + pos, inQuote, d, quotes, None, inQuote)
      ensures next.Some? ==>
                && inQuote == 0 && pos < next.value && base + next.value <= BlockEnd(buf, base)
                && Reaches(buf, base + pos, old(inQuote), base + next.value, 0, d, quotes)
    {
      var c := And(Mask(inQuote), FromMask(pos));
      InsideWalk(buf, base, pos, inQuote, d, quotes, c);
      if IsZero(c) { return None; }
      inQuote := 0;
      next := Some(TrailingZeros(c) + 1);
    }

    /** The general path: walk quote events, where only the active byte closes. It is right for
        any quote bytes and any delimiter. */
    method ScanByEvents(offset: nat, d: Byte) returns (r: Option<nat>)
      requires Valid() && loaded && AllComputed() && d in delims
      requires inQuote == 0 || inQuote in quotes
      requires base + offset <= BlockEnd(buf, base)
      modifies this`inQuote
      ensures BlockAnswer(buf, base, base + offset, old(inQuote), d, quotes, r, inQuote)
      ensures inQuote == 0 || inQuote in quotes
    {
      var pos := offset;
      ghost var from, active := base + offset, inQuote;
      while true
        invariant inQuote == 0 || inQuote in quotes
        invariant base + pos <= BlockEnd(buf, base)
        invariant Reaches(buf, from, active, base + pos, inQuote, d, quotes)
        decreases BlockEnd(buf, base) - pos
      {
        var state := inQuote;
        var hit, next := None, None;
        if inQuote == 0 { hit, next := OutsideEvent(pos, d); } else { next := InsideEvent(pos, d); }
        if next.None? {
          AnswerAfter(buf, base, from, active, base + pos, state, d, quotes, hit, inQuote);
          return hit;
        }
        ReachTrans(buf, from, active, base + pos, state, base + next.value, inQuote, d, quotes);
        pos := next.value;
      }
    }

    /** From outside with one entry alone, the answer is the fast path's. */
    ghost predicate FastSays(base: nat, offset: nat, state: Byte, d: Byte, r: Option<nat>) {
      forall n: nat :: state == 0 && Alone(buf, base, offset, quotes, n) ==>
        r == HitsAnswer(FastHits(buf, base, offset, d, quotes[n]))
    }

    /** Within the loaded block, from `offset`, the next `d` outside quotes: by the fast path from
        outside with one entry alone, and by events otherwise. */
    method ScanBlockUnquoted(offset: nat, d: Byte) returns (r: Option<nat>)
      requires Valid() && loaded && AllComputed() && d in delims
      requires inQuote == 0 || inQuote in quotes
      requires base + offset <= BlockEnd(buf, base)
      modifies this`inQuote
      ensures Scannable(d, quotes) ==> BlockAnswer(buf, base, base + offset, old(inQuote), d, quotes, r, inQuote)
      ensures (inQuote == 0 || inQuote in quotes) && (r.Some? ==> r.value < 64 && base + r.value < |buf|)
      ensures FastSays(base, offset, old(inQuote), d, r)
    {
      if inQuote == 0 {
        var single := SingleQuoteRemaining(offset);
        if single.Some? {
          r := ScanByParity(offset, d, single.value);
          return;
        }
      }
      r := ScanByEvents(offset, d);
    }

    /** Start a fresh scan at `from`, unless `from` is exactly where the cursor left off. */
    method Reposition(from: nat)
      requires Valid() && Cursor() && from < |buf| && quotes != []
      modifies this
      ensures Valid() && Cursor() && loaded && quotePos == from
      ensures inQuote == if old(quotePos) == from then old(inQuote) else 0
    {
      if !loaded || from != quotePos {
        inQuote, quotePos := 0, from;
        LoadAt(from - from % 64);
      }
    }

    /** One round of the block loop: the masks, and the scan of the loaded block from `cur`. */
    method ScanLoaded(cur: nat, d: Byte) returns (hit: Option<nat>)
      requires Valid() && loaded && base <= cur <= base + 64 && cur <= |buf| && d in delims
      requires inQuote == 0 || inQuote in quotes
      modifies this`masks, this`computed, this`inQuote
      ensures Valid() && (inQuote == 0 || inQuote in quotes)
      ensures hit.Some? ==> hit.value < 64 && base + hit.value < |buf|
      ensures Scannable(d, quotes) ==> BlockAnswer(buf, base, cur, old(inQuote), d, quotes, hit, inQuote)
    {
      EnsureAll();
      hit := ScanBlockUnquoted(cur - base, d);
    }

    /** The block loop of `next_unquoted`. */
    method ScanBlocks(from: nat, d: Byte) returns (r: Option<nat>)
      requires Valid() && Cursor() && loaded && quotePos == from && from < |buf| && quotes != []
      requires d in delims
      modifies this
      ensures Valid() && Cursor()
      ensures if r.Some? then r.value < |buf| && quotePos == r.value + 1 else |buf| <= quotePos
      ensures Scannable(d, quotes) ==> ScanAnswer(buf, from, old(inQuote), d, quotes, r, inQuote)
    {
      var cur := from;
      ghost var active := inQuote;
      while true
        invariant Valid() && loaded && base <= cur <= base + 64 && cur <= |buf|
        invariant inQuote == 0 || inQuote in quotes
        invariant Scannable(d, quotes) ==> Reaches(buf, from, active, cur, inQuote, d, quotes)
        decreases |buf| - base
      {
        ghost var state := inQuote;
        var hit := ScanLoaded(cur, d);
        if Scannable(d, quotes) { RoundAnswer(buf, base, from, active, cur, state, d, quotes, hit, inQuote); }
        if hit.Some? {
          quotePos := base + hit.value + 1;
          return Some(base + hit.value);
        }
        var more := AdvanceBlock();
        if !more {
          quotePos := base + 64;
          return None;
        }
        cur := base;
        quotePos := cur;
      }
    }

    /** Without quotes the plain search. */
    method NextPlain(from: nat, d: Byte) returns (r: Option<nat>)
      requires Valid() && Cursor() && d in delims && quotes == []
      modifies this`base, this`loaded, this`computed, this`masks
      ensures Valid() && Cursor() && (r.Some? ==> r.value < |buf|) && r == ScanFrom(buf, from, 0, d, quotes)
    {
      PlainScan(buf, from, d);
      PlainBounds(buf, from, d);
      r := Next(from, d);
    }

    /** The scan from `from`, inside the buffer. */
    method NextQuoted(from: nat, d: Byte) returns (r: Option<nat>)
      requires Valid() && Cursor() && d in delims && from < |buf| && quotes != []
      modifies this
      ensures Valid() && Cursor() && (if r.Some? then r.value < |buf| && quotePos == r.value + 1 else |buf| <= quotePos)
      ensures Scannable(d, quotes) ==>
                ScanAnswer(buf, from, if from == old(quotePos) then old(inQuote) else 0, d, quotes, r, inQuote)
    {
      Reposition(from);
      r := ScanBlocks(from, d);
    }

    /** Next `d` outside every quoted region, as a forward cursor. A call at the cursor
        continues from the carried state; any other call starts outside. */
    method NextUnquoted(from: nat, d: Byte) returns (r: Option<nat>)
      requires Valid() && Cursor() && d in delims
      modifies this
      ensures Valid() && Cursor() && (r.Some? ==> r.value < |buf| && (quotes != [] ==> quotePos == r.value + 1))
      ensures Scannable(d, quotes) ==>
                r == ScanFrom(buf, from, if from == old(quotePos) then old(inQuote) else 0, d, quotes)
      ensures Scannable(d, quotes) && old(InSync()) && (from == old(quotePos) || quotes == []) ==> InSync()
    {
      if quotes == [] {
        r := NextPlain(from, d);
      } else if from < |buf| {
        ghost var active := if from == quotePos then inQuote else 0;
        r := NextQuoted(from, d);
        if Scannable(d, quotes) { AnswerMeans(buf, from, active, d, quotes, r, inQuote); }
      } else {
        r := None;
      }
    }
  }

  lemma {:induction false} PlainScan(buf: seq<Byte>, from: nat, d: Byte)
    ensures ScanFrom(buf, from, 0, d, []) == FindAny(buf, from, [d])
    decreases |buf| - from
  {
    if from < |buf| { PlainScan(buf, from + 1, d); }
  }

  lemma PlainBounds(buf: seq<Byte>, from: nat, d: Byte)
    ensures FindAny(buf, from, [d]).Some? ==> FindAny(buf, from, [d]).value < |buf|
  {
    PlainScan(buf, from, d);
    ScanBounds(buf, from, 0, d, []);
  }

  lemma {:induction false} PlainReplay(buf: seq<Byte>, n: nat)
    requires n <= |buf|
    ensures Replay(buf, n, []) == 0
  {
    if n > 0 { PlainReplay(buf, n - 1); }
  }

  /** The reference scan's answers to a forward run: the first query from `from`, each later
      one from just past the previous hit, until a query finds nothing. */
  function RunReference(buf: seq<Byte>, from: nat, ds: seq<Byte>, quotes: seq<Byte>): seq<Option<nat>>
    decreases |ds|
  {
    if ds == [] || from > |buf| then []
    else
      var r := ScanUnquoted(buf, from, ds[0], quotes);
      [r] + if r.Some? then RunReference(buf, r.value + 1, ds[1..], quotes) else []
  }

  lemma {:induction false} ScanBounds(buf: seq<Byte>, from: nat, active: Byte, d: Byte, quotes: seq<Byte>)
    ensures var r := ScanFrom(buf, from, active, d, quotes); r.Some? ==> from <= r.value < |buf|
    decreases |buf| - from
  {
    if from < |buf| { ScanBounds(buf, from + 1, Toggle(active, buf[from], quotes), d, quotes); }
  }

  /** One query of a forward run. */
  method RunStep(s: Scanner, from: nat, d: Byte) returns (r: Option<nat>)
    requires s.Valid() && s.Cursor() && from <= |s.buf| && (s.quotes != [] ==> s.quotePos == from) && d in s.delims
    modifies s
    ensures s.Valid() && s.Cursor()
    ensures r.Some? ==> r.value < |s.buf| && (s.quotes != [] ==> s.quotePos == r.value + 1)
    ensures old(s.InSync()) && Scannable(d, s.quotes) ==> s.InSync() && r == ScanUnquoted(s.buf, from, d, s.quotes)
  {
    if s.quotes == [] { PlainReplay(s.buf, from); }
    ScanBounds(s.buf, from, Replay(s.buf, from, s.quotes), d, s.quotes);
    r := s.NextUnquoted(from, d);
  }

  /** Every forward run of `next_unquoted` answers as the byte-at-a-time scan does, query by
      query, whatever scannable delimiter each query asks for. */
  method ForwardRun(s: Scanner, from: nat, ds: seq<Byte>) returns (answers: seq<Option<nat>>)
    requires s.Valid() && s.Cursor() && from <= |s.buf| && (s.quotes != [] ==> s.quotePos == from)
    requires forall d :: d in ds ==> d in s.delims
    modifies s
    ensures old(s.InSync()) && (forall d :: d in ds ==> Scannable(d, s.quotes)) ==>
              answers == RunReference(s.buf, from, ds, s.quotes)
    decreases |ds|
  {
    if ds == [] { return []; }
    var r := RunStep(s, from, ds[0]);
    if r.None? { return [r]; }
    var rest := ForwardRun(s, r.value + 1, ds[1..]);
    return [r] + rest;
  }

  // ------------------------------------------------------------ the side condition

  /** Whenever the scanner takes the fast path on a one-block buffer, because one entry of the quote
      set is alone in it, the path answers as the reference does. */
  ghost predicate FastPathRight(d: Byte, quotes: seq<Byte>) {
    forall n: nat, buf: seq<Byte> :: 0 < |buf| <= 64 && Alone(buf, 0, 0, quotes, n) ==>
      FastAnswer(buf, d, quotes[n]) == ScanUnquoted(buf, 0, d, quotes)
  }

  /** That is so exactly when the delimiter is not listed once among the quotes, and 0 (the code's
      "outside") is not, unless the delimiter is listed as well. */
  lemma FastPathExact(d: Byte, quotes: seq<Byte>)
    ensures FastPathRight(d, quotes) <==> Scannable(d, quotes)
  {
    if Listed(d, quotes) == 1 {
      var n := OnceListed(d, quotes);
      QuotedDelimiter(d, quotes, n);
    } else if Listed(0, quotes) == 1 && Listed(d, quotes) == 0 {
      var n := OnceListed(0, quotes);
      ListedIn(d, quotes);
      ZeroQuote(d, quotes, n);
    } else {
      forall n: nat, buf: seq<Byte> | 0 < |buf| <= 64 && Alone(buf, 0, 0, quotes, n)
        ensures FastAnswer(buf, d, quotes[n]) == ScanUnquoted(buf, 0, d, quotes)
      {
        AloneScans(buf, d, n, quotes);
      }
    }
  }

  lemma AloneScans(buf: seq<Byte>, d: Byte, n: nat, quotes: seq<Byte>)
    requires 0 < |buf| <= 64 && Alone(buf, 0, 0, quotes, n) && Scannable(d, quotes)
    ensures FastAnswer(buf, d, quotes[n]) == ScanUnquoted(buf, 0, d, quotes)
  {
    AloneAnswers(buf, 0, 0, d, n, quotes);
    var qmask := And(BlockMask(buf, 0, quotes[n]), FromMask(0));
    var r := FastAnswer(buf, d, quotes[n]);
    AnswerMeans(buf, 0, 0, d, quotes, r, if r.None? && Parity(qmask, 0, 64) then quotes[n] else 0);
  }

  /** The fast path reports the closing one of two quote bytes as a delimiter. */
  lemma QuotedDelimiter(d: Byte, quotes: seq<Byte>, n: nat)
    requires OnlyEntry(d, quotes, n)
    ensures Alone([d, d], 0, 0, quotes, n)
    ensures FastAnswer([d, d], d, d) == Some(1) && ScanUnquoted([d, d], 0, d, quotes) == None
  {
    var buf: seq<Byte> := [d, d];
    assert buf[0] == d && Remains(buf, 0, 0, d);
    var hits, qmask := FastHits(buf, 0, 0, d, d), And(BlockMask(buf, 0, d), FromMask(0));
    assert qmask[0] && qmask[1];
    assert !Parity(qmask, 0, 0) && Parity(qmask, 0, 1) && !Parity(qmask, 0, 2);
    assert !hits[0] && hits[1];
    NeverAtQuote(buf, 0, 0, d, quotes);
  }

  /** The fast path takes a delimiter after one zero byte to be quoted; the reference does not. */
  lemma ZeroQuote(d: Byte, quotes: seq<Byte>, n: nat)
    requires OnlyEntry(0, quotes, n)
    requires d !in quotes
    ensures Alone([0, d], 0, 0, quotes, n)
    ensures FastAnswer([0, d], d, 0) == None && ScanUnquoted([0, d], 0, d, quotes) == Some(1)
  {
    var buf: seq<Byte> := [0, d];
    assert buf[0] == 0 && Remains(buf, 0, 0, 0);
    var qmask := And(BlockMask(buf, 0, 0), FromMask(0));
    assert qmask[0] && !qmask[1];
    assert !Parity(qmask, 0, 0) && Parity(qmask, 0, 1) && Parity(qmask, 0, 2);
    assert IsZero(FastHits(buf, 0, 0, d, 0));
    assert ScanFrom(buf, 1, 0, d, quotes) == Some(1);
  }

  /** The scanner's own scan of a fresh block. */
  method ScanFresh(buf: seq<Byte>, d: Byte, quotes: seq<Byte>, ghost n: nat) returns (r: Option<nat>)
    requires 0 < |buf| <= 64 && |quotes| < MAX_DELIMS && Alone(buf, 0, 0, quotes, n)
    ensures r == FastAnswer(buf, d, quotes[n])
  {
    var scanner := new Scanner(buf, [d] + quotes, quotes);
    scanner.Reposition(0);
    scanner.EnsureAll();
    r := scanner.ScanBlockUnquoted(0, d);
  }

  /** On those two buffers: for a delimiter that is the quote byte the scanner stops at the closing
      one, and after a zero quote byte it misses the delimiter. */
  method WrongAnswers(d: Byte) returns (quoted: Option<nat>, zero: Option<nat>)
    requires d != 0
    ensures quoted == Some(1) && ScanUnquoted([d, d], 0, d, [d]) == None
    ensures zero == None && ScanUnquoted([0, d], 0, d, [0]) == Some(1)
  {
    QuotedDelimiter(d, [d], 0);
    ZeroQuote(d, [0], 0);
    quoted := ScanFresh([d, d], d, [d], 0);
    zero := ScanFresh([0, d], d, [0], 0);
  }

  /** The reference scan never stops at a quote byte. */
  lemma {:induction false} NeverAtQuote(buf: seq<Byte>, from: nat, active: Byte, d: Byte, quotes: seq<Byte>)
    requires d in quotes
    ensures ScanFrom(buf, from, active, d, quotes) == None
    decreases |buf| - from
  {
    if from < |buf| { NeverAtQuote(buf, from + 1, Toggle(active, buf[from], quotes), d, quotes); }
  }
}
