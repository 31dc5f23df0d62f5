/** 64-bit words as sequences of bits: bit `i` of the word is element `i`. */
module Bits {

  type Word = w: seq<bool> | |w| == 64 witness seq(64, _ => false)

  function Zero(): Word { seq(64, _ => false) }

  function And(a: Word, b: Word): Word { seq(64, i requires 0 <= i < 64 => a[i] && b[i]) }

  function Or(a: Word, b: Word): Word { seq(64, i requires 0 <= i < 64 => a[i] || b[i]) }

  function Xor(a: Word, b: Word): Word { seq(64, i requires 0 <= i < 64 => a[i] != b[i]) }

  function Not(a: Word): Word { seq(64, i requires 0 <= i < 64 => !a[i]) }

  function ShiftLeft(a: Word, k: nat): Word { seq(64, i requires 0 <= i < 64 => i >= k && a[i - k]) }

  /** `(1 << n) - 1` for `n < 64`. */
  function Below(n: nat): Word { seq(64, i requires 0 <= i < 64 => i < n) }

  predicate IsZero(a: Word) { forall i :: 0 <= i < 64 ==> !a[i] }

  /** Parity of the bits `lo..hi`. */
  function Parity(a: seq<bool>, lo: int, hi: int): bool
    requires 0 <= lo && hi <= |a|
    decreases hi - lo
  {
    if hi <= lo then false else a[hi - 1] != Parity(a, lo, hi - 1)
  }

  function TrailingZeros(a: Word): (n: nat)
    ensures n <= 64 && (n == 64 <==> IsZero(a))
    ensures n < 64 ==> a[n] && forall i :: 0 <= i < n ==> !a[i]
  {
    FirstSet(a, 0)
  }

  function FirstSet(a: Word, from: nat): (n: nat)
    requires from <= 64
    ensures from <= n <= 64 && (n < 64 ==> a[n]) && forall i :: from <= i < n ==> !a[i]
    decreases 64 - from
  {
    if from == 64 || a[from] then from else FirstSet(a, from + 1)
  }

  lemma {:induction false} ParitySplit(a: seq<bool>, lo: nat, mid: nat, hi: nat)
    requires lo <= mid <= hi <= |a|
    ensures Parity(a, lo, hi) == (Parity(a, lo, mid) != Parity(a, mid, hi))
  {
    if mid < hi { ParitySplit(a, lo, mid, hi - 1); }
  }

  function Max(a: int, b: int): int { if a < b then b else a }

  /** Bit `i` of `m` is the parity of the `n` bits of `w` ending at `i`. */
  ghost predicate WindowParity(w: Word, m: Word, n: nat) {
    forall i :: 0 <= i < 64 ==> m[i] == Parity(w, Max(0, i + 1 - n), i + 1)
  }

  lemma DoubleWindow(w: Word, m: Word, n: nat)
    requires n > 0 && WindowParity(w, m, n)
    ensures WindowParity(w, Xor(m, ShiftLeft(m, n)), 2 * n)
  {
    var r := Xor(m, ShiftLeft(m, n));
    forall i | 0 <= i < 64 ensures r[i] == Parity(w, Max(0, i + 1 - 2 * n), i + 1) {
      if i >= n { ParitySplit(w, Max(0, i + 1 - 2 * n), i + 1 - n, i + 1); }
    }
  }

  /** Inclusive prefix-XOR: bit `i` of the result is the parity of bits `0..=i`. */
  method PrefixXor(w: Word) returns (m: Word)
    ensures forall i :: 0 <= i < 64 ==> m[i] == Parity(w, 0, i + 1)
  {
    m := w;
    assert WindowParity(w, m, 1) by {
      forall i | 0 <= i < 64 ensures m[i] == Parity(w, i, i + 1) { assert !Parity(w, i, i); }
    }
    DoubleWindow(w, m, 1);  m := Xor(m, ShiftLeft(m, 1));
    DoubleWindow(w, m, 2);  m := Xor(m, ShiftLeft(m, 2));
    DoubleWindow(w, m, 4);  m := Xor(m, ShiftLeft(m, 4));
    DoubleWindow(w, m, 8);  m := Xor(m, ShiftLeft(m, 8));
    DoubleWindow(w, m, 16); m := Xor(m, ShiftLeft(m, 16));
    DoubleWindow(w, m, 32); m := Xor(m, ShiftLeft(m, 32));
  }
}
