/** Decimal digit strings and their values. */
module Digits {

  function Pow10(k: nat): (p: nat)
    ensures p > 0
  {
    if k == 0 then 1 else 10 * Pow10(k - 1)
  }

  /** `m * 10^k`, by appending `k` zeros one at a time. */
  function Scale(m: nat, k: nat): nat {
    if k == 0 then m else 10 * Scale(m, k - 1)
  }

  lemma {:induction false} ScaleIsProduct(m: nat, k: nat)
    ensures Scale(m, k) == m * Pow10(k)
  {
    if k > 0 { ScaleIsProduct(m, k - 1); }
  }

  lemma {:induction false} ScaleAdd(m: nat, j: nat, k: nat)
    ensures Scale(Scale(m, j), k) == Scale(m, j + k)
  {
    if k > 0 { ScaleAdd(m, j, k - 1); }
  }

  lemma {:induction false} ScaleSum(a: nat, b: nat, k: nat)
    ensures Scale(a + b, k) == Scale(a, k) + Scale(b, k)
  {
    if k > 0 { ScaleSum(a, b, k - 1); }
  }

  lemma {:induction false} ScaleMonotone(a: nat, b: nat, k: nat)
    requires a <= b
    ensures Scale(a, k) <= Scale(b, k)
    ensures a < b ==> Scale(a, k) < Scale(b, k)
  {
    if k > 0 { ScaleMonotone(a, b, k - 1); }
  }

  lemma {:induction false} ScaleGrows(m: nat, j: nat, k: nat)
    requires j <= k
    ensures Scale(m, j) <= Scale(m, k)
  {
    if j < k { ScaleGrows(m, j, k - 1); }
  }

  lemma {:induction false} PowMonotone(j: nat, k: nat)
    requires j <= k
    ensures Pow10(j) <= Pow10(k)
  {
    if j < k { PowMonotone(j, k - 1); }
  }

  predicate IsDigit(c: char) { '0' <= c <= '9' }

  predicate AllDigits(s: string) { forall i :: 0 <= i < |s| ==> IsDigit(s[i]) }

  function DigitChar(d: nat): (c: char)
    requires d < 10
    ensures IsDigit(c) && DigitOf(c) == d
  {
    '0' + d as char
  }

  function DigitOf(c: char): (d: nat)
    requires IsDigit(c)
    ensures d < 10
  {
    (c - '0') as nat
  }

  /** The number a digit string denotes, most significant digit first. */
  function Value(s: string): nat
    requires AllDigits(s)
  {
    if s == "" then 0 else 10 * Value(s[..|s| - 1]) + DigitOf(s[|s| - 1])
  }

  /** The canonical decimal string of a number: no leading zero unless it is "0". */
  function ToDigits(n: nat): (s: string)
    ensures s != "" && AllDigits(s)
  {
    if n < 10 then [DigitChar(n)] else ToDigits(n / 10) + [DigitChar(n % 10)]
  }

  function Zeros(k: nat): (s: string)
    ensures |s| == k && AllDigits(s)
  {
    seq(k, _ => '0')
  }

  lemma {:induction false} ToDigitsValue(n: nat)
    ensures Value(ToDigits(n)) == n
  {
    if n >= 10 {
      ToDigitsValue(n / 10);
      var s := ToDigits(n);
      assert s[..|s| - 1] == ToDigits(n / 10);
    } else {
      assert ToDigits(n)[..0] == "";
    }
  }

  lemma {:induction false} NoLeadingZero(n: nat)
    ensures |ToDigits(n)| > 1 ==> ToDigits(n)[0] != '0'
    ensures ToDigits(n)[0] == '0' ==> n == 0
  {
    if n >= 10 { NoLeadingZero(n / 10); }
  }

  /** The length of the string places the number between two powers of ten. */
  lemma {:induction false} ToDigitsLength(n: nat)
    ensures n < Scale(1, |ToDigits(n)|)
    ensures n > 0 ==> Scale(1, |ToDigits(n)| - 1) <= n
  {
    if n >= 10 { ToDigitsLength(n / 10); }
  }

  lemma {:induction false} ValueBound(s: string)
    requires AllDigits(s)
    ensures Value(s) < Scale(1, |s|)
  {
    if s != "" { ValueBound(s[..|s| - 1]); }
  }

  lemma {:induction false} ValueConcat(s: string, t: string)
    requires AllDigits(s) && AllDigits(t)
    ensures AllDigits(s + t) && Value(s + t) == Scale(Value(s), |t|) + Value(t)
  {
    if t == "" {
      assert s + t == s;
    } else {
      var u := t[..|t| - 1];
      ValueConcat(s, u);
      assert (s + t)[..|s + t| - 1] == s + u;
    }
  }

  lemma {:induction false} ZerosValue(k: nat)
    ensures Value(Zeros(k)) == 0
  {
    if k > 0 {
      ZerosValue(k - 1);
      assert Zeros(k)[..k - 1] == Zeros(k - 1);
    }
  }

  lemma ValuePadded(s: string, k: nat)
    requires AllDigits(s)
    ensures AllDigits(s + Zeros(k)) && Value(s + Zeros(k)) == Scale(Value(s), k)
  {
    ValueConcat(s, Zeros(k));
    ZerosValue(k);
  }
}
