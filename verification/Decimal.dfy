/** Exact decimal arithmetic on scaled 128-bit integers: comparison across scales, parsing
    and formatting. */
module Decimal {
  import opened Digits

  const I128_MAX: int := 0x7FFF_FFFF_FFFF_FFFF_FFFF_FFFF_FFFF_FFFF
  const I128_MIN: int := -0x8000_0000_0000_0000_0000_0000_0000_0000

  type i128 = x: int | I128_MIN <= x <= I128_MAX witness 0
  type u8 = x: int | 0 <= x < 256

  datatype Ordering = Less | Equal | Greater
  {
    function Reverse(): Ordering {
      match this
      case Less => Greater
      case Equal => Equal
      case Greater => Less
    }
  }

  function Compare(a: int, b: int): Ordering {
    if a < b then Less else if a == b then Equal else Greater
  }

  function Abs(x: int): nat { if x < 0 then -x else x }

  // ---------------------------------------------------------------- comparison

  /** `s` read to `width` bytes, with '0' past its end. */
  function PadTo(s: string, width: nat): string {
    seq(width, i requires 0 <= i < width => if i < |s| then s[i] else '0')
  }

  /** Lexicographic order of strings. */
  function Lexicographic(a: string, b: string): Ordering {
    if a == "" && b == "" then Equal
    else if a == "" then Less
    else if b == "" then Greater
    else if a[0] != b[0] then (if a[0] < b[0] then Less else Greater)
    else Lexicographic(a[1..], b[1..])
  }

  function CompareDecimal128(a: i128, aScale: u8, b: i128, bScale: u8): Ordering {
    if a == 0 || b == 0 || aScale == bScale then Compare(a, b)
    else if a < 0 && b >= 0 then Less
    else if a >= 0 && b < 0 then Greater
    else
      var scale := if aScale < bScale then bScale else aScale;
      var x, y := ToDigits(Abs(a)), ToDigits(Abs(b));
      var xLen, yLen := |x| + scale - aScale, |y| + scale - bScale;
      var order :=
        if xLen != yLen then Compare(xLen, yLen)
        else
          var width := if xLen < yLen then yLen else xLen;
          Lexicographic(PadTo(x, width), PadTo(y, width));
      if a < 0 then order.Reverse() else order
  }

  /** Digit strings of one length are ordered as the numbers they denote. */
  lemma {:induction false} LexicographicIsNumeric(x: string, y: string)
    requires AllDigits(x) && AllDigits(y) && |x| == |y|
    ensures Lexicographic(x, y) == Compare(Value(x), Value(y))
  {
    if x != "" {
      LexicographicIsNumeric(x[1..], y[1..]);
      SplitFirst(x);
      SplitFirst(y);
      LeadingDigit(DigitOf(x[0]), DigitOf(y[0]), |x| - 1);
      LeadingDigit(DigitOf(y[0]), DigitOf(x[0]), |x| - 1);
    }
  }

  lemma SplitFirst(x: string)
    requires AllDigits(x) && x != ""
    ensures Value(x) == Scale(DigitOf(x[0]), |x| - 1) + Value(x[1..])
    ensures Value(x[1..]) < Scale(1, |x| - 1)
  {
    assert x == [x[0]] + x[1..];
    ValueConcat([x[0]], x[1..]);
    assert Value([x[0]]) == DigitOf(x[0]);
    ValueBound(x[1..]);
  }

  lemma LeadingDigit(d: nat, e: nat, k: nat)
    ensures d < e ==> Scale(d, k) + Scale(1, k) <= Scale(e, k)
  {
    if d < e {
      ScaleSum(d, 1, k);
      ScaleMonotone(d + 1, e, k);
    }
  }

  /** A shorter (scaled) number is smaller. */
  lemma ShorterIsSmaller(m: nat, j: nat, n: nat, k: nat)
    requires n > 0 && |ToDigits(m)| + j < |ToDigits(n)| + k
    ensures Scale(m, j) < Scale(n, k)
  {
    var x, y := |ToDigits(m)|, |ToDigits(n)|;
    ToDigitsLength(m);
    ScaleMonotone(m, Scale(1, x), j);
    ScaleAdd(1, x, j);
    ToDigitsLength(n);
    ScaleMonotone(Scale(1, y - 1), n, k);
    ScaleAdd(1, y - 1, k);
    ScaleGrows(1, x + j, y - 1 + k);
  }

  lemma PaddedDigits(m: nat, j: nat)
    ensures var padded := PadTo(ToDigits(m), |ToDigits(m)| + j);
            AllDigits(padded) && Value(padded) == Scale(m, j)
  {
    var x := ToDigits(m);
    assert PadTo(x, |x| + j) == x + Zeros(j);
    ValuePadded(x, j);
    ToDigitsValue(m);
  }

  /** The digit-string comparison of magnitudes is exact. */
  lemma MagnitudesExact(m: nat, j: nat, n: nat, k: nat)
    requires m > 0 && n > 0
    ensures var x, y := ToDigits(m), ToDigits(n);
            var xLen, yLen := |x| + j, |y| + k;
            (if xLen != yLen then Compare(xLen, yLen) else Lexicographic(PadTo(x, xLen), PadTo(y, xLen)))
            == Compare(Scale(m, j), Scale(n, k))
  {
    var x, y := ToDigits(m), ToDigits(n);
    if |x| + j < |y| + k {
      ShorterIsSmaller(m, j, n, k);
    } else if |x| + j > |y| + k {
      ShorterIsSmaller(n, k, m, j);
    } else {
      PaddedDigits(m, j);
      PaddedDigits(n, k);
      LexicographicIsNumeric(PadTo(x, |x| + j), PadTo(y, |y| + k));
    }
  }

  /** Comparing padded digit strings orders `a / 10^aScale` and `b / 10^bScale` exactly: the
      result is the order of the two integers at the larger scale, without any bound. */
  lemma CompareDecimal128Exact(a: i128, aScale: u8, b: i128, bScale: u8)
    ensures var scale := if aScale < bScale then bScale else aScale;
            CompareDecimal128(a, aScale, b, bScale)
            == Compare(a * Pow10(scale - aScale), b * Pow10(scale - bScale))
  {
    var scale := if aScale < bScale then bScale else aScale;
    if a == 0 || b == 0 || aScale == bScale || (a < 0) != (b < 0) {
      SignDecides(a, Pow10(scale - aScale), b, Pow10(scale - bScale));
      if aScale == bScale { assert Pow10(0) == 1; }
    } else {
      DigitsDecide(a, aScale, b, bScale, scale);
    }
  }

  /** Where the code compares digit strings. */
  lemma DigitsDecide(a: i128, aScale: u8, b: i128, bScale: u8, scale: nat)
    requires a != 0 && b != 0 && aScale != bScale && (a < 0) == (b < 0)
    requires scale == if aScale < bScale then bScale else aScale
    ensures CompareDecimal128(a, aScale, b, bScale)
            == Compare(a * Pow10(scale - aScale), b * Pow10(scale - bScale))
  {
    MagnitudesExact(Abs(a), scale - aScale, Abs(b), scale - bScale);
    SameSignOrder(a, scale - aScale, b, scale - bScale);
  }

  lemma SignDecides(a: int, p: nat, b: int, q: nat)
    requires p > 0 && q > 0
    ensures a == 0 || b == 0 || (a < 0) != (b < 0) ==> Compare(a * p, b * q) == Compare(a, b)
  {
    SignOfProduct(a, p);
    SignOfProduct(b, q);
  }

  lemma SameSignOrder(a: int, j: nat, b: int, k: nat)
    requires (a < 0) == (b < 0)
    ensures var order := Compare(Scale(Abs(a), j), Scale(Abs(b), k));
            Compare(a * Pow10(j), b * Pow10(k)) == if a < 0 then order.Reverse() else order
  {
    ScaleIsProduct(Abs(a), j);
    ScaleIsProduct(Abs(b), k);
    if a < 0 { NegatedOrder(Abs(a), Pow10(j), Abs(b), Pow10(k)); }
  }

  lemma NegatedOrder(m: int, p: int, n: int, q: int)
    ensures Compare(-m * p, -n * q) == Compare(m * p, n * q).Reverse()
  {
    assert -m * p == -(m * p) && -n * q == -(n * q);
  }

  lemma SignOfProduct(a: int, p: nat)
    requires p > 0
    ensures a == 0 ==> a * p == 0
    ensures a > 0 ==> a * p > 0
    ensures a < 0 ==> a * p < 0
  {
  }
}
