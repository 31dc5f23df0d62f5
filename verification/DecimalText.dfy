/** Parsing and formatting scaled decimals, with every 128-bit overflow check of the code. */
module DecimalText {
  import opened Wrappers
  import opened Digits
  import opened Decimal

  /** The Unicode White_Space property, which `str::trim` strips. */
  predicate IsWhitespace(c: char) {
    || '\t' <= c <= '\r' || c == ' ' || c == '\U{85}' || c == '\U{A0}' || c == '\U{1680}'
    || '\U{2000}' <= c <= '\U{200A}' || c == '\U{2028}' || c == '\U{2029}' || c == '\U{202F}'
    || c == '\U{205F}' || c == '\U{3000}'
  }

  function TrimStart(s: string): string {
    if s != "" && IsWhitespace(s[0]) then TrimStart(s[1..]) else s
  }

  function TrimEnd(s: string): string {
    if s != "" && IsWhitespace(s[|s| - 1]) then TrimEnd(s[..|s| - 1]) else s
  }

  function Trim(s: string): string { TrimEnd(TrimStart(s)) }

  ghost predicate Space(s: string) { forall i :: 0 <= i < |s| ==> IsWhitespace(s[i]) }

  /** What is trimmed is white space; what is left does not begin with it. */
  lemma {:induction false} StartTrimmed(s: string) returns (gap: string)
    ensures Space(gap) && s == gap + TrimStart(s)
    ensures var t := TrimStart(s); t != "" ==> !IsWhitespace(t[0])
  {
    if s != "" && IsWhitespace(s[0]) {
      gap := StartTrimmed(s[1..]);
      gap := [s[0]] + gap;
    } else {
      gap := "";
    }
  }

  /** And what is left does not end with it. */
  lemma {:induction false} EndTrimmed(s: string) returns (gap: string)
    ensures Space(gap) && s == TrimEnd(s) + gap
    ensures var t := TrimEnd(s); t != "" ==> !IsWhitespace(t[|t| - 1])
  {
    if s != "" && IsWhitespace(s[|s| - 1]) {
      gap := EndTrimmed(s[..|s| - 1]);
      gap := gap + [s[|s| - 1]];
    } else {
      gap := "";
    }
  }

  /** White space goes from both ends, and nothing else. */
  lemma Trimmed(s: string) returns (before: string, after: string)
    ensures Space(before) && Space(after) && s == before + (Trim(s) + after)
    ensures var t := Trim(s); t != "" ==> !IsWhitespace(t[0]) && !IsWhitespace(t[|t| - 1])
  {
    before := StartTrimmed(s);
    after := EndTrimmed(TrimStart(s));
  }

  /** `split_once('.')`, with an empty second part when there is no point. */
  function SplitPoint(s: string): (string, string) {
    if s == "" then ("", "")
    else if s[0] == '.' then ("", s[1..])
    else var (i, f) := SplitPoint(s[1..]); ([s[0]] + i, f)
  }

  /** `parse::<i128>` on a non-empty digit string. */
  function ParseI128(digits: string): Option<nat>
    requires AllDigits(digits)
  {
    if Value(digits) <= I128_MAX then Some(Value(digits)) else None
  }

  function CheckedPow10(k: nat): Option<nat> {
    if Pow10(k) <= I128_MAX then Some(Pow10(k)) else None
  }

  function CheckedMul(a: nat, b: nat): Option<nat> {
    if a * b <= I128_MAX then Some(a * b) else None
  }

  function CheckedAdd(a: nat, b: nat): Option<nat> {
    if a + b <= I128_MAX then Some(a + b) else None
  }

  predicate IsSign(c: char) { c == '-' || c == '+' }

  function StripSign(s: string): string { if s != "" && IsSign(s[0]) then s[1..] else s }

  function ParseDecimal128(text: string, scale: u8): Option<int> {
    var s := Trim(text);
    var neg := s != "" && s[0] == '-';
    var (intPart, fracPart) := SplitPoint(StripSign(s));
    if (intPart == "" && fracPart == "") || !AllDigits(intPart) || !AllDigits(fracPart) then None
    else WithSign(neg, ParseMagnitude(intPart, fracPart, scale))
  }

  function WithSign(neg: bool, m: Option<nat>): Option<int> {
    match m
    case None => None
    case Some(v) => Some(if neg then 0 - v else v)
  }

  function ParseMagnitude(intPart: string, fracPart: string, scale: u8): Option<nat>
    requires AllDigits(intPart) && AllDigits(fracPart)
  {
    var intVal := if intPart == "" then Some(0) else ParseI128(intPart);
    var pow := CheckedPow10(scale);
    if intVal.None? || pow.None? then None
    else
      var val := CheckedMul(intVal.value, pow.value);
      var digits := fracPart[..if |fracPart| < scale then |fracPart| else scale];
      if val.None? then None
      else if digits == "" then val
      else
        var frac, shift := ParseI128(digits), CheckedPow10(scale - |digits|);
        if frac.None? || shift.None? then None
        else
          var scaled := CheckedMul(frac.value, shift.value);
          if scaled.None? then None else CheckedAdd(val.value, scaled.value)
  }

  function FormatDecimal128(value: i128, scale: u8): string {
    var sign := if value < 0 then "-" else "";
    if scale == 0 then sign + ToDigits(Abs(value))
    else
      var digits := PadLeft(ToDigits(Abs(value)), scale + 1);
      var split := |digits| - scale;
      sign + digits[..split] + "." + digits[split..]
  }

  /** Left-pad with '0' to at least `width`. */
  function PadLeft(s: string, width: nat): (r: string)
    ensures |r| >= width
  {
    if |s| < width then Zeros(width - |s|) + s else s
  }

  // ---------------------------------------------------------------- what a text denotes

  /** `s` is a sign or none, digits, and a point and digits or none; at least one digit. */
  ghost predicate Written(s: string, sign: string, intPart: string, point: bool, fracPart: string) {
    && (sign == "" || sign == "+" || sign == "-")
    && AllDigits(intPart) && AllDigits(fracPart) && (intPart != "" || fracPart != "")
    && (!point ==> fracPart == "")
    && s == sign + Unsigned(intPart, point, fracPart)
  }

  ghost function Unsigned(intPart: string, point: bool, fracPart: string): string {
    intPart + if point then "." + fracPart else ""
  }

  /** The truncated scaled magnitude: `floor(int.frac * 10^scale)`. */
  ghost function Magnitude(intPart: string, fracPart: string, scale: nat): nat
    requires AllDigits(intPart) && AllDigits(fracPart)
  {
    assert AllDigits(intPart + fracPart);
    Scale(Value(intPart + fracPart), scale) / Pow10(|fracPart|)
  }

  lemma {:induction false} SplitUnsigned(intPart: string, point: bool, fracPart: string)
    requires AllDigits(intPart) && (!point ==> fracPart == "")
    ensures SplitPoint(Unsigned(intPart, point, fracPart)) == (intPart, fracPart)
  {
    var s := Unsigned(intPart, point, fracPart);
    if intPart != "" {
      SplitUnsigned(intPart[1..], point, fracPart);
      assert s[0] == intPart[0] && s[1..] == Unsigned(intPart[1..], point, fracPart);
      assert [intPart[0]] + intPart[1..] == intPart;
    } else if point {
      assert s[0] == '.' && s[1..] == fracPart;
    } else {
      assert s == "";
    }
  }

  lemma {:induction false} SplitRejoins(s: string) returns (point: bool)
    ensures !point ==> SplitPoint(s).1 == ""
    ensures s == Unsigned(SplitPoint(s).0, point, SplitPoint(s).1)
  {
    if s == "" {
      point := false;
    } else if s[0] == '.' {
      point := true;
    } else {
      point := SplitRejoins(s[1..]);
      assert s == [s[0]] + s[1..];
    }
  }

  /** A written text is taken apart as it was put together. */
  lemma WrittenParts(s: string, sign: string, intPart: string, point: bool, fracPart: string)
    requires Written(s, sign, intPart, point, fracPart)
    ensures SplitPoint(StripSign(s)) == (intPart, fracPart)
    ensures (sign == "-") == (s != "" && s[0] == '-')
  {
    var body := Unsigned(intPart, point, fracPart);
    assert body != "" && !IsSign(body[0]);
    SplitUnsigned(intPart, point, fracPart);
    assert StripSign(s) == body;
  }

  /** Only written decimals are accepted. */
  lemma AcceptedIsWritten(text: string, scale: u8)
    returns (sign: string, intPart: string, point: bool, fracPart: string)
    requires ParseDecimal128(text, scale).Some?
    ensures Written(Trim(text), sign, intPart, point, fracPart)
  {
    var s := Trim(text);
    point := SplitRejoins(StripSign(s));
    intPart, fracPart := SplitPoint(StripSign(s)).0, SplitPoint(StripSign(s)).1;
    sign := if s != "" && IsSign(s[0]) then [s[0]] else "";
    assert s == sign + StripSign(s);
  }

  // ---------------------------------------------------------------- exactness

  /** The scaled fraction the code keeps: the first `scale` digits, shifted up. */
  ghost function KeptFraction(fracPart: string, scale: nat): nat
    requires AllDigits(fracPart)
  {
    var k := if |fracPart| < scale then |fracPart| else scale;
    Scale(Value(fracPart[..k]), scale - k)
  }

  /** Dropping fraction digits past `scale` leaves a remainder below one unit. */
  lemma FractionRemainder(f: string, scale: nat) returns (r: nat)
    requires AllDigits(f)
    ensures Scale(Value(f), scale) == Scale(KeptFraction(f, scale), |f|) + r
    ensures r < Scale(1, |f|)
  {
    if |f| <= scale {
      assert f[..|f|] == f;
      ScaleAdd(Value(f), scale - |f|, |f|);
      r := 0;
      ScaleGrows(1, 0, |f|);
    } else {
      var head, tail := f[..scale], f[scale..];
      assert f == head + tail;
      ValueConcat(head, tail);
      ValueBound(tail);
      ScaleSum(Scale(Value(head), |tail|), Value(tail), scale);
      ScaleAdd(Value(head), |tail|, scale);
      ScaleMonotone(Value(tail), Scale(1, |tail|), scale);
      ScaleAdd(1, |tail|, scale);
      r := Scale(Value(tail), scale);
    }
  }

  lemma Gap(a: nat, b: nat, p: nat)
    requires a < b
    ensures a * p + p <= b * p
  {
    assert b * p == a * p + p + (b - a - 1) * p;
  }

  lemma DivideExact(x: nat, r: nat, p: nat)
    requires r < p
    ensures (x * p + r) / p == x
  {
    var q, rest := (x * p + r) / p, (x * p + r) % p;
    assert x * p + r == q * p + rest && rest < p;
    if q < x { Gap(q, x, p); } else if x < q { Gap(x, q, p); }
  }

  lemma NumeratorSplit(i: string, f: string, scale: nat) returns (r: nat)
    requires AllDigits(i) && AllDigits(f)
    ensures AllDigits(i + f)
    ensures Scale(Value(i + f), scale) == Scale(Scale(Value(i), scale) + KeptFraction(f, scale), |f|) + r
    ensures r < Scale(1, |f|)
  {
    var v := Value(i);
    ValueConcat(i, f);
    ScaleSum(Scale(v, |f|), Value(f), scale);
    assert Scale(Scale(v, |f|), scale) == Scale(Scale(v, scale), |f|) by {
      ScaleAdd(v, |f|, scale);
      ScaleAdd(v, scale, |f|);
    }
    r := FractionRemainder(f, scale);
    ScaleSum(Scale(v, scale), KeptFraction(f, scale), |f|);
  }

  /** The truncation toward zero, as the sum the code builds. */
  lemma MagnitudeSum(i: string, f: string, scale: nat)
    requires AllDigits(i) && AllDigits(f)
    ensures Magnitude(i, f, scale) == Scale(Value(i), scale) + KeptFraction(f, scale)
  {
    var x := Scale(Value(i), scale) + KeptFraction(f, scale);
    var r := NumeratorSplit(i, f, scale);
    Quotient(Scale(Value(i + f), scale), x, r, |f|);
  }

  lemma Quotient(n: nat, x: nat, r: nat, k: nat)
    requires n == Scale(x, k) + r && r < Scale(1, k)
    ensures n / Pow10(k) == x
  {
    ScaleIsProduct(x, k);
    ScaleIsProduct(1, k);
    DivideExact(x, r, Pow10(k));
  }

  lemma KeptFractionBound(f: string, scale: nat)
    requires AllDigits(f)
    ensures KeptFraction(f, scale) < Scale(1, scale)
  {
    var k := if |f| < scale then |f| else scale;
    ValueBound(f[..k]);
    ScaleMonotone(Value(f[..k]), Scale(1, k), scale - k);
    ScaleAdd(1, k, scale - k);
  }

  /** 10^38 is the largest power of ten an i128 holds. */
  lemma PowersThatFit(scale: nat)
    ensures Pow10(scale) <= I128_MAX <==> scale <= 38
  {
    assert Pow10(10) == 10_000_000_000;
    assert Pow10(19) == 10_000_000_000_000_000_000;
    assert Pow10(28) == 10_000_000_000_000_000_000_000_000_000;
    assert Pow10(38) == 100_000_000_000_000_000_000_000_000_000_000_000_000;
    if scale <= 38 {
      PowMonotone(scale, 38);
    } else {
      assert Pow10(39) == 10 * Pow10(38);
      PowMonotone(39, scale);
    }
  }

  /** The fraction steps of the code never overflow on their own. */
  lemma FractionFits(f: string, scale: u8)
    requires AllDigits(f) && scale <= 38
    ensures var k := if |f| < scale then |f| else scale;
            && ParseI128(f[..k]) == Some(Value(f[..k]))
            && CheckedPow10(scale - k) == Some(Pow10(scale - k))
            && CheckedMul(Value(f[..k]), Pow10(scale - k)) == Some(KeptFraction(f, scale))
  {
    var k := if |f| < scale then |f| else scale;
    var v, p := Value(f[..k]), Pow10(scale - k);
    PowersThatFit(scale);
    PowersThatFit(scale - k);
    FractionBounds(f, scale);
    assert ParseI128(f[..k]) == Some(v);
    assert CheckedPow10(scale - k) == Some(p);
  }

  lemma FractionBounds(f: string, scale: nat)
    requires AllDigits(f)
    ensures var k := if |f| < scale then |f| else scale;
            Value(f[..k]) * Pow10(scale - k) == KeptFraction(f, scale) && Value(f[..k]) <= KeptFraction(f, scale)
            && KeptFraction(f, scale) < Pow10(scale)
  {
    var k := if |f| < scale then |f| else scale;
    KeptFractionBound(f, scale);
    ScaleIsProduct(1, scale);
    ScaleIsProduct(Value(f[..k]), scale - k);
    ScaleGrows(Value(f[..k]), 0, scale - k);
  }

  /** The checked arithmetic yields the truncated magnitude exactly when that fits. */
  lemma MagnitudeExact(i: string, f: string, scale: u8)
    requires AllDigits(i) && AllDigits(f)
    ensures ParseMagnitude(i, f, scale) ==
            if scale <= 38 && Magnitude(i, f, scale) <= I128_MAX then Some(Magnitude(i, f, scale)) else None
  {
    PowersThatFit(scale);
    if scale <= 38 {
      MagnitudeSum(i, f, scale);
      ScaleGrows(Value(i), 0, scale);
      ScaleIsProduct(Value(i), scale);
      FractionFits(f, scale);
    }
  }

  /** For every text and scale: a value comes back exactly when the scale is at most 38, the
      trimmed text is a written decimal, and its truncated scaled magnitude fits; and it is
      that magnitude with the sign. */
  lemma ParseDecimal128Exact(text: string, scale: u8, sign: string, intPart: string, point: bool, fracPart: string)
    requires Written(Trim(text), sign, intPart, point, fracPart)
    ensures var m := Magnitude(intPart, fracPart, scale);
            ParseDecimal128(text, scale) ==
            if scale <= 38 && m <= I128_MAX then Some(if sign == "-" then 0 - m else m) else None
  {
    WrittenParts(Trim(text), sign, intPart, point, fracPart);
    MagnitudeExact(intPart, fracPart, scale);
  }

  // ---------------------------------------------------------------- round trip

  lemma {:induction false} LeadingZeros(k: nat, s: string)
    requires AllDigits(s)
    ensures AllDigits(Zeros(k) + s) && Value(Zeros(k) + s) == Value(s)
  {
    ValueConcat(Zeros(k), s);
    ZerosValue(k);
    NothingScaled(|s|);
  }

  lemma {:induction false} NothingScaled(k: nat)
    ensures Scale(0, k) == 0
  {
    if k > 0 { NothingScaled(k - 1); }
  }

  lemma PaddedNumber(m: nat, width: nat)
    ensures var digits := PadLeft(ToDigits(m), width);
            AllDigits(digits) && Value(digits) == m && |digits| >= width
  {
    var raw := ToDigits(m);
    ToDigitsValue(m);
    if |raw| < width { LeadingZeros(width - |raw|, raw); }
  }

  /** Padding adds a leading zero only up to one digit before the point. */
  lemma PaddedLead(m: nat, scale: nat)
    ensures var digits := PadLeft(ToDigits(m), scale + 1);
            |digits| > scale + 1 ==> digits[0] != '0'
  {
    NoLeadingZero(m);
  }

  /** The padded digits, split where the point goes. */
  lemma PaddedParts(m: nat, scale: nat) returns (intPart: string, fracPart: string)
    ensures PadLeft(ToDigits(m), scale + 1) == intPart + fracPart && intPart != "" && |fracPart| == scale
    ensures AllDigits(intPart) && AllDigits(fracPart) && AllDigits(intPart + fracPart)
    ensures Value(intPart + fracPart) == m
    ensures |intPart| > 1 ==> intPart[0] != '0'
  {
    var digits := PadLeft(ToDigits(m), scale + 1);
    PaddedNumber(m, scale + 1);
    PaddedLead(m, scale);
    intPart, fracPart := digits[..|digits| - scale], digits[|digits| - scale..];
    assert intPart + fracPart == digits;
  }

  /** The text is the sign and the padded digits with the point in its place. */
  lemma FormatText(value: i128, scale: u8, intPart: string, fracPart: string)
    requires PadLeft(ToDigits(Abs(value)), scale + 1) == intPart + fracPart && |fracPart| == scale
    ensures FormatDecimal128(value, scale) ==
            (if value < 0 then "-" else "") + Unsigned(intPart, scale > 0, fracPart)
  {
    var digits, sign := PadLeft(ToDigits(Abs(value)), scale + 1), if value < 0 then "-" else "";
    if scale == 0 {
      assert digits == ToDigits(Abs(value)) && fracPart == "";
      assert sign + digits == sign + (intPart + "");
    } else {
      assert digits[..|digits| - scale] == intPart && digits[|digits| - scale..] == fracPart;
      assert sign + intPart + "." + fracPart == sign + (intPart + ("." + fracPart));
    }
  }

  /** The formatted text is a minus sign for a negative value and none otherwise, and the digits
      of `|value|` with the point `scale` of them from the end; at least one digit comes before
      it, and only a single one of those is ever a leading zero. */
  lemma FormatWritten(value: i128, scale: u8) returns (sign: string, intPart: string, fracPart: string)
    ensures Written(FormatDecimal128(value, scale), sign, intPart, scale > 0, fracPart)
    ensures |fracPart| == scale && sign == (if value < 0 then "-" else "")
    ensures intPart != "" && AllDigits(intPart + fracPart) && Value(intPart + fracPart) == Abs(value)
    ensures |intPart| > 1 ==> intPart[0] != '0'
  {
    sign := if value < 0 then "-" else "";
    intPart, fracPart := PaddedParts(Abs(value), scale);
    FormatText(value, scale, intPart, fracPart);
  }

  lemma ParsesBack(s: string, value: i128, scale: u8, sign: string, intPart: string, fracPart: string)
    requires Trim(s) == s && Written(s, sign, intPart, scale > 0, fracPart) && |fracPart| == scale
    requires (sign == "-" <==> value < 0) && AllDigits(intPart + fracPart) && Value(intPart + fracPart) == Abs(value)
    ensures ParseDecimal128(s, scale) == if scale <= 38 && value != I128_MIN then Some(value) else None
  {
    ParseDecimal128Exact(s, scale, sign, intPart, scale > 0, fracPart);
    ScaleGrows(1, 0, scale);
    Quotient(Scale(Abs(value), scale), Abs(value), 0, scale);
    assert Magnitude(intPart, fracPart, scale) == Abs(value);
  }

  /** Parsing a formatted value gives it back, for every value but `i128::MIN` and every scale
      up to 38; otherwise nothing comes back. */
  lemma FormatParses(value: i128, scale: u8)
    ensures ParseDecimal128(FormatDecimal128(value, scale), scale) ==
            if scale <= 38 && value != I128_MIN then Some(value) else None
  {
    var s := FormatDecimal128(value, scale);
    var sign, intPart, fracPart := FormatWritten(value, scale);
    ParsesBack(s, value, scale, sign, intPart, fracPart);
  }
}
