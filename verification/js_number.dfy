/**
 * The JavaScript numbers the withdraw page compares: `parseFloat` on the typed amount and
 * `Number(...)` on the formatted balance. A number is kept as an exact decimal
 * ±mantissa / 10^scale; the binary rounding of IEEE doubles is not modelled.
 */
module JsNumber {
  import opened JsString
  import opened Digits

  /** NaN, or the exact decimal ±mantissa / 10^scale (−0 has negative = true, mantissa = 0). */
  datatype Number = NaN | Finite(negative: bool, mantissa: nat, scale: nat)

  /** The longest run of digits at the start of `s`. */
  function LeadingDigits(s: string): (r: string)
    ensures |r| <= |s| && r == s[..|r|] && AllDigits(r)
    ensures |r| == |s| || !IsDigit(s[|r|])
  {
    if s != [] && IsDigit(s[0]) then
      var rest := LeadingDigits(s[1..]);
      assert [s[0]] + rest == s[..|rest| + 1];
      [s[0]] + rest
    else []
  }

  /**
   * `parseFloat(s)` on text without leading white space or exponent: an optional sign, the
   * digits before an optional '.', the digits after it; NaN when neither part has a digit.
   * Whatever follows the longest such prefix is ignored.
   */
  function ParseFloat(s: string): (r: Number)
    ensures r.Finite? && r.negative ==> StartsWith(s, "-")
  {
    var negative := StartsWith(s, "-");
    ParseUnsigned(negative, if negative || StartsWith(s, "+") then s[1..] else s)
  }

  /** `parseFloat` after the sign: digits, then '.' and digits, then anything. */
  function ParseUnsigned(negative: bool, u: string): (r: Number)
    ensures r.Finite? ==> r.negative == negative
  {
    var integer := LeadingDigits(u);
    var after := u[|integer|..];
    var fraction := if StartsWith(after, ".") then LeadingDigits(after[1..]) else "";
    if integer == "" && fraction == "" then NaN
    else Finite(negative, DigitsValue(integer + fraction), |fraction|)
  }

  /** `x === 0` (true for −0 as well). */
  predicate IsZero(x: Number) {
    x.Finite? && x.mantissa == 0
  }

  /** ±mantissa shifted by `n` places: the numerator of `x` over the denominator 10^(scale + n). */
  function SignedShift(x: Number, n: nat): int
    requires x.Finite?
  {
    if x.negative then -(Shift(x.mantissa, n) as int) else Shift(x.mantissa, n)
  }

  /** `x > y`: false when either is NaN; otherwise the two decimals compared over a common denominator. */
  predicate Greater(x: Number, y: Number) {
    x.Finite? && y.Finite? && SignedShift(x, y.scale) > SignedShift(y, x.scale)
  }

  /** Writing the same decimal with `k` more trailing zeros does not change any comparison. */
  lemma {:induction false} GreaterIgnoresTrailingZeros(x: Number, k: nat, y: Number)
    requires x.Finite?
    ensures var x' := Finite(x.negative, Shift(x.mantissa, k), x.scale + k);
      Greater(x', y) == Greater(x, y) && Greater(y, x') == Greater(y, x)
  {
    if y.Finite? {
      var x' := Finite(x.negative, Shift(x.mantissa, k), x.scale + k);
      var a, b := Shift(x.mantissa, y.scale), Shift(y.mantissa, x.scale);
      ShiftShift(x.mantissa, k, y.scale);
      ShiftShift(x.mantissa, y.scale, k);
      ShiftShift(y.mantissa, x.scale, k);
      assert Shift(x'.mantissa, y.scale) == Shift(a, k);
      assert Shift(y.mantissa, x'.scale) == Shift(b, k);
      ShiftMonotone(a, b, k);
      ShiftMonotone(b, a, k);
      ShiftOfZero(k);
      ShiftMonotone(a, 0, k);
      ShiftMonotone(b, 0, k);
    }
  }

  /** No number is greater than itself, and `>` is asymmetric. */
  lemma {:induction false} GreaterAsymmetric(x: Number, y: Number)
    ensures Greater(x, y) ==> !Greater(y, x)
    ensures !Greater(x, x)
  {
  }

  /** Unsigned digits, followed by text that starts with neither a digit nor '.', read as a whole number. */
  lemma {:induction false} ParseFloatWhole(integer: string, rest: string)
    requires AllDigits(integer) && |integer| >= 1
    requires rest == [] || (!IsDigit(rest[0]) && rest[0] != '.')
    ensures ParseFloat(integer + rest) == Finite(false, DigitsValue(integer), 0)
  {
    var s := integer + rest;
    assert !StartsWith(s, "-") && !StartsWith(s, "+") by {
      assert s[0] == integer[0] && IsDigit(integer[0]);
    }
    LeadingDigitsSplit(integer, rest);
    assert !StartsWith(rest, ".");
    assert integer + "" == integer;
  }

  /**
   * `integer.fraction` (either side may be empty, not both) is read as the digits of both
   * sides over 10^|fraction|, whatever non-digit text follows.
   */
  lemma {:induction false} ParseFloatDecimal(integer: string, fraction: string, rest: string)
    requires AllDigits(integer) && AllDigits(fraction) && |integer| + |fraction| >= 1
    requires rest == [] || !IsDigit(rest[0])
    ensures ParseFloat(integer + "." + fraction + rest)
      == Finite(false, DigitsValue(integer + fraction), |fraction|)
  {
    var tail := "." + (fraction + rest);
    var s := integer + "." + fraction + rest;
    assert s == integer + tail;
    assert !StartsWith(s, "-") && !StartsWith(s, "+") by {
      if integer != [] {
        assert s[0] == integer[0] && IsDigit(integer[0]);
      } else {
        assert s[0] == '.';
      }
    }
    ParseUnsignedDecimal(integer, fraction, rest);
  }

  /** `integer.fraction` with nothing after it (either side may be empty, not both). */
  lemma {:induction false} ParseFloatFraction(integer: string, fraction: string)
    requires AllDigits(integer) && AllDigits(fraction) && |integer| + |fraction| >= 1
    ensures ParseFloat(integer + "." + fraction) == Finite(false, DigitsValue(integer + fraction), |fraction|)
  {
    assert integer + "." + fraction + "" == integer + "." + fraction;
    ParseFloatDecimal(integer, fraction, "");
  }

  lemma {:induction false} ParseUnsignedDecimal(integer: string, fraction: string, rest: string)
    requires AllDigits(integer) && AllDigits(fraction) && |integer| + |fraction| >= 1
    requires rest == [] || !IsDigit(rest[0])
    ensures ParseUnsigned(false, integer + ("." + (fraction + rest)))
      == Finite(false, DigitsValue(integer + fraction), |fraction|)
  {
    var tail := "." + (fraction + rest);
    LeadingDigitsSplit(integer, tail);
    assert StartsWith(tail, ".");
    assert tail[1..] == fraction + rest;
    LeadingDigitsSplit(fraction, rest);
  }

  /** Digits followed by a non-digit: those digits lead, and the rest is what follows them. */
  lemma {:induction false} LeadingDigitsSplit(digits: string, rest: string)
    requires AllDigits(digits)
    requires rest == [] || !IsDigit(rest[0])
    ensures LeadingDigits(digits + rest) == digits
    ensures (digits + rest)[|digits|..] == rest
    decreases |digits|
  {
    if digits == [] {
      assert digits + rest == rest;
    } else {
      assert (digits + rest)[1..] == digits[1..] + rest;
      AllDigitsSlice(digits, 1, |digits|);
      LeadingDigitsSplit(digits[1..], rest);
      assert [digits[0]] + digits[1..] == digits;
    }
  }
}
