/**
 * The two conversions between wei (the smallest unit, an integer) and the decimal ether text
 * the page shows and reads: viem's `formatEther` and `parseEther`, i.e. `formatUnits` and
 * `parseUnits` with 18 decimals. They belong to the viem library, not to this repository;
 * they are written here following viem's published algorithm.
 */
module Ether {
  import opened Wrappers
  import opened JsString
  import opened Digits

  const Decimals: nat := 18

  /** The integer part `formatUnits` prints from a digit string: all but the last `decimals` digits, or "0". */
  function IntegerDigits(digits: string, decimals: nat): string {
    var display := PadStart(digits, decimals, '0');
    var integer := display[..|display| - decimals];
    if integer == "" then "0" else integer
  }

  /** The fraction `formatUnits` prints from a digit string: the last `decimals` digits without trailing zeros. */
  function FractionDigits(digits: string, decimals: nat): string {
    var display := PadStart(digits, decimals, '0');
    TrimTrailingZeros(display[|display| - decimals..])
  }

  /**
   * `formatUnits(value, decimals)`: the decimal digits of `value` padded with zeros to at least
   * `decimals`, split `decimals` places from the right, trailing zeros of the fraction dropped,
   * "0" for an empty integer part, and no "." when nothing remains of the fraction.
   */
  function FormatUnits(value: nat, decimals: nat): string {
    FormatDigits(NatToString(value), decimals)
  }

  /** The text `formatUnits` builds from the digits of a value. */
  function FormatDigits(digits: string, decimals: nat): string {
    var fraction := FractionDigits(digits, decimals);
    IntegerDigits(digits, decimals) + (if fraction == "" then "" else "." + fraction)
  }

  /** `formatEther(wei)` is `formatUnits(wei, 18)`. */
  function FormatEther(wei: nat): string {
    FormatUnits(wei, Decimals)
  }

  /** viem's syntax check `/^(-?)([0-9]*)\.?([0-9]*)$/` on the text after an optional '-'. */
  predicate DecimalSyntax(body: string) {
    match IndexOf(body, ".")
    case None => AllDigits(body)
    case Some(i) => AllDigits(body[..i]) && AllDigits(body[i + 1..])
  }

  /**
   * The smallest units denoted by an integer part and a fraction, rounded to `decimals` places
   * the way `parseUnits` does: the fraction's trailing zeros are dropped; a fraction of at most
   * `decimals` digits is exact; a longer one keeps `decimals` digits and rounds up when the next
   * digit is 5 or more.
   */
  function Magnitude(integer: string, fraction: string, decimals: nat): nat {
    var f := TrimTrailingZeros(fraction);
    var whole := Shift(DigitsValue(integer), decimals);
    if |f| <= decimals then
      whole + Shift(DigitsValue(f), decimals - |f|)
    else
      whole + DigitsValue(f[..decimals]) + (if f[decimals] >= '5' then 1 else 0)
  }

  /**
   * `parseUnits(text, decimals)`: None where viem throws (text outside its decimal syntax),
   * else the signed number of smallest units.
   */
  function ParseUnits(text: string, decimals: nat): (r: Option<int>)
    ensures r.Some? <==> DecimalSyntax(if StartsWith(text, "-") then text[1..] else text)
    ensures r.Some? && !StartsWith(text, "-") ==> r.value >= 0
  {
    var negative := StartsWith(text, "-");
    var body := if negative then text[1..] else text;
    match IndexOf(body, ".")
    case None =>
      if AllDigits(body) then
        var m: int := Magnitude(body, "", decimals);
        Some(if negative then -m else m)
      else None
    case Some(i) =>
      if AllDigits(body[..i]) && AllDigits(body[i + 1..]) then
        var m: int := Magnitude(body[..i], body[i + 1..], decimals);
        Some(if negative then -m else m)
      else None
  }

  /** `parseEther(text)` is `parseUnits(text, 18)`. */
  function ParseEther(text: string): (r: Option<int>)
    ensures r.Some? <==> DecimalSyntax(if StartsWith(text, "-") then text[1..] else text)
    ensures r.Some? && !StartsWith(text, "-") ==> r.value >= 0
  {
    ParseUnits(text, Decimals)
  }

  /** The printed parts are digit strings; the fraction is short and has no trailing zero. */
  lemma {:induction false} PartsAreDigits(digits: string, decimals: nat)
    requires AllDigits(digits)
    ensures AllDigits(IntegerDigits(digits, decimals)) && |IntegerDigits(digits, decimals)| >= 1
    ensures var f := FractionDigits(digits, decimals);
      AllDigits(f) && |f| <= decimals && (f == [] || f[|f| - 1] != '0')
  {
    IntegerPartIsDigits(digits, decimals);
    FractionPartIsDigits(digits, decimals);
  }

  lemma {:induction false} IntegerPartIsDigits(digits: string, decimals: nat)
    requires AllDigits(digits)
    ensures AllDigits(IntegerDigits(digits, decimals))
  {
    SplitPaddedDigits(digits, decimals);
    assert AllDigits("0");
  }

  lemma {:induction false} FractionPartIsDigits(digits: string, decimals: nat)
    requires AllDigits(digits)
    ensures AllDigits(FractionDigits(digits, decimals))
  {
    SplitPaddedDigits(digits, decimals);
    var display := PadStart(digits, decimals, '0');
    TrimmedAreDigits(display[|display| - decimals..]);
  }

  /** The printed integer part has the value of the digits left of the last `decimals`. */
  lemma {:induction false} IntegerDigitsValue(digits: string, decimals: nat)
    ensures var display := PadStart(digits, decimals, '0');
      DigitsValue(IntegerDigits(digits, decimals)) == DigitsValue(display[..|display| - decimals])
  {
    var display := PadStart(digits, decimals, '0');
    var integer := display[..|display| - decimals];
    if integer == "" {
      assert IntegerDigits(digits, decimals) == "0";
      assert DigitsValue("0") == 0;
    } else {
      assert IntegerDigits(digits, decimals) == integer;
    }
  }

  /** The printed fraction, scaled back to `decimals` places, has the value of the last `decimals` digits. */
  lemma {:induction false} FractionDigitsValue(digits: string, decimals: nat)
    ensures |FractionDigits(digits, decimals)| <= decimals
    ensures var display := PadStart(digits, decimals, '0');
      var f := FractionDigits(digits, decimals);
      DigitsValue(display[|display| - decimals..]) == Shift(DigitsValue(f), decimals - |f|)
  {
    var display := PadStart(digits, decimals, '0');
    TrimTrailingZerosValue(display[|display| - decimals..]);
  }

  /** The printed parts denote the digits' value: integer * 10^decimals + fraction scaled to `decimals` places. */
  lemma {:induction false} PartsValue(digits: string, decimals: nat)
    requires AllDigits(digits)
    ensures |FractionDigits(digits, decimals)| <= decimals
    ensures var f := FractionDigits(digits, decimals);
      DigitsValue(digits) == Shift(DigitsValue(IntegerDigits(digits, decimals)), decimals) + Shift(DigitsValue(f), decimals - |f|)
  {
    var left, right := SplitPadded(digits, decimals);
    IntegerDigitsValue(digits, decimals);
    FractionDigitsValue(digits, decimals);
  }

  /** Digits without a '.' parse as a whole number of units. */
  lemma {:induction false} ParseWhole(integer: string, decimals: nat)
    requires AllDigits(integer) && |integer| >= 1
    ensures ParseUnits(integer, decimals) == Some(Shift(DigitsValue(integer), decimals))
  {
    assert !StartsWith(integer, "-") by { assert IsDigit(integer[0]); }
    IndexOfCharAbsent(integer, '.');
    assert TrimTrailingZeros("") == "";
    ShiftOfZero(decimals);
    assert Magnitude(integer, "", decimals) == Shift(DigitsValue(integer), decimals) + Shift(DigitsValue(""), decimals);
  }

  /** `integer.fraction` with a short fraction and no trailing zero parses exactly. */
  lemma {:induction false} ParseDecimal(integer: string, fraction: string, decimals: nat, v: nat)
    requires AllDigits(integer) && |integer| >= 1
    requires AllDigits(fraction) && 1 <= |fraction| <= decimals && fraction[|fraction| - 1] != '0'
    requires v == Shift(DigitsValue(integer), decimals) + Shift(DigitsValue(fraction), decimals - |fraction|)
    ensures ParseUnits(integer + "." + fraction, decimals) == Some(v)
  {
    TrimmedIsFixed(fraction);
    ParseUnitsDecimal(integer, fraction, decimals, v);
  }

  /** `integer.fraction` parses to the rounded magnitude, whatever the length of the fraction. */
  lemma {:induction false} ParseUnitsDecimal(integer: string, fraction: string, decimals: nat, v: nat)
    requires AllDigits(integer) && |integer| >= 1 && AllDigits(fraction)
    requires v == Magnitude(integer, fraction, decimals)
    ensures ParseUnits(integer + "." + fraction, decimals) == Some(v)
  {
    var text := integer + "." + fraction;
    assert text[0] == integer[0];
    assert !StartsWith(text, "-") by { assert IsDigit(text[0]); }
    assert '.' !in multiset(integer);
    assert text == integer + ['.'] + fraction;
    IndexOfCharAfter(integer, '.', fraction);
    assert text[..|integer|] == integer;
    assert text[|integer| + 1..] == fraction;
  }

  /** With at most `decimals` fraction digits nothing is rounded: trailing zeros only scale the fraction. */
  lemma {:induction false} MagnitudeShort(integer: string, fraction: string, decimals: nat)
    requires |fraction| <= decimals
    ensures Magnitude(integer, fraction, decimals)
      == Shift(DigitsValue(integer), decimals) + Shift(DigitsValue(fraction), decimals - |fraction|)
  {
    var f := TrimTrailingZeros(fraction);
    TrimTrailingZerosValue(fraction);
    ShiftShift(DigitsValue(f), |fraction| - |f|, decimals - |fraction|);
  }

  /** The digits of `integer` and `fraction` written together, scaled up to `decimals` places. */
  lemma {:induction false} ShiftOfJoined(integer: string, fraction: string, decimals: nat)
    requires |fraction| <= decimals
    ensures Shift(DigitsValue(integer + fraction), decimals - |fraction|)
      == Shift(DigitsValue(integer), decimals) + Shift(DigitsValue(fraction), decimals - |fraction|)
  {
    DigitsValueAppend(integer, fraction);
    ShiftAdd(Shift(DigitsValue(integer), |fraction|), DigitsValue(fraction), decimals - |fraction|);
    ShiftShift(DigitsValue(integer), |fraction|, decimals - |fraction|);
  }

  /** Trailing zeros of a fraction scale the joined digits: `integer` and `fraction` read as one number. */
  lemma {:induction false} TrimmedJoinedValue(integer: string, fraction: string)
    ensures var f := TrimTrailingZeros(fraction);
      DigitsValue(integer + fraction) == Shift(DigitsValue(integer + f), |fraction| - |f|)
  {
    var f := TrimTrailingZeros(fraction);
    var z := |fraction| - |f|;
    TrimTrailingZerosValue(fraction);
    DigitsValueAppend(integer, fraction);
    DigitsValueAppend(integer, f);
    ShiftShift(DigitsValue(integer), |f|, z);
    ShiftAdd(Shift(DigitsValue(integer), |f|), DigitsValue(f), z);
  }

  /** The digits of `a + b` read as the digits up to `b[k]`, shifted, plus those from `b[k]` on. */
  lemma {:induction false} DigitsValueSplit(a: string, b: string, k: nat)
    requires k <= |b|
    ensures DigitsValue(a + b) == Shift(DigitsValue(a + b[..k]), |b| - k) + DigitsValue(b[k..])
  {
    assert b == b[..k] + b[k..];
    assert (a + b[..k]) + b[k..] == a + b;
    DigitsValueAppend(a + b[..k], b[k..]);
  }

  /** A digit string whose first digit is not '0' denotes a positive number. */
  lemma {:induction false} LeadingDigitPositive(s: string)
    requires |s| >= 1 && '1' <= s[0] <= '9'
    ensures DigitsValue(s) > 0
  {
    assert s == [s[0]] + s[1..];
    DigitsValueAppend([s[0]], s[1..]);
    assert [s[0]][..0] == [];
    assert DigitsValue([s[0]]) == DigitValue(s[0]);
    ShiftOfZero(|s| - 1);
    ShiftMonotone(DigitsValue([s[0]]), 0, |s| - 1);
  }

  /**
   * Rounding to `decimals` places never passes a bound the exact value respects: when
   * `integer.fraction` is at most `bound` units of 10^-decimals, so is what `parseUnits` returns.
   */
  lemma {:induction false} MagnitudeAtMost(integer: string, fraction: string, decimals: nat, bound: nat)
    requires AllDigits(fraction)
    requires Shift(DigitsValue(integer + fraction), decimals) <= Shift(bound, |fraction|)
    ensures Magnitude(integer, fraction, decimals) <= bound
  {
    var f := TrimTrailingZeros(fraction);
    TrimmedBound(integer, fraction, decimals, bound);
    TrimmedAreDigits(fraction);
    TrimmedIsFixed(f);
    MagnitudeTrimmedAtMost(integer, f, decimals, bound);
  }

  /** The bound carries over to the fraction without its trailing zeros. */
  lemma {:induction false} TrimmedBound(integer: string, fraction: string, decimals: nat, bound: nat)
    requires Shift(DigitsValue(integer + fraction), decimals) <= Shift(bound, |fraction|)
    ensures var f := TrimTrailingZeros(fraction);
      Shift(DigitsValue(integer + f), decimals) <= Shift(bound, |f|)
  {
    var f := TrimTrailingZeros(fraction);
    var z := |fraction| - |f|;
    var v := DigitsValue(integer + f);
    TrimmedJoinedValue(integer, fraction);
    ShiftShift(v, z, decimals);
    ShiftShift(v, decimals, z);
    ShiftShift(bound, |f|, z);
    ShiftMonotone(Shift(v, decimals), Shift(bound, |f|), z);
  }

  lemma {:induction false} MagnitudeTrimmedAtMost(integer: string, f: string, decimals: nat, bound: nat)
    requires AllDigits(f) && TrimTrailingZeros(f) == f
    requires Shift(DigitsValue(integer + f), decimals) <= Shift(bound, |f|)
    ensures Magnitude(integer, f, decimals) <= bound
  {
    var v := DigitsValue(integer + f);
    if |f| <= decimals {
      ShiftOfJoined(integer, f, decimals);
      ShiftShift(v, decimals - |f|, |f|);
      ShiftMonotone(Shift(v, decimals - |f|), bound, |f|);
    } else {
      var n := |f| - decimals;
      var m := DigitsValue(integer + f[..decimals]);
      DigitsValueAppend(integer, f[..decimals]);
      DigitsValueSplit(integer, f, decimals);
      ShiftShift(bound, n, decimals);
      ShiftMonotone(v, Shift(bound, n), decimals);
      ShiftMonotone(m, bound, n);
      if f[decimals] >= '5' {
        LeadingDigitPositive(f[decimals..]);
        ShiftMonotone(bound, m, n);
      }
    }
  }

  /** Formatted digits parse back to the digits' value. */
  lemma {:induction false} ParseFormatDigits(digits: string, decimals: nat)
    requires AllDigits(digits)
    ensures ParseUnits(FormatDigits(digits, decimals), decimals) == Some(DigitsValue(digits))
  {
    var integer, fraction := IntegerDigits(digits, decimals), FractionDigits(digits, decimals);
    if fraction == "" {
      assert FormatDigits(digits, decimals) == integer;
      ParseFormatWhole(digits, decimals);
    } else {
      assert FormatDigits(digits, decimals) == integer + "." + fraction;
      ParseFormatDecimal(digits, decimals);
    }
  }

  lemma {:induction false} ParseFormatWhole(digits: string, decimals: nat)
    requires AllDigits(digits) && FractionDigits(digits, decimals) == ""
    ensures ParseUnits(IntegerDigits(digits, decimals), decimals) == Some(DigitsValue(digits))
  {
    var integer := IntegerDigits(digits, decimals);
    PartsAreDigits(digits, decimals);
    ParseWhole(integer, decimals);
    PartsValue(digits, decimals);
    ShiftOfZero(decimals);
  }

  lemma {:induction false} ParseFormatDecimal(digits: string, decimals: nat)
    requires AllDigits(digits) && FractionDigits(digits, decimals) != ""
    ensures ParseUnits(IntegerDigits(digits, decimals) + "." + FractionDigits(digits, decimals), decimals)
      == Some(DigitsValue(digits))
  {
    var integer, fraction := IntegerDigits(digits, decimals), FractionDigits(digits, decimals);
    PartsAreDigits(digits, decimals);
    PartsValue(digits, decimals);
    ParseDecimal(integer, fraction, decimals, DigitsValue(digits));
  }

  /** Formatting never produces text that parsing reads back differently: parse(format(v)) = v. */
  lemma {:induction false} ParseFormatUnits(value: nat, decimals: nat)
    ensures ParseUnits(FormatUnits(value, decimals), decimals) == Some(value)
  {
    ParseFormatDigits(NatToString(value), decimals);
  }

  /** The ether text of a balance reads back as exactly that balance. */
  lemma {:induction false} ParseFormatEther(wei: nat)
    ensures ParseEther(FormatEther(wei)) == Some(wei)
  {
    ParseFormatUnits(wei, Decimals);
  }

  /** Text made of digits and at most one '.', starting with a digit. */
  predicate PlainDecimal(s: string) {
    |s| >= 1 && IsDigit(s[0]) && multiset(s)['.'] <= 1 &&
    forall k :: 0 <= k < |s| ==> IsDigit(s[k]) || s[k] == '.'
  }

  /** A digit string, optionally followed by '.' and more digits, is a plain decimal. */
  lemma {:induction false} JoinedPartsArePlain(integer: string, fraction: string)
    requires AllDigits(integer) && |integer| >= 1 && AllDigits(fraction)
    ensures PlainDecimal(integer + (if fraction == "" then "" else "." + fraction))
  {
    var s := integer + (if fraction == "" then "" else "." + fraction);
    assert s[0] == integer[0];
    assert '.' !in multiset(integer);
    if fraction != "" {
      assert '.' !in multiset(fraction);
      assert s == integer + ['.'] + fraction;
      assert multiset(s) == multiset(integer) + multiset(['.']) + multiset(fraction);
      forall k | 0 <= k < |s|
        ensures IsDigit(s[k]) || s[k] == '.'
      {
        if k < |integer| {
          assert s[k] == integer[k];
        } else if k > |integer| {
          assert s[k] == fraction[k - |integer| - 1];
        }
      }
    } else {
      assert s == integer;
    }
  }

  /** The text `formatUnits` produces is a plain decimal. */
  lemma {:induction false} FormatUnitsIsPlain(value: nat, decimals: nat)
    ensures PlainDecimal(FormatUnits(value, decimals))
  {
    var digits := NatToString(value);
    PartsAreDigits(digits, decimals);
    JoinedPartsArePlain(IntegerDigits(digits, decimals), FractionDigits(digits, decimals));
  }
}
