/**
 * Decimal digit strings: their value, the canonical rendering of a natural number
 * (`Number.prototype.toString` / `BigInt.prototype.toString` in base 10), and the
 * removal of trailing zeros that viem's `formatUnits` applies to a fraction.
 */
module Digits {
  import opened JsString

  predicate IsDigit(c: char) {
    '0' <= c <= '9'
  }

  predicate AllDigits(s: string) {
    forall k :: 0 <= k < |s| ==> IsDigit(s[k])
  }

  /** `d` shifted left by `n` decimal places, d * 10^n. */
  function Shift(d: nat, n: nat): nat {
    if n == 0 then d else 10 * Shift(d, n - 1)
  }

  /** Shifting by `a` and then by `b` places is shifting by `a + b`. */
  lemma {:induction false} ShiftShift(d: nat, a: nat, b: nat)
    ensures Shift(Shift(d, a), b) == Shift(d, a + b)
    decreases b
  {
    if b > 0 {
      ShiftShift(d, a, b - 1);
    }
  }

  lemma {:induction false} ShiftOfZero(n: nat)
    ensures Shift(0, n) == 0
  {
    if n > 0 {
      ShiftOfZero(n - 1);
    }
  }

  /** Shifting distributes over a sum. */
  lemma {:induction false} ShiftAdd(x: nat, y: nat, n: nat)
    ensures Shift(x + y, n) == Shift(x, n) + Shift(y, n)
  {
    if n > 0 {
      ShiftAdd(x, y, n - 1);
    }
  }

  /** Shifting by the same number of places keeps the order of two numbers. */
  lemma {:induction false} ShiftMonotone(x: nat, y: nat, n: nat)
    ensures x <= y <==> Shift(x, n) <= Shift(y, n)
  {
    if n > 0 {
      ShiftMonotone(x, y, n - 1);
    }
  }

  /** Shifting never makes a number smaller. */
  lemma {:induction false} ShiftGrows(d: nat, n: nat)
    ensures d <= Shift(d, n)
  {
    if n > 0 {
      ShiftGrows(d, n - 1);
    }
  }

  /** A smaller number shifted by fewer places stays at most a larger one shifted by more. */
  lemma {:induction false} ShiftAtMost(a: nat, b: nat, i: nat, j: nat)
    requires a <= b && i <= j
    ensures Shift(a, i) <= Shift(b, j)
  {
    ShiftGrows(b, j - i);
    ShiftShift(b, j - i, i);
    ShiftMonotone(a, b, i);
    ShiftMonotone(b, Shift(b, j - i), i);
  }

  function DigitChar(d: nat): (c: char)
    requires d < 10
    ensures IsDigit(c)
  {
    ('0' as int + d) as char
  }

  /** The value of one character read as a decimal digit (0 for anything else). */
  function DigitValue(c: char): (d: nat)
    ensures d < 10
  {
    if IsDigit(c) then c as int - '0' as int else 0
  }

  /** The number a digit string denotes, most significant digit first. */
  function DigitsValue(s: string): nat {
    if s == [] then 0 else DigitsValue(s[..|s| - 1]) * 10 + DigitValue(s[|s| - 1])
  }

  /** The digits of `b` written after those of `a` shift `a` by |b| decimal places. */
  lemma {:induction false} DigitsValueAppend(a: string, b: string)
    ensures DigitsValue(a + b) == Shift(DigitsValue(a), |b|) + DigitsValue(b)
    decreases |b|
  {
    if b == [] {
      assert a + b == a;
    } else {
      var b' := b[..|b| - 1];
      assert (a + b)[..|a + b| - 1] == a + b';
      DigitsValueAppend(a, b');
    }
  }

  lemma {:induction false} ZerosValue(z: string)
    requires forall k :: 0 <= k < |z| ==> z[k] == '0'
    ensures DigitsValue(z) == 0
  {
    if z != [] {
      ZerosValue(z[..|z| - 1]);
    }
  }

  /** Padding on the left with zeros, as `padStart(width, "0")`, keeps digits and value. */
  lemma {:induction false} PadZerosValue(s: string, width: nat)
    ensures AllDigits(s) ==> AllDigits(PadStart(s, width, '0'))
    ensures DigitsValue(PadStart(s, width, '0')) == DigitsValue(s)
  {
    var z := Repeat('0', if |s| >= width then 0 else width - |s|);
    ZerosValue(z);
    DigitsValueAppend(z, s);
    ShiftOfZero(|s|);
  }

  /**
   * A digit string padded with zeros to at least `n` digits and cut `n` digits from the right:
   * the value is the left part shifted by `n` places plus the right part.
   */
  lemma {:induction false} AllDigitsSlice(s: string, i: nat, j: nat)
    requires AllDigits(s) && i <= j <= |s|
    ensures AllDigits(s[i..j])
  {
  }

  lemma {:induction false} SplitPadded(s: string, n: nat) returns (left: string, right: string)
    requires AllDigits(s)
    ensures var display := PadStart(s, n, '0');
      left == display[..|display| - n] && right == display[|display| - n..]
    ensures AllDigits(left) && AllDigits(right) && |right| == n
    ensures DigitsValue(s) == Shift(DigitsValue(left), n) + DigitsValue(right)
  {
    var display := PadStart(s, n, '0');
    var m := |display| - n;
    left := display[..m];
    right := display[m..];
    SplitPaddedDigits(s, n);
    PadZerosValue(s, n);
    assert display == left + right;
    DigitsValueAppend(left, right);
  }

  lemma {:induction false} SplitPaddedDigits(s: string, n: nat)
    requires AllDigits(s)
    ensures var display := PadStart(s, n, '0');
      AllDigits(display[..|display| - n]) && AllDigits(display[|display| - n..])
  {
    var display := PadStart(s, n, '0');
    PadZerosValue(s, n);
    AllDigitsSlice(display, 0, |display| - n);
    AllDigitsSlice(display, |display| - n, |display|);
  }

  /** The decimal rendering of a natural number: digits only, no leading zero, denoting `n`. */
  function NatToString(n: nat): (s: string)
    ensures |s| >= 1 && AllDigits(s)
    ensures DigitsValue(s) == n
    ensures s[0] == '0' ==> n == 0 && s == "0"
  {
    if n < 10 then [DigitChar(n)]
    else
      var prefix := NatToString(n / 10);
      var s := prefix + [DigitChar(n % 10)];
      assert s[..|s| - 1] == prefix;
      s
  }

  /**
   * `s.replace(/(0+)$/, "")`: the longest prefix of `s` that does not end in '0';
   * everything removed is a '0'.
   */
  function TrimTrailingZeros(s: string): (r: string)
    ensures |r| <= |s| && r == s[..|r|]
    ensures r == [] || r[|r| - 1] != '0'
  {
    if s != [] && s[|s| - 1] == '0' then TrimTrailingZeros(s[..|s| - 1]) else s
  }

  /** Trimming keeps a digit string a digit string. */
  lemma {:induction false} TrimmedAreDigits(s: string)
    requires AllDigits(s)
    ensures AllDigits(TrimTrailingZeros(s))
  {
    AllDigitsSlice(s, 0, |TrimTrailingZeros(s)|);
  }

  /** Everything `TrimTrailingZeros` removes is a '0'. */
  lemma {:induction false} TrimmedAreZeros(s: string)
    ensures forall k :: |TrimTrailingZeros(s)| <= k < |s| ==> s[k] == '0'
  {
    if s != [] && s[|s| - 1] == '0' {
      TrimmedAreZeros(s[..|s| - 1]);
    }
  }

  /** A string that does not end in '0' is left alone by trimming. */
  lemma {:induction false} TrimmedIsFixed(s: string)
    requires s == [] || s[|s| - 1] != '0'
    ensures TrimTrailingZeros(s) == s
  {
  }

  /** Trailing zeros of a fraction scale its digits: s = r * 10^(|s| - |r|). */
  lemma {:induction false} TrimTrailingZerosValue(s: string)
    ensures AllDigits(s) ==> AllDigits(TrimTrailingZeros(s))
    ensures DigitsValue(s) == Shift(DigitsValue(TrimTrailingZeros(s)), |s| - |TrimTrailingZeros(s)|)
  {
    var r := TrimTrailingZeros(s);
    TrimmedAreZeros(s);
    var z := s[|r|..];
    assert s == r + z;
    ZerosValue(z);
    DigitsValueAppend(r, z);
  }
}
