/**
 * The CountdownTimer component: the time left until the auction's end, split into days, hours,
 * minutes and seconds on every one-second tick, and each unit shown padded to two digits.
 */
module Countdown {
  import opened Wrappers
  import opened JsString
  import opened Digits

  const MsPerSecond: nat := 1000
  const MsPerMinute: nat := 60 * MsPerSecond
  const MsPerHour: nat := 60 * MsPerMinute
  const MsPerDay: nat := 24 * MsPerHour

  /** The `timeLeft` state. */
  datatype TimeLeft = TimeLeft(days: nat, hours: nat, minutes: nat, seconds: nat)

  /** Every unit below days is within its range. */
  predicate InRange(t: TimeLeft) {
    t.hours < 24 && t.minutes < 60 && t.seconds < 60
  }

  /** The milliseconds the four units add up to. */
  function Millis(t: TimeLeft): nat {
    t.days * MsPerDay + t.hours * MsPerHour + t.minutes * MsPerMinute + t.seconds * MsPerSecond
  }

  /**
   * `calculateTimeLeft` for a positive difference: whole days, then the hours, minutes and
   * seconds left over, each rounded down.
   */
  function Decompose(difference: int): TimeLeft
    requires difference > 0
  {
    TimeLeft(difference / MsPerDay, (difference / MsPerHour) % 24,
             (difference / MsPerMinute) % 60, (difference / MsPerSecond) % 60)
  }

  /**
   * The units are in range and add up to the difference rounded down to a whole second: what is
   * shown is never more than what is left, and less by under a second.
   */
  lemma {:induction false} DecomposeRecomposes(difference: int)
    requires difference > 0
    ensures var t := Decompose(difference);
      InRange(t) && Millis(t) <= difference < Millis(t) + MsPerSecond &&
      Millis(t) == difference / MsPerSecond * MsPerSecond
  {
    var t := Decompose(difference);
    var s := difference / 1000;
    var m := difference / 60000;
    var h := difference / 3600000;
    assert m == s / 60;
    assert h == m / 60;
    assert t.days == h / 24;
    assert t.days * 24 + t.hours == h;
    assert h * 60 + t.minutes == m;
    assert m * 60 + t.seconds == s;
    assert Millis(t) == s * 1000;
  }

  /** No other in-range split adds up to the same whole seconds: the split is the only one. */
  lemma {:induction false} DecomposeUnique(t: TimeLeft, difference: int)
    requires difference > 0 && InRange(t)
    requires Millis(t) <= difference < Millis(t) + MsPerSecond
    ensures t == Decompose(difference)
  {
    var h := t.days * 24 + t.hours;
    var m := h * 60 + t.minutes;
    var s := m * 60 + t.seconds;
    var r := difference - Millis(t);
    assert Millis(t) == s * 1000;
    DivisionOf(difference, 1000, s, r);
    DivisionOf(difference, 60000, m, t.seconds * 1000 + r);
    DivisionOf(difference, 3600000, h, t.minutes * 60000 + t.seconds * 1000 + r);
    DivisionOf(difference, 86400000, t.days, t.hours * 3600000 + t.minutes * 60000 + t.seconds * 1000 + r);
    DivisionOf(s, 60, m, t.seconds);
    DivisionOf(m, 60, h, t.minutes);
    DivisionOf(h, 24, t.days, t.hours);
  }

  /** A later tick never shows more time than an earlier one: less time left is never shown as more. */
  lemma {:induction false} DecomposeMonotone(earlier: int, later: int)
    requires 0 < later <= earlier
    ensures Millis(Decompose(later)) <= Millis(Decompose(earlier))
  {
    DecomposeRecomposes(later);
    DecomposeRecomposes(earlier);
    var a, b := later / 1000, earlier / 1000;
    assert later == a * 1000 + later % 1000;
    assert earlier == b * 1000 + earlier % 1000;
    assert (a - b) * 1000 < 1000;
    MultipleOutOfRange(a - b, 1000);
  }

  /** Quotient and remainder are determined by any split of the dividend. */
  lemma {:induction false} DivisionOf(n: int, d: int, q: int, r: int)
    requires d > 0 && 0 <= r < d && n == q * d + r
    ensures n / d == q && n % d == r
  {
    var q0, r0 := n / d, n % d;
    assert n == q0 * d + r0;
    assert (q - q0) * d == r0 - r;
    MultipleOutOfRange(q - q0, d);
  }

  /** A non-zero multiple of a positive divisor is at least the divisor away from zero. */
  lemma {:induction false} MultipleOutOfRange(k: int, d: int)
    requires d > 0
    ensures k >= 1 ==> k * d >= d
    ensures k <= -1 ==> k * d <= -d
  {
  }

  /** `value.toString().padStart(2, '0')`. */
  function Display(value: nat): string {
    PadStart(NatToString(value), 2, '0')
  }

  /**
   * The shown text has at least two digits and reads back as the value; a single digit gets one
   * leading "0", and two or more digits are shown as they are.
   */
  lemma {:induction false} DisplayReadsBack(value: nat)
    ensures var text := Display(value);
      |text| >= 2 && AllDigits(text) && DigitsValue(text) == value
    ensures value < 10 ==> Display(value) == ['0', DigitChar(value)]
    ensures value >= 10 ==> Display(value) == NatToString(value)
  {
    var digits := NatToString(value);
    PadZerosValue(digits, 2);
    if value < 10 {
      assert digits == [DigitChar(value)];
      assert Repeat('0', 1) == "0";
    } else {
      assert |digits| >= 2 by {
        assert digits == NatToString(value / 10) + [DigitChar(value % 10)];
      }
      assert Repeat('0', 0) == [];
      assert [] + digits == digits;
    }
  }

  /** The component's `timeLeft` state. */
  class CountdownTimer {
    var timeLeft: TimeLeft

    /** The state starts at zero in every unit. */
    constructor()
      ensures timeLeft == TimeLeft(0, 0, 0, 0)
    {
      timeLeft := TimeLeft(0, 0, 0, 0);
    }

    /**
     * One run of `calculateTimeLeft` at time `now`: with time left the state is the split of it;
     * at or after the target, or with a target that is not a valid date (None), the state keeps
     * the last values shown instead of going back to zero.
     */
    method Tick(target: Option<int>, now: int)
      modifies this
      ensures target.Some? && target.value - now > 0 ==> timeLeft == Decompose(target.value - now)
      ensures target.None? || target.value - now <= 0 ==> timeLeft == old(timeLeft)
    {
      if target.Some? {
        var difference := target.value - now;
        if difference > 0 {
          timeLeft := Decompose(difference);
        }
      }
    }
  }
}
