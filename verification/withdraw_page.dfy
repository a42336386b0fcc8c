/**
 * The withdraw page: a text field for an amount of ether, a MAX button that fills in the whole
 * withdrawable balance, the validation message under the field, the Withdraw button and the
 * "Withdrawal successful" notice. The wallet connection, the balance read from the auction
 * contract and the outcome of the withdrawal transaction are inputs of the model.
 */
module WithdrawPage {
  import opened Wrappers
  import opened JsString
  import opened Digits
  import opened Ether
  import opened JsNumber

  /** The reasons the change handler gives for refusing an amount. */
  datatype WithdrawError =
    | ConnectWallet
    | InvalidNumber
    | NotPositive
    | NoFunds
    | Exceeds(balance: nat)  // the balance in wei at the time of the change

  /** The text shown under the field; an amount above the balance quotes the balance in ether. */
  function Message(error: WithdrawError): string {
    match error
    case ConnectWallet => "Connect wallet to withdraw funds"
    case InvalidNumber => "Please enter a valid number"
    case NotPositive => "Amount must be greater than 0"
    case NoFunds => "No funds to withdraw"
    case Exceeds(wei) => "Amount cannot exceed " + FormatEther(wei) + " ETH"
  }

  /** `userBalance ?? 0n`: the withdrawable balance in wei, 0 while the read has not returned. */
  function BalanceOf(userBalance: Option<nat>): nat {
    userBalance.GetOr(0)
  }

  /**
   * `Number(formatEther(balance))`. `formatEther` prints a plain decimal (FormatUnitsIsPlain),
   * on which `Number` and `parseFloat` agree.
   */
  function BalanceNumber(wei: nat): Number {
    ParseFloat(FormatEther(wei))
  }

  /** The change handler's normalisation: an amount that starts with '.' gets a '0' in front. */
  function Normalize(text: string): string {
    if StartsWith(text, ".") then "0" + text else text
  }

  /** The error the change handler sets for the normalised amount; None clears it. */
  function ChangeError(amount: string, connected: bool, wei: nat): Option<WithdrawError> {
    var x := ParseFloat(amount);
    if amount == "" then None
    else if !connected then Some(ConnectWallet)
    else if x.NaN? then Some(InvalidNumber)
    else if IsZero(x) then Some(NotPositive)
    else if IsZero(BalanceNumber(wei)) then Some(NoFunds)
    else if Greater(x, BalanceNumber(wei)) then Some(Exceeds(wei))
    else None
  }

  /** The Withdraw button's `disabled` attribute. */
  predicate WithdrawDisabled(error: Option<WithdrawError>, amount: string, connected: bool, wei: nat) {
    error.Some? || amount == "" || !connected || Greater(ParseFloat(amount), BalanceNumber(wei))
  }

  /** The MAX button is hidden and disabled exactly when the balance read returned 0. */
  predicate MaxDisabled(userBalance: Option<nat>) {
    userBalance == Some(0)
  }

  /** The keys the key-down handler lets through. */
  const AllowedKeys: seq<string> :=
    ["0", "1", "2", "3", "4", "5", "6", "7", "8", "9", ".",
     "Backspace", "Delete", "ArrowLeft", "ArrowRight"]

  /** The key-down handler cancels a '.' when the amount already holds one, and every key not allowed. */
  predicate KeyPrevented(amount: string, key: string) {
    (key == "." && '.' in amount) || key !in AllowedKeys
  }

  /**
   * What the browser does to the field's text for a key press that is not cancelled, with the
   * selection from `start` to `end`: a printable key replaces the selection, Backspace and
   * Delete remove it or the character before or after the caret. None: the text is unchanged
   * and no change event fires.
   */
  function KeyEdit(text: string, key: string, start: nat, end: nat): Option<string>
    requires start <= end <= |text|
  {
    if |key| == 1 then Some(text[..start] + key + text[end..])
    else if (key == "Backspace" || key == "Delete") && start < end then Some(text[..start] + text[end..])
    else if key == "Backspace" && 0 < start then Some(text[..start - 1] + text[end..])
    else if key == "Delete" && end < |text| then Some(text[..start] + text[end + 1..])
    else None
  }

  /** Text the amount field can hold while it is edited by key presses only. */
  predicate TypedAmount(s: string) {
    s == "" || PlainDecimal(s)
  }

  /** Every character is a digit or '.'. */
  predicate AmountChars(s: string) {
    forall k :: 0 <= k < |s| ==> IsDigit(s[k]) || s[k] == '.'
  }

  /** How many digits follow the '.' of an amount (0 without one). */
  function DigitsAfterDot(s: string): nat {
    match IndexOf(s, ".")
    case None => 0
    case Some(i) => |s| - i - 1
  }

  // ---------------------------------------------------------------------------------------
  // The balance as the page compares it

  /** The balance's number is the exact decimal wei / 10^18, written with at most 18 decimals. */
  lemma {:induction false} BalanceNumberParts(wei: nat) returns (m: nat, s: nat)
    ensures s <= Decimals && BalanceNumber(wei) == Finite(false, m, s)
    ensures Shift(m, Decimals - s) == wei
  {
    var digits := NatToString(wei);
    assert FormatEther(wei) == FormatDigits(digits, Decimals);
    m, s := FormattedNumberParts(digits);
  }

  /** `parseFloat` reads the text `formatUnits` prints as the digits' value over 10^18. */
  lemma {:induction false} FormattedNumberParts(digits: string) returns (m: nat, s: nat)
    requires AllDigits(digits)
    ensures s <= Decimals && ParseFloat(FormatDigits(digits, Decimals)) == Finite(false, m, s)
    ensures Shift(m, Decimals - s) == DigitsValue(digits)
  {
    var integer := IntegerDigits(digits, Decimals);
    var fraction := FractionDigits(digits, Decimals);
    PartsAreDigits(digits, Decimals);
    PartsValue(digits, Decimals);
    assert DigitsValue(digits) == Shift(DigitsValue(integer), Decimals) + Shift(DigitsValue(fraction), Decimals - |fraction|);
    m, s := PrintedNumberParts(integer, fraction);
    assert FormatDigits(digits, Decimals) == integer + (if fraction == "" then "" else "." + fraction);
  }

  /** `parseFloat` of `integer`, or of `integer.fraction` with a short fraction, is their value over 10^|fraction|. */
  lemma {:induction false} PrintedNumberParts(integer: string, fraction: string) returns (m: nat, s: nat)
    requires AllDigits(integer) && |integer| >= 1 && AllDigits(fraction) && |fraction| <= Decimals
    ensures s <= Decimals
    ensures ParseFloat(integer + (if fraction == "" then "" else "." + fraction)) == Finite(false, m, s)
    ensures Shift(m, Decimals - s)
      == Shift(DigitsValue(integer), Decimals) + Shift(DigitsValue(fraction), Decimals - |fraction|)
  {
    if fraction == "" {
      assert integer + "" == integer;
      ParseFloatWhole(integer, "");
      ShiftOfZero(Decimals);
      m, s := DigitsValue(integer), 0;
    } else {
      assert integer + ("." + fraction) == integer + "." + fraction + "";
      ParseFloatDecimal(integer, fraction, "");
      ShiftOfJoined(integer, fraction, Decimals);
      m, s := DigitsValue(integer + fraction), |fraction|;
    }
  }

  /** The page sees "no funds" exactly when the balance is 0 wei. */
  lemma {:induction false} BalanceIsZero(wei: nat)
    ensures IsZero(BalanceNumber(wei)) <==> wei == 0
  {
    var m, s := BalanceNumberParts(wei);
    var k := Decimals - s;
    ShiftOfZero(k);
    ShiftMonotone(m, 0, k);
    assert Shift(m, k) == wei;
    assert m == 0 <==> wei == 0;
    assert BalanceNumber(wei) == Finite(false, m, s);
    assert IsZero(Finite(false, m, s)) <==> m == 0;
  }

  /** `x > balance` is the exact comparison x * 10^18 > wei, and never holds for a negative x. */
  lemma {:induction false} ExceedsBalance(x: Number, wei: nat)
    requires x.Finite?
    ensures Greater(x, BalanceNumber(wei)) <==>
      !x.negative && Shift(x.mantissa, Decimals) > Shift(wei, x.scale)
  {
    var m, s := BalanceNumberParts(wei);
    GreaterThanScaled(x, m, s, wei);
  }

  /** Comparing with `m` / 10^s, where `m` * 10^(18 - s) is `wei`, is comparing with wei / 10^18. */
  lemma {:induction false} GreaterThanScaled(x: Number, m: nat, s: nat, wei: nat)
    requires x.Finite? && s <= Decimals && Shift(m, Decimals - s) == wei
    ensures Greater(x, Finite(false, m, s)) <==>
      !x.negative && Shift(x.mantissa, Decimals) > Shift(wei, x.scale)
  {
    var k := Decimals - s;
    ShiftShift(m, k, x.scale);
    ShiftShift(m, x.scale, k);
    ShiftShift(x.mantissa, s, k);
    ShiftMonotone(Shift(x.mantissa, s), Shift(m, x.scale), k);
  }

  // ---------------------------------------------------------------------------------------
  // Validation

  /** A leading '.' gets a '0': the number is unchanged, except that a bare "." becomes zero. */
  lemma {:induction false} NormalizeNumber(text: string)
    ensures ParseFloat(Normalize(text)) ==
      if StartsWith(text, ".") && ParseFloat(text).NaN? then Finite(false, 0, 0) else ParseFloat(text)
  {
    if StartsWith(text, ".") {
      var s := "0" + text;
      assert !StartsWith(text, "-") && !StartsWith(text, "+") && !IsDigit(text[0]);
      assert !StartsWith(s, "-") && !StartsWith(s, "+") by { assert s[0] == '0'; }
      assert AllDigits("0");
      LeadingDigitsSplit("0", text);
      assert LeadingDigits(text) == [];
      assert text[0..] == text;
      var fraction := LeadingDigits(text[1..]);
      DigitsValueAppend("0", fraction);
      assert "0"[..0] == [];
      assert DigitsValue("0") == 0;
      ShiftOfZero(|fraction|);
      assert "" + fraction == fraction;
    }
  }

  /**
   * The change handler clears the error exactly for an empty amount, or when the wallet is
   * connected, the amount is a number other than 0, the balance is not 0 and the amount is at
   * most the balance (any negative amount is).
   */
  lemma {:induction false} ChangeErrorCleared(amount: string, connected: bool, wei: nat)
    ensures var x := ParseFloat(amount);
      ChangeError(amount, connected, wei) == None <==>
        amount == "" ||
        (connected && x.Finite? && x.mantissa != 0 && wei != 0 &&
         (x.negative || Shift(x.mantissa, Decimals) <= Shift(wei, x.scale)))
  {
    BalanceIsZero(wei);
    var x := ParseFloat(amount);
    if x.Finite? {
      ExceedsBalance(x, wei);
    }
  }

  /** An amount that reads as a non-zero number within a non-zero balance clears the error. */
  lemma {:induction false} ChangeErrorNone(amount: string, wei: nat, x: Number)
    requires amount != "" && ParseFloat(amount) == x && x.Finite? && x.mantissa != 0 && wei != 0
    requires x.negative || Shift(x.mantissa, Decimals) <= Shift(wei, x.scale)
    ensures ChangeError(amount, true, wei) == None
  {
    ChangeErrorCleared(amount, true, wei);
  }

  /** Each error is set for its own reason, tried in this order. */
  lemma {:induction false} ChangeErrorReasons(amount: string, connected: bool, wei: nat)
    ensures var x := ParseFloat(amount); var r := ChangeError(amount, connected, wei);
      (r == Some(ConnectWallet) <==> amount != "" && !connected) &&
      (r == Some(InvalidNumber) <==> amount != "" && connected && x.NaN?) &&
      (r == Some(NotPositive) <==> amount != "" && connected && IsZero(x)) &&
      (r == Some(NoFunds) <==> amount != "" && connected && x.Finite? && x.mantissa != 0 && wei == 0) &&
      (r == Some(Exceeds(wei)) <==>
        amount != "" && connected && x.Finite? && x.mantissa != 0 && wei != 0 &&
        !x.negative && Shift(x.mantissa, Decimals) > Shift(wei, x.scale))
  {
    BalanceIsZero(wei);
    var x := ParseFloat(amount);
    if x.Finite? {
      ExceedsBalance(x, wei);
    }
  }

  /** Right after a change, the Withdraw button is disabled exactly when a message shows or the field is empty. */
  lemma {:induction false} DisabledMatchesError(amount: string, connected: bool, wei: nat)
    ensures var error := ChangeError(amount, connected, wei);
      WithdrawDisabled(error, amount, connected, wei) <==> error.Some? || amount == ""
  {
    if ChangeError(amount, connected, wei).None? && amount != "" {
      assert connected && !Greater(ParseFloat(amount), BalanceNumber(wei));
    }
  }

  // ---------------------------------------------------------------------------------------
  // Key presses

  /** An amount typed with the keys is digits, then optionally '.' and more digits. */
  lemma {:induction false} TypedAmountParts(s: string) returns (integer: string, dot: bool, fraction: string)
    requires TypedAmount(s) && s != ""
    ensures AllDigits(integer) && |integer| >= 1 && AllDigits(fraction)
    ensures dot ==> s == integer + "." + fraction && IndexOf(s, ".") == Some(|integer|)
    ensures !dot ==> s == integer && fraction == "" && IndexOf(s, ".") == None
  {
    if '.' in s {
      var i :| 0 <= i < |s| && s[i] == '.';
      assert s == s[..i] + [s[i]] + s[i + 1..];
      assert multiset(s) == multiset(s[..i]) + multiset([s[i]]) + multiset(s[i + 1..]);
      assert '.' !in multiset(s[..i]) && '.' !in multiset(s[i + 1..]);
      integer, dot, fraction := s[..i], true, s[i + 1..];
      assert i != 0;
      forall k | 0 <= k < |integer|
        ensures IsDigit(integer[k])
      {
        assert integer[k] == s[k];
        assert integer[k] in integer;
      }
      forall k | 0 <= k < |fraction|
        ensures IsDigit(fraction[k])
      {
        assert fraction[k] == s[i + 1 + k];
        assert fraction[k] in fraction;
      }
      assert s == integer + "." + fraction;
      IndexOfCharAfter(integer, '.', fraction);
    } else {
      integer, dot, fraction := s, false, "";
      IndexOfCharAbsent(s, '.');
    }
  }

  /** An amount typed with the keys is a non-negative number and `parseEther` accepts it. */
  lemma {:induction false} TypedAmountParses(s: string)
    requires TypedAmount(s) && s != ""
    ensures ParseFloat(s).Finite? && !ParseFloat(s).negative
    ensures ParseEther(s).Some? && ParseEther(s).value >= 0
  {
    var integer, dot, fraction := TypedAmountParts(s);
    if dot {
      assert s == integer + "." + fraction + "";
      ParseFloatDecimal(integer, fraction, "");
      ParseUnitsDecimal(integer, fraction, Decimals, Magnitude(integer, fraction, Decimals));
    } else {
      assert s == integer + "";
      ParseFloatWhole(integer, "");
      ParseWhole(integer, Decimals);
    }
  }

  /** Normalising text made of digits and at most one '.' gives a typed amount. */
  lemma {:induction false} NormalizeTyped(t: string)
    requires AmountChars(t) && multiset(t)['.'] <= 1
    ensures TypedAmount(Normalize(t))
  {
    if StartsWith(t, ".") {
      var s := "0" + t;
      assert multiset(s) == multiset("0") + multiset(t);
      forall k | 0 <= k < |s|
        ensures IsDigit(s[k]) || s[k] == '.'
      {
        if k > 0 {
          assert s[k] == t[k - 1];
        }
      }
    } else if t != "" {
      assert t[0] != '.';
    }
  }

  /** Replacing `text[a..b]` by `ins` keeps the characters allowed and counts the '.'s. */
  lemma {:induction false} SpliceChars(text: string, a: nat, b: nat, ins: string)
    requires a <= b <= |text| && AmountChars(text) && AmountChars(ins)
    ensures AmountChars(text[..a] + ins + text[b..])
    ensures multiset(text[..a] + ins + text[b..])['.'] <= multiset(text)['.'] + multiset(ins)['.']
  {
    var t := text[..a] + ins + text[b..];
    forall k | 0 <= k < |t|
      ensures IsDigit(t[k]) || t[k] == '.'
    {
      if k < a {
        assert t[k] == text[k];
      } else if k < a + |ins| {
        assert t[k] == ins[k - a];
      } else {
        assert t[k] == text[k - a - |ins| + b];
      }
    }
    assert text == text[..a] + text[a..b] + text[b..];
    assert multiset(text) == multiset(text[..a]) + multiset(text[a..b]) + multiset(text[b..]);
    assert multiset(t) == multiset(text[..a]) + multiset(ins) + multiset(text[b..]);
  }

  /**
   * Key presses the handler lets through keep the field a typed amount: digits with at most
   * one '.', never a leading '.'.
   */
  lemma {:induction false} KeystrokeKeepsTyped(text: string, key: string, start: nat, end: nat)
    requires TypedAmount(text) && start <= end <= |text|
    requires !KeyPrevented(text, key) && KeyEdit(text, key, start, end).Some?
    ensures TypedAmount(Normalize(KeyEdit(text, key, start, end).value))
  {
    if |key| == 1 {
      AllowedCharKey(key, text);
      SpliceTyped(text, start, end, key);
    } else {
      var a, b := DeletedRange(text, key, start, end);
      DeleteTyped(text, a, b, KeyEdit(text, key, start, end).value);
    }
  }

  /** A key press that edits without inserting removes one range of the text. */
  lemma {:induction false} DeletedRange(text: string, key: string, start: nat, end: nat) returns (a: nat, b: nat)
    requires start <= end <= |text| && |key| != 1 && KeyEdit(text, key, start, end).Some?
    ensures a <= b <= |text| && KeyEdit(text, key, start, end).value == text[..a] + text[b..]
  {
    if (key == "Backspace" || key == "Delete") && start < end {
      a, b := start, end;
    } else if key == "Backspace" && 0 < start {
      a, b := start - 1, end;
    } else {
      a, b := start, end + 1;
    }
  }

  /** Deleting `text[a..b]` from a typed amount and normalising gives a typed amount. */
  lemma {:induction false} DeleteTyped(text: string, a: nat, b: nat, t: string)
    requires TypedAmount(text) && a <= b <= |text| && t == text[..a] + text[b..]
    ensures TypedAmount(Normalize(t))
  {
    assert t == text[..a] + "" + text[b..];
    SpliceTyped(text, a, b, "");
  }

  /** A one-character key the handler lets through is a digit, or a '.' when the text has none. */
  lemma {:induction false} AllowedCharKey(key: string, text: string)
    requires |key| == 1 && !KeyPrevented(text, key)
    ensures AmountChars(key)
    ensures multiset(text)['.'] + multiset(key)['.'] <= multiset(text)['.'] + (if key == "." then 1 else 0)
    ensures key == "." ==> multiset(text)['.'] == 0
  {
    assert key == [key[0]];
    assert IsDigit(key[0]) || key[0] == '.';
    if key == "." {
      assert '.' !in multiset(text);
    } else {
      assert key[0] != '.';
    }
  }

  /** Replacing `text[a..b]` of a typed amount by `ins` and normalising gives a typed amount. */
  lemma {:induction false} SpliceTyped(text: string, a: nat, b: nat, ins: string)
    requires TypedAmount(text) && a <= b <= |text| && AmountChars(ins)
    requires multiset(text)['.'] + multiset(ins)['.'] <= 1
    ensures TypedAmount(Normalize(text[..a] + ins + text[b..]))
  {
    assert AmountChars(text);
    SpliceChars(text, a, b, ins);
    NormalizeTyped(text[..a] + ins + text[b..]);
  }

  // ---------------------------------------------------------------------------------------
  // What a withdrawal asks for

  /**
   * `parseFloat` and `parseEther` agree on a typed amount: `parseEther` accepts it, is exact
   * when it has at most 18 decimals, and otherwise rounds without passing any bound that the
   * amount itself respects.
   */
  lemma {:induction false} TypedAmountRounds(s: string, bound: nat)
    requires TypedAmount(s) && s != ""
    ensures var x := ParseFloat(s);
      x.Finite? && !x.negative && x.scale == DigitsAfterDot(s) &&
      ParseEther(s).Some? && ParseEther(s).value >= 0
    ensures var x := ParseFloat(s);
      x.Finite? && x.scale <= Decimals ==> ParseEther(s) == Some(Shift(x.mantissa, Decimals - x.scale))
    ensures var x := ParseFloat(s);
      x.Finite? && Shift(x.mantissa, Decimals) <= Shift(bound, x.scale) ==>
        ParseEther(s).Some? && ParseEther(s).value <= bound
  {
    var integer, dot, fraction := TypedAmountParts(s);
    if dot {
      DecimalAmountRounds(integer, fraction, bound);
    } else {
      WholeAmountRounds(integer);
    }
  }

  /** TypedAmountRounds for `integer.fraction`. */
  lemma {:induction false} DecimalAmountRounds(integer: string, fraction: string, bound: nat)
    requires AllDigits(integer) && |integer| >= 1 && AllDigits(fraction)
    ensures var s := integer + "." + fraction;
      ParseFloat(s) == Finite(false, DigitsValue(integer + fraction), |fraction|) &&
      ParseEther(s) == Some(Magnitude(integer, fraction, Decimals))
    ensures |fraction| <= Decimals ==>
      Magnitude(integer, fraction, Decimals) == Shift(DigitsValue(integer + fraction), Decimals - |fraction|)
    ensures Shift(DigitsValue(integer + fraction), Decimals) <= Shift(bound, |fraction|) ==>
      Magnitude(integer, fraction, Decimals) <= bound
  {
    ParseFloatFraction(integer, fraction);
    ParseUnitsDecimal(integer, fraction, Decimals, Magnitude(integer, fraction, Decimals));
    if |fraction| <= Decimals {
      MagnitudeShort(integer, fraction, Decimals);
      ShiftOfJoined(integer, fraction, Decimals);
    }
    if Shift(DigitsValue(integer + fraction), Decimals) <= Shift(bound, |fraction|) {
      MagnitudeAtMost(integer, fraction, Decimals, bound);
    }
  }

  /** TypedAmountRounds for a whole number. */
  lemma {:induction false} WholeAmountRounds(integer: string)
    requires AllDigits(integer) && |integer| >= 1
    ensures ParseFloat(integer) == Finite(false, DigitsValue(integer), 0)
    ensures ParseEther(integer) == Some(Shift(DigitsValue(integer), Decimals))
  {
    assert integer + "" == integer;
    ParseFloatWhole(integer, "");
    ParseWhole(integer, Decimals);
  }

  /**
   * When the Withdraw button is enabled for a typed amount, `parseEther` accepts it and the
   * request is never more than the balance, rounding of extra decimals included.
   */
  lemma {:induction false} WithdrawWithinBalance(amount: string, wei: nat)
    requires TypedAmount(amount) && amount != ""
    requires !Greater(ParseFloat(amount), BalanceNumber(wei))
    ensures ParseEther(amount).Some? && 0 <= ParseEther(amount).value <= wei
  {
    TypedAmountRounds(amount, wei);
    ExceedsBalance(ParseFloat(amount), wei);
  }

  /**
   * A typed amount other than 0 with at most 18 decimals is requested exactly: the wei value
   * is the amount times 10^18, which is positive.
   */
  lemma {:induction false} WithdrawExact(amount: string)
    requires TypedAmount(amount) && amount != "" && DigitsAfterDot(amount) <= Decimals
    requires !IsZero(ParseFloat(amount))
    ensures var x := ParseFloat(amount);
      x.Finite? && x.scale <= Decimals &&
      ParseEther(amount) == Some(Shift(x.mantissa, Decimals - x.scale)) && ParseEther(amount).value > 0
  {
    TypedAmountRounds(amount, 0);
    var x := ParseFloat(amount);
    ShiftOfZero(Decimals - x.scale);
    ShiftMonotone(x.mantissa, 0, Decimals - x.scale);
  }

  /** MAX fills in the balance as a typed amount that `parseEther` turns back into the balance. */
  lemma {:induction false} MaxAmountParses(wei: nat)
    ensures TypedAmount(FormatEther(wei)) && FormatEther(wei) != "" && ParseEther(FormatEther(wei)) == Some(wei)
  {
    FormatUnitsIsPlain(wei, Decimals);
    ParseFormatEther(wei);
  }

  /** Validating the amount MAX fills in clears the error exactly when the balance has been read. */
  lemma {:induction false} MaxAmountValid(userBalance: Option<nat>)
    requires !MaxDisabled(userBalance)
    ensures var wei := BalanceOf(userBalance);
      ChangeError(FormatEther(wei), true, wei) == None <==> userBalance.Some?
  {
    var wei := BalanceOf(userBalance);
    MaxAmountParses(wei);
    var m, s := BalanceNumberParts(wei);
    BalanceIsZero(wei);
    GreaterAsymmetric(BalanceNumber(wei), BalanceNumber(wei));
  }

  // ---------------------------------------------------------------------------------------
  // Behaviours of the page as written

  /**
   * Pasted text is not filtered: digits followed by other text read as the digits and pass
   * validation when within the balance, but `parseEther` rejects the text.
   */
  lemma {:induction false} PastedSuffixAccepted(integer: string, rest: string, wei: nat)
    requires AllDigits(integer) && |integer| >= 1 && DigitsValue(integer) > 0
    requires rest != [] && !IsDigit(rest[0]) && '.' !in rest
    requires Shift(DigitsValue(integer), Decimals) <= wei
    ensures ChangeError(integer + rest, true, wei) == None && ParseEther(integer + rest) == None
  {
    ParseFloatWhole(integer, rest);
    assert Shift(wei, 0) == wei;
    ShiftGrows(DigitsValue(integer), Decimals);
    ChangeErrorNone(integer + rest, wei, Finite(false, DigitsValue(integer), 0));
    PastedSuffixRejected(integer, rest);
  }

  /** `parseEther` rejects digits followed by text that does not start with a digit and has no '.'. */
  lemma {:induction false} PastedSuffixRejected(integer: string, rest: string)
    requires AllDigits(integer) && |integer| >= 1
    requires rest != [] && !IsDigit(rest[0]) && '.' !in rest
    ensures ParseEther(integer + rest) == None
  {
    var s := integer + rest;
    assert !StartsWith(s, "-") by { assert s[0] == integer[0]; }
    assert '.' !in integer;
    assert '.' !in s;
    IndexOfCharAbsent(s, '.');
    assert s[|integer|] == rest[0];
  }

  /**
   * Pasted negative amounts pass validation (a negative amount is never above the balance),
   * and `parseEther` makes a negative wei amount of them.
   */
  lemma {:induction false} PastedNegativeAccepted(integer: string, wei: nat)
    requires AllDigits(integer) && |integer| >= 1 && DigitsValue(integer) > 0 && wei > 0
    ensures ChangeError("-" + integer, true, wei) == None
    ensures ParseEther("-" + integer) == Some(-(Shift(DigitsValue(integer), Decimals) as int))
  {
    NegativeNumber(integer);
    ChangeErrorNone("-" + integer, wei, Finite(true, DigitsValue(integer), 0));
    NegativeWei(integer);
  }

  /** `parseFloat` reads "-" and digits as the negative whole number. */
  lemma {:induction false} NegativeNumber(integer: string)
    requires AllDigits(integer) && |integer| >= 1
    ensures ParseFloat("-" + integer) == Finite(true, DigitsValue(integer), 0)
  {
    var s := "-" + integer;
    assert StartsWith(s, "-") && s[1..] == integer;
    assert integer + "" == integer;
    LeadingDigitsSplit(integer, "");
  }

  /** `parseEther` reads "-" and digits as minus that many ether. */
  lemma {:induction false} NegativeWei(integer: string)
    requires AllDigits(integer) && |integer| >= 1
    ensures ParseEther("-" + integer) == Some(-(Shift(DigitsValue(integer), Decimals) as int))
  {
    var s := "-" + integer;
    assert StartsWith(s, "-") && s[1..] == integer;
    assert '.' !in integer;
    IndexOfCharAbsent(integer, '.');
    assert TrimTrailingZeros("") == "";
    ShiftOfZero(Decimals);
  }

  /** 10^-(k+1) ether: "0." followed by `k` '0's and a '1'. */
  function TinyAmount(k: nat): string {
    "0" + "." + TinyFraction(k)
  }

  /** `k` '0's and a '1'. */
  function TinyFraction(k: nat): string {
    Repeat('0', k) + "1"
  }

  /** The fraction of a tiny amount: digits denoting 1, ending in '1'. */
  lemma {:induction false} TinyFractionDigits(k: nat)
    ensures var fraction := TinyFraction(k);
      AllDigits(fraction) && |fraction| == k + 1 && DigitsValue(fraction) == 1 &&
      fraction[k] == '1' && (forall j :: 0 <= j < k ==> fraction[j] == '0')
  {
    var zeros := Repeat('0', k);
    var fraction := zeros + "1";
    assert forall j :: 0 <= j < |fraction| ==> fraction[j] == '0' || fraction[j] == '1';
    ZerosValue(zeros);
    DigitsValueAppend(zeros, "1");
    assert "1"[..0] == [];
    assert DigitsValue("1") == 1;
  }

  /** `parseFloat` reads a tiny amount as 1 over 10^(k+1). */
  lemma {:induction false} TinyNumber(k: nat)
    ensures ParseFloat(TinyAmount(k)) == Finite(false, 1, k + 1)
  {
    TinyJoinedValue(k);
    OneOverNumber(TinyFraction(k));
  }

  /** "0." followed by digits that, after the "0", denote 1 reads as 1 over 10^|fraction|. */
  lemma {:induction false} OneOverNumber(fraction: string)
    requires AllDigits("0") && AllDigits(fraction) && DigitsValue("0" + fraction) == 1
    ensures ParseFloat("0" + "." + fraction) == Finite(false, 1, |fraction|)
  {
    ParseFloatFraction("0", fraction);
  }

  /** "0" followed by the tiny fraction denotes 1. */
  lemma {:induction false} TinyJoinedValue(k: nat)
    ensures AllDigits("0") && AllDigits(TinyFraction(k)) && |TinyFraction(k)| == k + 1
    ensures DigitsValue("0" + TinyFraction(k)) == 1
  {
    var fraction := TinyFraction(k);
    TinyFractionDigits(k);
    DigitsValueAppend("0", fraction);
    assert "0"[..0] == [];
    assert DigitsValue("0") == 0;
    ShiftOfZero(|fraction|);
  }

  /** An amount below one wei passes validation: it is more than 0 and at most any positive balance. */
  lemma {:induction false} TinyAmountAccepted(k: nat, wei: nat)
    requires k >= Decimals && wei > 0
    ensures ChangeError(TinyAmount(k), true, wei) == None
  {
    TinyNumber(k);
    var x := ParseFloat(TinyAmount(k));
    ShiftAtMost(x.mantissa, wei, Decimals, x.scale);
    ChangeErrorNone(TinyAmount(k), wei, x);
  }

  /** `parseEther` rounds an amount below half a wei to a request for 0 wei. */
  lemma {:induction false} TinyAmountRequestsNothing(k: nat)
    requires k >= Decimals
    ensures ParseEther(TinyAmount(k)) == Some(0)
  {
    var fraction := TinyFraction(k);
    assert Magnitude("0", fraction, Decimals) == 0 by {
      TinyFractionDigits(k);
      TrimmedIsFixed(fraction);
      ZerosValue(fraction[..Decimals]);
      assert "0"[..0] == [];
      assert DigitsValue("0") == 0;
      ShiftOfZero(Decimals);
      assert fraction[Decimals] < '5';
    }
    assert AllDigits("0");
    TinyFractionDigits(k);
    ParseUnitsDecimal("0", fraction, Decimals, 0);
  }

  // ---------------------------------------------------------------------------------------
  // The page's state

  /** The page's React state: the amount field, the error message and the success flag. */
  class WithdrawForm {
    var amount: string
    var error: Option<WithdrawError>
    var successNotice: bool

    /** The page opens with an empty field, no message and no notice. */
    constructor()
      ensures amount == "" && error == None && !successNotice
    {
      amount := "";
      error := None;
      successNotice := false;
    }

    /** The change handler: normalise the field's text, store it and validate it against the balance. */
    method Change(input: string, connected: bool, userBalance: Option<nat>)
      modifies this
      ensures amount == Normalize(input)
      ensures error == ChangeError(amount, connected, BalanceOf(userBalance))
      ensures successNotice == old(successNotice)
    {
      amount := Normalize(input);
      error := ChangeError(amount, connected, BalanceOf(userBalance));
    }

    /**
     * A key press: the key-down handler may cancel it; otherwise the browser edits the text and
     * the change handler runs on the result. Key presses keep the field a typed amount.
     */
    method Type(key: string, start: nat, end: nat, connected: bool, userBalance: Option<nat>)
      returns (prevented: bool)
      requires start <= end <= |amount|
      modifies this
      ensures prevented <==> KeyPrevented(old(amount), key)
      ensures prevented || KeyEdit(old(amount), key, start, end).None? ==>
        amount == old(amount) && error == old(error)
      ensures !prevented && KeyEdit(old(amount), key, start, end).Some? ==>
        amount == Normalize(KeyEdit(old(amount), key, start, end).value) &&
        error == ChangeError(amount, connected, BalanceOf(userBalance))
      ensures TypedAmount(old(amount)) ==> TypedAmount(amount)
      ensures successNotice == old(successNotice)
    {
      prevented := KeyPrevented(amount, key);
      if !prevented {
        var edit := KeyEdit(amount, key, start, end);
        if edit.Some? {
          if TypedAmount(amount) {
            KeystrokeKeepsTyped(amount, key, start, end);
          }
          Change(edit.value, connected, userBalance);
        }
      }
    }

    /** MAX fills in the whole balance; the error from the last change stays as it was. */
    method Max(userBalance: Option<nat>)
      requires !MaxDisabled(userBalance)
      modifies this
      ensures amount == FormatEther(BalanceOf(userBalance))
      ensures TypedAmount(amount) && ParseEther(amount) == Some(BalanceOf(userBalance))
      ensures error == old(error) && successNotice == old(successNotice)
    {
      var wei := BalanceOf(userBalance);
      amount := FormatEther(wei);
      MaxAmountParses(wei);
    }

    /** Whether the Withdraw button is disabled now. */
    predicate Disabled(connected: bool, userBalance: Option<nat>)
      reads this
    {
      WithdrawDisabled(error, amount, connected, BalanceOf(userBalance))
    }

    /**
     * The Withdraw button's click: the wei amount `parseEther` makes of the field (None: it
     * throws). For a typed amount it never asks for more than the balance of the moment.
     */
    method Withdraw(connected: bool, userBalance: Option<nat>) returns (request: Option<int>)
      requires !Disabled(connected, userBalance)
      ensures request == ParseEther(amount)
      ensures TypedAmount(amount) ==> request.Some? && 0 <= request.value <= BalanceOf(userBalance)
    {
      request := ParseEther(amount);
      if TypedAmount(amount) {
        WithdrawWithinBalance(amount, BalanceOf(userBalance));
      }
    }

    /** The effect on a successful withdrawal: empty field, no message, notice shown. */
    method WriteSucceeded()
      modifies this
      ensures amount == "" && error == None && successNotice
    {
      amount := "";
      error := None;
      successNotice := true;
    }

    /** The timer five seconds after the notice appeared hides it again. */
    method NoticeExpired()
      modifies this
      ensures !successNotice && amount == old(amount) && error == old(error)
    {
      successNotice := false;
    }

    /** The notice shows while both the write's success and the page's flag are set. */
    predicate ShowsSuccess(isSuccess: bool)
      reads this
    {
      isSuccess && successNotice
    }
  }
}
