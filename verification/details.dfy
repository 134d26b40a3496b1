/**
 * The transaction list and the detail dialog of the client
 * (Client/src/details/details.tsx): empty and cloned transactions, the
 * money-string helpers, the category and payment-method handlers, saving
 * and deleting a row of the transactions worksheet, the distinct
 * categories and payment methods, and the grouping of the sorted list by
 * month.
 */
module Details {
  import opened Wrappers
  import opened Text
  import opened TransactionRows
  import SheetsApi
  import DriveClient

  // ---------------------------------------------------------------------
  // Money strings

  const DIGIT_CHARS: set<char> := {'0', '1', '2', '3', '4', '5', '6', '7', '8', '9'}

  /** The class `[0-9-]` the integer part of formatMoney is filtered down to. */
  const INTEGER_CHARS: set<char> := DIGIT_CHARS + {'-'}

  /** `s.split('.')`: the text before the first '.', and `[1] ?? ''`, the text up to the second. */
  function MoneyParts(s: string): (parts: (string, string)) {
    var pieces := Split(s, '.');
    (pieces[0], if |pieces| > 1 then pieces[1] else "")
  }

  /**
   * `restrictMoneyInput(amount)` as written: `BigInt` of the integer part
   * (None where it throws), '.', and the first two fraction characters padded
   * at the START to two characters.
   */
  function RestrictMoneyInput(amount: string): (r: Option<string>) {
    var (whole, fraction) := MoneyParts(KeepOnly(amount, MONEY_CHARS));
    match ParseBigInt(whole)
    case None => None
    case Some(n) => Some(IntToDecimal(n) + "." + PadStart(Take(fraction, 2), 2, '0'))
  }

  /** `restrictMoneyInput` with the fraction padded at the end, as formatMoney pads it. */
  function RestrictMoneyInputCorrected(amount: string): (r: Option<string>) {
    var (whole, fraction) := MoneyParts(KeepOnly(amount, MONEY_CHARS));
    match ParseBigInt(whole)
    case None => None
    case Some(n) => Some(IntToDecimal(n) + "." + PadEnd(Take(fraction, 2), 2, '0'))
  }

  /**
   * `formatMoney(amount)`: the integer part filtered to `[0-9-]` and
   * formatted as US dollars by `formatUsd` (Intl.NumberFormat), '.', and the
   * fraction filtered to digits, cut to two and padded at the end.
   */
  function FormatMoney(amount: string, formatUsd: int -> string): (r: Option<string>) {
    var (whole, fraction) := MoneyParts(amount);
    match ParseBigInt(KeepOnly(whole, INTEGER_CHARS))
    case None => None
    case Some(n) => Some(formatUsd(n) + "." + PadEnd(Take(KeepOnly(fraction, DIGIT_CHARS), 2), 2, '0'))
  }

  function Pow10(n: nat): (p: nat)
    ensures p >= 1
  {
    if n == 0 then 1 else 10 * Pow10(n - 1)
  }

  lemma {:induction false} DecimalAppend(a: string, b: string)
    requires AllDigits(a) && AllDigits(b)
    ensures AllDigits(a + b)
    ensures DecimalValue(a + b) == DecimalValue(a) * Pow10(|b|) + DecimalValue(b)
    decreases |b|
  {
    if b == "" {
      assert a + b == a;
    } else {
      var init := b[..|b| - 1];
      var ab := a + b;
      DecimalAppend(a, init);
      assert ab[..|ab| - 1] == a + init;
      assert ab[|ab| - 1] == b[|b| - 1];
      var last := DigitValue(b[|b| - 1]);
      assert DecimalValue(ab) == DecimalValue(a + init) * 10 + last;
      Regroup(DecimalValue(a), Pow10(|init|), DecimalValue(init), last);
    }
  }

  lemma Regroup(a: int, p: int, i: int, d: int)
    ensures (a * p + i) * 10 + d == a * (10 * p) + (i * 10 + d)
  {
  }

  lemma {:induction false} DecimalBelowPow10(s: string)
    requires AllDigits(s)
    ensures DecimalValue(s) < Pow10(|s|)
    decreases |s|
  {
    if s != "" {
      DecimalBelowPow10(s[..|s| - 1]);
    }
  }

  lemma {:induction false} ZerosAreZero(n: nat)
    ensures AllDigits(Repeat('0', n)) && DecimalValue(Repeat('0', n)) == 0
    decreases n
  {
    if n > 0 {
      ZerosAreZero(n - 1);
      DecimalAppend("0", Repeat('0', n - 1));
      assert Repeat('0', n) == "0" + Repeat('0', n - 1);
    }
  }

  /**
   * Padding at the end reads the first two fraction digits as hundredths:
   * the result is 0.fraction truncated to cents, the largest `c` with
   * `c / 100 <= 0.fraction`. Padding at the start keeps the digits' own
   * value instead, which is that only for two digits.
   */
  lemma CentsOfFraction(fraction: string)
    requires AllDigits(fraction)
    ensures var head := Take(fraction, 2);
            var cents, scale := DecimalValue(PadEnd(head, 2, '0')), Pow10(|fraction|);
            AllDigits(PadEnd(head, 2, '0')) && AllDigits(PadStart(head, 2, '0'))
            && TruncatedCents(cents, DecimalValue(fraction), scale)
            && DecimalValue(PadStart(head, 2, '0')) == DecimalValue(head)
  {
    var head := Take(fraction, 2);
    assert AllDigits(head) by {
      assert forall i :: 0 <= i < |head| ==> head[i] == fraction[i];
    }
    PaddedValues(head);
    HeadCents(fraction, head, DecimalValue(PadEnd(head, 2, '0')));
  }

  /** The two cases of CentsOfFraction: a fraction of at most two digits is its own head; a longer one is cut. */
  lemma HeadCents(fraction: string, head: string, cents: int)
    requires AllDigits(fraction) && head == Take(fraction, 2) && AllDigits(head)
    requires cents == DecimalValue(head) * Pow10(2 - |head|)
    ensures TruncatedCents(cents, DecimalValue(fraction), Pow10(|fraction|))
  {
    if |fraction| <= 2 {
      assert head == fraction;
      ShortFractionCents(fraction, cents, Pow10(|fraction|));
    } else {
      assert head == fraction[..2];
      LongFractionCents(fraction, cents, Pow10(|fraction|));
    }
  }

  /** `cents` hundredths is `value / scale` rounded down to a hundredth. */
  predicate TruncatedCents(cents: int, value: int, scale: int) {
    cents * scale <= value * 100 < (cents + 1) * scale
  }

  /** Zeros in front do not change a number; zeros behind scale it by ten each. */
  lemma PaddedValues(head: string)
    requires AllDigits(head) && |head| <= 2
    ensures AllDigits(PadEnd(head, 2, '0')) && AllDigits(PadStart(head, 2, '0'))
    ensures DecimalValue(PadEnd(head, 2, '0')) == DecimalValue(head) * Pow10(2 - |head|)
    ensures DecimalValue(PadStart(head, 2, '0')) == DecimalValue(head)
  {
    var fill := 2 - |head|;
    var zeros := Repeat('0', fill);
    ZerosAreZero(fill);
    DecimalAppend(head, zeros);
    DecimalAppend(zeros, head);
    assert PadEnd(head, 2, '0') == head + zeros && PadStart(head, 2, '0') == zeros + head;
  }

  lemma ShortFractionCents(fraction: string, cents: int, scale: int)
    requires AllDigits(fraction) && |fraction| <= 2
    requires cents == DecimalValue(fraction) * Pow10(2 - |fraction|) && scale == Pow10(|fraction|)
    ensures TruncatedCents(cents, DecimalValue(fraction), scale)
  {
    var v := DecimalValue(fraction);
    assert Pow10(2) == 100;
    if |fraction| == 0 {
      assert cents == v && scale == 1;
    } else if |fraction| == 1 {
      assert Pow10(1) == 10;
      assert cents == v * 10 && scale == 10;
    } else {
      assert cents == v && scale == 100;
    }
  }

  lemma LongFractionCents(fraction: string, cents: int, scale: int)
    requires AllDigits(fraction) && |fraction| > 2
    requires cents == DecimalValue(fraction[..2]) * Pow10(0) && scale == Pow10(|fraction|)
    ensures TruncatedCents(cents, DecimalValue(fraction), scale)
  {
    var p := SplitAfterCents(fraction);
    assert Pow10(0) == 1;
    assert cents == DecimalValue(fraction[..2]);
    FloorBounds(cents, DecimalValue(fraction[2..]), p, DecimalValue(fraction), scale);
  }

  /** A fraction longer than two digits is its first two digits followed by the rest, scaled by the rest's length. */
  lemma SplitAfterCents(fraction: string) returns (p: nat)
    requires AllDigits(fraction) && |fraction| > 2
    ensures p == Pow10(|fraction| - 2) && Pow10(|fraction|) == 100 * p
    ensures DecimalValue(fraction) == DecimalValue(fraction[..2]) * p + DecimalValue(fraction[2..])
    ensures 0 <= DecimalValue(fraction[2..]) < p
  {
    var head, rest := fraction[..2], fraction[2..];
    assert fraction == head + rest;
    DecimalAppend(head, rest);
    DecimalBelowPow10(rest);
    p := Pow10(|rest|);
    PowAdd(2, |rest|);
    assert Pow10(2) == 100;
  }

  /** `q` is the floor of `v / p`, so `q` hundredths bound `v` hundredths of `p` from below. */
  lemma FloorBounds(q: int, r: int, p: int, v: int, scale: int)
    requires 0 <= r < p && v == q * p + r && scale == 100 * p
    ensures TruncatedCents(q, v, scale)
  {
    Expand(q, r, p);
  }

  lemma Expand(q: int, r: int, p: int)
    ensures (q * p + r) * 100 == q * (100 * p) + r * 100
    ensures (q + 1) * (100 * p) == q * (100 * p) + 100 * p
  {
  }

  lemma {:induction false} PowAdd(m: nat, n: nat)
    ensures Pow10(m + n) == Pow10(m) * Pow10(n)
    decreases m
  {
    if m > 0 {
      PowAdd(m - 1, n);
      assert Pow10(m + n) == 10 * Pow10(m - 1 + n);
    }
  }

  /** '.' between two texts without a '.' splits back into the two texts. */
  lemma MoneyPartsOf(whole: string, fraction: string)
    requires '.' !in whole && '.' !in fraction
    ensures MoneyParts(whole + "." + fraction) == (whole, fraction)
  {
    SplitAt(whole, fraction, '.');
    SplitWhole(fraction, '.');
  }

  /** The fraction text of a filtered amount is made of digits and '-'. */
  lemma MoneyPartsChars(s: string)
    requires forall i :: 0 <= i < |s| ==> s[i] in MONEY_CHARS
    ensures var (whole, fraction) := MoneyParts(s);
            '.' !in whole && '.' !in fraction
            && forall i :: 0 <= i < |fraction| ==> fraction[i] in MONEY_CHARS
  {
    SplitPiecesChars(s, '.', MONEY_CHARS);
    var pieces := Split(s, '.');
    assert '.' !in pieces[0] && CharsIn(pieces[0], MONEY_CHARS);
  }

  lemma DecimalIsMoney(n: int)
    ensures var s := IntToDecimal(n);
            '.' !in s && forall i :: 0 <= i < |s| ==> s[i] in MONEY_CHARS
  {
    var s := IntToDecimal(n);
    IntToDecimalChars(n);
    forall i | 0 <= i < |s|
      ensures s[i] in MONEY_CHARS && s[i] != '.'
    {
      DigitIsListed(s[i]);
    }
  }

  lemma DigitIsListed(c: char)
    requires IsDigit(c) || c == '-'
    ensures c in MONEY_CHARS && c != '.'
    ensures IsDigit(c) ==> c in DIGIT_CHARS
  {
  }

  /**
   * An amount that is already an integer, '.', and a fraction of digits and
   * '-' passes the filter whole and keeps its integer; only the fraction is
   * cut to two characters and padded.
   */
  lemma RestrictOnParts(n: int, fraction: string)
    requires '.' !in fraction && forall i :: 0 <= i < |fraction| ==> fraction[i] in MONEY_CHARS
    ensures RestrictMoneyInput(IntToDecimal(n) + "." + fraction)
         == Some(IntToDecimal(n) + "." + PadStart(Take(fraction, 2), 2, '0'))
    ensures RestrictMoneyInputCorrected(IntToDecimal(n) + "." + fraction)
         == Some(IntToDecimal(n) + "." + PadEnd(Take(fraction, 2), 2, '0'))
  {
    var whole := IntToDecimal(n);
    var s := whole + "." + fraction;
    DecimalIsMoney(n);
    forall i | 0 <= i < |s|
      ensures s[i] in MONEY_CHARS
    {
      if i > |whole| {
        assert s[i] == fraction[i - |whole| - 1];
      }
    }
    KeepOnlyIdentity(s, MONEY_CHARS);
    MoneyPartsOf(whole, fraction);
    IntDecimalRoundTrip(n);
  }

  /** A text of two money characters is left as it is by both paddings. */
  lemma TwoCharsUnpadded(p: string)
    requires |p| == 2
    ensures Take(p, 2) == p && PadStart(p, 2, '0') == p && PadEnd(p, 2, '0') == p
  {
  }

  /** The filter, cut and padding each leave their own output as it is: restricting twice is restricting once. */
  lemma RestrictMoneyInputIdempotent(amount: string)
    ensures var r := RestrictMoneyInput(amount);
            r.Some? ==> RestrictMoneyInput(r.value) == r
    ensures var r := RestrictMoneyInputCorrected(amount);
            r.Some? ==> RestrictMoneyInputCorrected(r.value) == r
  {
    var s := KeepOnly(amount, MONEY_CHARS);
    var (whole, fraction) := MoneyParts(s);
    MoneyPartsChars(s);
    match ParseBigInt(whole)
    case None =>
    case Some(n) =>
      var head := Take(fraction, 2);
      assert head == fraction[..|head|];
      var start, end := PadStart(head, 2, '0'), PadEnd(head, 2, '0');
      CharsOfPadded(head);
      RestrictOnParts(n, fraction);
      RestrictOnParts(n, start);
      RestrictOnParts(n, end);
      TwoCharsUnpadded(start);
      TwoCharsUnpadded(end);
  }

  /** Padding a cut fraction with '0' keeps it free of '.' and inside the money characters. */
  lemma CharsOfPadded(head: string)
    requires '.' !in head && forall i :: 0 <= i < |head| ==> head[i] in MONEY_CHARS
    ensures var start, end := PadStart(head, 2, '0'), PadEnd(head, 2, '0');
            '.' !in start && '.' !in end
            && (forall i :: 0 <= i < |start| ==> start[i] in MONEY_CHARS)
            && (forall i :: 0 <= i < |end| ==> end[i] in MONEY_CHARS)
  {
    if |head| < 2 {
      var zeros := Repeat('0', 2 - |head|);
      assert PadStart(head, 2, '0') == zeros + head;
      assert PadEnd(head, 2, '0') == head + zeros;
    }
  }

  /**
   * On an integer followed by a fraction of digits, the corrected function
   * keeps the fraction truncated to cents; the function as written keeps the
   * value of the first two digits instead, whatever their count.
   */
  lemma RestrictedFraction(n: int, fraction: string)
    requires AllDigits(fraction)
    ensures var head := Take(fraction, 2);
            var cents, digits := PadEnd(head, 2, '0'), PadStart(head, 2, '0');
            RestrictMoneyInputCorrected(IntToDecimal(n) + "." + fraction) == Some(IntToDecimal(n) + "." + cents)
            && RestrictMoneyInput(IntToDecimal(n) + "." + fraction) == Some(IntToDecimal(n) + "." + digits)
            && |cents| == 2 && AllDigits(cents) && |digits| == 2 && AllDigits(digits)
            && TruncatedCents(DecimalValue(cents), DecimalValue(fraction), Pow10(|fraction|))
            && DecimalValue(digits) == DecimalValue(head)
  {
    forall i | 0 <= i < |fraction|
      ensures fraction[i] in MONEY_CHARS && fraction[i] != '.'
    {
      DigitIsListed(fraction[i]);
    }
    RestrictOnParts(n, fraction);
    CentsOfFraction(fraction);
  }

  /** "1.5" is saved as "1.05" as written, and as "1.50" corrected. */
  lemma FractionPaddedAtStart()
    ensures RestrictMoneyInput("1.5") == Some("1.05")
    ensures RestrictMoneyInputCorrected("1.5") == Some("1.50")
  {
    assert IntToDecimal(1) == "1";
    assert "1.5" == IntToDecimal(1) + "." + "5";
    RestrictOnParts(1, "5");
    assert Take("5", 2) == "5";
    assert Repeat('0', 1) == "0";
    assert PadStart("5", 2, '0') == "05" && PadEnd("5", 2, '0') == "50";
    assert "1" + "." + "05" == "1.05" && "1" + "." + "50" == "1.50";
  }

  /**
   * `restrictMoneyInput` keeping the sign of an amount between -1 and 0,
   * which `BigInt("-0")` loses: a '-' in front of a zero integer part is kept.
   */
  function RestrictMoneyInputSigned(amount: string): (r: Option<string>) {
    var (whole, fraction) := MoneyParts(KeepOnly(amount, MONEY_CHARS));
    match ParseBigInt(whole)
    case None => None
    case Some(n) =>
      var sign := if n == 0 && whole != "" && whole[0] == '-' then "-" else "";
      Some(sign + IntToDecimal(n) + "." + PadEnd(Take(fraction, 2), 2, '0'))
  }

  /** A '-', digits, '.' and digits pass the money filter whole and split into the signed integer part and the fraction. */
  lemma NegativeParts(digits: string, fraction: string) returns (n: int)
    requires digits != "" && AllDigits(digits) && AllDigits(fraction)
    ensures MoneyParts(KeepOnly("-" + digits + "." + fraction, MONEY_CHARS)) == ("-" + digits, fraction)
    ensures n == 0 - DecimalValue(digits) && ParseBigInt("-" + digits) == Some(n)
  {
    n := 0 - DecimalValue(digits);
    var whole := "-" + digits;
    var s := whole + "." + fraction;
    forall i | 0 <= i < |s|
      ensures s[i] in MONEY_CHARS
    {
      if 0 < i < |whole| {
        assert s[i] == digits[i - 1];
        DigitIsListed(digits[i - 1]);
      } else if i > |whole| {
        assert s[i] == fraction[i - |whole| - 1];
        DigitIsListed(fraction[i - |whole| - 1]);
      }
    }
    KeepOnlyIdentity(s, MONEY_CHARS);
    assert '.' !in whole by {
      forall i | 0 <= i < |whole|
        ensures whole[i] != '.'
      {
        if i > 0 {
          assert whole[i] == digits[i - 1];
        }
      }
    }
    assert '.' !in fraction by {
      forall i | 0 <= i < |fraction|
        ensures fraction[i] != '.'
      {
        assert IsDigit(fraction[i]);
      }
    }
    MoneyPartsOf(whole, fraction);
    NegativeDecimal(digits);
  }

  /** "-0.50" loses its sign in restrictMoneyInput, as written and with the end padding alike. */
  lemma NegativeCentsLoseSign()
    ensures RestrictMoneyInput("-0.50") == Some("0.50")
    ensures RestrictMoneyInputCorrected("-0.50") == Some("0.50")
    ensures RestrictMoneyInputSigned("-0.50") == Some("-0.50")
  {
    assert AllDigits("0") && AllDigits("50");
    var zero := NegativeParts("0", "50");
    assert "-0.50" == "-" + "0" + "." + "50";
    assert DecimalValue("0") == 0;
    assert IntToDecimal(0) == "0";
    TwoCharsUnpadded("50");
    assert "0" + "." + "50" == "0.50";
    assert "-" + "0" + "." + "50" == "-0.50";
  }

  /** `formatMoney` hands the formatter `BigInt("-0")`, which is 0n: "-0.50" is shown as "0.50" is. */
  lemma NegativeCentsFormatAsPositive(formatUsd: int -> string)
    ensures FormatMoney("-0.50", formatUsd) == Some(formatUsd(0) + ".50")
    ensures FormatMoney("0.50", formatUsd) == FormatMoney("-0.50", formatUsd)
  {
    assert "-0.50" == "-0" + "." + "50" && "0.50" == "0" + "." + "50";
    MoneyPartsOf("-0", "50");
    MoneyPartsOf("0", "50");
    assert KeepOnly("-0", INTEGER_CHARS) == "-0";
    assert KeepOnly("0", INTEGER_CHARS) == "0";
    assert KeepOnly("50", DIGIT_CHARS) == "50";
    assert ParseBigInt("-0") == Some(0) by {
      assert "-0"[1..] == "0";
    }
    TwoCharsUnpadded("50");
    assert FormatMoney("-0.50", formatUsd) == Some(formatUsd(0) + "." + "50");
    var shown := formatUsd(0);
    assert shown + "." + "50" == shown + ".50";
  }

  /** A negative amount keeps its sign and its digits' value; only the fraction is cut to two and padded at the end. */
  lemma NegativeAmountStaysNegative(digits: string, fraction: string)
    requires digits != "" && AllDigits(digits) && AllDigits(fraction)
    ensures RestrictMoneyInputSigned("-" + digits + "." + fraction)
         == Some("-" + NatToDecimal(DecimalValue(digits)) + "." + PadEnd(Take(fraction, 2), 2, '0'))
  {
    var v := DecimalValue(digits);
    var n := NegativeParts(digits, fraction);
    var amount, whole := "-" + digits + "." + fraction, "-" + digits;
    SignedOnParts(amount, whole, fraction, n);
    NegativeSign(digits, v);
  }

  /** The signed restriction of an amount whose filtered parts and integer value are known. */
  lemma SignedOnParts(amount: string, whole: string, fraction: string, n: int)
    requires MoneyParts(KeepOnly(amount, MONEY_CHARS)) == (whole, fraction) && ParseBigInt(whole) == Some(n)
    ensures RestrictMoneyInputSigned(amount)
         == Some((if n == 0 && whole != "" && whole[0] == '-' then "-" else "") + IntToDecimal(n) + "." + PadEnd(Take(fraction, 2), 2, '0'))
  {
  }

  /** The sign and digits printed for the integer part "-" + digits. */
  lemma NegativeSign(digits: string, v: nat)
    requires digits != ""
    ensures (if 0 - v == 0 && ("-" + digits) != "" && ("-" + digits)[0] == '-' then "-" else "") + IntToDecimal(0 - v)
         == "-" + NatToDecimal(v)
  {
    assert ("-" + digits)[0] == '-';
  }

  /** Sign kept or not, the signed restriction gives the corrected text, with at most a '-' in front. */
  lemma SignedDiffersOnlyBySign(amount: string)
    ensures var r, c := RestrictMoneyInputSigned(amount), RestrictMoneyInputCorrected(amount);
            r.Some? <==> c.Some?
    ensures var r, c := RestrictMoneyInputSigned(amount), RestrictMoneyInputCorrected(amount);
            r.Some? ==> r.value == c.value || r.value == "-" + c.value
  {
  }

  lemma DigitCharsAreDigits(s: string)
    requires forall i :: 0 <= i < |s| ==> s[i] in DIGIT_CHARS
    ensures AllDigits(s)
  {
  }

  /**
   * formatMoney fails exactly when BigInt rejects the filtered integer part;
   * otherwise it ends in '.' and two digits, the digits of the fraction
   * truncated to cents.
   */
  lemma FormatMoneyCents(amount: string, formatUsd: int -> string)
    ensures var (whole, fraction) := MoneyParts(amount);
            var digits := KeepOnly(fraction, DIGIT_CHARS);
            var cents := PadEnd(Take(digits, 2), 2, '0');
            var r := FormatMoney(amount, formatUsd);
            (r.None? <==> ParseBigInt(KeepOnly(whole, INTEGER_CHARS)).None?)
            && AllDigits(digits) && |cents| == 2 && AllDigits(cents)
            && TruncatedCents(DecimalValue(cents), DecimalValue(digits), Pow10(|digits|))
            && (r.Some? ==> |r.value| >= 3 && r.value[|r.value| - 3] == '.' && r.value[|r.value| - 2..] == cents)
  {
    var (whole, fraction) := MoneyParts(amount);
    var digits := KeepOnly(fraction, DIGIT_CHARS);
    DigitCharsAreDigits(digits);
    CentsOfFraction(digits);
  }

  /**
   * The amount saved is the dialog's amount text, which formatMoney produced:
   * its fraction already has two digits, so the start padding of
   * restrictMoneyInput changes nothing on that path, as long as the currency
   * format of the integer part contains no '.'.
   */
  lemma SavePathUnaffected(amount: string, formatUsd: int -> string)
    requires forall v :: '.' !in formatUsd(v)
    ensures var r := FormatMoney(amount, formatUsd);
            r.Some? ==> RestrictMoneyInput(r.value) == RestrictMoneyInputCorrected(r.value)
  {
    var (whole, fraction) := MoneyParts(amount);
    match ParseBigInt(KeepOnly(whole, INTEGER_CHARS))
    case None =>
    case Some(n) =>
      var u := formatUsd(n);
      var cents := PadEnd(Take(KeepOnly(fraction, DIGIT_CHARS), 2), 2, '0');
      FormatMoneyCents(amount, formatUsd);
      assert FormatMoney(amount, formatUsd) == Some(u + "." + cents);
      FilteredFormat(u, cents);
      RestrictTwoDigitFraction(u + "." + cents, KeepOnly(u, MONEY_CHARS), cents);
  }

  /** Filtering a formatted amount keeps its '.' and its two digits of cents; the integer part keeps no '.'. */
  lemma FilteredFormat(u: string, cents: string)
    requires '.' !in u && AllDigits(cents)
    ensures KeepOnly(u + "." + cents, MONEY_CHARS) == KeepOnly(u, MONEY_CHARS) + "." + cents
    ensures '.' !in KeepOnly(u, MONEY_CHARS) && '.' !in cents
  {
    var tail := "." + cents;
    assert u + "." + cents == u + tail;
    KeepOnlyAppend(u, tail, MONEY_CHARS);
    DottedCentsKept(cents);
    NoDotKept(u);
  }

  /** '.' and digits are all money characters, so the filter keeps the cents part whole. */
  lemma DottedCentsKept(cents: string)
    requires AllDigits(cents)
    ensures KeepOnly("." + cents, MONEY_CHARS) == "." + cents && '.' !in cents
  {
    var tail := "." + cents;
    forall i | 0 <= i < |tail|
      ensures tail[i] in MONEY_CHARS
    {
      if i > 0 {
        assert tail[i] == cents[i - 1];
        DigitIsListed(cents[i - 1]);
      }
    }
    KeepOnlyIdentity(tail, MONEY_CHARS);
    forall i | 0 <= i < |cents|
      ensures cents[i] != '.'
    {
      DigitIsListed(cents[i]);
    }
  }

  /** The filter adds no character, so a text without '.' keeps none. */
  lemma NoDotKept(u: string)
    requires '.' !in u
    ensures '.' !in KeepOnly(u, MONEY_CHARS)
  {
    KeepOnlyCounts(u, MONEY_CHARS);
    assert multiset(u)['.'] == 0;
    assert multiset(KeepOnly(u, MONEY_CHARS))['.'] == 0;
  }

  /** Where the filtered amount has exactly two fraction characters, padding at either end leaves them as they are. */
  lemma RestrictTwoDigitFraction(s: string, kept: string, cents: string)
    requires KeepOnly(s, MONEY_CHARS) == kept + "." + cents
    requires '.' !in kept && '.' !in cents && |cents| == 2
    ensures RestrictMoneyInput(s) == RestrictMoneyInputCorrected(s)
  {
    MoneyPartsOf(kept, cents);
    TwoCharsUnpadded(cents);
  }

  // ---------------------------------------------------------------------
  // Transaction records

  /** `newEmptyTransaction(row)`: `row ?? -1`, the current time `now`, amount '0', every other text empty. */
  function NewEmptyTransaction(row: Option<int>, now: Time): (t: Transaction)
    ensures t.row == row.GetOr(-1) && t.time == now && t.amount == "0"
    ensures forall f :: f != Amount ==> GetField(t, f) == ""
  {
    Transaction(row.GetOr(-1), now, "0", "", "", "", "", "", "", "")
  }

  /** `cloneTransaction(prev)`: a fresh empty record for null, a field-for-field copy otherwise. */
  function CloneTransaction(prev: Option<Transaction>, now: Time): (t: Transaction)
    ensures prev.Some? ==> t == prev.value
    ensures prev.None? ==> t.row == -1 && t.time == now && GetField(t, Amount) == "0"
  {
    match prev
    case None => NewEmptyTransaction(None, now)
    case Some(p) => p
  }

  /** `TransactionStringField`: the fields an input of the dialog edits. */
  datatype StringField = Amount | Category | Name | Merchant | PaymentMethod | Location | Position | Description

  /** `transaction[field]`. */
  function GetField(t: Transaction, f: StringField): string {
    match f
    case Amount => t.amount
    case Category => t.category
    case Name => t.name
    case Merchant => t.merchant
    case PaymentMethod => t.paymentMethod
    case Location => t.location
    case Position => t.position
    case Description => t.description
  }

  /** `transaction[field] = value`: that field reads `value`, and nothing else of the record changes. */
  function SetField(t: Transaction, f: StringField, value: string): (r: Transaction)
    ensures GetField(r, f) == value
    ensures forall g :: g != f ==> GetField(r, g) == GetField(t, g)
    ensures r.row == t.row && r.time == t.time
  {
    match f
    case Amount => t.(amount := value)
    case Category => t.(category := value)
    case Name => t.(name := value)
    case Merchant => t.(merchant := value)
    case PaymentMethod => t.(paymentMethod := value)
    case Location => t.(location := value)
    case Position => t.(position := value)
    case Description => t.(description := value)
  }

  /** Two records with the same row, time and texts are the same record. */
  lemma FieldsDetermineRecord(a: Transaction, b: Transaction)
    requires a.row == b.row && a.time == b.time
    requires forall f :: GetField(a, f) == GetField(b, f)
    ensures a == b
  {
    assert GetField(a, Amount) == GetField(b, Amount) && GetField(a, Category) == GetField(b, Category);
    assert GetField(a, Name) == GetField(b, Name) && GetField(a, Merchant) == GetField(b, Merchant);
    assert GetField(a, PaymentMethod) == GetField(b, PaymentMethod) && GetField(a, Location) == GetField(b, Location);
    assert GetField(a, Position) == GetField(b, Position) && GetField(a, Description) == GetField(b, Description);
  }

  /** Setting a field to the value it already has gives back the same record. */
  lemma SetFieldUnchanged(t: Transaction, f: StringField)
    ensures SetField(t, f, GetField(t, f)) == t
  {
    FieldsDetermineRecord(SetField(t, f, GetField(t, f)), t);
  }

  /** `setTransactionFieldHandler(field)(event)`: the open record (or a new one) with `field` set to the input's text. */
  function FieldChanged(prev: Option<Transaction>, f: StringField, value: string, now: Time): (t: Transaction)
    ensures GetField(t, f) == value
    ensures prev.Some? ==> t.row == prev.value.row && t.time == prev.value.time
                           && forall g :: g != f ==> GetField(t, g) == GetField(prev.value, g)
    ensures prev.None? ==> t.row == -1 && t.time == now
  {
    SetField(CloneTransaction(prev, now), f, value)
  }

  // ---------------------------------------------------------------------
  // Category and payment-method handlers

  /** The list `l` without repeated entries. */
  predicate NoDuplicates(l: seq<string>) {
    forall i, j :: 0 <= i < j < |l| ==> l[i] != l[j]
  }

  /** `prev.indexOf(x) >= 0 ? prev : [...prev, x]`. */
  function AppendIfAbsent(prev: seq<string>, x: string): (r: seq<string>)
    ensures x in r && |r| >= |prev| && r[..|prev|] == prev
    ensures |r| == if x in prev then |prev| else |prev| + 1
    ensures forall y :: y in r <==> y in prev || y == x
    ensures NoDuplicates(prev) ==> NoDuplicates(r)
  {
    if x in prev then prev else prev + [x]
  }

  /** What the dialog holds: the open record, the two selector texts, and the two lists offered. */
  datatype Dialog = Dialog(
    transaction: Option<Transaction>,
    category: string,
    paymentMethod: string,
    categories: seq<string>,
    paymentMethods: seq<string>)

  /** `setCategoryHandler(c)`: the selector, the record's category and the category list all take `c`. */
  function SetCategory(d: Dialog, c: string, now: Time): (r: Dialog)
    ensures r.category == c && r.paymentMethod == d.paymentMethod
    ensures r.transaction == Some(FieldChanged(d.transaction, Category, c, now))
    ensures r.categories == AppendIfAbsent(d.categories, c) && r.paymentMethods == d.paymentMethods
  {
    Dialog(Some(FieldChanged(d.transaction, Category, c, now)), c, d.paymentMethod, AppendIfAbsent(d.categories, c), d.paymentMethods)
  }

  /** `setPaymentMethodHandler(c)` as written: the new value is appended to the CATEGORY list. */
  function SetPaymentMethod(d: Dialog, c: string, now: Time): (r: Dialog)
    ensures r.paymentMethod == c && r.category == d.category
    ensures r.transaction == Some(FieldChanged(d.transaction, PaymentMethod, c, now))
    ensures r.categories == AppendIfAbsent(d.categories, c) && r.paymentMethods == d.paymentMethods
  {
    Dialog(Some(FieldChanged(d.transaction, PaymentMethod, c, now)), d.category, c, AppendIfAbsent(d.categories, c), d.paymentMethods)
  }

  /** `setPaymentMethodHandler(c)` appending to the payment-method list, as the category handler does for categories. */
  function SetPaymentMethodCorrected(d: Dialog, c: string, now: Time): (r: Dialog)
    ensures r.paymentMethod == c && r.category == d.category
    ensures r.transaction == Some(FieldChanged(d.transaction, PaymentMethod, c, now))
    ensures r.paymentMethods == AppendIfAbsent(d.paymentMethods, c) && r.categories == d.categories
  {
    Dialog(Some(FieldChanged(d.transaction, PaymentMethod, c, now)), d.category, c, d.categories, AppendIfAbsent(d.paymentMethods, c))
  }

  /**
   * A payment method typed in for the first time ends up offered as a
   * category and not as a payment method; corrected, it is offered as a
   * payment method and the categories stay as they were.
   */
  lemma NewPaymentMethodListedAsCategory(d: Dialog, c: string, now: Time)
    requires c !in d.categories && c !in d.paymentMethods
    ensures var r := SetPaymentMethod(d, c, now);
            c in r.categories && c !in r.paymentMethods && |r.categories| == |d.categories| + 1
    ensures var r := SetPaymentMethodCorrected(d, c, now);
            c !in r.categories && c in r.paymentMethods && r.categories == d.categories
  {
  }

  /** Choosing a listed category keeps the list; choosing it again changes nothing more. */
  lemma SetCategoryIdempotent(d: Dialog, c: string, now: Time)
    ensures var r := SetCategory(d, c, now);
            SetCategory(r, c, now) == r
            && (c in d.categories ==> r.categories == d.categories)
  {
    var r := SetCategory(d, c, now);
    var t := r.transaction.value;
    SetFieldUnchanged(t, Category);
  }

  // ---------------------------------------------------------------------
  // Distinct categories and payment methods

  /** `[...new Set(xs)]`: a Set keeps the order in which values were first added. */
  function Distinct(xs: seq<string>): (r: seq<string>)
    ensures NoDuplicates(r)
    ensures forall x :: x in r <==> x in xs
    decreases |xs|
  {
    if xs == [] then [] else AppendIfAbsent(Distinct(xs[..|xs| - 1]), xs[|xs| - 1])
  }

  /** The index where `x` first occurs in `xs`. */
  function FirstIndex(xs: seq<string>, x: string): (i: nat)
    requires x in xs
    ensures i < |xs| && xs[i] == x && forall k :: 0 <= k < i ==> xs[k] != x
    decreases |xs|
  {
    if xs[0] == x then 0 else 1 + FirstIndex(xs[1..], x)
  }

  lemma {:induction false} FirstIndexOfPrefix(xs: seq<string>, x: string, n: nat)
    requires n <= |xs| && x in xs[..n]
    ensures FirstIndex(xs, x) == FirstIndex(xs[..n], x)
  {
    var i, j := FirstIndex(xs, x), FirstIndex(xs[..n], x);
    assert xs[j] == x;
    assert j >= i;
    assert i < n && xs[..n][i] == x;
  }

  /** The distinct values come in the order of their first occurrence. */
  lemma {:induction false} DistinctInFirstOccurrenceOrder(xs: seq<string>)
    ensures forall i, j :: 0 <= i < j < |Distinct(xs)| ==> FirstIndex(xs, Distinct(xs)[i]) < FirstIndex(xs, Distinct(xs)[j])
    decreases |xs|
  {
    if xs != [] {
      var init := xs[..|xs| - 1];
      DistinctInFirstOccurrenceOrder(init);
      var d := Distinct(init);
      var r := Distinct(xs);
      forall i, j | 0 <= i < j < |r|
        ensures FirstIndex(xs, r[i]) < FirstIndex(xs, r[j])
      {
        var earlier := j < |d| ==> FirstIndex(init, d[i]) < FirstIndex(init, d[j]);
        assert earlier;
        OrderedPair(xs, init, d, i, j);
      }
    }
  }

  /** The inductive step for one pair of positions. */
  lemma OrderedPair(xs: seq<string>, init: seq<string>, d: seq<string>, i: nat, j: nat)
    requires xs != [] && init == xs[..|xs| - 1] && d == Distinct(init) && i < j < |Distinct(xs)|
    requires j < |d| ==> FirstIndex(init, d[i]) < FirstIndex(init, d[j])
    ensures FirstIndex(xs, Distinct(xs)[i]) < FirstIndex(xs, Distinct(xs)[j])
  {
    KeptValue(xs, init, d, i);
    if j < |d| {
      KeptValue(xs, init, d, j);
    } else {
      NewValue(xs, init, d, j);
    }
  }

  /** A value already in the distinct list of all but the last element keeps its place and its first index. */
  lemma KeptValue(xs: seq<string>, init: seq<string>, d: seq<string>, i: nat)
    requires xs != [] && init == xs[..|xs| - 1] && d == Distinct(init) && i < |d|
    ensures i < |Distinct(xs)| && Distinct(xs)[i] == d[i]
    ensures d[i] in init && FirstIndex(xs, d[i]) == FirstIndex(init, d[i]) < |init|
  {
    var r := Distinct(xs);
    assert r == AppendIfAbsent(d, xs[|xs| - 1]);
    assert r[..|d|][i] == d[i];
    assert d[i] in init;
    FirstIndexOfPrefix(xs, d[i], |xs| - 1);
  }

  /** A position past the distinct list of all but the last element holds the last element, new at that index. */
  lemma NewValue(xs: seq<string>, init: seq<string>, d: seq<string>, j: nat)
    requires xs != [] && init == xs[..|xs| - 1] && d == Distinct(init) && |d| <= j < |Distinct(xs)|
    ensures Distinct(xs)[j] == xs[|xs| - 1] && FirstIndex(xs, Distinct(xs)[j]) == |init|
  {
    var last := xs[|xs| - 1];
    var r := Distinct(xs);
    assert r == AppendIfAbsent(d, last);
    assert last !in d by {
      assert |r| > |d|;
    }
    assert last !in init;
    assert j == |d| && r[j] == last;
    LastIsNew(xs, init);
  }

  /** A last element that does not occur before it first occurs at the end. */
  lemma LastIsNew(xs: seq<string>, init: seq<string>)
    requires xs != [] && init == xs[..|xs| - 1] && xs[|xs| - 1] !in init
    ensures FirstIndex(xs, xs[|xs| - 1]) == |init|
  {
    var n := |init|;
    forall k | 0 <= k < n
      ensures xs[k] != xs[n]
    {
      assert xs[k] == init[k];
    }
  }

  /** One more value: the distinct list of the longer list appends it when it is new. */
  lemma DistinctAppend(xs: seq<string>, x: string)
    ensures Distinct(xs + [x]) == AppendIfAbsent(Distinct(xs), x)
  {
    assert (xs + [x])[..|xs|] == xs;
  }

  function Categories(ts: seq<Transaction>): (cs: seq<string>)
    ensures |cs| == |ts| && forall k :: 0 <= k < |ts| ==> cs[k] == ts[k].category
  {
    seq(|ts|, k requires 0 <= k < |ts| => ts[k].category)
  }

  function PaymentMethods(ts: seq<Transaction>): (ps: seq<string>)
    ensures |ps| == |ts| && forall k :: 0 <= k < |ts| ==> ps[k] == ts[k].paymentMethod
  {
    seq(|ts|, k requires 0 <= k < |ts| => ts[k].paymentMethod)
  }

  // ---------------------------------------------------------------------
  // Saving and deleting

  /** `position.split(',')`: the first piece trimmed, and the second piece (or '') trimmed. */
  function PositionCells(position: string): (cells: (string, string)) {
    var pieces := Split(position, ',');
    (Trim(pieces[0]), Trim(if |pieces| > 1 then pieces[1] else ""))
  }

  /** A text with no white space at either end. */
  predicate Trimmed(s: string) {
    s == "" || (s[0] !in SPACES && s[|s| - 1] !in SPACES)
  }

  /** The position text built from a row splits back into the row's Latitude and Longitude texts. */
  lemma PositionRoundTrip(latitude: string, longitude: string)
    requires ',' !in latitude && ',' !in longitude && Trimmed(latitude) && Trimmed(longitude)
    ensures PositionCells(latitude + ", " + longitude) == (latitude, longitude)
  {
    PositionPieces(latitude, longitude);
    PositionCellsOf(latitude + ", " + longitude, latitude, " " + longitude);
    TrimIdentity(latitude);
    LeadingSpaceTrimmed(longitude);
  }

  /** A position of two pieces gives the two pieces trimmed. */
  lemma PositionCellsOf(position: string, first: string, second: string)
    requires Split(position, ',') == [first, second]
    ensures PositionCells(position) == (Trim(first), Trim(second))
  {
  }

  /** The space after the ',' is trimmed away from a longitude that has no outer white space. */
  lemma LeadingSpaceTrimmed(longitude: string)
    requires Trimmed(longitude)
    ensures Trim(" " + longitude) == longitude
  {
    assert ' ' in SPACES;
    TrimDropsLeadingSpaces(" ", longitude);
    TrimIdentity(longitude);
  }

  /** The position text splits at its one ',' into the latitude and the space-led longitude. */
  lemma PositionPieces(latitude: string, longitude: string)
    requires ',' !in latitude && ',' !in longitude
    ensures Split(latitude + ", " + longitude, ',') == [latitude, " " + longitude]
  {
    var tail := " " + longitude;
    assert latitude + ", " + longitude == latitude + [','] + tail;
    SplitAt(latitude, tail, ',');
    SplitWhole(tail, ',');
  }

  /**
   * The row saveTransactionDetail writes: the date text, the restricted
   * amount (None where BigInt throws and nothing is saved), the texts of the
   * record, and the two trimmed position cells, one cell per column of the
   * schema.
   */
  function SavedRow(v: Transaction, dateText: string, amount: string): (r: Option<seq<string>>)
    ensures r.None? <==> RestrictMoneyInput(amount).None?
    ensures r.Some? ==> |r.value| == 10 && r.value[1] == RestrictMoneyInput(amount).value
  {
    match RestrictMoneyInput(amount)
    case None => None
    case Some(money) => Some(RowCells(v, dateText, money, PositionCells(v.position)))
  }

  /** The cells of the saved row once the amount is restricted to `money` and the position split into `position`. */
  function RowCells(v: Transaction, dateText: string, money: string, position: (string, string)): (cells: seq<string>)
    ensures |cells| == 10 && cells[0] == dateText && cells[1] == money
    ensures cells[2] == v.category && cells[3] == v.name && cells[4] == v.merchant && cells[5] == v.paymentMethod
    ensures cells[6] == v.location && cells[7] == position.0 && cells[8] == position.1 && cells[9] == v.description
  {
    [dateText, money, v.category, v.name, v.merchant, v.paymentMethod, v.location, position.0, position.1, v.description]
  }

  /**
   * Saving a record loaded from a full row of the schema, without editing
   * it, writes the same Category..Description cells back, provided the
   * position cells have no ',' and no surrounding spaces.
   */
  lemma SaveAfterLoad(row: seq<string>, rowIndex: int, parseTime: string -> Time, dateText: string, amount: string)
    requires |row| == 10
    requires ',' !in row[7] && ',' !in row[8] && Trimmed(row[7]) && Trimmed(row[8])
    requires RestrictMoneyInput(amount).Some?
    ensures var saved := SavedRow(MapRow(DriveClient.TRANSACTION_COLUMNS, row, rowIndex, parseTime), dateText, amount);
            saved.Some? && |saved.value| == 10 && SameCellsFromCategory(saved.value, row)
  {
    var t := MapRow(DriveClient.TRANSACTION_COLUMNS, row, rowIndex, parseTime);
    SchemaRowFields(row, rowIndex, parseTime);
    var money := RestrictMoneyInput(amount).value;
    PositionRoundTrip(row[7], row[8]);
    assert SavedRow(t, dateText, amount) == Some(RowCells(t, dateText, money, (row[7], row[8])));
  }

  /** Cells 2 to 9 (Category to Description) of two rows of the schema agree. */
  predicate SameCellsFromCategory(a: seq<string>, b: seq<string>)
    requires |a| == 10 && |b| == 10
  {
    a[2] == b[2] && a[3] == b[3] && a[4] == b[4] && a[5] == b[5]
    && a[6] == b[6] && a[7] == b[7] && a[8] == b[8] && a[9] == b[9]
  }

  /**
   * `values[r] = row` on a JavaScript array: a negative index sets no
   * element; an index past the end grows the array, and the holes it leaves
   * are rows without cells.
   */
  function SetRow(values: seq<seq<string>>, r: int, row: seq<string>): (v: seq<seq<string>>)
    ensures r < 0 ==> v == values
    ensures 0 <= r ==> |v| == (if r < |values| then |values| else r + 1) && v[r] == row
    ensures forall k :: 0 <= k < |values| && k != r ==> v[k] == values[k]
    ensures forall k :: |values| <= k < |v| && k != r ==> v[k] == []
  {
    if r < 0 then values
    else if r < |values| then values[r := row]
    else values + seq(r - |values|, _ => []) + [row]
  }

  /** A new record is numbered `values.length`, so saving it appends its row. */
  lemma NewTransactionAppends(values: seq<seq<string>>, row: seq<string>, now: Time)
    ensures var t := NewEmptyTransaction(Some(|values|), now);
            SetRow(values, t.row, row) == values + [row]
  {
  }

  /** `values.filter((_, i) => i !== r)`. */
  function RemoveAt(values: seq<seq<string>>, r: int): (v: seq<seq<string>>)
    ensures 0 <= r < |values| ==> v == values[..r] + values[r + 1..]
    ensures !(0 <= r < |values|) ==> v == values
    decreases |values|
  {
    if values == [] then []
    else
      var n := |values| - 1;
      RemoveAt(values[..n], r) + (if n == r then [] else [values[n]])
  }

  /** `rangeA1('transactions', [0, r + 1], [row.length - 1, r + 1])`: the sheet row below the header for record `r`. */
  function SaveRange(r: int, rowLength: nat): string
    requires rowLength >= 1
  {
    SheetsApi.RangeA1(TRANSACTION_SHEET_NAME, (0, Some(r + 1)), (rowLength - 1, Some(r + 1)))
  }

  /** The range written for the record of row `r`: columns A to J of sheet row r+2, the header being row 1. */
  lemma SaveRangeSpan(r: int)
    ensures SaveRange(r, |DriveClient.TRANSACTION_COLUMNS|)
         == "'" + TRANSACTION_SHEET_NAME + "'!A" + IntToDecimal(r + 2) + ":J" + IntToDecimal(r + 2)
  {
    SheetsApi.SingleLetterColumns(0);
    SheetsApi.SingleLetterColumns(9);
    var digits := IntToDecimal(r + 2);
    assert SheetsApi.Cell(0, Some(r + 1)) == "A" + digits;
    assert SheetsApi.Cell(9, Some(r + 1)) == "J" + digits;
    CellsRegroup(TRANSACTION_SHEET_NAME, digits);
  }

  lemma CellsRegroup(name: string, digits: string)
    ensures "'" + name + "'!" + ("A" + digits) + ":" + ("J" + digits) == "'" + name + "'!A" + digits + ":J" + digits
  {
  }

  /**
   * The cut-paste deleteTransaction sends for row `r` removes, from the
   * worksheet (header row first), exactly the row the local filter removes
   * from `values`, and leaves an empty row at the bottom.
   */
  lemma DeleteAgrees(header: seq<string>, values: seq<seq<string>>, sheetId: int, r: int)
    requires 0 <= r < |values|
    ensures var req := DriveClient.DeleteRowRequest(sheetId, r + 1);
            DriveClient.CutPasteRows([header] + values, req.startRowIndex, req.rowIndex)
            == [header] + RemoveAt(values, r) + [[]]
  {
    var grid := [header] + values;
    DriveClient.DeleteRowShiftsUp(grid, sheetId, r + 1);
    assert grid[..r + 1] == [header] + values[..r];
    assert grid[r + 2..] == values[r + 1..];
  }

  /** The request saveTransactionDetail sends, or why it sends none. */
  datatype SaveResult = NothingToSave | AmountRejected | UpdateSent(range: string, rows: seq<seq<string>>)

  /**
   * `saveTransactionDetail(v)`: builds the row, replaces `values[row]` of the
   * transactions worksheet in place (no worksheet: nothing changes), and
   * sends the row to the range of that record.
   */
  method SaveTransactionDetail(sheets: seq<Worksheet>, v: Option<Transaction>, dateText: string, amount: string)
    returns (result: SaveResult)
    modifies sheets
    ensures v.None? ==> result == NothingToSave
    ensures v.Some? && SavedRow(v.value, dateText, amount).None? ==> result == AmountRejected
    ensures v.Some? && SavedRow(v.value, dateText, amount).Some? ==>
              var row, r := SavedRow(v.value, dateText, amount).value, v.value.row;
              result == UpdateSent(SaveRange(r, |row|), [row])
    ensures var i := FindTransactionSheet(sheets);
            forall w :: w in sheets ==>
              w.values == if result.UpdateSent? && i >= 0 && w == sheets[i]
                          then SetRow(old(w.values), v.value.row, result.rows[0]) else old(w.values)
  {
    if v.None? {
      return NothingToSave;
    }
    var saved := SavedRow(v.value, dateText, amount);
    if saved.None? {
      return AmountRejected;
    }
    var row, r := saved.value, v.value.row;
    ReplaceRow(sheets, r, row);
    result := UpdateSent(SaveRange(r, |row|), [row]);
  }

  /** `spread.sheets[findIndex(...)].values[r] = row`, or nothing without the transactions worksheet. */
  method ReplaceRow(sheets: seq<Worksheet>, r: int, row: seq<string>)
    modifies sheets
    ensures var i := FindTransactionSheet(sheets);
            forall w :: w in sheets ==>
              w.values == if i >= 0 && w == sheets[i] then SetRow(old(w.values), r, row) else old(w.values)
  {
    var i := FindTransactionSheet(sheets);
    if i >= 0 {
      sheets[i].values := SetRow(sheets[i].values, r, row);
    }
  }

  /** The request deleteTransaction sends: the worksheet's id (undefined without the worksheet) and the sheet row. */
  datatype DeleteResult = NothingToDelete | DeleteSent(sheetId: Option<int>, row: int)

  /**
   * `deleteTransaction(v)`: filters row `v.row` out of the transactions
   * worksheet in place (no worksheet: nothing changes) and asks Sheets to
   * delete sheet row `v.row + 1`.
   */
  method DeleteTransaction(sheets: seq<Worksheet>, v: Option<Transaction>) returns (result: DeleteResult)
    modifies sheets
    ensures v.None? ==> result == NothingToDelete
    ensures var i := FindTransactionSheet(sheets);
            v.Some? ==> result == DeleteSent(if i < 0 then None else Some(sheets[i].id), v.value.row + 1)
    ensures var i := FindTransactionSheet(sheets);
            forall w :: w in sheets ==>
              w.values == if v.Some? && i >= 0 && w == sheets[i] then RemoveAt(old(w.values), v.value.row) else old(w.values)
  {
    if v.None? {
      return NothingToDelete;
    }
    var i := FindTransactionSheet(sheets);
    if i >= 0 {
      sheets[i].values := RemoveAt(sheets[i].values, v.value.row);
    }
    result := DeleteSent(if i < 0 then None else Some(sheets[i].id), v.value.row + 1);
  }

  // ---------------------------------------------------------------------
  // Grouping by month

  /** `isSameMonth(a, b)`: same year and month; an Invalid Date (NaN) is in no month, not even its own. */
  predicate SameMonth(a: Time, b: Time) {
    a.Valid? && b.Valid? && a.year == b.year && a.month == b.month
  }

  /** Where the inner `for` of the grouping loop stops when it starts at `i`: the first record not in the month of `j`. */
  function MonthRunEnd(t: seq<Transaction>, i: nat, j: Time): (e: nat)
    requires i <= |t|
    ensures i <= e <= |t|
    ensures forall k :: i <= k < e ==> SameMonth(t[k].time, j)
    ensures e < |t| ==> !SameMonth(t[e].time, j)
    decreases |t| - i
  {
    if i < |t| && SameMonth(t[i].time, j) then MonthRunEnd(t, i + 1, j) else i
  }

  /**
   * One pass of the outer loop as written, from index `i`: `j = t[i].time`,
   * the inner loop collects the run of records in j's month, and the pass
   * ends at the index the inner loop stopped at.
   */
  function GroupingPass(t: seq<Transaction>, i: nat): (pass: (seq<Transaction>, nat))
    requires i < |t|
    ensures pass.1 == MonthRunEnd(t, i, t[i].time) && pass.0 == t[i..pass.1]
  {
    var e := MonthRunEnd(t, i, t[i].time);
    (t[i..e], e)
  }

  /**
   * A record with an Invalid Date is not in its own month, so the pass
   * starting at it collects nothing and leaves `i` where it was: the outer
   * loop pushes empty groups forever.
   */
  lemma InvalidTimeStallsGrouping(t: seq<Transaction>, i: nat)
    requires i < |t| && t[i].time.Invalid?
    ensures GroupingPass(t, i) == ([], i)
  {
  }

  /** From a record with a valid time, the pass as written takes that record and then the run the corrected loop takes. */
  lemma ValidTimeAdvances(t: seq<Transaction>, i: nat)
    requires i < |t| && t[i].time.Valid?
    ensures GroupingPass(t, i).1 == MonthRunEnd(t, i + 1, t[i].time) > i
  {
  }

  /** The groups the corrected loop builds from index `i` on: each starts with a record and takes the run after it in its month. */
  function MonthGroupsFrom(t: seq<Transaction>, i: nat): seq<seq<Transaction>>
    requires i <= |t|
    decreases |t| - i
  {
    if i == |t| then []
    else
      var e := MonthRunEnd(t, i + 1, t[i].time);
      [t[i..e]] + MonthGroupsFrom(t, e)
  }

  function Flatten(groups: seq<seq<Transaction>>): seq<Transaction> {
    if groups == [] then [] else groups[0] + Flatten(groups[1..])
  }

  /** A group is non-empty and every later member shares the year and month of its first. */
  predicate IsMonthGroup(g: seq<Transaction>) {
    |g| >= 1 && forall k :: 1 <= k < |g| ==> SameMonth(g[k].time, g[0].time)
  }

  /** Month groups, each one's successor starting outside its month. */
  predicate AreMonthGroups(groups: seq<seq<Transaction>>) {
    (forall m :: 0 <= m < |groups| ==> IsMonthGroup(groups[m]))
    && forall m :: 0 <= m < |groups| - 1 ==> !SameMonth(groups[m + 1][0].time, groups[m][0].time)
  }

  /** The groups are the records from `i` on, cut into month groups, a new group starting exactly where the month changes. */
  lemma {:induction false} MonthGroupsPartition(t: seq<Transaction>, i: nat)
    requires i <= |t|
    ensures Flatten(MonthGroupsFrom(t, i)) == t[i..]
    ensures AreMonthGroups(MonthGroupsFrom(t, i))
    decreases |t| - i
  {
    if i < |t| {
      var e := MonthRunEnd(t, i + 1, t[i].time);
      var rest := MonthGroupsFrom(t, e);
      MonthGroupsPartition(t, e);
      var gs := MonthGroupsFrom(t, i);
      assert gs == [t[i..e]] + rest;
      assert gs[1..] == rest;
      assert t[i..] == t[i..e] + t[e..];
      assert IsMonthGroup(t[i..e]);
      forall m | 0 <= m < |gs|
        ensures IsMonthGroup(gs[m])
      {
        if m > 0 {
          assert gs[m] == rest[m - 1];
        }
      }
      forall m | 0 <= m < |gs| - 1
        ensures !SameMonth(gs[m + 1][0].time, gs[m][0].time)
      {
        if m == 0 {
          assert rest[0][0] == t[e];
        } else {
          assert gs[m] == rest[m - 1] && gs[m + 1] == rest[m];
        }
      }
    }
  }

  /**
   * The grouping loop of `Details`, with the first record of each group
   * pushed before the month test (as a do-while), so that a record with an
   * Invalid Date forms a group of its own instead of stalling the loop.
   */
  method GroupByMonth(t: seq<Transaction>) returns (groups: seq<seq<Transaction>>)
    ensures groups == MonthGroupsFrom(t, 0)
    ensures Flatten(groups) == t && AreMonthGroups(groups)
  {
    groups := [];
    var i := 0;
    while i < |t|
      invariant 0 <= i <= |t|
      invariant groups + MonthGroupsFrom(t, i) == MonthGroupsFrom(t, 0)
      decreases |t| - i
    {
      var start := i;
      var monthly;
      monthly, i := CollectMonth(t, start);
      assert MonthGroupsFrom(t, start) == [monthly] + MonthGroupsFrom(t, i);
      groups := groups + [monthly];
    }
    MonthGroupsPartition(t, 0);
  }

  /** One pass of the outer loop, corrected: push `t[start]`, then the records after it in its month. */
  method CollectMonth(t: seq<Transaction>, start: nat) returns (monthly: seq<Transaction>, i: nat)
    requires start < |t|
    ensures i == MonthRunEnd(t, start + 1, t[start].time) && monthly == t[start..i]
  {
    var j := t[start].time;
    monthly := [t[start]];
    i := start + 1;
    while i < |t| && SameMonth(t[i].time, j)
      invariant start < i <= |t|
      invariant monthly == t[start..i]
      invariant MonthRunEnd(t, i, j) == MonthRunEnd(t, start + 1, j)
      decreases |t| - i
    {
      monthly := monthly + [t[i]];
      i := i + 1;
    }
  }

  /**
   * The effect of `Details`: the transactions worksheet's records, most
   * recent first, grouped by month, with the distinct categories and payment
   * methods in first-occurrence order. The grouping is the corrected
   * `GroupByMonth`, not the loop as written, which never ends on a record
   * with an Invalid Date.
   */
  method LoadDetails(sheets: seq<Worksheet>, parseTime: string -> Time)
    returns (byMonth: seq<seq<Transaction>>, categories: seq<string>, paymentMethods: seq<string>)
    ensures Flatten(byMonth) == LoadTransactions(sheets, parseTime) && AreMonthGroups(byMonth)
    ensures categories == Distinct(Categories(LoadTransactions(sheets, parseTime)))
    ensures paymentMethods == Distinct(PaymentMethods(LoadTransactions(sheets, parseTime)))
  {
    var t := LoadTransactions(sheets, parseTime);
    categories := Distinct(Categories(t));
    paymentMethods := Distinct(PaymentMethods(t));
    byMonth := GroupByMonth(t);
  }
}
