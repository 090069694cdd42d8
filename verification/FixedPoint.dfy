/** Five-decimal fixed-point numbers: integers in units of 0.00001. */
module FixedPoint {
  import opened Wrappers

  const FIXED_SCALE: nat := 100_000

  /** Half-up division. */
  function RoundFraction(numerator: nat, denominator: nat): nat
    requires denominator > 0
  {
    var quotient := numerator / denominator;
    if (numerator % denominator) * 2 >= denominator then quotient + 1 else quotient
  }

  /** The quotient is within half a unit of the fraction; a tie goes up. */
  lemma RoundsToNearest(numerator: nat, denominator: nat)
    requires denominator > 0
    ensures 2 * (RoundFraction(numerator, denominator) * denominator) <= 2 * numerator + denominator
    ensures 2 * numerator + denominator < 2 * (RoundFraction(numerator, denominator) * denominator) + 2 * denominator
  {
    var quotient := numerator / denominator;
    assert numerator == quotient * denominator + numerator % denominator;
    assert (quotient + 1) * denominator == quotient * denominator + denominator;
  }

  lemma OneMoreTime(q: nat, r: nat, d: nat)
    requires r < q
    ensures r * d + d <= q * d
  {
    var k: nat := q - r - 1;
    assert q * d == (r + 1 + k) * d;
    assert (r + 1 + k) * d == r * d + d + k * d;
  }

  lemma ProductOrdersFactors(q: nat, r: nat, d: nat)
    requires q * d < r * d + d
    ensures q <= r
  {
    if r < q {
      OneMoreTime(q, r, d);
    }
  }

  lemma RoundingIsMonotone(smaller: nat, larger: nat, denominator: nat)
    requires denominator > 0 && smaller <= larger
    ensures RoundFraction(smaller, denominator) <= RoundFraction(larger, denominator)
  {
    RoundsToNearest(smaller, denominator);
    RoundsToNearest(larger, denominator);
    ProductOrdersFactors(RoundFraction(smaller, denominator), RoundFraction(larger, denominator), denominator);
  }

  lemma RoundingIsExactOnMultiples(k: nat, denominator: nat)
    requires denominator > 0
    ensures RoundFraction(k * denominator, denominator) == k
  {
    RoundsToNearest(k * denominator, denominator);
    ProductOrdersFactors(RoundFraction(k * denominator, denominator), k, denominator);
    ProductOrdersFactors(k, RoundFraction(k * denominator, denominator), denominator);
  }

  // ----- Text form ------------------------------------------------------------------------

  predicate IsDigit(c: char) {
    '0' <= c <= '9'
  }

  function DigitValue(c: char): nat
    requires IsDigit(c)
  {
    (c - '0') as nat
  }

  function DigitOf(n: nat): char
    requires n < 10
  {
    '0' + n as char
  }

  /** One leading 0 or 1, a point, and exactly five digits. */
  predicate IsFixed(text: string) {
    && |text| == 7 && (text[0] == '0' || text[0] == '1') && text[1] == '.'
    && forall i :: 2 <= i < 7 ==> IsDigit(text[i])
  }

  function DigitsValue(digits: string): nat
    requires forall i :: 0 <= i < |digits| ==> IsDigit(digits[i])
  {
    if digits == [] then 0 else DigitsValue(digits[..|digits| - 1]) * 10 + DigitValue(digits[|digits| - 1])
  }

  function ParseFixed(text: string): Option<nat> {
    if !IsFixed(text) then None
    else Some(DigitValue(text[0]) * FIXED_SCALE + DigitsValue(text[2..]))
  }

  function Decimal(n: nat): string {
    if n < 10 then [DigitOf(n)] else Decimal(n / 10) + [DigitOf(n % 10)]
  }

  function PadStart(text: string, length: nat): string
    decreases length - |text|
  {
    if |text| >= length then text else PadStart("0" + text, length)
  }

  function FormatFixed(n: nat): string {
    var digits := PadStart(Decimal(n), 6);
    if |digits| < 5 then digits else digits[..|digits| - 5] + "." + digits[|digits| - 5..]
  }

  /** The last `count` decimal digits of `n`, with leading zeros. */
  function Trailing(n: nat, count: nat): (digits: string)
    ensures |digits| == count && forall i :: 0 <= i < |digits| ==> IsDigit(digits[i])
  {
    if count == 0 then [] else Trailing(n / 10, count - 1) + [DigitOf(n % 10)]
  }

  function Power(count: nat): (p: nat)
    ensures p > 0
  {
    if count == 0 then 1 else 10 * Power(count - 1)
  }

  lemma {:induction false} PadStartLeads(text: string, length: nat)
    requires |text| <= length
    ensures PadStart(text, length) == seq(length - |text|, i => '0') + text
    decreases length - |text|
  {
    if |text| < length {
      PadStartLeads("0" + text, length);
      assert seq(length - |text|, i => '0') == seq(length - |text| - 1, i => '0') + "0";
    }
  }

  lemma {:induction false} TrailingOfZero(count: nat)
    ensures Trailing(0, count) == seq(count, i => '0')
  {
    if count > 0 {
      TrailingOfZero(count - 1);
      assert seq(count, i => '0') == seq(count - 1, i => '0') + "0";
    }
  }

  /** Padding a number to at least its own width shows its trailing digits. */
  lemma {:induction false} PaddedDecimal(n: nat, count: nat)
    requires count > 0 && |Decimal(n)| <= count
    ensures seq(count - |Decimal(n)|, i => '0') + Decimal(n) == Trailing(n, count)
  {
    if n < 10 {
      TrailingOfZero(count - 1);
    } else {
      PaddedDecimal(n / 10, count - 1);
      assert seq(count - |Decimal(n)|, i => '0') + Decimal(n)
        == seq(count - 1 - |Decimal(n / 10)|, i => '0') + Decimal(n / 10) + [DigitOf(n % 10)];
    }
  }

  lemma {:induction false} WidthIsBounded(n: nat, count: nat)
    requires count > 0 && n < Power(count)
    ensures |Decimal(n)| <= count
  {
    if n >= 10 {
      assert count > 1 by {
        assert Power(1) == 10 * Power(0);
      }
      WidthIsBounded(n / 10, count - 1);
    }
  }

  lemma {:induction false} ReadsBack(n: nat, count: nat)
    ensures DigitsValue(Trailing(n, count)) == n % Power(count)
  {
    if count > 0 {
      var digits := Trailing(n, count);
      assert digits[..count - 1] == Trailing(n / 10, count - 1);
      ReadsBack(n / 10, count - 1);
      LastDigit(n, Power(count - 1));
    }
  }

  lemma LastDigit(n: nat, p: nat)
    requires p > 0
    ensures (n / 10) % p * 10 + n % 10 == n % (10 * p)
  {
    var tens, k := n / 10, n / 10 / p;
    assert tens == k * p + tens % p;
    var r := tens % p * 10 + n % 10;
    assert n == k * (10 * p) + r by {
      assert k * (10 * p) == 10 * (k * p);
    }
    QuotientIsUnique(n, 10 * p, k, r);
  }

  lemma QuotientIsUnique(n: nat, d: nat, k: nat, r: nat)
    requires d > 0 && r < d && n == k * d + r
    ensures n / d == k
  {
    assert n == (n / d) * d + n % d;
    ProductOrdersFactors(n / d, k, d);
    ProductOrdersFactors(k, n / d, d);
  }

  function DropDigits(n: nat, count: nat): nat {
    if count == 0 then n else DropDigits(n / 10, count - 1)
  }

  lemma {:induction false} LeadingDigit(n: nat, count: nat)
    ensures Trailing(n, count + 1) == Trailing(DropDigits(n, count), 1) + Trailing(n, count)
  {
    if count > 0 {
      LeadingDigit(n / 10, count - 1);
    }
  }

  lemma DroppingFiveDigits(n: nat)
    ensures DropDigits(n, 5) == n / FIXED_SCALE
  {
    assert DropDigits(n, 5) == DropDigits(n / 10, 4) == DropDigits(n / 10 / 10, 3);
    var k := n / 10 / 10;
    assert DropDigits(k, 3) == DropDigits(k / 10, 2) == DropDigits(k / 10 / 10, 1) == DropDigits(k / 10 / 10 / 10, 0);
  }

  lemma PrintedForm(n: nat)
    requires n < 10 * FIXED_SCALE
    ensures FormatFixed(n) == [DigitOf(n / FIXED_SCALE)] + "." + Trailing(n, 5)
  {
    PowersOfTen();
    WidthIsBounded(n, 6);
    PadStartLeads(Decimal(n), 6);
    PaddedDecimal(n, 6);
    LeadingDigit(n, 5);
    DroppingFiveDigits(n);
    var lead := n / FIXED_SCALE;
    assert Trailing(lead, 1) == [DigitOf(lead)] by {
      assert Trailing(lead / 10, 0) == [];
    }
    assert PadStart(Decimal(n), 6) == [DigitOf(lead)] + Trailing(n, 5);
  }

  lemma PowersOfTen()
    ensures Power(5) == FIXED_SCALE && Power(6) == 10 * FIXED_SCALE
  {
    assert Power(2) == 100;
    assert Power(4) == 10_000;
  }

  lemma ParsesWhatIsPrinted(lead: nat, tail: string)
    requires lead < 2 && |tail| == 5 && forall i :: 0 <= i < 5 ==> IsDigit(tail[i])
    ensures ParseFixed([DigitOf(lead)] + "." + tail) == Some(lead * FIXED_SCALE + DigitsValue(tail))
  {
    var text := [DigitOf(lead)] + "." + tail;
    assert text[2..] == tail;
    assert forall i :: 2 <= i < 7 ==> text[i] == tail[i - 2];
  }

  /** Below 2.00000 the printed form is the one accepted on input, and it reads back unchanged. */
  lemma FormattedReadsBack(n: nat)
    requires n < 2 * FIXED_SCALE
    ensures ParseFixed(FormatFixed(n)) == Some(n)
  {
    PrintedForm(n);
    ReadsBack(n, 5);
    PowersOfTen();
    ParsesWhatIsPrinted(n / FIXED_SCALE, Trailing(n, 5));
  }

  /** Conversely, accepted text is printed back as it was written. */
  lemma AcceptedTextPrintsBack(text: string)
    requires IsFixed(text)
    ensures ParseFixed(text).value < 2 * FIXED_SCALE && FormatFixed(ParseFixed(text).value) == text
  {
    var lead, tail := DigitValue(text[0]), text[2..];
    var n := ParseFixed(text).value;
    PowersOfTen();
    DigitsPrintBack(tail, lead);
    assert n / FIXED_SCALE == lead;
    PrintedForm(n);
    assert text == [text[0]] + "." + tail;
  }

  lemma {:induction false} DigitsPrintBack(digits: string, lead: nat)
    requires forall i :: 0 <= i < |digits| ==> IsDigit(digits[i])
    ensures DigitsValue(digits) < Power(|digits|)
    ensures Trailing(lead * Power(|digits|) + DigitsValue(digits), |digits|) == digits
  {
    if digits != [] {
      var front, last := digits[..|digits| - 1], DigitValue(digits[|digits| - 1]);
      DigitsPrintBack(front, lead);
      var tens := lead * Power(|front|) + DigitsValue(front);
      assert lead * Power(|digits|) + DigitsValue(digits) == tens * 10 + last by {
        TenTimes(lead, Power(|front|));
      }
      assert digits == front + [DigitOf(last)];
    }
  }

  // ----- Numbers as they are written ------------------------------------------------------

  /** One 0 or 1, a point, and five digits. */
  ghost predicate IsWritten(text: string) {
    && |text| == 7 && '0' <= text[0] <= '1' && text[1] == '.'
    && forall i :: 2 <= i < 7 ==> '0' <= text[i] <= '9'
  }

  /** What such a text is worth, in units of 0.00001. */
  ghost function Worth(text: string): int {
    if !IsWritten(text) then 0
    else 100_000 * Digit(text[0]) + 10_000 * Digit(text[2]) + 1_000 * Digit(text[3]) + 100 * Digit(text[4])
         + 10 * Digit(text[5]) + Digit(text[6])
  }

  ghost function Digit(c: char): int {
    c as int - '0' as int
  }

  /** Exactly the written numbers are read, each as what it is worth. */
  lemma ReadsWhatIsWritten(text: string)
    ensures IsFixed(text) <==> IsWritten(text)
    ensures ParseFixed(text) == if IsWritten(text) then Some(Worth(text)) else None
  {
    if IsWritten(text) {
      var d := text[2..];
      assert forall i :: 0 <= i < 5 ==> d[i] == text[i + 2];
      FiveDigits(d);
    }
  }

  lemma FiveDigits(d: string)
    requires |d| == 5 && forall i :: 0 <= i < 5 ==> IsDigit(d[i])
    ensures DigitsValue(d)
      == 10_000 * Digit(d[0]) + 1_000 * Digit(d[1]) + 100 * Digit(d[2]) + 10 * Digit(d[3]) + Digit(d[4])
  {
    assert d[..4][..3] == d[..3] && d[..3][..2] == d[..2] && d[..2][..1] == d[..1] && d[..1][..0] == [];
    assert DigitsValue(d[..1]) == Digit(d[0]);
    assert DigitsValue(d[..2]) == 10 * Digit(d[0]) + Digit(d[1]);
    assert DigitsValue(d[..3]) == 100 * Digit(d[0]) + 10 * Digit(d[1]) + Digit(d[2]);
    assert DigitsValue(d[..4]) == 1_000 * Digit(d[0]) + 100 * Digit(d[1]) + 10 * Digit(d[2]) + Digit(d[3]);
  }

  /** The decimal digits of `n`, at least six of them and no more than needed, with a point before the last
      five. */
  ghost predicate Spells(text: string, n: nat) {
    && |text| >= 7 && text[|text| - 6] == '.' && (|text| > 7 ==> text[0] != '0')
    && var digits := text[..|text| - 6] + text[|text| - 5..];
       (forall i :: 0 <= i < |digits| ==> IsDigit(digits[i])) && DigitsValue(digits) == n
  }

  lemma {:induction false} DecimalSpells(n: nat)
    ensures var t := Decimal(n);
      && t != [] && (forall i :: 0 <= i < |t| ==> IsDigit(t[i])) && DigitsValue(t) == n
      && (|t| > 1 ==> t[0] != '0')
      && (n > 0 ==> t[0] != '0')
  {
    if n >= 10 {
      DecimalSpells(n / 10);
      assert Decimal(n)[..|Decimal(n)| - 1] == Decimal(n / 10);
    } else {
      assert Decimal(n)[..0] == [];
    }
  }

  lemma {:induction false} LeadingZeroIsWorthNothing(digits: string)
    requires forall i :: 0 <= i < |digits| ==> IsDigit(digits[i])
    ensures (forall i :: 0 <= i < |"0" + digits| ==> IsDigit(("0" + digits)[i]))
    ensures DigitsValue("0" + digits) == DigitsValue(digits)
  {
    var longer := "0" + digits;
    if digits == [] {
      assert longer[..0] == [];
    } else {
      LeadingZeroIsWorthNothing(digits[..|digits| - 1]);
      assert longer[..|longer| - 1] == "0" + digits[..|digits| - 1];
    }
  }

  lemma {:induction false} PaddingIsWorthNothing(digits: string, length: nat)
    requires forall i :: 0 <= i < |digits| ==> IsDigit(digits[i])
    ensures var padded := PadStart(digits, length);
      && (forall i :: 0 <= i < |padded| ==> IsDigit(padded[i])) && DigitsValue(padded) == DigitsValue(digits)
      && |padded| == (if |digits| < length then length else |digits|)
      && (|digits| >= length ==> padded == digits)
    decreases length - |digits|
  {
    if |digits| < length {
      LeadingZeroIsWorthNothing(digits);
      PaddingIsWorthNothing("0" + digits, length);
    }
  }

  /** Whatever its size, a number is printed digit by digit. */
  lemma PrintsEveryDigit(n: nat)
    ensures Spells(FormatFixed(n), n)
  {
    DecimalSpells(n);
    PaddingIsWorthNothing(Decimal(n), 6);
    var digits, text := PadStart(Decimal(n), 6), FormatFixed(n);
    assert text[..|text| - 6] + text[|text| - 5..] == digits;
  }

  lemma TenTimes(k: nat, p: nat)
    ensures k * (10 * p) == 10 * (k * p)
  {
  }
}
