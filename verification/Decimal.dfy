/** Decimal text: printing numbers with and without zeros in front, and what a field of digits denotes. */
module Decimal {
  import opened Radix

  function DigitChar(d: int): (c: char) {
    if 0 <= d < 10 then ('0' as int + d) as char else '?'
  }

  function DigitsText(digits: seq<int>): (text: string)
    ensures |text| == |digits|
  {
    seq(|digits|, i requires 0 <= i < |digits| => DigitChar(digits[i]))
  }

  function DigitValue(c: char): (d: int) {
    c as int - '0' as int
  }

  function DigitValues(text: string): (digits: seq<int>)
    ensures |digits| == |text|
  {
    seq(|text|, i requires 0 <= i < |text| => DigitValue(text[i]))
  }

  predicate IsDigit(c: char) {
    '0' <= c <= '9'
  }

  ghost predicate AllDigits(text: string) {
    forall i :: 0 <= i < |text| ==> IsDigit(text[i])
  }

  function DecimalDigits(n: nat): (digits: seq<int>)
    ensures digits != [] && IsNumeral(digits, 10)
  {
    if n == 0 then [0] else FromNat(n, 10)
  }

  function PaddedDigits(n: nat, width: nat): (digits: seq<int>)
    ensures IsNumeral(digits, 10)
  {
    var digits := DecimalDigits(n);
    if |digits| < width then Zeros(width - |digits|) + digits else digits
  }

  /** Decimal text with zeros in front up to the width; wider numbers keep all their digits. */
  function Padded(n: nat, width: nat): (text: string)
    ensures |text| == |PaddedDigits(n, width)|
  {
    DigitsText(PaddedDigits(n, width))
  }

  lemma {:induction false} DecimalWidth(n: nat, width: nat)
    requires 0 < width
    ensures |DecimalDigits(n)| <= width <==> n < Pow(10, width)
  {
    PowPositive(10, width);
    FromNatLength(n, 10, width);
  }

  lemma DecimalDenotes(n: nat)
    ensures ToNat(DecimalDigits(n), 10) == n
  {
    ToNatFromNat(n, 10);
  }

  /** A number in range is printed with exactly the width. */
  lemma {:induction false} PaddedInRange(n: nat, width: nat)
    requires n < Pow(10, width) && 0 < width
    ensures PaddedDigits(n, width) == FixedDigits(n, 10, width)
  {
    DecimalWidth(n, width);
    DecimalDenotes(n);
    ZerosInFront(DecimalDigits(n), 10, width);
  }

  /** A number out of range is printed wider. */
  lemma {:induction false} PaddedOutOfRange(n: nat, width: nat)
    requires Pow(10, width) <= n && 0 < width
    ensures |Padded(n, width)| > width
  {
    DecimalWidth(n, width);
  }

  lemma {:induction false} ValuesOfText(digits: seq<int>)
    requires IsNumeral(digits, 10)
    ensures DigitValues(DigitsText(digits)) == digits && AllDigits(DigitsText(digits))
  {
    forall i | 0 <= i < |digits|
      ensures DigitValues(DigitsText(digits))[i] == digits[i] && IsDigit(DigitsText(digits)[i])
    {
      assert DigitsText(digits)[i] == DigitChar(digits[i]);
    }
  }

  lemma TextOfValues(text: string)
    requires AllDigits(text)
    ensures DigitsText(DigitValues(text)) == text && IsNumeral(DigitValues(text), 10)
  {
    forall i | 0 <= i < |text|
      ensures DigitsText(DigitValues(text))[i] == text[i]
    {
      assert IsDigit(text[i]);
    }
  }

  /** The number a field of digits denotes. */
  ghost function Field(p: string): (n: nat)
    requires AllDigits(p)
  {
    TextOfValues(p);
    ToNatNonNegative(DigitValues(p), 10);
    ToNat(DigitValues(p), 10)
  }

  /** A number in range, printed, is a field that denotes it. */
  lemma {:induction false} FieldOfNumber(n: nat, width: nat)
    requires n < Pow(10, width) && 0 < width
    ensures |Padded(n, width)| == width && AllDigits(Padded(n, width)) && Field(Padded(n, width)) == n
  {
    PaddedInRange(n, width);
    ValuesOfText(FixedDigits(n, 10, width));
    NumberOfFixed(n, 10, width);
  }

  /** A field denotes a number in range, which is printed as the field. */
  lemma {:induction false} NumberOfField(p: string)
    requires AllDigits(p) && 0 < |p|
    ensures Field(p) < Pow(10, |p|) && Padded(Field(p), |p|) == p
  {
    TextOfValues(p);
    NumeralBelow(DigitValues(p), 10);
    PaddedInRange(Field(p), |p|);
    FixedOfNumeral(DigitValues(p), 10);
  }

  lemma {:induction false} FieldWidth(n: nat, width: nat)
    requires 0 < width
    ensures |Padded(n, width)| >= width && (|Padded(n, width)| == width <==> n < Pow(10, width))
  {
    if n < Pow(10, width) {
      FieldOfNumber(n, width);
    } else {
      PaddedOutOfRange(n, width);
    }
  }

  /** Zeros in front never change what is denoted, and no digit is ever lost. */
  lemma PaddedDenotes(n: nat, width: nat)
    ensures AllDigits(Padded(n, width)) && Field(Padded(n, width)) == n
  {
    DecimalDenotes(n);
    var digits := DecimalDigits(n);
    if |digits| < width {
      ToNatZeros(width - |digits|, digits, 10);
    }
    ValuesOfText(PaddedDigits(n, width));
  }
}
