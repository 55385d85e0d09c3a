/** Printing an amount of coins: the fraction has eight digits, of which zeros at the end are dropped. */
module Amount {
  import opened Base
  import opened Radix
  import opened Decimal
  import opened BlockTypes

  // Hundred-millionths in a coin.
  const FLUFFS := 100000000

  /** The format %llu.%08u. */
  function Printed(s: Specie): (text: string) {
    Padded(s.coins, 1) + "." + Padded(s.fluffs, 8)
  }

  /** Zeros at the end are dropped, but one character is kept. */
  function Trimmed(text: string): (r: string) {
    if |text| > 1 && text[|text| - 1] == '0' then Trimmed(text[..|text| - 1]) else text
  }

  function WithoutPoint(text: string): (r: string) {
    if text != [] && text[|text| - 1] == '.' then text[..|text| - 1] else text
  }

  function Text(s: Specie): (text: string) {
    WithoutPoint(Trimmed(Printed(s)))
  }

  // ----- what a text denotes -----

  /** The position of the decimal point, or the length if there is none. */
  function Point(text: string): (i: nat)
    ensures i <= |text|
  {
    if text == [] || text[0] == '.' then 0 else 1 + Point(text[1..])
  }

  function Number(digits: string): (n: int) {
    ToNat(DigitValues(digits), 10)
  }

  function Fraction(digits: string): (x: real)
  {
    PowPositive(10, |digits|);
    Number(digits) as real / Pow(10, |digits|) as real
  }

  /** The number a decimal text denotes. */
  function Value(text: string): (x: real) {
    var p := Point(text);
    Number(text[..p]) as real + if p < |text| then Fraction(text[p + 1..]) else 0.0
  }

  /** The amount in coins. */
  function Coins(s: Specie): (x: real) {
    s.coins as real + s.fluffs as real / FLUFFS as real
  }

  lemma {:induction false} PointOf(digits: string, rest: string)
    requires AllDigits(digits) && (rest == [] || rest[0] == '.')
    ensures Point(digits + rest) == |digits|
  {
    if digits == [] {
      assert digits + rest == rest;
    } else {
      assert IsDigit(digits[0]);
      assert (digits + rest)[1..] == digits[1..] + rest;
      PointOf(digits[1..], rest);
    }
  }

  lemma ValueOfParts(digits: string, frac: string)
    requires AllDigits(digits)
    ensures Value(digits) == Number(digits) as real
    ensures Value(digits + "." + frac) == Number(digits) as real + Fraction(frac)
  {
    PointOf(digits, []);
    assert digits + [] == digits && digits[..|digits|] == digits;
    var text := digits + "." + frac;
    PointOf(digits, "." + frac);
    assert text == digits + ("." + frac);
    assert text[..|digits|] == digits && text[|digits| + 1..] == frac;
  }

  // ----- trimming -----

  function WithoutZeros(digits: string): (r: string) {
    if digits != [] && digits[|digits| - 1] == '0' then WithoutZeros(digits[..|digits| - 1]) else digits
  }

  /** What trimming leaves: never an integer zero is lost, and only zeros of the fraction are. */
  lemma {:induction false} TrimmedParts(digits: string, frac: string)
    requires digits != []
    ensures Trimmed(digits + "." + frac) == digits + "." + WithoutZeros(frac)
  {
    var text := digits + "." + frac;
    if frac == [] {
      assert text[|text| - 1] == '.';
    } else {
      assert text[|text| - 1] == frac[|frac| - 1];
      assert text[..|text| - 1] == digits + "." + frac[..|frac| - 1];
      TrimmedParts(digits, frac[..|frac| - 1]);
    }
  }

  lemma ScaledQuotient(q: real, d: real)
    requires d != 0.0
    ensures q * d / d == q
  {
  }

  lemma CancelTen(n: real, p: real)
    requires p > 0.0
    ensures (n * 10.0) / (p * 10.0) == n / p
  {
    var q := n / p;
    assert q * p == n;
    assert q * (p * 10.0) == n * 10.0;
    ScaledQuotient(q, p * 10.0);
  }

  lemma DropZero(digits: string)
    requires digits != [] && digits[|digits| - 1] == '0'
    ensures Fraction(digits[..|digits| - 1]) == Fraction(digits)
  {
    var init := digits[..|digits| - 1];
    assert Number(digits) == Number(init) * 10 by {
      assert DigitValues(digits) == DigitValues(init) + [0];
      ToNatSnoc(DigitValues(init), 0, 10);
    }
    var n, p := Number(init), Pow(10, |init|);
    PowPositive(10, |init|);
    assert Pow(10, |digits|) == p * 10;
    CancelTen(n as real, p as real);
    assert (n * 10) as real == n as real * 10.0 && (p * 10) as real == p as real * 10.0;
  }

  /** Dropping zeros at the end keeps the fraction. */
  lemma {:induction false} WithoutZerosKeeps(digits: string)
    ensures Fraction(WithoutZeros(digits)) == Fraction(digits)
    ensures WithoutZeros(digits) <= digits
    ensures var r := WithoutZeros(digits); r != [] ==> r[|r| - 1] != '0'
  {
    if digits != [] && digits[|digits| - 1] == '0' {
      DropZero(digits);
      WithoutZerosKeeps(digits[..|digits| - 1]);
    }
  }

  /**
    The shape of a printed amount: all digits of the coins, then nothing or a
    point and a fraction that does not end in zero.
   */
  lemma Shape(s: Specie)
    ensures var frac := WithoutZeros(Padded(s.fluffs, 8));
            && AllDigits(Padded(s.coins, 1)) && AllDigits(frac)
            && (frac != [] ==> frac[|frac| - 1] != '0')
            && Text(s) == Padded(s.coins, 1) + if frac == [] then [] else "." + frac
  {
    var digits, all := Padded(s.coins, 1), Padded(s.fluffs, 8);
    assert digits != [] && AllDigits(digits) && AllDigits(all) by {
      PaddedDenotes(s.coins, 1);
      PaddedDenotes(s.fluffs, 8);
    }
    TextOfParts(digits, all);
  }

  lemma {:induction false} TextOfParts(digits: string, all: string)
    requires digits != [] && AllDigits(digits) && AllDigits(all)
    ensures var frac := WithoutZeros(all);
            && AllDigits(frac)
            && (frac != [] ==> frac[|frac| - 1] != '0')
            && WithoutPoint(Trimmed(digits + "." + all)) == digits + if frac == [] then [] else "." + frac
  {
    TrimmedParts(digits, all);
    WithoutZerosKeeps(all);
    EndsLike(digits, WithoutZeros(all));
  }

  lemma EndsLike(digits: string, frac: string)
    requires AllDigits(digits) && AllDigits(frac)
    ensures WithoutPoint(digits + "." + frac) == digits + if frac == [] then [] else "." + frac
  {
    var text := digits + "." + frac;
    if frac == [] {
      assert text[..|text| - 1] == digits;
    } else {
      assert text[|text| - 1] == frac[|frac| - 1];
      assert IsDigit(frac[|frac| - 1]);
      assert text == digits + ("." + frac);
    }
  }

  lemma JoinedValue(digits: string, frac: string)
    requires AllDigits(digits)
    ensures Value(digits + if frac == [] then [] else "." + frac) == Number(digits) as real + Fraction(frac)
  {
    ValueOfParts(digits, frac);
    if frac == [] {
      assert digits + [] == digits;
    } else {
      assert digits + ("." + frac) == digits + "." + frac;
    }
  }

  lemma TextValue(s: Specie)
    ensures Value(Text(s)) == s.coins as real + Fraction(Padded(s.fluffs, 8))
  {
    var frac := WithoutZeros(Padded(s.fluffs, 8));
    assert Fraction(frac) == Fraction(Padded(s.fluffs, 8)) by {
      WithoutZerosKeeps(Padded(s.fluffs, 8));
    }
    assert Number(Padded(s.coins, 1)) == s.coins by {
      PaddedDenotes(s.coins, 1);
    }
    Shape(s);
    JoinedValue(Padded(s.coins, 1), frac);
  }

  lemma SmallerQuotient(n: real, d: real, e: real)
    requires n > 0.0 && 0.0 < d < e
    ensures n / e < n / d
  {
    var x, y := n / e, n / d;
    assert x * e == n && y * d == n;
  }

  lemma FractionOfFluffs(fluffs: uint32)
    ensures Fraction(Padded(fluffs, 8)) == fluffs as real / FLUFFS as real <==> fluffs < FLUFFS
  {
    var text := Padded(fluffs, 8);
    PaddedDenotes(fluffs, 8);
    FieldWidth(fluffs, 8);
    if fluffs >= FLUFFS {
      PowExponent(10, 9, |text|);
      assert Pow(10, 9) == Pow(10, 8) * 10;
      SmallerQuotient(fluffs as real, FLUFFS as real, Pow(10, |text|) as real);
    }
  }

  /** The printed amount denotes the amount exactly when the fluffs make less than a coin. */
  lemma Denotes(s: Specie)
    ensures Value(Text(s)) == Coins(s) <==> s.fluffs < FLUFFS
  {
    TextValue(s);
    FractionOfFluffs(s.fluffs);
  }

  lemma CoinsInFluffs(s: Specie)
    ensures Coins(s) * FLUFFS as real == (s.coins * FLUFFS + s.fluffs) as real
  {
    var f := s.fluffs as real / FLUFFS as real;
    assert f * FLUFFS as real == s.fluffs as real;
  }

  /** Less than a coin of fluffs: the sum determines both parts. */
  lemma SameParts(c: int, f: int, d: int, g: int)
    requires 0 <= f < FLUFFS && 0 <= g < FLUFFS && c * FLUFFS + f == d * FLUFFS + g
    ensures c == d && f == g
  {
  }

  /** Different amounts are printed differently. */
  lemma Injective(s: Specie, t: Specie)
    requires s.fluffs < FLUFFS && t.fluffs < FLUFFS && Text(s) == Text(t)
    ensures s == t
  {
    assert Coins(s) == Coins(t) by {
      Denotes(s);
      Denotes(t);
    }
    CoinsInFluffs(s);
    CoinsInFluffs(t);
    SameParts(s.coins, s.fluffs, t.coins, t.fluffs);
  }

  // ----- the buffer -----

  const BUFFER := 64

  lemma TenDigits()
    ensures 0x1_0000_0000 < Pow(10, 10) && 0x1_0000_0000_0000_0000 < Pow(10, 20)
  {
    assert Pow(10, 1) == 10 && Pow(10, 2) == 100;
    PowAdd(10, 8, 2);
    PowAdd(10, 10, 10);
  }

  lemma {:induction false} PaddedAtMost(n: nat, width: nat, most: nat)
    requires n < Pow(10, most) && 0 < most && width <= most
    ensures |Padded(n, width)| <= most
  {
    DecimalWidth(n, most);
  }

  /** No amount is too long for the buffer. */
  lemma PrintedFits(s: Specie)
    ensures 2 <= |Printed(s)| < BUFFER
  {
    TenDigits();
    PaddedAtMost(s.coins, 1, 20);
    PaddedAtMost(s.fluffs, 8, 10);
  }

  /** Trims the text at the front of the buffer in place. */
  method Trim(szRet: array<char>, length: nat) returns (pos: nat)
    requires 1 <= length <= szRet.Length
    modifies szRet
    ensures pos <= szRet.Length && szRet[..pos] == WithoutPoint(Trimmed(old(szRet[..length])))
  {
    ghost var goal := Trimmed(szRet[..length]);
    pos := length;
    while pos > 1 && szRet[pos - 1] == '0'
      invariant 1 <= pos <= szRet.Length
      invariant Trimmed(szRet[..pos]) == goal
    {
      assert szRet[..pos][..pos - 1] == szRet[..pos - 1];
      pos := pos - 1;
      szRet[pos] := '\0';
    }
    assert szRet[..pos] == goal;
    if szRet[pos - 1] == '.' {
      assert szRet[..pos][..pos - 1] == szRet[..pos - 1];
      pos := pos - 1;
      szRet[pos] := '\0';
    }
  }

  function Padding(text: string, i: int): (c: char) {
    if 0 <= i < |text| then text[i] else '\0'
  }

  /** Prints into a buffer of 64 characters and trims it in place. */
  method ToString(s: Specie) returns (text: string)
    ensures text == Text(s)
  {
    PrintedFits(s);
    var printed := Printed(s);
    var szRet := new char[BUFFER](i => Padding(printed, i));
    assert szRet[..|printed|] == printed;
    var pos := Trim(szRet, |printed|);
    return szRet[..pos];
  }
}
