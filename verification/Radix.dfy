/**
  Positional numerals, most significant digit first. Base58 text, byte strings
  read as big numbers, decimal text and DER length octets are all instances.
 */
module Radix {
  import opened Base

  ghost predicate IsNumeral(digits: seq<int>, base: int) {
    forall i :: 0 <= i < |digits| ==> 0 <= digits[i] < base
  }

  /** The number a digit string denotes. */
  function ToNat(digits: seq<int>, base: int): (n: int)
  {
    if digits == [] then 0
    else ToNat(digits[..|digits| - 1], base) * base + digits[|digits| - 1]
  }

  /** The digits of n without leading zeros; no digits at all for zero. */
  function FromNat(n: nat, base: int): (digits: seq<int>)
    requires 2 <= base
    ensures forall i :: 0 <= i < |digits| ==> 0 <= digits[i] < base
    ensures digits != [] ==> digits[0] != 0
    ensures digits == [] <==> n == 0
    decreases n
  {
    if n == 0 then []
    else
      QuotientSmaller(n, base);
      FromNat(n / base, base) + [n % base]
  }

  function Zeros(k: nat): (zs: seq<int>)
    ensures |zs| == k && forall i :: 0 <= i < k ==> zs[i] == 0
  {
    seq(k, _ => 0)
  }

  function Pow(base: int, e: nat): (p: int)
  {
    if e == 0 then 1 else Pow(base, e - 1) * base
  }

  lemma MulMonotone(a: int, b: int, c: int)
    ensures a <= b && 0 <= c ==> a * c <= b * c
  {
  }

  lemma Euclid(n: int, base: int)
    requires 0 < base
    ensures n == n / base * base + n % base && 0 <= n % base < base
  {
  }

  lemma QuotientSmaller(n: nat, base: int)
    requires n > 0 && 2 <= base
    ensures 0 <= n / base < n
    ensures n / base == 0 ==> n % base == n
  {
    Euclid(n, base);
    MulMonotone(n, n / base, base);
    MulMonotone(2, base, n);
  }

  /** Quotient and remainder of a number written as q * base + r. */
  lemma DivModUnique(q: int, r: int, base: int)
    requires 0 <= r < base
    ensures (q * base + r) / base == q && (q * base + r) % base == r
  {
    var n := q * base + r;
    Euclid(n, base);
    var d := n / base - q;
    assert d * base == r - n % base;
    MulMonotone(1, d, base);
    MulMonotone(d, -1, base);
  }

  lemma {:induction false} ToNatSnoc(digits: seq<int>, d: int, base: int)
    ensures ToNat(digits + [d], base) == ToNat(digits, base) * base + d
  {
    assert (digits + [d])[..|digits|] == digits;
  }

  lemma FromNatSnoc(q: nat, r: int, base: int)
    requires 2 <= base && 0 <= r < base && (q > 0 || r > 0)
    ensures 0 < q * base + r
    ensures FromNat(q * base + r, base) == FromNat(q, base) + [r]
  {
    DivModUnique(q, r, base);
    MulMonotone(1, q, base);
  }

  lemma {:induction false} ToNatNonNegative(digits: seq<int>, base: int)
    requires 0 <= base && IsNumeral(digits, base)
    ensures 0 <= ToNat(digits, base)
  {
    if digits != [] {
      ToNatNonNegative(digits[..|digits| - 1], base);
      MulMonotone(0, ToNat(digits[..|digits| - 1], base), base);
    }
  }

  lemma {:induction false} ToNatFromNat(n: nat, base: int)
    requires 2 <= base
    ensures ToNat(FromNat(n, base), base) == n
    decreases n
  {
    if n > 0 {
      QuotientSmaller(n, base);
      ToNatFromNat(n / base, base);
      ToNatSnoc(FromNat(n / base, base), n % base, base);
      Euclid(n, base);
    }
  }

  /** Leading zeros denote nothing. */
  lemma {:induction false} ToNatZeros(k: nat, digits: seq<int>, base: int)
    ensures ToNat(Zeros(k) + digits, base) == ToNat(digits, base)
    decreases |digits|, k
  {
    if digits == [] {
      assert Zeros(k) + digits == Zeros(k);
      if k > 0 {
        assert Zeros(k)[..k - 1] == Zeros(k - 1) + [];
        ToNatZeros(k - 1, [], base);
      }
    } else {
      var init := digits[..|digits| - 1];
      assert (Zeros(k) + digits)[..k + |digits| - 1] == Zeros(k) + init;
      ToNatZeros(k, init, base);
    }
  }

  lemma {:induction false} FromNatExtended(init: seq<int>, last: int, base: int)
    requires 2 <= base && 0 <= last < base && (init != [] || last != 0)
    requires 0 <= ToNat(init, base) && FromNat(ToNat(init, base), base) == init
    ensures 0 <= ToNat(init + [last], base)
    ensures FromNat(ToNat(init + [last], base), base) == init + [last]
  {
    ToNatSnoc(init, last, base);
    FromNatSnoc(ToNat(init, base), last, base);
  }

  /** A numeral without leading zeros is the one FromNat prints. */
  lemma {:induction false} FromNatToNat(digits: seq<int>, base: int)
    requires 2 <= base && IsNumeral(digits, base)
    requires digits != [] ==> digits[0] != 0
    ensures 0 <= ToNat(digits, base)
    ensures FromNat(ToNat(digits, base), base) == digits
  {
    if digits != [] {
      var init, last := digits[..|digits| - 1], digits[|digits| - 1];
      assert digits == init + [last];
      assert 0 <= ToNat(digits, base) && FromNat(ToNat(digits, base), base) == digits by {
        FromNatToNat(init, base);
        FromNatExtended(init, last, base);
      }
    }
  }

  lemma {:induction false} PowPositive(base: int, e: nat)
    requires 1 <= base
    ensures 1 <= Pow(base, e)
  {
    if e > 0 {
      PowPositive(base, e - 1);
      assert Pow(base, e - 1) * base >= 1 * 1;
    }
  }

  lemma {:induction false} PowAdd(base: int, a: nat, b: nat)
    ensures Pow(base, a + b) == Pow(base, a) * Pow(base, b)
  {
    if b > 0 {
      PowAdd(base, a, b - 1);
      assert Pow(base, a) * Pow(base, b - 1) * base == Pow(base, a) * (Pow(base, b - 1) * base);
    }
  }

  lemma {:induction false} PowMul(base: int, a: nat, b: nat)
    ensures Pow(Pow(base, a), b) == Pow(base, a * b)
  {
    if b > 0 {
      PowMul(base, a, b - 1);
      assert a * (b - 1) + a == a * b;
      PowAdd(base, a * (b - 1), a);
    }
  }

  lemma {:induction false} PowMonotone(x: int, y: int, e: nat)
    requires 0 <= x <= y
    ensures 0 <= Pow(x, e) <= Pow(y, e)
  {
    if e > 0 {
      PowMonotone(x, y, e - 1);
      MulMonotone(0, Pow(x, e - 1), x);
      MulMonotone(Pow(x, e - 1), Pow(y, e - 1), x);
      MulMonotone(x, y, Pow(y, e - 1));
    }
  }

  lemma {:induction false} PowStrict(x: int, y: int, e: nat)
    requires 0 <= x < y && e > 0
    ensures Pow(x, e) < Pow(y, e)
  {
    PowMonotone(x, y, e - 1);
    PowMonotone(0, y, e - 1);
    PowPositive(y, e - 1);
    assert Pow(x, e - 1) * x <= Pow(y, e - 1) * x < Pow(y, e - 1) * y;
  }

  lemma {:induction false} PowExponent(base: int, a: nat, b: nat)
    requires 1 <= base && a <= b
    ensures Pow(base, a) <= Pow(base, b)
  {
    PowAdd(base, a, b - a);
    PowPositive(base, a);
    PowPositive(base, b - a);
    assert Pow(base, a) * 1 <= Pow(base, a) * Pow(base, b - a);
  }

  lemma {:induction false} NumeralBelow(digits: seq<int>, base: int)
    requires 1 <= base && IsNumeral(digits, base)
    ensures 0 <= ToNat(digits, base) < Pow(base, |digits|)
  {
    if digits != [] {
      var init := digits[..|digits| - 1];
      NumeralBelow(init, base);
      StepBelow(ToNat(init, base), Pow(base, |init|), base, digits[|digits| - 1]);
    }
  }

  lemma StepBelow(q: int, p: int, base: int, r: int)
    requires 0 <= r < base
    ensures q < p <==> q * base + r < p * base
    ensures 0 <= q ==> 0 <= q * base + r
  {
    MulMonotone(q + 1, p, base);
    MulMonotone(p, q, base);
    MulMonotone(0, q, base);
  }

  /** k digits are enough for a number below base^k, and each digit is needed. */
  lemma {:induction false} FromNatLength(n: nat, base: int, k: nat)
    requires 2 <= base
    ensures |FromNat(n, base)| <= k <==> n < Pow(base, k)
    decreases k
  {
    if k == 0 {
    } else if n == 0 {
      PowPositive(base, k);
    } else {
      QuotientSmaller(n, base);
      FromNatLength(n / base, base, k - 1);
      Euclid(n, base);
      StepBelow(n / base, Pow(base, k - 1), base, n % base);
    }
  }

  // ----- numerals of a fixed width -----

  /** The low digits of n, exactly len of them. */
  function FixedDigits(n: nat, base: int, len: nat): (digits: seq<int>)
    requires 2 <= base
    ensures |digits| == len && IsNumeral(digits, base)
    decreases len, n
  {
    if len == 0 then []
    else
      Euclid(n, base);
      QuotientNonNegative(n, base);
      FixedDigits(n / base, base, len - 1) + [n % base]
  }

  lemma QuotientNonNegative(n: nat, base: int)
    requires 2 <= base
    ensures 0 <= n / base
  {
    if n > 0 {
      QuotientSmaller(n, base);
    }
  }

  lemma {:induction false} FixedExtended(init: seq<int>, last: int, base: int)
    requires 2 <= base && 0 <= last < base && 0 <= ToNat(init, base)
    requires FixedDigits(ToNat(init, base), base, |init|) == init
    ensures 0 <= ToNat(init + [last], base)
    ensures FixedDigits(ToNat(init + [last], base), base, |init| + 1) == init + [last]
  {
    ToNatSnoc(init, last, base);
    DivModUnique(ToNat(init, base), last, base);
    MulMonotone(0, ToNat(init, base), base);
  }

  /** A numeral is determined by its number and its width. */
  lemma {:induction false} FixedOfNumeral(digits: seq<int>, base: int)
    requires 2 <= base && IsNumeral(digits, base)
    ensures 0 <= ToNat(digits, base)
    ensures FixedDigits(ToNat(digits, base), base, |digits|) == digits
  {
    if digits != [] {
      var init, last := digits[..|digits| - 1], digits[|digits| - 1];
      assert digits == init + [last];
      assert 0 <= ToNat(digits, base) && FixedDigits(ToNat(digits, base), base, |digits|) == digits by {
        FixedOfNumeral(init, base);
        FixedExtended(init, last, base);
      }
    }
  }

  lemma FixedSplit(n: nat, base: int, len: nat)
    requires 2 <= base && 0 < len && 0 <= n / base
    ensures ToNat(FixedDigits(n, base, len), base)
         == ToNat(FixedDigits(n / base, base, len - 1), base) * base + n % base
  {
    ToNatSnoc(FixedDigits(n / base, base, len - 1), n % base, base);
  }

  /** A number that fits the width is the number its digits denote. */
  lemma {:induction false} NumberOfFixed(n: nat, base: int, len: nat)
    requires 2 <= base && n < Pow(base, len)
    ensures ToNat(FixedDigits(n, base, len), base) == n
    decreases len
  {
    if len > 0 {
      QuotientNonNegative(n, base);
      Euclid(n, base);
      StepBelow(n / base, Pow(base, len - 1), base, n % base);
      NumberOfFixed(n / base, base, len - 1);
      FixedSplit(n, base, len);
    }
  }

  lemma ShiftSum(x: int, p: int, base: int, y: int, d: int)
    ensures (x * p + y) * base + d == x * (p * base) + (y * base + d)
  {
    assert (x * p) * base == x * (p * base);
  }

  /** The number of one numeral written after another. */
  lemma {:induction false} ToNatConcat(a: seq<int>, b: seq<int>, base: int)
    ensures ToNat(a + b, base) == ToNat(a, base) * Pow(base, |b|) + ToNat(b, base)
  {
    if b == [] {
      assert a + b == a;
    } else {
      var init, last := b[..|b| - 1], b[|b| - 1];
      assert a + b == (a + init) + [last];
      ToNatSnoc(a + init, last, base);
      ToNatConcat(a, init, base);
      ShiftSum(ToNat(a, base), Pow(base, |init|), base, ToNat(init, base), last);
    }
  }

  lemma {:induction false} ZerosInFront(digits: seq<int>, base: int, width: nat)
    requires base > 1 && IsNumeral(digits, base) && |digits| <= width
    ensures 0 <= ToNat(digits, base)
    ensures Zeros(width - |digits|) + digits == FixedDigits(ToNat(digits, base), base, width)
  {
    var all := Zeros(width - |digits|) + digits;
    ToNatZeros(width - |digits|, digits, base);
    ToNatNonNegative(digits, base);
    FixedOfNumeral(all, base);
  }

  // ----- byte strings, big-endian -----

  function BytesNumber(bs: Bytes): (n: nat) {
    ToNatNonNegative(bs, 256);
    ToNat(bs, 256)
  }

  /** The shortest byte string that denotes the number. */
  function NumberBytes(n: nat): (bs: Bytes)
    ensures bs != [] ==> bs[0] != 0
  {
    FromNat(n, 256)
  }
}
