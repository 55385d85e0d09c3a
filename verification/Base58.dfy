/** Base58 text of byte strings: radix conversion with leading zeros kept apart. */
module Base58 {
  import opened Base
  import opened Radix

  const ALPHABET := "123456789" + "ABCDEFGH" + "JKLMN" + "PQRSTUVWXYZ" + "abcdefghijk" + "mnopqrstuvwxyz"

  predicate InAlphabet(c: char) {
    || '1' <= c <= '9' || 'A' <= c <= 'H' || 'J' <= c <= 'N'
    || 'P' <= c <= 'Z' || 'a' <= c <= 'k' || 'm' <= c <= 'z'
  }

  /** The value of a character; a character outside the alphabet counts as zero. */
  function CharToVal(c: char): (v: byte)
    ensures v < 58
  {
    if '1' <= c <= '9' then c as int - '1' as int
    else if 'A' <= c <= 'H' then c as int - 'A' as int + 9
    else if 'J' <= c <= 'N' then c as int - 'J' as int + 17
    else if 'P' <= c <= 'Z' then c as int - 'P' as int + 22
    else if 'a' <= c <= 'k' then c as int - 'a' as int + 33
    else if 'm' <= c <= 'z' then c as int - 'm' as int + 44
    else 0
  }

  /** The table lookup, written by the six runs of the table. */
  function ValToChar(v: int): (c: char) {
    if 0 <= v < 9 then ('1' as int + v) as char
    else if 9 <= v < 17 then ('A' as int + v - 9) as char
    else if 17 <= v < 22 then ('J' as int + v - 17) as char
    else if 22 <= v < 33 then ('P' as int + v - 22) as char
    else if 33 <= v < 44 then ('a' as int + v - 33) as char
    else if 44 <= v < 58 then ('m' as int + v - 44) as char
    else '\0'
  }

  lemma TableEntry(v: int)
    requires 0 <= v < 58
    ensures |ALPHABET| == 58 && ALPHABET[v] == ValToChar(v)
  {
  }

  /** Characters of the alphabet and values below 58 correspond one to one. */
  lemma ValCharVal(v: int)
    requires 0 <= v < 58
    ensures InAlphabet(ValToChar(v)) && CharToVal(ValToChar(v)) == v
  {
  }

  lemma CharValChar(c: char)
    requires InAlphabet(c)
    ensures ValToChar(CharToVal(c)) == c
  {
  }

  /** A character has a place in the table exactly when it is of the alphabet; any other reads as the first one. */
  lemma OutsideAlphabet(c: char)
    ensures InAlphabet(c) <==> c in ALPHABET
    ensures c !in ALPHABET ==> CharToVal(c) == 0
    ensures c in ALPHABET ==> ALPHABET[CharToVal(c)] == c
  {
    if InAlphabet(c) {
      TableEntry(CharToVal(c));
      CharValChar(c);
    } else if c in ALPHABET {
      var i :| 0 <= i < |ALPHABET| && ALPHABET[i] == c;
      TableEntry(i);
      ValCharVal(i);
    }
  }

  // ----- what the text of a byte string is -----

  function LeadingRun<T(==)>(xs: seq<T>, x: T): (k: nat)
    ensures k <= |xs| && (forall i :: 0 <= i < k ==> xs[i] == x) && (k < |xs| ==> xs[k] != x)
  {
    if xs != [] && xs[0] == x then 1 + LeadingRun(xs[1..], x) else 0
  }

  function Repeated<T>(x: T, k: nat): (xs: seq<T>)
    ensures |xs| == k && forall i :: 0 <= i < k ==> xs[i] == x
  {
    seq(k, _ => x)
  }

  function TextOf(digits: seq<int>): (text: string)
    ensures |text| == |digits|
  {
    seq(|digits|, i requires 0 <= i < |digits| => ValToChar(digits[i]))
  }

  function ValuesOf(text: string): (digits: seq<int>)
    ensures |digits| == |text| && IsNumeral(digits, 58)
  {
    seq(|text|, i requires 0 <= i < |text| => CharToVal(text[i]))
  }

  function TextNumber(text: string): (n: nat) {
    ToNatNonNegative(ValuesOf(text), 58);
    ToNat(ValuesOf(text), 58)
  }

  function NumberText(n: nat): (text: string)
    ensures |text| == |FromNat(n, 58)|
  {
    TextOf(FromNat(n, 58))
  }

  /** A one for each leading zero byte, then the base 58 digits of the number. */
  function EncodeText(bs: Bytes): (text: string) {
    Repeated('1', LeadingRun(bs, 0)) + NumberText(BytesNumber(bs))
  }

  /** A zero byte for each leading one, then the bytes of the number. */
  function DecodeText(text: string): (bs: Bytes) {
    var ones := LeadingRun(text, '1');
    Repeated(0, ones) + NumberBytes(TextNumber(text[ones..]))
  }

  lemma {:induction false} LeadingRunSplit<T>(x: T, k: nat, xs: seq<T>)
    requires xs != [] ==> xs[0] != x
    ensures LeadingRun(Repeated(x, k) + xs, x) == k
  {
    var all := Repeated(x, k) + xs;
    assert k < |all| ==> all[k] != x;
  }

  lemma ValuesOfText(digits: seq<int>)
    requires IsNumeral(digits, 58)
    ensures ValuesOf(TextOf(digits)) == digits
    ensures forall c :: c in TextOf(digits) ==> InAlphabet(c)
  {
    forall i | 0 <= i < |digits|
      ensures ValuesOf(TextOf(digits))[i] == digits[i] && InAlphabet(TextOf(digits)[i])
    {
      ValCharVal(digits[i]);
    }
  }

  lemma TextOfValues(text: string)
    requires forall c :: c in text ==> InAlphabet(c)
    ensures TextOf(ValuesOf(text)) == text
  {
    forall i | 0 <= i < |text|
      ensures TextOf(ValuesOf(text))[i] == text[i]
    {
      assert text[i] in text;
      CharValChar(text[i]);
    }
  }

  /** Bytes that do not start with a zero are the bytes of their number. */
  lemma BytesOfNumber(bs: Bytes)
    requires bs != [] ==> bs[0] != 0
    ensures NumberBytes(BytesNumber(bs)) == bs
  {
    FromNatToNat(bs, 256);
  }

  /** The bytes of a number, after any zeros, read back as the number. */
  lemma NumberOfBytes(n: nat, zeros: nat)
    ensures BytesNumber(Repeated(0, zeros) + NumberBytes(n)) == n
  {
    ToNatFromNat(n, 256);
    ToNatZeros(zeros, NumberBytes(n), 256);
    var bs: Bytes := Repeated(0, zeros) + NumberBytes(n);
    assert Zeros(zeros) + NumberBytes(n) == bs;
  }

  lemma {:induction false} NumberSkipsZeros(bs: Bytes)
    ensures BytesNumber(bs) == BytesNumber(bs[LeadingRun(bs, 0)..])
  {
    var z := LeadingRun(bs, 0);
    assert bs == Zeros(z) + bs[z..];
    ToNatZeros(z, bs[z..], 256);
  }

  /** The text of a number reads back as the number and does not start with a one. */
  lemma NumberOfText(n: nat)
    ensures TextNumber(NumberText(n)) == n
    ensures NumberText(n) != [] ==> NumberText(n)[0] != '1'
    ensures forall c :: c in NumberText(n) ==> InAlphabet(c)
  {
    var digits := FromNat(n, 58);
    ValuesOfText(digits);
    ToNatFromNat(n, 58);
    if digits != [] {
      ValCharVal(digits[0]);
    }
  }

  /** A string over the alphabet that does not start with a one is the text of its number. */
  lemma TextOfNumber(text: string)
    requires forall c :: c in text ==> InAlphabet(c)
    requires text != [] ==> text[0] != '1'
    ensures NumberText(TextNumber(text)) == text
  {
    if text != [] {
      assert text[0] in text;
      CharValChar(text[0]);
    }
    FromNatToNat(ValuesOf(text), 58);
    TextOfValues(text);
  }

  lemma OnesRead(ones: nat, tail: string)
    requires tail != [] ==> tail[0] != '1'
    ensures DecodeText(Repeated('1', ones) + tail) == Repeated(0, ones) + NumberBytes(TextNumber(tail))
  {
    LeadingRunSplit('1', ones, tail);
    assert (Repeated('1', ones) + tail)[ones..] == tail;
  }

  lemma {:induction false} ZerosAndNumber(bs: Bytes)
    ensures Repeated(0, LeadingRun(bs, 0)) + NumberBytes(BytesNumber(bs)) == bs
  {
    var z := LeadingRun(bs, 0);
    NumberSkipsZeros(bs);
    BytesOfNumber(bs[z..]);
    assert bs == Repeated(0, z) + bs[z..];
  }

  /** Every byte string is recovered from its text, leading zeros included. */
  lemma DecodeEncode(bs: Bytes)
    ensures DecodeText(EncodeText(bs)) == bs
    ensures forall c :: c in EncodeText(bs) ==> InAlphabet(c)
  {
    NumberOfText(BytesNumber(bs));
    OnesRead(LeadingRun(bs, 0), NumberText(BytesNumber(bs)));
    ZerosAndNumber(bs);
  }

  /** Every string over the alphabet is the text of the bytes it decodes to. */
  lemma EncodeDecode(text: string)
    requires forall c :: c in text ==> InAlphabet(c)
    ensures EncodeText(DecodeText(text)) == text
  {
    var ones := LeadingRun(text, '1');
    var tail := text[ones..];
    var n := TextNumber(tail);
    LeadingRunSplit(0 as byte, ones, NumberBytes(n));
    NumberOfBytes(n, ones);
    assert forall c :: c in tail ==> c in text;
    TextOfNumber(tail);
    assert text == Repeated('1', ones) + tail;
  }

  // ----- what the text means -----

  /** The positional sum of a digit string, most significant digit first. */
  function Sum(digits: seq<int>, base: int): (n: int) {
    if digits == [] then 0 else digits[0] * Pow(base, |digits| - 1) + Sum(digits[1..], base)
  }

  lemma {:induction false} SumIsNumber(digits: seq<int>, base: int)
    ensures Sum(digits, base) == ToNat(digits, base)
  {
    if digits != [] {
      SumIsNumber(digits[1..], base);
      ToNatConcat([digits[0]], digits[1..], base);
      assert digits == [digits[0]] + digits[1..];
      assert ToNat([digits[0]], base) == digits[0] by {
        ToNatSnoc([], digits[0], base);
        assert [] + [digits[0]] == [digits[0]];
      }
    }
  }

  /** The positions of the characters of a text in the table. */
  ghost predicate Positions(text: string, digits: seq<int>) {
    |digits| == |text| && forall i :: 0 <= i < |text| ==> 0 <= digits[i] < |ALPHABET| && ALPHABET[digits[i]] == text[i]
  }

  lemma PositionsOfValues(text: string)
    requires forall c :: c in text ==> InAlphabet(c)
    ensures Positions(text, ValuesOf(text))
  {
    var digits := ValuesOf(text);
    forall i | 0 <= i < |text|
      ensures 0 <= digits[i] < |ALPHABET| && ALPHABET[digits[i]] == text[i]
    {
      assert text[i] in text;
      OutsideAlphabet(text[i]);
      TableEntry(0);
    }
  }

  lemma OnesCountNothing(ones: nat, tail: string)
    ensures TextNumber(Repeated('1', ones) + tail) == TextNumber(tail)
  {
    assert ValuesOf(Repeated('1', ones) + tail) == Zeros(ones) + ValuesOf(tail);
    ToNatZeros(ones, ValuesOf(tail), 58);
  }

  /**
    What encoding means: the text has a '1' in front for each leading zero byte and
    no more, and is the same number in base 58, by the table, as the bytes in base 256.
   */
  lemma EncodedValue(bs: Bytes) returns (digits: seq<int>)
    ensures Positions(EncodeText(bs), digits) && Sum(digits, 58) == Sum(bs, 256)
    ensures LeadingRun(EncodeText(bs), '1') == LeadingRun(bs, 0)
  {
    var n, zeros := BytesNumber(bs), LeadingRun(bs, 0);
    digits := ValuesOf(EncodeText(bs));
    DecodeEncode(bs);
    PositionsOfValues(EncodeText(bs));
    NumberOfText(n);
    LeadingRunSplit('1', zeros, NumberText(n));
    OnesCountNothing(zeros, NumberText(n));
    SumIsNumber(digits, 58);
    SumIsNumber(bs, 256);
  }

  // ----- how long the text is -----

  /** 58^6 is at least 2^35, which bounds the digits of any number below 256^n. */
  lemma {:induction false} DigitBound(v: nat, n: nat)
    requires v < Pow(256, n)
    ensures |FromNat(v, 58)| <= n * 138 / 100 + 1
  {
    var d := |FromNat(v, 58)|;
    if d > 1 {
      var m := d - 1;
      FromNatLength(v, 58, m);
      PowersCompared(m, n);
    }
  }

  lemma SixthPower()
    ensures Pow(2, 35) <= Pow(58, 6) && Pow(2, 8) == 256
  {
    assert Pow(58, 3) == 195112;
    assert Pow(58, 6) == 195112 * 195112 by {
      PowAdd(58, 3, 3);
    }
    assert Pow(2, 8) == 256;
    assert Pow(2, 16) == 65536 by {
      PowAdd(2, 8, 8);
    }
    assert Pow(2, 32) == 0x1_0000_0000 by {
      PowAdd(2, 16, 16);
    }
    assert Pow(2, 3) == 8;
    PowAdd(2, 32, 3);
  }

  lemma {:induction false} BytesAsBits(n: nat)
    ensures Pow(Pow(256, n), 6) == Pow(2, 48 * n)
  {
    SixthPower();
    PowMul(256, n, 6);
    PowMul(2, 8, n * 6);
    assert 8 * (n * 6) == 48 * n;
  }

  lemma {:induction false} DigitsAsBits(m: nat)
    ensures Pow(2, 35 * m) <= Pow(Pow(58, m), 6)
  {
    SixthPower();
    PowMul(58, m, 6);
    PowMul(58, 6, m);
    PowMul(2, 35, m);
    PowPositive(2, 35);
    PowMonotone(Pow(2, 35), Pow(58, 6), m);
  }

  lemma {:induction false} PowersCompared(m: nat, n: nat)
    requires Pow(58, m) < Pow(256, n)
    ensures 35 * m < 48 * n
  {
    assert Pow(Pow(58, m), 6) < Pow(Pow(256, n), 6) by {
      PowPositive(58, m);
      PowStrict(Pow(58, m), Pow(256, n), 6);
    }
    BytesAsBits(n);
    DigitsAsBits(m);
    if 35 * m >= 48 * n {
      PowExponent(2, 48 * n, 35 * m);
    }
  }

  /** Decoding never yields more bytes than there were characters. */
  lemma DecodedLength(text: string)
    ensures |DecodeText(text)| <= |text|
  {
    var ones := LeadingRun(text, '1');
    var tail := text[ones..];
    NumeralBelow(ValuesOf(tail), 58);
    PowMonotone(58, 256, |tail|);
    FromNatLength(TextNumber(tail), 256, |tail|);
  }

  // ----- the loops -----

  function Reversed(s: string): (r: string)
    ensures |r| == |s| && forall i :: 0 <= i < |s| ==> r[i] == s[|s| - 1 - i]
  {
    seq(|s|, i requires 0 <= i < |s| => s[|s| - 1 - i])
  }

  lemma EncodedFits(binary: Bytes)
    ensures |NumberText(BytesNumber(binary))| <= |binary| * 138 / 100 + 1
  {
    NumeralBelow(binary, 256);
    DigitBound(BytesNumber(binary), |binary|);
  }

  method CountLeading<T(==)>(xs: seq<T>, x: T) returns (k: nat)
    ensures k == LeadingRun(xs, x)
  {
    k := 0;
    while k < |xs| && xs[k] == x
      invariant k <= |xs|
      invariant forall i :: 0 <= i < k ==> xs[i] == x
    {
      k := k + 1;
    }
  }

  /** One round of the digit loop: the last digit moves from the number to the buffer. */
  lemma DigitMoved(n: nat, buffer: string)
    requires n != 0
    ensures |NumberText(n)| == |NumberText(n / 58)| + 1
    ensures NumberText(n) + Reversed(buffer)
         == NumberText(n / 58) + Reversed(buffer + [ValToChar(n % 58)])
  {
    assert NumberText(n) == NumberText(n / 58) + [ValToChar(n % 58)];
    assert Reversed(buffer + [ValToChar(n % 58)]) == [ValToChar(n % 58)] + Reversed(buffer);
  }

  /** Divides the number down, writing digits into a buffer of fixed size. */
  method Encode(binary: Bytes) returns (ret: string)
    ensures ret == EncodeText(binary)
  {
    if binary == [] {
      return "";
    }
    var zeros := CountLeading(binary, 0);
    var encodedSize := |binary| * 138 / 100 + 2;
    var encoded := new char[encodedSize](_ => '\0');
    var bn := BytesNumber(binary);
    ghost var all := NumberText(bn);
    EncodedFits(binary);

    var pos := 0;
    while bn != 0
      invariant pos + |NumberText(bn)| == |all| < encodedSize
      invariant all == NumberText(bn) + Reversed(encoded[..pos])
      decreases bn
    {
      ghost var before := encoded[..pos];
      DigitMoved(bn, before);
      var rem := bn % 58;
      bn := bn / 58;
      encoded[pos] := ValToChar(rem);
      pos := pos + 1;
      assert encoded[..pos] == before + [ValToChar(rem)];
    }
    ret := Prepend(zeros, encoded[..pos]);
  }

  /** Writes the buffered digits, least significant first, behind a run of ones. */
  method Prepend(zeros: nat, encoded: string) returns (ret: string)
    ensures ret == Repeated('1', zeros) + Reversed(encoded)
  {
    var pos := |encoded|;
    ret := Repeated('1', pos + zeros);
    var ui := 0;
    while ui < pos
      invariant ui <= pos && |ret| == pos + zeros
      invariant forall i :: 0 <= i < pos + zeros - ui ==> ret[i] == '1'
      invariant forall i :: 0 <= i < ui ==> ret[|ret| - 1 - i] == encoded[i]
    {
      ret := ret[|ret| - ui - 1 := encoded[ui]];
      ui := ui + 1;
    }
    forall j | zeros <= j < |ret|
      ensures ret[j] == Reversed(encoded)[j - zeros]
    {
      assert ret[|ret| - 1 - (|ret| - 1 - j)] == encoded[|ret| - 1 - j];
    }
  }

  /** Multiplies the number up, one character at a time. */
  method ReadNumber(text: string) returns (bn: nat)
    ensures bn == TextNumber(text)
  {
    bn := 0;
    for ui := 0 to |text|
      invariant bn == TextNumber(text[..ui])
    {
      var val := CharToVal(text[ui]);
      TextNumberStep(text, ui);
      bn := bn * 58;
      bn := bn + val;
    }
    assert text[..|text|] == text;
  }

  lemma TextNumberStep(text: string, ui: nat)
    requires ui < |text|
    ensures TextNumber(text[..ui + 1]) == TextNumber(text[..ui]) * 58 + CharToVal(text[ui])
  {
    assert ValuesOf(text[..ui + 1]) == ValuesOf(text[..ui]) + [CharToVal(text[ui])];
    ToNatSnoc(ValuesOf(text[..ui]), CharToVal(text[ui]), 58);
  }

  /** Writes the bytes of the number behind the zeros of a buffer as long as the text. */
  method Decode(printable: string) returns (ret: Bytes)
    ensures ret == DecodeText(printable)
  {
    var zeros := CountLeading(printable, '1');
    var bn := ReadNumber(printable[zeros..]);
    DecodedLength(printable);
    var bin := new byte[|printable|](_ => 0);
    assert bin[..zeros] == Repeated(0, zeros);
    var binlen := WriteBytes(bn, bin, zeros);
    ret := bin[..binlen + zeros];
    assert ret == bin[..zeros] + bin[zeros..zeros + binlen];
  }

  /** Writes the big-endian bytes of a number into a buffer that has room for them. */
  method WriteBytes(bn: nat, bin: array<byte>, start: nat) returns (binlen: nat)
    requires start + |NumberBytes(bn)| <= bin.Length
    modifies bin
    ensures binlen == |NumberBytes(bn)|
    ensures bin[..start] == old(bin[..start]) && bin[start..start + binlen] == NumberBytes(bn)
  {
    var bytes := NumberBytes(bn);
    binlen := |bytes|;
    for i := 0 to binlen
      invariant bin[..start] == old(bin[..start])
      invariant bin[start..start + i] == bytes[..i]
    {
      bin[start + i] := bytes[i];
    }
  }
}
