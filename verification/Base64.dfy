/**
  Base64 text with the URL and filename safe alphabet and no padding. The
  specification reads the whole bit string as one number and regroups it, as
  sections 4 and 5 of RFC 4648 do; the encoder and the decoder instead carry a
  few bits from one step to the next.
 */
module Base64 {
  import opened Base
  import opened Radix

  const ALPHABET := "ABCDEFGHIJKLMNOPQRSTUVWXYZ" + "abcdefghijklmnopqrstuvwxyz" + "0123456789" + "-_"

  /** The alphabet the encoder writes. */
  predicate IsUrlChar(c: char) {
    'A' <= c <= 'Z' || 'a' <= c <= 'z' || '0' <= c <= '9' || c == '-' || c == '_'
  }

  /** The six-bit value of a character of any Base64 alphabet, or -1. */
  function CharToVal(c: char): (v: int)
    ensures -1 <= v < 64
  {
    if 'A' <= c <= 'Z' then c as int - 'A' as int
    else if 'a' <= c <= 'z' then c as int - 'a' as int + 26
    else if '0' <= c <= '9' then c as int - '0' as int + 52
    else if c == '+' || c == '-' then 62
    else if c == '/' || c == '_' || c == ',' then 63
    else -1
  }

  /** The table lookup, written by the runs of the table. */
  function ValToChar(v: int): (c: char) {
    if 0 <= v < 26 then ('A' as int + v) as char
    else if 26 <= v < 52 then ('a' as int + v - 26) as char
    else if 52 <= v < 62 then ('0' as int + v - 52) as char
    else if v == 62 then '-'
    else if v == 63 then '_'
    else '\0'
  }

  lemma TableEntry(v: int)
    requires 0 <= v < 64
    ensures |ALPHABET| == 64 && ALPHABET[v] == ValToChar(v)
  {
    if v < 26 {
      assert ALPHABET[v] == "ABCDEFGHIJKLMNOPQRSTUVWXYZ"[v];
    } else if v < 52 {
      assert ALPHABET[v] == "abcdefghijklmnopqrstuvwxyz"[v - 26];
    } else if v < 62 {
      assert ALPHABET[v] == "0123456789"[v - 52];
    } else {
      assert ALPHABET[v] == "-_"[v - 62];
    }
  }

  lemma ValCharVal(v: int)
    requires 0 <= v < 64
    ensures IsUrlChar(ValToChar(v)) && CharToVal(ValToChar(v)) == v
  {
  }

  lemma CharValChar(c: char)
    requires IsUrlChar(c)
    ensures 0 <= CharToVal(c) && ValToChar(CharToVal(c)) == c
  {
  }

  /** Read are the table, plus for minus, and slash and comma for underscore; nothing else has a value. */
  lemma CharsRead(c: char)
    ensures c in ALPHABET ==> 0 <= CharToVal(c) && ALPHABET[CharToVal(c)] == c
    ensures CharToVal('+') == CharToVal('-') && CharToVal('/') == CharToVal(',') == CharToVal('_')
    ensures CharToVal(c) == -1 <==> c !in ALPHABET && c != '+' && c != '/' && c != ','
  {
    TableEntry(0);
    if c in ALPHABET {
      var i :| 0 <= i < |ALPHABET| && ALPHABET[i] == c;
      TableEntry(i);
      ValCharVal(i);
    } else if IsUrlChar(c) {
      CharValChar(c);
      TableEntry(CharToVal(c));
    }
  }

  // ----- bit strings as numbers -----

  /** Zero bits fill the last group of six; this is the factor they shift by. */
  function FillFactor(bytes: nat): (f: nat)
    ensures f > 0
  {
    if bytes % 3 == 0 then 1 else if bytes % 3 == 1 then 16 else 4
  }

  /** Groups of six that cover the bits of so many bytes. */
  function SextetCount(bytes: nat): (k: nat) {
    (4 * bytes + 2) / 3
  }

  /** Bits beyond the last whole byte are dropped; this is the factor they take up. */
  function DropFactor(sextets: nat): (f: nat)
    ensures f > 0
  {
    if sextets % 4 == 0 then 1 else if sextets % 4 == 1 then 64 else if sextets % 4 == 2 then 16 else 4
  }

  function ByteCount(sextets: nat): (m: nat) {
    3 * sextets / 4
  }

  /** The bits of the bytes and the fill, six at a time. */
  function Sextets(bs: Bytes): (values: seq<int>)
    ensures |values| == SextetCount(|bs|) && IsNumeral(values, 64)
  {
    FixedDigits(BytesNumber(bs) * FillFactor(|bs|), 64, SextetCount(|bs|))
  }

  function SextetsNumber(values: seq<int>): (n: nat)
    requires IsNumeral(values, 64)
  {
    ToNatNonNegative(values, 64);
    ToNat(values, 64)
  }

  /** The bits of the values, eight at a time, an incomplete last byte dropped. */
  function DecodeValues(values: seq<int>): (bs: Bytes)
    requires IsNumeral(values, 64)
    ensures |bs| == ByteCount(|values|)
  {
    FixedDigits(SextetsNumber(values) / DropFactor(|values|), 256, ByteCount(|values|))
  }

  /** The counts for 3q + r bytes. */
  lemma ThreesCounted(q: nat, r: nat)
    requires r < 3
    ensures (3 * q + r) % 3 == r
    ensures SextetCount(3 * q + r) == 4 * q + if r == 0 then 0 else r + 1
  {
    DivModUnique(q, r, 3);
    DivModUnique(4 * q + if r == 0 then 0 else r + 1, if r == 0 then 2 else r - 1, 3);
  }

  /** The counts for 4q + r sextets. */
  lemma FoursCounted(q: nat, r: nat)
    requires r < 4
    ensures (4 * q + r) % 4 == r
    ensures ByteCount(4 * q + r) == 3 * q + if r == 0 then 0 else r - 1
  {
    DivModUnique(q, r, 4);
    DivModUnique(3 * q + if r == 0 then 0 else r - 1, if r == 0 then 0 else 4 - r, 4);
  }

  // ----- text -----

  function Chars(values: seq<int>): (text: string)
    ensures |text| == |values|
  {
    seq(|values|, i requires 0 <= i < |values| => ValToChar(values[i]))
  }

  /** The values of the characters that have one; all others are passed over. */
  function SixBitValues(text: string): (values: seq<int>)
    ensures IsNumeral(values, 64)
  {
    if text == [] then []
    else
      var v := CharToVal(text[|text| - 1]);
      SixBitValues(text[..|text| - 1]) + if v < 0 then [] else [v]
  }

  function EncodeText(bs: Bytes): (text: string)
    ensures |text| == SextetCount(|bs|)
  {
    Chars(Sextets(bs))
  }

  function DecodeText(text: string): (bs: Bytes) {
    DecodeValues(SixBitValues(text))
  }

  // ----- the factors and the powers -----

  lemma PowersOfTwo()
    ensures Pow(2, 0) == 1 && Pow(2, 2) == 4 && Pow(2, 4) == 16 && Pow(2, 6) == 64 && Pow(2, 8) == 256
  {
    assert Pow(2, 1) == 2 && Pow(2, 3) == 8 && Pow(2, 5) == 32 && Pow(2, 7) == 128;
  }

  lemma {:induction false} PowerOfFactor(n: nat, f: nat, k: nat, factor: int)
    requires 8 * n + f == 6 * k && factor == Pow(2, f)
    ensures Pow(256, n) * factor == Pow(64, k)
  {
    PowersOfTwo();
    PowMul(2, 8, n);
    PowMul(2, 6, k);
    PowAdd(2, 8 * n, f);
  }

  /** How many bits so many sextets have beyond the last whole byte. */
  function DropBits(sextets: nat): (f: nat)
    ensures 8 * ByteCount(sextets) + f == 6 * sextets && (f == 0 || f == 2 || f == 4 || f == 6)
  {
    6 * sextets - 8 * ByteCount(sextets)
  }

  lemma DropFactorIsPower(k: nat)
    ensures DropFactor(k) == Pow(2, DropBits(k))
  {
    PowersOfTwo();
    FoursCounted(k / 4, k % 4);
  }

  lemma {:induction false} DroppedPower(k: nat)
    ensures Pow(256, ByteCount(k)) * DropFactor(k) == Pow(64, k)
  {
    DropFactorIsPower(k);
    PowerOfFactor(ByteCount(k), DropBits(k), k, DropFactor(k));
  }

  lemma FillIsDropped(n: nat)
    ensures DropFactor(SextetCount(n)) == FillFactor(n) && ByteCount(SextetCount(n)) == n
  {
    var q, r := n / 3, n % 3;
    ThreesCounted(q, r);
    FoursCounted(q, if r == 0 then 0 else r + 1);
  }

  /** The filled bits of n bytes are exactly the bits of their sextets. */
  lemma {:induction false} FilledPower(n: nat)
    ensures Pow(256, n) * FillFactor(n) == Pow(64, SextetCount(n))
  {
    FillIsDropped(n);
    DroppedPower(SextetCount(n));
  }

  // ----- round trips -----

  /** The sextets denote the number of the bytes, shifted over the fill. */
  lemma SextetsDenote(bs: Bytes)
    ensures SextetsNumber(Sextets(bs)) == BytesNumber(bs) * FillFactor(|bs|)
  {
    var n, f, k := BytesNumber(bs), FillFactor(|bs|), SextetCount(|bs|);
    assert n * f < Pow(64, k) by {
      NumeralBelow(bs, 256);
      FilledPower(|bs|);
      ScaledBelow(n, Pow(256, |bs|), f);
    }
    NumberOfFixed(n * f, 64, k);
  }

  /** A numeral of the right length and value is the sextets. */
  lemma {:induction false} SextetsAre(bs: Bytes, values: seq<int>)
    requires IsNumeral(values, 64) && |values| == SextetCount(|bs|)
    requires ToNat(values, 64) == ToNat(bs, 256) * FillFactor(|bs|)
    ensures Sextets(bs) == values
  {
    FixedOfNumeral(values, 64);
  }

  lemma {:induction false} DecodedAre(values: seq<int>, bs: Bytes)
    requires IsNumeral(values, 64) && |bs| == ByteCount(|values|)
    requires ToNat(bs, 256) == ToNat(values, 64) / DropFactor(|values|)
    ensures DecodeValues(values) == bs
  {
    FixedOfNumeral(bs, 256);
  }

  lemma ScaledBelow(n: int, p: int, f: nat)
    requires n < p && 0 < f
    ensures n * f < p * f
  {
    MulMonotone(n + 1, p, f);
  }

  lemma Unscaled(n: int, f: nat, r: int)
    requires 0 <= r < f
    ensures (n * f + r) / f == n
  {
    DivModUnique(n, r, f);
  }

  /** Decoding the sextets of bytes gives the bytes. */
  lemma DecodeSextets(bs: Bytes)
    ensures DecodeValues(Sextets(bs)) == bs
  {
    SextetsDenote(bs);
    FillIsDropped(|bs|);
    Unscaled(BytesNumber(bs), FillFactor(|bs|), 0);
    FixedOfNumeral(bs, 256);
  }

  lemma {:induction false} ValuesOfChars(values: seq<int>)
    requires IsNumeral(values, 64)
    ensures SixBitValues(Chars(values)) == values
  {
    if values != [] {
      var init, last := values[..|values| - 1], values[|values| - 1];
      ValuesOfChars(init);
      ValCharVal(last);
      assert Chars(values)[..|values| - 1] == Chars(init);
      assert values == init + [last];
    }
  }

  /** Every byte string is recovered from its text. */
  lemma DecodeEncode(bs: Bytes)
    ensures DecodeText(EncodeText(bs)) == bs
  {
    ValuesOfChars(Sextets(bs));
    DecodeSextets(bs);
  }

  /** Four characters for every three bytes, rounded up, all of the written alphabet. */
  lemma EncodedChars(bs: Bytes)
    ensures |EncodeText(bs)| == (4 * |bs| + 2) / 3
    ensures forall i :: 0 <= i < |EncodeText(bs)| ==> IsUrlChar(EncodeText(bs)[i])
  {
    forall i | 0 <= i < |EncodeText(bs)|
      ensures IsUrlChar(EncodeText(bs)[i])
    {
      ValCharVal(Sextets(bs)[i]);
    }
  }

  // ----- putting texts together -----

  lemma {:induction false} ValuesConcat(s: string, t: string)
    ensures SixBitValues(s + t) == SixBitValues(s) + SixBitValues(t)
  {
    if t == [] {
      assert s + t == s;
    } else {
      var init := t[..|t| - 1];
      assert (s + t)[..|s + t| - 1] == s + init;
      ValuesConcat(s, init);
    }
  }

  lemma {:induction false} JunkHasNoValues(junk: string)
    requires forall i :: 0 <= i < |junk| ==> CharToVal(junk[i]) < 0
    ensures SixBitValues(junk) == []
  {
    if junk != [] {
      JunkHasNoValues(junk[..|junk| - 1]);
    }
  }

  /** Characters without a value change nothing, wherever they stand. */
  lemma JunkIgnored(s: string, junk: string, t: string)
    requires forall i :: 0 <= i < |junk| ==> CharToVal(junk[i]) < 0
    ensures DecodeText(s + junk + t) == DecodeText(s + t)
  {
    ValuesWithoutJunk(s, junk);
    ValuesConcat(s + junk, t);
    ValuesConcat(s, t);
  }

  lemma {:induction false} ValuesWithoutJunk(s: string, junk: string)
    requires forall i :: 0 <= i < |junk| ==> CharToVal(junk[i]) < 0
    ensures SixBitValues(s + junk) == SixBitValues(s)
  {
    ValuesConcat(s, junk);
    JunkHasNoValues(junk);
  }

  lemma ScaledSum(x: int, p: int, y: int, f: int)
    ensures (x * p + y) * f == x * (p * f) + y * f
  {
    assert (x * p) * f == x * (p * f);
  }

  lemma InThrees(m: nat, n: nat)
    requires m % 3 == 0
    ensures FillFactor(m) == 1 && FillFactor(m + n) == FillFactor(n)
    ensures SextetCount(m + n) == SextetCount(m) + SextetCount(n)
  {
    var q, p, r := m / 3, n / 3, n % 3;
    assert m == 3 * q && n == 3 * p + r && m + n == 3 * (q + p) + r;
    ThreesCounted(q, 0);
    ThreesCounted(p, r);
    ThreesCounted(q + p, r);
  }

  /** Numerals x and y of the bytes a and, scaled by f, of b make up the numeral of a + b. */
  lemma {:induction false} JoinedNumber(x: seq<int>, y: seq<int>, a: seq<int>, b: seq<int>, f: int)
    requires ToNat(x, 64) == ToNat(a, 256) && ToNat(y, 64) == ToNat(b, 256) * f && Pow(256, |b|) * f == Pow(64, |y|)
    ensures ToNat(x + y, 64) == ToNat(a + b, 256) * f
  {
    ToNatConcat(x, y, 64);
    ToNatConcat(a, b, 256);
    ScaledSum(ToNat(a, 256), Pow(256, |b|), ToNat(b, 256), f);
  }

  /** The sextets of bytes split after every third byte. */
  lemma SextetsConcat(a: Bytes, b: Bytes)
    requires |a| % 3 == 0
    ensures Sextets(a + b) == Sextets(a) + Sextets(b)
  {
    var x, y, f := Sextets(a), Sextets(b), FillFactor(|b|);
    InThrees(|a|, |b|);
    assert ToNat(x + y, 64) == ToNat(a + b, 256) * f by {
      SextetsDenote(a);
      SextetsDenote(b);
      FilledPower(|b|);
      JoinedNumber(x, y, a, b, f);
    }
    SextetsAre(a + b, x + y);
  }

  /** Encoding splits after every third byte. */
  lemma EncodeConcat(a: Bytes, b: Bytes)
    requires |a| % 3 == 0
    ensures EncodeText(a + b) == EncodeText(a) + EncodeText(b)
  {
    SextetsConcat(a, b);
  }

  lemma InFours(m: nat, n: nat)
    requires m % 4 == 0
    ensures DropFactor(m) == 1 && DropFactor(m + n) == DropFactor(n)
    ensures ByteCount(m + n) == ByteCount(m) + ByteCount(n)
  {
    var q, p, r := m / 4, n / 4, n % 4;
    assert m == 4 * q && n == 4 * p + r && m + n == 4 * (q + p) + r;
    FoursCounted(q, 0);
    FoursCounted(p, r);
    FoursCounted(q + p, r);
  }

  lemma {:induction false} DecodedNumber(values: seq<int>)
    requires IsNumeral(values, 64)
    ensures 0 <= SextetsNumber(values) / DropFactor(|values|) < Pow(256, ByteCount(|values|))
    ensures ToNat(DecodeValues(values), 256) == SextetsNumber(values) / DropFactor(|values|)
  {
    var n, f := SextetsNumber(values), DropFactor(|values|);
    NumeralBelow(values, 64);
    DroppedPower(|values|);
    Euclid(n, f);
    StepBelow(n / f, Pow(256, ByteCount(|values|)), f, n % f);
    NumberOfFixed(n / f, 256, ByteCount(|values|));
  }

  lemma DividedSum(x: int, p: int, y: int, f: nat)
    requires 0 < f
    ensures (x * (p * f) + y) / f == x * p + y / f
  {
    Euclid(y, f);
    ScaledSum(x, p, y / f, f);
    Unscaled(x * p + y / f, f, y % f);
  }

  lemma {:induction false} JoinedQuotient(v: seq<int>, w: seq<int>, x: seq<int>, y: seq<int>, f: nat)
    requires 0 < f && ToNat(x, 256) == ToNat(v, 64) && ToNat(y, 256) == ToNat(w, 64) / f
    requires Pow(256, |y|) * f == Pow(64, |w|)
    ensures ToNat(x + y, 256) == ToNat(v + w, 64) / f
  {
    ToNatConcat(x, y, 256);
    ToNatConcat(v, w, 64);
    DividedSum(ToNat(v, 64), Pow(256, |y|), ToNat(w, 64), f);
  }

  /** Decoding splits after every fourth value. */
  lemma DecodeValuesConcat(v: seq<int>, w: seq<int>)
    requires IsNumeral(v, 64) && IsNumeral(w, 64) && |v| % 4 == 0
    ensures IsNumeral(v + w, 64)
    ensures DecodeValues(v + w) == DecodeValues(v) + DecodeValues(w)
  {
    var x, y, f := DecodeValues(v), DecodeValues(w), DropFactor(|w|);
    InFours(|v|, |w|);
    assert ToNat(x + y, 256) == ToNat(v + w, 64) / f by {
      DecodedNumber(v);
      DecodedNumber(w);
      DroppedPower(|w|);
      JoinedQuotient(v, w, x, y, f);
    }
    DecodedAre(v + w, x + y);
  }

  /** Decoding splits after every fourth character that has a value. */
  lemma {:induction false} DecodeConcat(s: string, t: string)
    requires |SixBitValues(s)| % 4 == 0
    ensures DecodeText(s + t) == DecodeText(s) + DecodeText(t)
  {
    ValuesConcat(s, t);
    DecodeValuesConcat(SixBitValues(s), SixBitValues(t));
  }

  lemma {:induction false} CharsOfValues(text: string)
    requires forall i :: 0 <= i < |text| ==> IsUrlChar(text[i])
    ensures Chars(SixBitValues(text)) == text && |SixBitValues(text)| == |text|
  {
    if text != [] {
      var init, last := text[..|text| - 1], text[|text| - 1];
      CharsOfValues(init);
      CharValChar(last);
      assert text == init + [last];
    }
  }

  /** What so many values decode to has as many sextets again, unless a lone one is left over. */
  lemma CountsReturn(k: nat)
    ensures k % 4 != 1 ==> SextetCount(ByteCount(k)) == k && FillFactor(ByteCount(k)) == DropFactor(k)
    ensures k % 4 == 1 ==> SextetCount(ByteCount(k)) == k - 1
  {
    var q, r := k / 4, k % 4;
    FoursCounted(q, r);
    ThreesCounted(q, if r == 0 then 0 else r - 1);
  }

  lemma LastBits(values: seq<int>)
    requires IsNumeral(values, 64) && values != []
    ensures SextetsNumber(values) % DropFactor(|values|) == values[|values| - 1] % DropFactor(|values|)
  {
    var init, last := values[..|values| - 1], values[|values| - 1];
    assert values == init + [last];
    ToNatSnoc(init, last, 64);
    LowBits(ToNat(init, 64), last, DropFactor(|values|));
  }

  lemma LowBits(high: int, low: int, f: nat)
    requires f == 1 || f == 4 || f == 16 || f == 64
    ensures (high * 64 + low) % f == low % f
  {
    Euclid(low, f);
    var q := high * (64 / f) + low / f;
    assert q * f + low % f == high * 64 + low by {
      assert 64 / f * f == 64;
      ScaledSum(high, 64 / f, low / f, f);
    }
    DivModUnique(q, low % f, f);
  }

  /** Values return from the bytes they decode to exactly when no bit that is set gets dropped. */
  lemma EncodeDecodedValues(values: seq<int>)
    requires IsNumeral(values, 64) && |values| % 4 != 1
    ensures Sextets(DecodeValues(values)) == values <==> SextetsNumber(values) % DropFactor(|values|) == 0
  {
    var n, f := SextetsNumber(values), DropFactor(|values|);
    CountsReturn(|values|);
    DecodedNumber(values);
    assert SextetsNumber(Sextets(DecodeValues(values))) == n / f * f by {
      SextetsDenote(DecodeValues(values));
    }
    Euclid(n, f);
    if n % f == 0 {
      FixedOfNumeral(values, 64);
    }
  }

  /**
    Text over the written alphabet is the text of the bytes it decodes to exactly
    when no character is left over and the last one has no bits to drop.
   */
  lemma EncodeDecode(text: string)
    requires forall i :: 0 <= i < |text| ==> IsUrlChar(text[i])
    ensures EncodeText(DecodeText(text)) == text
       <==> |text| % 4 != 1 && (text != [] ==> CharToVal(text[|text| - 1]) % DropFactor(|text|) == 0)
  {
    var values := SixBitValues(text);
    CharsOfValues(text);
    CountsReturn(|values|);
    if |values| % 4 != 1 {
      EncodeDecodedValues(values);
      SameChars(Sextets(DecodeValues(values)), values);
      if text != [] {
        LastBits(values);
        assert CharToVal(text[|text| - 1]) == values[|values| - 1] by {
          CharValue(values, |values| - 1);
        }
      }
    }
  }

  lemma CharValue(values: seq<int>, i: nat)
    requires IsNumeral(values, 64) && i < |values|
    ensures CharToVal(Chars(values)[i]) == values[i]
  {
    ValCharVal(values[i]);
  }

  lemma SameChars(v: seq<int>, w: seq<int>)
    requires IsNumeral(v, 64) && IsNumeral(w, 64)
    ensures Chars(v) == Chars(w) <==> v == w
  {
    ValuesOfChars(v);
    ValuesOfChars(w);
  }

  /** Three bytes are one 24-bit group, cut into four values; groups follow one another. */
  lemma GroupOfThree(b0: byte, b1: byte, b2: byte, others: Bytes)
    ensures var x := b0 * 65536 + b1 * 256 + b2;
            Sextets([b0, b1, b2] + others)
              == [x / 262144, x / 4096 % 64, x / 64 % 64, x % 64] + Sextets(others)
  {
    var x := b0 * 65536 + b1 * 256 + b2;
    SextetsConcat([b0, b1, b2], others);
    assert BytesNumber([b0, b1, b2]) == x by {
      ToNatSnoc([b0, b1], b2, 256);
      ToNatSnoc([b0], b1, 256);
      ToNatSnoc([], b0, 256);
      assert [b0, b1] + [b2] == [b0, b1, b2];
    }
    FourDigits(x);
  }

  /** One or two bytes at the end: zero bits fill the last group of six. */
  lemma LastGroups(b0: byte, b1: byte)
    ensures Sextets([]) == []
    ensures Sextets([b0]) == [b0 / 4, b0 % 4 * 16]
    ensures Sextets([b0, b1]) == [b0 / 4, b0 % 4 * 16 + b1 / 16, b1 % 16 * 4]
  {
    ThreesCounted(0, 0);
    ThreesCounted(0, 1);
    ThreesCounted(0, 2);
    OneByte(b0, b1);
    SextetsAre([], []);
    SextetsAre([b0], [b0 / 4, b0 % 4 * 16]);
    SextetsAre([b0, b1], [b0 / 4, b0 % 4 * 16 + b1 / 16, b1 % 16 * 4]);
  }

  lemma OneByte(b0: byte, b1: byte)
    ensures ToNat([b0], 256) == b0 && ToNat([b0, b1], 256) == b0 * 256 + b1
    ensures ToNat([b0 / 4, b0 % 4 * 16], 64) == b0 * 16
    ensures ToNat([b0 / 4, b0 % 4 * 16 + b1 / 16, b1 % 16 * 4], 64) == (b0 * 256 + b1) * 4
  {
    TwoDigits(b0, b1, 256);
    TwoDigits(b0 / 4, b0 % 4 * 16, 64);
    TwoDigits(b0 / 4, b0 % 4 * 16 + b1 / 16, 64);
    ToNatSnoc([b0 / 4, b0 % 4 * 16 + b1 / 16], b1 % 16 * 4, 64);
    assert [b0 / 4, b0 % 4 * 16 + b1 / 16] + [b1 % 16 * 4] == [b0 / 4, b0 % 4 * 16 + b1 / 16, b1 % 16 * 4];
  }

  lemma {:induction false} TwoDigits(a: int, b: int, base: int)
    ensures ToNat([a], base) == a && ToNat([a, b], base) == a * base + b
  {
    ToNatSnoc([], a, base);
    ToNatSnoc([a], b, base);
    assert [] + [a] == [a] && [a] + [b] == [a, b];
  }

  lemma {:induction false} FourDigits(x: nat)
    requires x < 16777216
    ensures FixedDigits(x, 64, 4) == [x / 262144, x / 4096 % 64, x / 64 % 64, x % 64]
  {
    assert FixedDigits(x / 262144, 64, 1) == [x / 262144];
    assert x / 4096 / 64 == x / 262144;
    assert FixedDigits(x / 4096, 64, 2) == [x / 262144, x / 4096 % 64];
    assert x / 64 / 64 == x / 4096;
    assert FixedDigits(x / 64, 64, 3) == [x / 262144, x / 4096 % 64, x / 64 % 64];
  }

  // ----- the loops -----

  /** The number read so far is the number written, shifted, plus the carried bits. */
  ghost predicate EncoderState(read: Bytes, values: seq<int>, curVal: int, bits: int) {
    && IsNumeral(values, 64)
    && (bits == 0 || bits == 2 || bits == 4)
    && 8 * |read| == 6 * |values| + bits
    && (bits == 0 ==> ToNat(read, 256) == ToNat(values, 64))
    && (bits == 2 ==> 0 <= curVal < 4 && ToNat(read, 256) == ToNat(values, 64) * 4 + curVal)
    && (bits == 4 ==> 0 <= curVal < 16 && ToNat(read, 256) == ToNat(values, 64) * 16 + curVal)
  }

  lemma EncoderStep0(read: Bytes, values: seq<int>, curVal: int, uc: byte)
    requires EncoderState(read, values, curVal, 0)
    ensures EncoderState(read + [uc], values + [uc / 4], uc % 4, 2)
  {
    ToNatSnoc(read, uc, 256);
    ToNatSnoc(values, uc / 4, 64);
  }

  lemma EncoderStep2(read: Bytes, values: seq<int>, curVal: int, uc: byte)
    requires EncoderState(read, values, curVal, 2)
    ensures EncoderState(read + [uc], values + [curVal * 16 + uc / 16], uc % 16, 4)
  {
    ToNatSnoc(read, uc, 256);
    ToNatSnoc(values, curVal * 16 + uc / 16, 64);
  }

  lemma EncoderStep4(read: Bytes, values: seq<int>, curVal: int, uc: byte)
    requires EncoderState(read, values, curVal, 4)
    ensures EncoderState(read + [uc], values + [curVal * 4 + uc / 64] + [uc % 64], curVal * 4, 0)
  {
    ToNatSnoc(read, uc, 256);
    ToNatSnoc(values, curVal * 4 + uc / 64, 64);
    ToNatSnoc(values + [curVal * 4 + uc / 64], uc % 64, 64);
  }

  /** Bits left over are shifted up to a last value. */
  lemma EncoderEnd(read: Bytes, values: seq<int>, curVal: int, bits: int)
    requires EncoderState(read, values, curVal, bits)
    ensures Sextets(read) == if bits == 0 then values
                             else if bits == 2 then values + [curVal * 16] else values + [curVal * 4]
  {
    var all := if bits == 0 then values
               else if bits == 2 then values + [curVal * 16] else values + [curVal * 4];
    EncoderCounts(|read|, |values|, bits);
    assert ToNat(all, 64) == BytesNumber(read) * FillFactor(|read|) by {
      if bits == 2 {
        ToNatSnoc(values, curVal * 16, 64);
      } else if bits == 4 {
        ToNatSnoc(values, curVal * 4, 64);
      }
    }
    SextetsAre(read, all);
  }

  lemma EncoderCounts(n: nat, k: nat, bits: int)
    requires 8 * n == 6 * k + bits && (bits == 0 || bits == 2 || bits == 4)
    ensures FillFactor(n) == (if bits == 0 then 1 else if bits == 2 then 16 else 4)
    ensures SextetCount(n) == if bits == 0 then k else k + 1
  {
    ThreesCounted(n / 3, n % 3);
  }

  lemma CharsSnoc(values: seq<int>, v: int)
    ensures Chars(values + [v]) == Chars(values) + [ValToChar(v)]
  {
  }

  /** Takes what completes six bits, and six more if they are there, and keeps the rest. */
  method EncodeByte(uc: byte, curVal: int, bits: int, ghost read: Bytes, ghost values: seq<int>)
    returns (index: seq<int>, newVal: int, newBits: int)
    requires EncoderState(read, values, curVal, bits)
    ensures EncoderState(read + [uc], values + index, newVal, newBits)
  {
    if bits == 0 {
      EncoderStep0(read, values, curVal, uc);
      index := [uc / 4];
      newVal := uc % 4;
      newBits := 2;
    } else if bits == 2 {
      EncoderStep2(read, values, curVal, uc);
      newVal := curVal * 16;
      index := [newVal + uc / 16];
      newVal := uc % 16;
      newBits := 4;
    } else {
      EncoderStep4(read, values, curVal, uc);
      newVal := curVal * 4;
      index := [newVal + uc / 64];
      index := index + [uc % 64];
      newBits := 0;
      assert values + index == values + [curVal * 4 + uc / 64] + [uc % 64];
    }
  }

  /** Writes a character for every six bits, carrying the rest from byte to byte. */
  method Encode(binary: Bytes) returns (encoded: string)
    ensures encoded == EncodeText(binary)
  {
    encoded := "";
    ghost var values: seq<int> := [];
    var bits, curVal := 0, 0;
    for ui := 0 to |binary|
      invariant encoded == Chars(values)
      invariant EncoderState(binary[..ui], values, curVal, bits)
    {
      var index;
      index, curVal, bits := EncodeByte(binary[ui], curVal, bits, binary[..ui], values);
      encoded := encoded + Chars(index);
      values := values + index;
      assert binary[..ui + 1] == binary[..ui] + [binary[ui]];
    }
    assert binary[..|binary|] == binary;
    EncoderEnd(binary, values, curVal, bits);
    if bits > 0 {
      var index := if bits == 2 then curVal * 16 else curVal * 4;
      encoded := encoded + [ValToChar(index)];
      CharsSnoc(values, index);
    }
  }

  /** The number of the values read is the number of the bytes written, shifted, plus the carried bits. */
  ghost predicate DecoderState(values: seq<int>, out: Bytes, curVal: int, bits: int) {
    && IsNumeral(values, 64)
    && (bits == 0 || bits == 2 || bits == 4 || bits == 6)
    && 6 * |values| == 8 * |out| + bits
    && (bits == 0 ==> ToNat(values, 64) == ToNat(out, 256))
    && (bits == 2 ==> 0 <= curVal < 4 && ToNat(values, 64) == ToNat(out, 256) * 4 + curVal)
    && (bits == 4 ==> 0 <= curVal < 16 && ToNat(values, 64) == ToNat(out, 256) * 16 + curVal)
    && (bits == 6 ==> 0 <= curVal < 64 && ToNat(values, 64) == ToNat(out, 256) * 64 + curVal)
  }

  lemma DecoderStep0(values: seq<int>, out: Bytes, curVal: int, v: int)
    requires DecoderState(values, out, curVal, 0) && 0 <= v < 64
    ensures DecoderState(values + [v], out, v, 6)
  {
    ToNatSnoc(values, v, 64);
  }

  lemma DecoderStep2(values: seq<int>, out: Bytes, curVal: int, v: int)
    requires DecoderState(values, out, curVal, 2) && 0 <= v < 64
    ensures curVal * 64 + v < 256 && DecoderState(values + [v], out + [curVal * 64 + v], curVal * 64 + v, 0)
  {
    ToNatSnoc(values, v, 64);
    ToNatSnoc(out, curVal * 64 + v, 256);
  }

  lemma DecoderStep4(values: seq<int>, out: Bytes, curVal: int, v: int)
    requires DecoderState(values, out, curVal, 4) && 0 <= v < 64
    ensures curVal * 16 + v / 4 < 256 && DecoderState(values + [v], out + [curVal * 16 + v / 4], v % 4, 2)
  {
    ToNatSnoc(values, v, 64);
    ToNatSnoc(out, curVal * 16 + v / 4, 256);
  }

  lemma DecoderStep6(values: seq<int>, out: Bytes, curVal: int, v: int)
    requires DecoderState(values, out, curVal, 6) && 0 <= v < 64
    ensures curVal * 4 + v / 16 < 256 && DecoderState(values + [v], out + [curVal * 4 + v / 16], v % 16, 4)
  {
    ToNatSnoc(values, v, 64);
    ToNatSnoc(out, curVal * 4 + v / 16, 256);
  }

  lemma DecoderEnd(values: seq<int>, out: Bytes, curVal: int, bits: int)
    requires DecoderState(values, out, curVal, bits)
    ensures DecodeValues(values) == out
  {
    DecoderCounts(|values|, |out|, bits);
    var f := DropFactor(|values|);
    assert SextetsNumber(values) / f == BytesNumber(out) by {
      Unscaled(BytesNumber(out), f, if bits == 0 then 0 else curVal);
    }
    DecodedAre(values, out);
  }

  lemma DecoderCounts(k: nat, n: nat, bits: int)
    requires 6 * k == 8 * n + bits && (bits == 0 || bits == 2 || bits == 4 || bits == 6)
    ensures DropFactor(k) == (if bits == 0 then 1 else if bits == 2 then 4 else if bits == 4 then 16 else 64)
    ensures ByteCount(k) == n
  {
    FoursCounted(k / 4, k % 4);
  }

  /** Trailing equals signs, at most half of the text. */
  method CountEquals(printable: string) returns (equals: nat)
    ensures equals <= |printable|
    ensures SixBitValues(printable[..|printable| - equals]) == SixBitValues(printable)
  {
    equals := 0;
    while equals < |printable| - equals && printable[|printable| - equals - 1] == '='
      invariant 0 <= equals <= |printable|
      invariant forall i :: |printable| - equals <= i < |printable| ==> printable[i] == '='
    {
      equals := equals + 1;
    }
    ghost var kept, junk := printable[..|printable| - equals], printable[|printable| - equals..];
    assert printable == kept + junk;
    ValuesWithoutJunk(kept, junk);
  }

  /** Writes a byte for every eight bits into a buffer sized by the length of the text. */
  method Decode(printable: string) returns (ret: Bytes)
    ensures ret == DecodeText(printable)
  {
    if printable == "" {
      return [];
    }
    var decoded := new byte[(|printable| / 4 + 1) * 3](_ => 0);
    var equals := CountEquals(printable);
    var decodeLen := DecodeInto(printable[..|printable| - equals], decoded);
    ret := decoded[..decodeLen];
  }

  lemma {:induction false} ValuesSnoc(text: string, c: char)
    ensures SixBitValues(text + [c]) == SixBitValues(text) + if CharToVal(c) < 0 then [] else [CharToVal(c)]
  {
    assert (text + [c])[..|text|] == text;
  }

  /** Adds six bits to those carried; writes a byte once there are eight. */
  method DecodeValue(intVal: int, curVal: int, bits: int, ghost values: seq<int>, ghost out: Bytes)
    returns (written: Bytes, newVal: int, newBits: int)
    requires DecoderState(values, out, curVal, bits) && 0 <= intVal < 64
    ensures |written| <= 1 && DecoderState(values + [intVal], out + written, newVal, newBits)
  {
    written := [];
    if bits == 0 {
      DecoderStep0(values, out, curVal, intVal);
      newVal := intVal;
      newBits := 6;
    } else if bits == 2 {
      DecoderStep2(values, out, curVal, intVal);
      newVal := curVal * 64;
      newVal := newVal + intVal;
      written := [newVal];
      newBits := 0;
    } else if bits == 4 {
      DecoderStep4(values, out, curVal, intVal);
      newVal := curVal * 16;
      newVal := newVal + intVal / 4;
      written := [newVal];
      newVal := intVal % 4;
      newBits := 2;
    } else {
      DecoderStep6(values, out, curVal, intVal);
      newVal := curVal * 4;
      newVal := newVal + intVal / 16;
      written := [newVal];
      newVal := intVal % 16;
      newBits := 4;
    }
    assert out + [] == out;
  }

  lemma NextValue(text: string, ui: nat)
    requires ui < |text|
    ensures var v := CharToVal(text[ui]);
            SixBitValues(text[..ui + 1]) == if v < 0 then SixBitValues(text[..ui]) else SixBitValues(text[..ui]) + [v]
  {
    assert text[..ui + 1] == text[..ui] + [text[ui]];
    ValuesSnoc(text[..ui], text[ui]);
  }

  lemma RoomLeft(values: seq<int>, out: Bytes, curVal: int, bits: int, length: nat)
    requires DecoderState(values, out, curVal, bits) && 3 * |values| <= 4 * length
    ensures |out| <= length
  {
  }

  /** Takes in one value, and writes the byte it completes, if it does. */
  method StoreValue(intVal: int, decoded: array<byte>, decodeLen: nat, curVal: int, bits: int,
                    ghost values: seq<int>, ghost out: Bytes)
    returns (newLen: nat, newVal: int, newBits: int, ghost newOut: Bytes)
    requires decodeLen <= decoded.Length && 3 * (|values| + 1) <= 4 * decoded.Length && 0 <= intVal < 64
    requires out == decoded[..decodeLen] && DecoderState(values, out, curVal, bits)
    modifies decoded
    ensures newLen <= decoded.Length && newOut == decoded[..newLen]
    ensures DecoderState(values + [intVal], newOut, newVal, newBits)
  {
    var written;
    written, newVal, newBits := DecodeValue(intVal, curVal, bits, values, out);
    newLen, newOut := decodeLen + |written|, out + written;
    RoomLeft(values + [intVal], newOut, newVal, newBits, decoded.Length);
    if |written| > 0 {
      decoded[decodeLen] := written[0];
    }
  }

  method DecodeInto(kept: string, decoded: array<byte>) returns (decodeLen: nat)
    requires 3 * |kept| <= 4 * decoded.Length
    modifies decoded
    ensures decodeLen <= decoded.Length && decoded[..decodeLen] == DecodeText(kept)
  {
    decodeLen := 0;
    var bits, curVal := 0, 0;
    ghost var values, out := [], [];
    for ui := 0 to |kept|
      invariant decodeLen <= decoded.Length && out == decoded[..decodeLen]
      invariant values == SixBitValues(kept[..ui]) && |values| <= ui
      invariant DecoderState(values, out, curVal, bits)
    {
      var intVal := CharToVal(kept[ui]);
      NextValue(kept, ui);
      if intVal < 0 {
        continue;
      }
      decodeLen, curVal, bits, out := StoreValue(intVal, decoded, decodeLen, curVal, bits, values, out);
      values := values + [intVal];
    }
    assert kept[..|kept|] == kept;
    DecoderEnd(values, out, curVal, bits);
  }
}
