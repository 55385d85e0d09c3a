/** File names of blocks: three zero-padded decimal numbers and an extension. */
module BlockFilename {
  import opened Base
  import opened Radix
  import opened Decimal

  datatype Triple = Triple(reconciliation: uint32, shard: uint32, block: uint32)

  function Joined(a: string, b: string, c: string): (name: string) {
    a + "-" + b + "-" + c + ".der"
  }

  function Get(t: Triple): (name: string) {
    Joined(Padded(t.reconciliation, 8), Padded(t.shard, 4), Padded(t.block, 4))
  }

  function From8(p: string): (n: int)
    requires |p| == 8
  {
    DigitValue(p[0]) * 10000000 + DigitValue(p[1]) * 1000000 + DigitValue(p[2]) * 100000
    + DigitValue(p[3]) * 10000 + DigitValue(p[4]) * 1000 + DigitValue(p[5]) * 100
    + DigitValue(p[6]) * 10 + DigitValue(p[7])
  }

  function From4(p: string): (n: int)
    requires |p| == 4
  {
    DigitValue(p[0]) * 1000 + DigitValue(p[1]) * 100 + DigitValue(p[2]) * 10 + DigitValue(p[3])
  }

  /** The names that are accepted. */
  ghost predicate IsName(s: string) {
    && |s| == 22
    && s[18..] == ".der"
    && s[8] == '-' && s[13] == '-'
    && AllDigits(s[..8]) && AllDigits(s[9..13]) && AllDigits(s[14..18])
  }

  lemma From4IsNumber(p: string)
    requires |p| == 4
    ensures From4(p) == ToNat(DigitValues(p), 10)
  {
    var d := DigitValues(p);
    assert d[..3][..2][..1] == [d[0]] && d[..3][..2] == [d[0], d[1]] && d[..3] == [d[0], d[1], d[2]];
    assert ToNat([d[0]], 10) == d[0];
    assert ToNat([d[0], d[1]], 10) == d[0] * 10 + d[1];
  }

  lemma From8IsNumber(p: string)
    requires |p| == 8
    ensures From8(p) == ToNat(DigitValues(p), 10)
  {
    From4IsNumber(p[..4]);
    From4IsNumber(p[4..]);
    assert DigitValues(p) == DigitValues(p[..4]) + DigitValues(p[4..]);
    ToNatConcat(DigitValues(p[..4]), DigitValues(p[4..]), 10);
  }

  // ----- names -----

  /** The triples whose numbers fit their fields. */
  predicate InRange(t: Triple) {
    t.reconciliation < 100000000 && t.shard < 10000 && t.block < 10000
  }

  lemma FieldsRead(p: string, q: string)
    requires AllDigits(p) && |p| == 8 && AllDigits(q) && |q| == 4
    ensures From8(p) == Field(p) < 100000000 && From4(q) == Field(q) < 10000
    ensures Padded(Field(p), 8) == p && Padded(Field(q), 4) == q
  {
    From8IsNumber(p);
    From4IsNumber(q);
    NumberOfField(p);
    NumberOfField(q);
  }

  /** The triple written in an accepted name. */
  ghost function TripleOf(s: string): (t: Triple)
    requires IsName(s)
    ensures InRange(t)
  {
    FieldsRead(s[..8], s[9..13]);
    FieldsRead(s[..8], s[14..18]);
    Triple(From8(s[..8]), From4(s[9..13]), From4(s[14..18]))
  }

  /** The specification of reading a name. */
  ghost function Parsed(s: string): (t: Option<Triple>) {
    if IsName(s) then Some(TripleOf(s)) else None
  }

  lemma NameParts(a: string, b: string, c: string)
    requires |a| == 8 && |b| == 4 && |c| == 4
    ensures var s := Joined(a, b, c);
            && |s| == 22 && s[..8] == a && s[8] == '-' && s[9..13] == b && s[13] == '-' && s[14..18] == c
            && s[18..] == ".der"
  {
  }

  /** The form of a name: three fields of digits with their numbers, two dashes and the extension. */
  lemma NameLayout(t: Triple)
    requires InRange(t)
    ensures var s := Get(t);
            && |s| == 22 && s[8] == '-' && s[13] == '-' && s[18..] == ['.', 'd', 'e', 'r']
            && AllDigits(s[..8]) && Field(s[..8]) == t.reconciliation
            && AllDigits(s[9..13]) && Field(s[9..13]) == t.shard
            && AllDigits(s[14..18]) && Field(s[14..18]) == t.block
  {
    FieldOfNumber(t.reconciliation, 8);
    FieldOfNumber(t.shard, 4);
    FieldOfNumber(t.block, 4);
    NameParts(Padded(t.reconciliation, 8), Padded(t.shard, 4), Padded(t.block, 4));
  }

  lemma NameOfTriple(t: Triple)
    requires InRange(t)
    ensures Parsed(Get(t)) == Some(t)
  {
    var a, b, c := Padded(t.reconciliation, 8), Padded(t.shard, 4), Padded(t.block, 4);
    FieldOfNumber(t.reconciliation, 8);
    FieldOfNumber(t.shard, 4);
    FieldOfNumber(t.block, 4);
    NameParts(a, b, c);
    FieldsRead(a, b);
    FieldsRead(a, c);
  }

  /** The name of a triple is accepted exactly when its numbers fit, and then it is read as the triple. */
  lemma ParseGet(t: Triple)
    ensures Parsed(Get(t)).Some? <==> InRange(t)
    ensures InRange(t) ==> Parsed(Get(t)) == Some(t)
  {
    if InRange(t) {
      NameOfTriple(t);
    } else {
      FieldWidth(t.reconciliation, 8);
      FieldWidth(t.shard, 4);
      FieldWidth(t.block, 4);
      assert |Get(t)| > 22;
    }
  }

  lemma FieldsOfName(s: string)
    requires IsName(s)
    ensures var t := TripleOf(s);
            Padded(t.reconciliation, 8) == s[..8] && Padded(t.shard, 4) == s[9..13] && Padded(t.block, 4) == s[14..18]
  {
    FieldsRead(s[..8], s[9..13]);
    FieldsRead(s[..8], s[14..18]);
  }

  /** An accepted name is the name of the triple read from it. */
  lemma GetParse(s: string)
    requires IsName(s)
    ensures Get(TripleOf(s)) == s
  {
    FieldsOfName(s);
  }

  /** Reads a name character by character. */
  method Parse(str: string) returns (t: Option<Triple>)
    ensures t == Parsed(str)
  {
    if |str| != 22 {
      return None;
    }
    if str[18..] != ".der" {
      return None;
    }
    for ui := 0 to 18
      invariant forall i :: 0 <= i < ui ==> if i == 8 || i == 13 then str[i] == '-' else IsDigit(str[i])
    {
      var c := str[ui];
      if ui == 8 || ui == 13 {
        if c != '-' {
          return None;
        }
      } else if c < '0' || c > '9' {
        assert !IsName(str) by {
          assert ui < 8 ==> str[..8][ui] == c;
          assert 8 < ui < 13 ==> str[9..13][ui - 9] == c;
          assert 13 < ui ==> str[14..18][ui - 14] == c;
        }
        return None;
      }
    }
    assert IsName(str);
    FieldsRead(str[..8], str[9..13]);
    FieldsRead(str[..8], str[14..18]);
    t := Some(Triple(From8(str[..8]), From4(str[9..13]), From4(str[14..18])));
  }

  // ----- order -----

  /** Dictionary order of strings. */
  predicate Before(a: string, b: string) {
    b != [] && (a == [] || a[0] < b[0] || (a[0] == b[0] && Before(a[1..], b[1..])))
  }

  predicate TripleBefore(a: Triple, b: Triple) {
    || a.reconciliation < b.reconciliation
    || (a.reconciliation == b.reconciliation && a.shard < b.shard)
    || (a.reconciliation == b.reconciliation && a.shard == b.shard && a.block < b.block)
  }

  lemma {:induction false} BeforeConcat(a: string, b: string, x: string, y: string)
    requires |a| == |b|
    ensures Before(a + x, b + y) <==> Before(a, b) || (a == b && Before(x, y))
  {
    if a == [] {
      assert a + x == x && b + y == y;
    } else {
      BeforeConcat(a[1..], b[1..], x, y);
      assert (a + x)[1..] == a[1..] + x && (b + y)[1..] == b[1..] + y;
      assert a == [a[0]] + a[1..] && b == [b[0]] + b[1..];
    }
  }

  lemma {:induction false} BeforeIrreflexive(a: string)
    ensures !Before(a, a)
  {
    if a != [] {
      BeforeIrreflexive(a[1..]);
    }
  }

  function FixedText(n: nat, width: nat): (text: string)
    ensures |text| == width
  {
    DigitsText(FixedDigits(n, 10, width))
  }

  lemma FixedTextStep(n: nat, width: nat)
    requires 0 < width
    ensures FixedText(n, width) == FixedText(n / 10, width - 1) + [DigitChar(n % 10)]
  {
  }

  /** Numbers of the same width are ordered as their texts. */
  lemma {:induction false} FixedTextOrder(x: nat, y: nat, width: nat)
    requires x < Pow(10, width) && y < Pow(10, width)
    ensures Before(FixedText(x, width), FixedText(y, width)) <==> x < y
    ensures FixedText(x, width) == FixedText(y, width) <==> x == y
    decreases width
  {
    if width > 0 {
      FixedTextStep(x, width);
      FixedTextStep(y, width);
      FixedTextOrder(x / 10, y / 10, width - 1);
      var a, b := FixedText(x / 10, width - 1), FixedText(y / 10, width - 1);
      BeforeConcat(a, b, [DigitChar(x % 10)], [DigitChar(y % 10)]);
      ConcatEqual(a, b, [DigitChar(x % 10)], [DigitChar(y % 10)]);
    }
  }

  lemma {:induction false} PaddedOrder(x: nat, y: nat, width: nat)
    requires x < Pow(10, width) && y < Pow(10, width) && 0 < width
    ensures |Padded(x, width)| == |Padded(y, width)| == width
    ensures Before(Padded(x, width), Padded(y, width)) <==> x < y
    ensures Padded(x, width) == Padded(y, width) <==> x == y
  {
    PaddedInRange(x, width);
    PaddedInRange(y, width);
    FixedTextOrder(x, y, width);
  }

  /** Names sort as the triples they are the names of. */
  lemma NameOrder(t: Triple, u: Triple)
    requires InRange(t) && InRange(u)
    ensures Before(Get(t), Get(u)) <==> TripleBefore(t, u)
  {
    var a, b, c := Padded(t.reconciliation, 8), Padded(t.shard, 4), Padded(t.block, 4);
    var x, y, z := Padded(u.reconciliation, 8), Padded(u.shard, 4), Padded(u.block, 4);
    PaddedOrder(t.reconciliation, u.reconciliation, 8);
    PaddedOrder(t.shard, u.shard, 4);
    PaddedOrder(t.block, u.block, 4);
    FieldsOrder(a, b, c, x, y, z);
  }

  lemma {:induction false} FieldOrder(p: string, q: string, b: string, y: string, e: string)
    requires |p| == |q| && |b| == |y|
    ensures Before(p + b + e, q + y + e) <==> Before(p, q) || (p == q && Before(b, y))
    ensures p + b + e == q + y + e <==> p == q && b == y
  {
    BeforeConcat(p, q, b, y);
    ConcatEqual(p, q, b, y);
    SameEnding(p + b, q + y, e);
  }

  lemma {:induction false} TwoFields(a: string, x: string, b: string, y: string, sep: string)
    requires |a| == |x| && |b| == |y|
    ensures Before(a + sep + b + sep, x + sep + y + sep) <==> Before(a, x) || (a == x && Before(b, y))
    ensures a + sep + b + sep == x + sep + y + sep <==> a == x && b == y
  {
    SameEnding(a, x, sep);
    FieldOrder(a + sep, x + sep, b, y, sep);
  }

  lemma {:induction false} FieldsOrder(a: string, b: string, c: string, x: string, y: string, z: string)
    requires |a| == |x| && |b| == |y| && |c| == |z|
    ensures Before(Joined(a, b, c), Joined(x, y, z))
       <==> Before(a, x) || (a == x && (Before(b, y) || (b == y && Before(c, z))))
  {
    TwoFields(a, x, b, y, "-");
    FieldOrder(a + "-" + b + "-", x + "-" + y + "-", c, z, ".der");
  }

  lemma ConcatEqual(a: string, x: string, b: string, y: string)
    requires |a| == |x|
    ensures a + b == x + y <==> a == x && b == y
  {
    if a + b == x + y {
      assert a == (a + b)[..|a|] == x;
      assert b == (a + b)[|a|..] == y;
    }
  }

  lemma {:induction false} SameEnding(a: string, x: string, e: string)
    requires |a| == |x|
    ensures Before(a + e, x + e) <==> Before(a, x)
    ensures a + e == x + e <==> a == x
  {
    BeforeConcat(a, x, e, e);
    BeforeIrreflexive(e);
    ConcatEqual(a, x, e, e);
  }
}
