/**
  The part of the distinguished encoding rules of ITU-T X.690 that the block
  templates use: single-octet identifiers, definite lengths (8.1.3, 10.1),
  integers (8.3), booleans (8.2, 11.1) and nesting (8.9 to 8.12, 8.14).
 */
module Der {
  import opened Base
  import opened Radix

  /** An encoded value: an integer, other contents octets, or the values nested in it. */
  datatype Tree =
    | Num(v: int)
    | Prim(tag: byte, content: Bytes)
    | Cons(tag: byte, kids: seq<Tree>)

  const INTEGER: byte := 0x02

  /** Bit 6 of the identifier octet tells nested contents from plain octets. */
  predicate IsConstructed(tag: byte) {
    tag / 32 % 2 == 1
  }

  ghost predicate WellFormed(t: Tree) {
    match t
    case Num(_) => true
    case Prim(tag, _) => !IsConstructed(tag) && tag != INTEGER
    case Cons(tag, kids) => IsConstructed(tag) && forall k :: k in kids ==> WellFormed(k)
  }

  // The largest length the source's int-typed lengths can hold.
  const MAX_LENGTH := 0x7fff_ffff

  /** Length octets: short form below 128, otherwise the shortest long form. */
  function LengthOctets(n: nat): (bs: Bytes)
    ensures bs != []
  {
    if n < 128 then [n]
    else
      var digits := NumberBytes(n);
      [128 + |digits| % 128] + digits
  }

  // ----- integers -----

  /** The octets with every bit flipped. */
  function Complement(bs: Bytes): (r: Bytes)
    ensures |r| == |bs| && forall i :: 0 <= i < |bs| ==> r[i] == 255 - bs[i]
  {
    seq(|bs|, i requires 0 <= i < |bs| => 255 - bs[i])
  }

  /** Shortest octets of a number that is not negative, with the sign bit clear. */
  function Magnitude(n: nat): (bs: Bytes)
    ensures bs != [] && bs[0] < 128
  {
    var digits := NumberBytes(n);
    if digits == [] || digits[0] >= 128 then [0] + digits else digits
  }

  /** Shortest two's-complement octets of an integer (8.3). */
  function IntegerOctets(v: int): (bs: Bytes)
    ensures bs != [] && (bs[0] < 128 <==> 0 <= v)
  {
    if v < 0 then Complement(Magnitude(-v - 1)) else Magnitude(v)
  }

  /** Rejects empty contents and contents longer than needed. */
  function IntegerValue(bs: Bytes): (r: Option<int>) {
    if bs == [] then None
    else if |bs| > 1 && ((bs[0] == 0 && bs[1] < 128) || (bs[0] == 255 && bs[1] >= 128)) then None
    else if bs[0] < 128 then Some(BytesNumber(bs))
    else
      var flipped: int := BytesNumber(Complement(bs));
      Some(-flipped - 1)
  }

  /** As short as two's complement allows for a number that is not negative. */
  predicate Shortest(bs: Bytes) {
    bs != [] && bs[0] < 128 && (|bs| > 1 ==> !(bs[0] == 0 && bs[1] < 128))
  }

  lemma MagnitudeValue(n: nat)
    ensures BytesNumber(Magnitude(n)) == n && Shortest(Magnitude(n))
  {
    ToNatFromNat(n, 256);
    ToNatZeros(1, NumberBytes(n), 256);
    assert Zeros(1) == [0];
  }

  lemma OctetsRead(bs: Bytes)
    requires Shortest(bs)
    ensures IntegerValue(bs) == Some(BytesNumber(bs))
    ensures IntegerValue(Complement(bs)) == Some(-1 - BytesNumber(bs))
  {
    assert Complement(Complement(bs)) == bs;
  }

  lemma IntegerRoundTrip(v: int)
    ensures IntegerValue(IntegerOctets(v)) == Some(v)
  {
    var n: nat := if v < 0 then -v - 1 else v;
    MagnitudeValue(n);
    OctetsRead(Magnitude(n));
  }

  // ----- values -----

  function Tag(t: Tree): (tag: byte) {
    if t.Num? then INTEGER else t.tag
  }

  function Content(t: Tree): (bs: Bytes)
    decreases t, 0
  {
    match t
    case Num(v) => IntegerOctets(v)
    case Prim(_, content) => content
    case Cons(_, kids) => EncodeAll(kids)
  }

  function Encode(t: Tree): (bs: Bytes)
    decreases t, 1
  {
    [Tag(t)] + LengthOctets(|Content(t)|) + Content(t)
  }

  function EncodeAll(ts: seq<Tree>): (bs: Bytes)
    decreases ts
  {
    if ts == [] then [] else Encode(ts[0]) + EncodeAll(ts[1..])
  }

  /** The length and the number of octets it took; the indefinite form is refused. */
  function ParseLength(bs: Bytes): (r: Option<(nat, nat)>)
    ensures r.Some? ==> 1 <= r.value.1 <= |bs|
  {
    if bs == [] then None
    else if bs[0] < 128 then Some((bs[0], 1))
    else
      var count := bs[0] - 128;
      if count == 0 || |bs| - 1 < count then None
      else Some((BytesNumber(bs[1..1 + count]), 1 + count))
  }

  /** Reads one value off the front; also returns what follows it. */
  function Parse(bs: Bytes): (r: Option<(Tree, Bytes)>)
    ensures r.Some? ==> |r.value.1| < |bs|
    decreases |bs|, 0
  {
    if |bs| < 2 then None
    else
      var len :- ParseLength(bs[1..]);
      var start := 1 + len.1;
      if |bs| - start < len.0 then None
      else
        var t :- ParseContent(bs[0], bs[start..start + len.0]);
        Some((t, bs[start + len.0..]))
  }

  function ParseContent(tag: byte, content: Bytes): (r: Option<Tree>)
    decreases |content|, 2
  {
    if IsConstructed(tag) then
      var kids :- ParseAll(content);
      Some(Cons(tag, kids))
    else if tag == INTEGER then
      var v :- IntegerValue(content);
      Some(Num(v))
    else
      Some(Prim(tag, content))
  }

  function ParseAll(bs: Bytes): (r: Option<seq<Tree>>)
    decreases |bs|, 1
  {
    if bs == [] then Some([])
    else
      var first :- Parse(bs);
      var others :- ParseAll(first.1);
      Some([first.0] + others)
  }

  lemma LengthFitsFourOctets(n: nat)
    requires n <= MAX_LENGTH
    ensures |NumberBytes(n)| <= 4
  {
    assert Pow(256, 1) == 256;
    assert Pow(256, 2) == 65536;
    assert Pow(256, 3) == 16777216;
    assert Pow(256, 4) == 0x1_0000_0000;
    FromNatLength(n, 256, 4);
  }

  lemma LongFormRead(digits: Bytes, rest: Bytes)
    requires 1 <= |digits| <= 126
    ensures ParseLength([128 + |digits|] + digits + rest) == Some((BytesNumber(digits), 1 + |digits|))
  {
    var bs := [128 + |digits|] + digits + rest;
    assert bs[1..1 + |digits|] == digits;
  }

  lemma LongForm(n: nat)
    requires 128 <= n <= MAX_LENGTH
    ensures var digits := NumberBytes(n);
            1 <= |digits| <= 4 && BytesNumber(digits) == n && LengthOctets(n) == [128 + |digits|] + digits
  {
    LengthFitsFourOctets(n);
    ToNatFromNat(n, 256);
  }

  lemma LengthRoundTrip(n: nat, rest: Bytes)
    requires n <= MAX_LENGTH
    ensures ParseLength(LengthOctets(n) + rest) == Some((n, |LengthOctets(n)|))
  {
    if n >= 128 {
      LongForm(n);
      LongFormRead(NumberBytes(n), rest);
    } else {
      assert LengthOctets(n) == [n];
    }
  }

  lemma Slices(tag: byte, octets: Bytes, content: Bytes, rest: Bytes)
    ensures var bs, start := [tag] + octets + content + rest, 1 + |octets|;
            && |bs| == start + |content| + |rest| && bs[0] == tag
            && bs[1..] == octets + (content + rest)
            && bs[start..start + |content|] == content && bs[start + |content|..] == rest
  {
  }

  /** The reader cuts out exactly the contents octets and leaves the rest. */
  lemma {:induction false} ParseHeader(tag: byte, content: Bytes, rest: Bytes)
    requires |content| <= MAX_LENGTH
    ensures var r := Parse([tag] + LengthOctets(|content|) + content + rest);
            var t := ParseContent(tag, content);
            r == if t.None? then None else Some((t.value, rest))
  {
    var octets := LengthOctets(|content|);
    Slices(tag, octets, content, rest);
    LengthRoundTrip(|content|, content + rest);
    assert |octets| >= 1;
  }

  /** Whatever follows it, an encoded value is read back exactly. */
  lemma {:induction false} ParseEncode(t: Tree, rest: Bytes)
    requires WellFormed(t) && |Encode(t)| <= MAX_LENGTH
    ensures Parse(Encode(t) + rest) == Some((t, rest))
    decreases t
  {
    ParseHeader(Tag(t), Content(t), rest);
    ParseEncodedContent(t);
  }

  lemma {:induction false} ParseEncodedContent(t: Tree)
    requires WellFormed(t) && |Content(t)| <= MAX_LENGTH
    ensures ParseContent(Tag(t), Content(t)) == Some(t)
    decreases t, 0
  {
    match t
    case Num(v) =>
      IntegerRoundTrip(v);
      NumRead(IntegerOctets(v), v);
    case Prim(_, _) =>
    case Cons(tag, kids) =>
      ParseEncodeAll(kids);
      ConsRead(tag, EncodeAll(kids), kids);
  }

  lemma {:induction false} NumRead(content: Bytes, v: int)
    requires IntegerValue(content) == Some(v)
    ensures ParseContent(INTEGER, content) == Some(Num(v))
  {
  }

  lemma {:induction false} ConsRead(tag: byte, content: Bytes, kids: seq<Tree>)
    requires IsConstructed(tag) && ParseAll(content) == Some(kids)
    ensures ParseContent(tag, content) == Some(Cons(tag, kids))
  {
  }

  lemma {:induction false} ParseEncodeAll(ts: seq<Tree>)
    requires forall t :: t in ts ==> WellFormed(t)
    requires |EncodeAll(ts)| <= MAX_LENGTH
    ensures ParseAll(EncodeAll(ts)) == Some(ts)
    decreases ts
  {
    if ts != [] {
      ParseEncode(ts[0], EncodeAll(ts[1..]));
      ParseEncodeAll(ts[1..]);
      assert EncodeAll(ts)[0] == Tag(ts[0]);
      assert [ts[0]] + ts[1..] == ts;
    }
  }
}
