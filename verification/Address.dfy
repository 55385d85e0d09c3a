/**
  Wallet addresses: six salt bytes and twenty bytes of a digest over the salt
  and a public key. The text of an address is Base64 of the salt, so that a
  user's chosen salt can be read in it, then Base58 of the digest.
 */
module Address {
  import opened Base
  import opened BlockTypes
  import B58 = Base58
  import B64 = Base64

  const LENGTH := 26
  const SALT_LENGTH := 6
  const ENCODED_SALT_LENGTH := 8
  const DIGEST_LENGTH := 20

  /** The digests are 256 bits long. */
  ghost predicate Is256Bit(c: Crypto) {
    forall x :: |c.sha2(x)| == 32
  }

  function Min(a: nat, b: nat): (m: nat) {
    if a < b then a else b
  }

  /** Random characters that fill a salt text up to a multiple of four. */
  function Filler(len: nat, dice: nat -> byte): (text: string)
    ensures (len + |text|) % 4 == 0 && |text| < 4
  {
    seq((4 - len % 4) % 4, i requires 0 <= i => B58.ValToChar(dice(i)))
  }

  /** A salt cut off at, or filled up with random bytes to, six bytes. */
  function SaltBytes(salt: Bytes, noise: nat -> byte): (r: Bytes)
    ensures |r| == SALT_LENGTH
  {
    if |salt| > SALT_LENGTH then salt[..SALT_LENGTH]
    else salt + seq(SALT_LENGTH - |salt|, i requires 0 <= i => noise(i))
  }

  /** The address of a key under a six-byte salt. */
  function AddressOf(c: Crypto, key: Bytes, salt: Bytes): (address: Bytes)
    requires Is256Bit(c)
    ensures |address| == |salt| + DIGEST_LENGTH && address[..|salt|] == salt
  {
    salt + c.sha2(salt + c.sha3(salt + key))[..DIGEST_LENGTH]
  }

  function FromSaltText(c: Crypto, key: Bytes, salt: string, dice: nat -> byte, noise: nat -> byte): (address: Bytes)
    requires Is256Bit(c)
  {
    AddressOf(c, key, SaltBytes(B64.DecodeText(salt + Filler(|salt|, dice)), noise))
  }

  predicate Verifies(c: Crypto, key: Bytes, address: Bytes)
    requires Is256Bit(c)
  {
    |address| == LENGTH && address == AddressOf(c, key, address[..SALT_LENGTH])
  }

  function Printable(address: Bytes): (text: string) {
    var cut := Min(SALT_LENGTH, |address|);
    B64.EncodeText(address[..cut])
    + if |address| > SALT_LENGTH then B58.EncodeText(address[SALT_LENGTH..]) else ""
  }

  function Unprintable(text: string): (address: Bytes) {
    var cut := Min(ENCODED_SALT_LENGTH, |text|);
    B64.DecodeText(text[..cut])
    + if |text| > ENCODED_SALT_LENGTH then B58.DecodeText(text[ENCODED_SALT_LENGTH..]) else []
  }

  lemma TextNotEmpty(bs: Bytes)
    requires bs != []
    ensures B58.EncodeText(bs) != []
  {
    B58.DecodeEncode(bs);
    B58.DecodedLength(B58.EncodeText(bs));
  }

  lemma LongRoundTrip(salt: Bytes, digest: Bytes)
    requires |salt| == SALT_LENGTH && digest != []
    ensures Unprintable(B64.EncodeText(salt) + B58.EncodeText(digest)) == salt + digest
  {
    var head, tail := B64.EncodeText(salt), B58.EncodeText(digest);
    TextNotEmpty(digest);
    assert (head + tail)[..8] == head && (head + tail)[8..] == tail;
    B64.DecodeEncode(salt);
    B58.DecodeEncode(digest);
  }

  lemma ShortRoundTrip(address: Bytes)
    requires |address| <= SALT_LENGTH
    ensures Unprintable(B64.EncodeText(address)) == address
  {
    var text := B64.EncodeText(address);
    assert text[..|text|] == text;
    B64.DecodeEncode(address);
  }

  lemma PrintedParts(address: Bytes)
    ensures Printable(address) == if |address| > SALT_LENGTH
                                  then B64.EncodeText(address[..SALT_LENGTH]) + B58.EncodeText(address[SALT_LENGTH..])
                                  else B64.EncodeText(address)
  {
    if |address| <= SALT_LENGTH {
      assert address[..|address|] == address;
    }
  }

  /** The text of every byte string, of any length, leads back to it. */
  lemma UnprintablePrintable(address: Bytes)
    ensures Unprintable(Printable(address)) == address
  {
    PrintedParts(address);
    if |address| > SALT_LENGTH {
      LongRoundTrip(address[..SALT_LENGTH], address[SALT_LENGTH..]);
      assert address[..SALT_LENGTH] + address[SALT_LENGTH..] == address;
    } else {
      ShortRoundTrip(address);
    }
  }

  /** Equal texts are texts of equal addresses. */
  lemma PrintableInjective(a: Bytes, b: Bytes)
    requires Printable(a) == Printable(b)
    ensures a == b
  {
    UnprintablePrintable(a);
    UnprintablePrintable(b);
  }

  ghost predicate UrlPrefix(text: string, n: nat)
    requires n <= |text|
  {
    forall i :: 0 <= i < n ==> B64.IsUrlChar(text[i])
  }

  // ----- texts that are read -----

  /**
    A text as addresses are printed. Up to eight characters: of the URL alphabet,
    none left over and no bits to drop at the end. More: eight of the URL alphabet,
    then characters of the Base58 alphabet only.
   */
  ghost predicate Canonical(text: string) {
    if |text| <= ENCODED_SALT_LENGTH then
      && UrlPrefix(text, |text|) && |text| % 4 != 1
      && (text != [] ==> B64.CharToVal(text[|text| - 1]) % B64.DropFactor(|text|) == 0)
    else
      && UrlPrefix(text, ENCODED_SALT_LENGTH)
      && forall c :: c in text[ENCODED_SALT_LENGTH..] ==> B58.InAlphabet(c)
  }

  lemma PrintedLong(salt: Bytes, digest: Bytes)
    requires |salt| == SALT_LENGTH && digest != []
    ensures Canonical(B64.EncodeText(salt) + B58.EncodeText(digest))
  {
    var head, tail := B64.EncodeText(salt), B58.EncodeText(digest);
    B64.EncodedChars(salt);
    B58.DecodeEncode(digest);
    TextNotEmpty(digest);
    assert (head + tail)[8..] == tail;
  }

  lemma PrintedShort(address: Bytes)
    requires |address| <= SALT_LENGTH
    ensures Canonical(B64.EncodeText(address))
  {
    B64.EncodedChars(address);
    B64.DecodeEncode(address);
    B64.EncodeDecode(B64.EncodeText(address));
  }

  lemma PrintedCanonical(address: Bytes)
    ensures Canonical(Printable(address))
  {
    PrintedParts(address);
    if |address| > SALT_LENGTH {
      PrintedLong(address[..SALT_LENGTH], address[SALT_LENGTH..]);
    } else {
      PrintedShort(address);
    }
  }

  lemma DecodedCount(text: string)
    requires UrlPrefix(text, |text|)
    ensures |B64.DecodeText(text)| == B64.ByteCount(|text|)
  {
    B64.CharsOfValues(text);
  }

  lemma LongReturns(head: string, tail: string)
    requires |head| == ENCODED_SALT_LENGTH && UrlPrefix(head, 8) && tail != []
    requires forall c :: c in tail ==> B58.InAlphabet(c)
    ensures Printable(B64.DecodeText(head) + B58.DecodeText(tail)) == head + tail
  {
    var salt, digest := B64.DecodeText(head), B58.DecodeText(tail);
    B64.EncodeDecode(head);
    B58.EncodeDecode(tail);
    DecodedCount(head);
    assert B58.EncodeText([]) == "";
    assert (salt + digest)[..6] == salt && (salt + digest)[6..] == digest;
  }

  lemma ShortReturns(text: string)
    requires |text| <= ENCODED_SALT_LENGTH && Canonical(text)
    ensures Printable(B64.DecodeText(text)) == text
  {
    var address := B64.DecodeText(text);
    B64.EncodeDecode(text);
    DecodedCount(text);
    assert address[..|address|] == address;
  }

  lemma CanonicalReturns(text: string)
    requires Canonical(text)
    ensures Printable(Unprintable(text)) == text
  {
    if |text| > ENCODED_SALT_LENGTH {
      LongReturns(text[..8], text[8..]);
      assert text == text[..8] + text[8..];
    } else {
      assert text[..|text|] == text;
      assert Unprintable(text) == B64.DecodeText(text);
      ShortReturns(text);
    }
  }

  /** A text returns from the bytes it is read as exactly when it is one that is printed. */
  lemma PrintableUnprintable(text: string)
    ensures Printable(Unprintable(text)) == text <==> Canonical(text)
  {
    if Canonical(text) {
      CanonicalReturns(text);
    } else {
      PrintedCanonical(Unprintable(text));
    }
  }

  /** Of the texts that are read as one address, exactly one is canonical: the one that is printed. */
  lemma OneCanonicalText(address: Bytes, text: string)
    ensures Unprintable(text) == address && Canonical(text) <==> text == Printable(address)
  {
    UnprintablePrintable(address);
    PrintableUnprintable(text);
    PrintedCanonical(address);
  }

  /** The others are read too: for one, plus and minus have the same value. */
  lemma OtherTexts(rest: string)
    ensures Unprintable("+" + rest) == Unprintable("-" + rest)
  {
    var plus, minus := "+" + rest, "-" + rest;
    var cut := Min(ENCODED_SALT_LENGTH, |plus|);
    assert plus[..cut] == "+" + rest[..cut - 1] && minus[..cut] == "-" + rest[..cut - 1];
    B64.ValuesConcat("+", rest[..cut - 1]);
    B64.ValuesConcat("-", rest[..cut - 1]);
    assert B64.SixBitValues("+") == [62] == B64.SixBitValues("-");
    if |plus| > ENCODED_SALT_LENGTH {
      assert plus[8..] == rest[7..] == minus[8..];
    }
  }

  // ----- salts that are shown -----

  /** A text whose first eight characters are of the written alphabet prints as those eight. */
  lemma LongSaltPrints(text: string, noise: nat -> byte)
    requires |text| >= 8 && UrlPrefix(text, 8)
    ensures B64.EncodeText(SaltBytes(B64.DecodeText(text), noise)) == text[..8]
  {
    var head, tail := text[..8], text[8..];
    assert text == head + tail;
    B64.CharsOfValues(head);
    B64.DecodeConcat(head, tail);
    assert |B64.DecodeText(head)| == 6;
    assert SaltBytes(B64.DecodeText(text), noise) == B64.DecodeText(head);
    B64.EncodeDecode(head);
  }

  /** Four characters decode to three bytes, which print as the four. */
  lemma ShortSaltPrints(text: string, noise: nat -> byte)
    requires |text| == 4 && UrlPrefix(text, 4)
    ensures B64.EncodeText(SaltBytes(B64.DecodeText(text), noise))[..4] == text
  {
    var salt := B64.DecodeText(text);
    B64.CharsOfValues(text);
    assert |salt| == 3;
    var all := SaltBytes(salt, noise);
    var fill := all[3..];
    assert all == salt + fill;
    B64.EncodeConcat(salt, fill);
    B64.EncodeDecode(text);
  }

  lemma FilledPrefix(salt: string, dice: nat -> byte)
    requires forall i: nat :: dice(i) < 58
    requires UrlPrefix(salt, Min(ENCODED_SALT_LENGTH, |salt|))
    ensures var text := salt + Filler(|salt|, dice);
            UrlPrefix(text, Min(ENCODED_SALT_LENGTH, |text|))
  {
  }

  /**
    Personalised addresses. Whatever the random filling, an address is 26 bytes
    long, and its text starts with the chosen salt, up to eight characters,
    exactly when those characters are of the alphabet that is written.
   */
  lemma Personalised(c: Crypto, key: Bytes, salt: string, dice: nat -> byte, noise: nat -> byte)
    requires Is256Bit(c) && forall i: nat :: dice(i) < 58
    ensures var address := FromSaltText(c, key, salt, dice, noise);
            var shown := if |salt| < 8 then |salt| else 8;
            && |address| == 26
            && |Printable(address)| >= 8
            && (Printable(address)[..shown] == salt[..shown] <==> UrlPrefix(salt, shown))
  {
    var text := salt + Filler(|salt|, dice);
    var bytes := SaltBytes(B64.DecodeText(text), noise);
    var address := FromSaltText(c, key, salt, dice, noise);
    PersonalisedSalt(salt, dice, noise);
    var shown := Min(ENCODED_SALT_LENGTH, |salt|);
    assert Printable(address)[..shown] == Printable(address)[..ENCODED_SALT_LENGTH][..shown];
  }

  lemma SaltPrints(text: string, noise: nat -> byte, shown: nat)
    requires |text| % 4 == 0 && UrlPrefix(text, Min(ENCODED_SALT_LENGTH, |text|))
    requires shown <= Min(ENCODED_SALT_LENGTH, |text|)
    ensures B64.EncodeText(SaltBytes(B64.DecodeText(text), noise))[..shown] == text[..shown]
  {
    var printed := B64.EncodeText(SaltBytes(B64.DecodeText(text), noise));
    if |text| >= 8 {
      LongSaltPrints(text, noise);
      assert text[..8][..shown] == text[..shown];
    } else if |text| == 4 {
      ShortSaltPrints(text, noise);
      assert printed[..4][..shown] == printed[..shown];
    }
  }

  lemma PersonalisedSalt(salt: string, dice: nat -> byte, noise: nat -> byte)
    requires forall i: nat :: dice(i) < 58
    ensures var bytes := SaltBytes(B64.DecodeText(salt + Filler(|salt|, dice)), noise);
            var shown := Min(ENCODED_SALT_LENGTH, |salt|);
            B64.EncodeText(bytes)[..shown] == salt[..shown] <==> UrlPrefix(salt, shown)
  {
    var text := salt + Filler(|salt|, dice);
    var shown := Min(ENCODED_SALT_LENGTH, |salt|);
    assert text[..shown] == salt[..shown];
    if UrlPrefix(salt, shown) {
      FilledPrefix(salt, dice);
      SaltPrints(text, noise, shown);
    } else if B64.EncodeText(SaltBytes(B64.DecodeText(text), noise))[..shown] == salt[..shown] {
    }
  }

  /** Exactly the addresses that some salt generates for a key are accepted for it. */
  lemma VerifiesExactly(c: Crypto, key: Bytes, address: Bytes)
    requires Is256Bit(c)
    ensures Verifies(c, key, address)
       <==> exists salt: Bytes :: |salt| == 6 && address == salt + c.sha2(salt + c.sha3(salt + key))[..20]
  {
    if Verifies(c, key, address) {
      var salt := address[..6];
      assert |salt| == 6 && address == salt + c.sha2(salt + c.sha3(salt + key))[..20];
    }
  }

  /**
    An address is bound to its key: two keys it is accepted for collide in the inner
    digest, or in the first twenty bytes of the outer one, under the address's salt.
   */
  lemma KeyBound(c: Crypto, k1: Bytes, k2: Bytes, address: Bytes)
    requires Is256Bit(c) && k1 != k2 && Verifies(c, k1, address) && Verifies(c, k2, address)
    ensures var salt := address[..6];
            var x1, x2 := salt + k1, salt + k2;
            var y1, y2 := salt + c.sha3(x1), salt + c.sha3(x2);
            && x1 != x2
            && (c.sha3(x1) == c.sha3(x2) || (y1 != y2 && c.sha2(y1)[..20] == c.sha2(y2)[..20] == address[6..]))
  {
    var salt := address[..6];
    Cancelled(salt, k1, k2);
    Cancelled(salt, c.sha3(salt + k1), c.sha3(salt + k2));
  }

  lemma Cancelled(salt: Bytes, a: Bytes, b: Bytes)
    ensures salt + a == salt + b <==> a == b
  {
    assert (salt + a)[|salt|..] == a && (salt + b)[|salt|..] == b;
  }

  /** A generated address is accepted for its key, as bytes and as text. */
  lemma GeneratedVerifies(c: Crypto, key: Bytes, salt: string, dice: nat -> byte, noise: nat -> byte)
    requires Is256Bit(c)
    ensures var address := FromSaltText(c, key, salt, dice, noise);
            Verifies(c, key, address) && Verifies(c, key, Unprintable(Printable(address)))
  {
    UnprintablePrintable(FromSaltText(c, key, salt, dice, noise));
  }

  // ----- the loops -----

  method Generate(c: Crypto, key: Bytes, printableSalt: string, dice: nat -> byte, noise: nat -> byte)
    returns (address: Bytes)
    requires Is256Bit(c)
    ensures address == FromSaltText(c, key, printableSalt, dice, noise)
  {
    var paddedSalt := printableSalt;
    if |paddedSalt| % 4 != 0 {
      var padLen := 4 - |paddedSalt| % 4;
      var rand := "";
      for ui := 0 to padLen
        invariant rand == Filler(|printableSalt|, dice)[..ui]
      {
        rand := rand + [B58.ValToChar(dice(ui))];
      }
      assert rand == Filler(|printableSalt|, dice);
      paddedSalt := paddedSalt + rand;
    } else {
      assert Filler(|printableSalt|, dice) == "";
      assert paddedSalt + "" == paddedSalt;
    }
    var salt := B64.Decode(paddedSalt);
    address := GenerateFromBytes(c, key, salt, noise);
  }

  method GenerateFromBytes(c: Crypto, key: Bytes, salt: Bytes, noise: nat -> byte) returns (address: Bytes)
    requires Is256Bit(c)
    ensures address == AddressOf(c, key, SaltBytes(salt, noise))
    ensures var used := SaltBytes(salt, noise);
            |address| == 26 && address[..6] == used && address[6..] == c.sha2(used + c.sha3(used + key))[..20]
  {
    var paddedSalt := salt;
    if |paddedSalt| > SALT_LENGTH {
      paddedSalt := paddedSalt[..SALT_LENGTH];
    } else if |paddedSalt| < SALT_LENGTH {
      var rand := seq(SALT_LENGTH - |paddedSalt|, i requires 0 <= i => noise(i));
      paddedSalt := paddedSalt + rand;
    }
    assert paddedSalt == SaltBytes(salt, noise);
    var input := paddedSalt + key;
    var sha3 := c.sha3(input);
    input := paddedSalt + sha3;
    var sha2 := c.sha2(input);
    address := paddedSalt;
    address := address + sha2[..DIGEST_LENGTH];
  }
}
