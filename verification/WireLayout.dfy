/**
  The bytes of blocks written out, identifier, length and contents, field after
  field, and the proof that the templates produce exactly these.
 */
module WireLayout {
  import opened Base
  import opened Radix
  import opened BlockTypes
  import opened BlockAsn1
  import opened BlockDer
  import opened Der

  // ----- lengths and integers -----

  /** The length octets of X.690 sections 8.1.3 and 10.1, for every length that four octets hold. */
  lemma LengthForms(n: nat)
    requires n < 0x1_0000_0000
    ensures LengthOctets(n)
         == if n < 0x80 then [n]
            else if n < 0x100 then [0x81, n]
            else if n < 0x1_0000 then [0x82, n / 0x100, n % 0x100]
            else if n < 0x100_0000 then [0x83, n / 0x1_0000, n / 0x100 % 0x100, n % 0x100]
            else [0x84, n / 0x100_0000, n / 0x1_0000 % 0x100, n / 0x100 % 0x100, n % 0x100]
  {
    if n >= 0x80 {
      NumberBytesForms(n);
    }
  }

  lemma NumberBytesForms(n: nat)
    requires 0 < n < 0x1_0000_0000
    ensures NumberBytes(n)
         == if n < 0x100 then [n]
            else if n < 0x1_0000 then [n / 0x100, n % 0x100]
            else if n < 0x100_0000 then [n / 0x1_0000, n / 0x100 % 0x100, n % 0x100]
            else [n / 0x100_0000, n / 0x1_0000 % 0x100, n / 0x100 % 0x100, n % 0x100]
  {
    var a, b, c := n / 0x100, n / 0x1_0000, n / 0x100_0000;
    assert a / 0x100 == b && b / 0x100 == c && c / 0x100 == 0;
    LastByte(n);
    LastByte(a);
    LastByte(b);
    LastByte(c);
  }

  lemma {:induction false} LastByte(n: nat)
    ensures FromNat(n, 256) == if n == 0 then [] else FromNat(n / 0x100, 256) + [n % 0x100]
  {
  }

  /**
    The contents octets of an integer by X.690 section 8.3: two's complement, with
    the first nine bits neither all zero nor all one.
   */
  lemma IntegerForm(v: int)
    ensures var bs := IntegerOctets(v);
            && bs != []
            && v == ToNat(bs, 256) - (if bs[0] >= 128 then Pow(256, |bs|) else 0)
            && (|bs| > 1 ==> !(bs[0] == 0 && bs[1] < 128) && !(bs[0] == 255 && bs[1] >= 128))
  {
    var n: nat := if v < 0 then -v - 1 else v;
    MagnitudeValue(n);
    ComplementValue(Magnitude(n));
  }

  lemma {:induction false} ComplementValue(bs: Bytes)
    ensures ToNat(Complement(bs), 256) == Pow(256, |bs|) - 1 - ToNat(bs, 256)
  {
    if bs != [] {
      var init, last := bs[..|bs| - 1], bs[|bs| - 1];
      assert bs == init + [last];
      assert Complement(bs) == Complement(init) + [255 - last];
      ComplementValue(init);
      ToNatSnoc(init, last, 256);
      ToNatSnoc(Complement(init), 255 - last, 256);
    }
  }

  // ----- the layout -----

  function Tlv(tag: byte, contents: Bytes): (bs: Bytes) {
    [tag] + LengthOctets(|contents|) + contents
  }

  function Joined(parts: seq<Bytes>): (bs: Bytes) {
    if parts == [] then [] else parts[0] + Joined(parts[1..])
  }

  function Integer(v: int): (bs: Bytes) {
    Tlv(0x02, IntegerOctets(v))
  }

  function OctetString(contents: Bytes): (bs: Bytes) {
    Tlv(0x04, contents)
  }

  function HashLayout(sha2: Bytes, sha3: Bytes): (bs: Bytes) {
    Tlv(0x30, OctetString(sha2) + OctetString(sha3))
  }

  function SpecieLayout(s: Specie): (bs: Bytes) {
    Tlv(0x30, Integer(s.coins) + Integer(s.fluffs))
  }

  function GenesisParts(g: Genesis): (parts: seq<Bytes>) {
    [Integer(g.protocol), Tlv(0x0c, g.name), Integer(g.version), Integer(g.creation), OctetString(g.creator),
     OctetString(g.validatorKey), OctetString(g.stakeAddress), SpecieLayout(g.greed), OctetString(g.seed)]
  }

  function GenesisLayout(tag: byte, g: Genesis): (bs: Bytes) {
    Tlv(tag, Joined(GenesisParts(g)))
  }

  function ShardInfoLayout(s: ShardInfo): (bs: Bytes) {
    Tlv(0x30, HashLayout(s.hash.sha2, s.hash.sha3) + Integer(s.blocks))
  }

  function ContentLayout(r: Reconciliation): (bs: Bytes) {
    Tlv(0x30, Joined([Integer(r.protocol), [0x02, 0x01, 0x00], Integer(r.chainId),
                      Tlv(0x30, Joined(Converted(ShardInfoLayout, r.shardInfo))), OctetString(r.leader)]))
  }

  function VoteLayout(v: Validation): (bs: Bytes) {
    Tlv(0x30, Joined([[0x01, 0x01, if v.verified then 0xff else 0x00],
                      OctetString(v.address), OctetString(v.signature)]))
  }

  function ReconciliationLayout(tag: byte, r: Reconciliation): (bs: Bytes) {
    Tlv(tag, Joined([ContentLayout(r), OctetString(r.signature),
                     Tlv(0x31, Joined(Converted(VoteLayout, SortVotes(r.votes))))]))
  }

  /** What is sent. */
  function BlockLayout(b: Block): (bs: Bytes) {
    match b
    case NoBlock => [0x05, 0x00]
    case GenesisBlock(g) => GenesisLayout(0xa1, g)
    case ReconciliationBlock(r) => ReconciliationLayout(0xa2, r)
    case NodeBlock(n) => Tlv(0xa3, n)
  }

  /** What is hashed. */
  function HashedLayout(b: Block): (bs: Bytes) {
    match b
    case GenesisBlock(g) => GenesisLayout(0x30, g)
    case ReconciliationBlock(r) => ContentLayout(r)
    case _ => []
  }

  // ----- the templates give the layout -----

  lemma {:induction false} EncodedParts(ts: seq<Tree>, parts: seq<Bytes>)
    requires |ts| == |parts| && forall i :: 0 <= i < |ts| ==> Encode(ts[i]) == parts[i]
    ensures EncodeAll(ts) == Joined(parts)
  {
    if ts != [] {
      EncodedParts(ts[1..], parts[1..]);
    }
  }

  lemma {:induction false} EncodedCons(tag: byte, ts: seq<Tree>, parts: seq<Bytes>)
    requires |ts| == |parts| && forall i :: 0 <= i < |ts| ==> Encode(ts[i]) == parts[i]
    ensures Encode(Cons(tag, ts)) == Tlv(tag, Joined(parts))
  {
    EncodedParts(ts, parts);
  }

  lemma EncodedNum(v: int)
    ensures Encode(Num(v)) == Integer(v)
  {
  }

  lemma EncodedPrim(tag: byte, contents: Bytes)
    ensures Encode(Prim(tag, contents)) == Tlv(tag, contents)
  {
  }

  lemma JoinedTwo(a: Bytes, b: Bytes)
    ensures Joined([a, b]) == a + b
  {
    assert Joined([b]) == b by {
      assert [b][1..] == [] && b + [] == b;
    }
    assert [a, b][1..] == [b];
  }

  lemma HashEncoded(h: Hash)
    ensures Encode(HashTree(h)) == HashLayout(h.sha2, h.sha3)
  {
    EncodedPrim(0x04, h.sha2);
    EncodedPrim(0x04, h.sha3);
    EncodedCons(0x30, [Octets(h.sha2), Octets(h.sha3)], [OctetString(h.sha2), OctetString(h.sha3)]);
    JoinedTwo(OctetString(h.sha2), OctetString(h.sha3));
  }

  lemma SpecieEncoded(s: Specie)
    ensures Encode(SpecieTree(Asn1Specie(s.coins, s.fluffs))) == SpecieLayout(s)
  {
    EncodedNum(s.coins);
    EncodedNum(s.fluffs);
    EncodedCons(0x30, [Num(s.coins), Num(s.fluffs)], [Integer(s.coins), Integer(s.fluffs)]);
    JoinedTwo(Integer(s.coins), Integer(s.fluffs));
  }

  function Encodings(ts: seq<Tree>): (parts: seq<Bytes>) {
    seq(|ts|, i requires 0 <= i < |ts| => Encode(ts[i]))
  }

  lemma EncodingsJoined(tag: byte, ts: seq<Tree>)
    ensures Encode(Cons(tag, ts)) == Tlv(tag, Joined(Encodings(ts)))
  {
    EncodedCons(tag, ts, Encodings(ts));
  }

  lemma NumAt(ts: seq<Tree>, i: nat, v: int)
    requires i < |ts| && ts[i] == Num(v)
    ensures Encodings(ts)[i] == Integer(v)
  {
    EncodedNum(v);
  }

  lemma PrimAt(ts: seq<Tree>, i: nat, tag: byte, contents: Bytes)
    requires i < |ts| && ts[i] == Prim(tag, contents)
    ensures Encodings(ts)[i] == Tlv(tag, contents)
  {
    EncodedPrim(tag, contents);
  }

  lemma SpecieAt(ts: seq<Tree>, i: nat, s: Specie)
    requires i < |ts| && ts[i] == SpecieTree(Asn1Specie(s.coins, s.fluffs))
    ensures Encodings(ts)[i] == SpecieLayout(s)
  {
    SpecieEncoded(s);
  }

  lemma FirstFields(tag: byte, g: Genesis, ts: seq<Tree>, parts: seq<Bytes>)
    requires ts == GenesisTree(tag, ToAsn1Genesis(g)).kids && parts == GenesisParts(g)
    ensures Encodings(ts)[0] == parts[0] && Encodings(ts)[1] == parts[1]
    ensures Encodings(ts)[2] == parts[2] && Encodings(ts)[3] == parts[3]
  {
    NumAt(ts, 0, g.protocol);
    PrimAt(ts, 1, 0x0c, g.name);
    NumAt(ts, 2, g.version);
    NumAt(ts, 3, g.creation);
  }

  lemma LastFields(tag: byte, g: Genesis, ts: seq<Tree>, parts: seq<Bytes>)
    requires ts == GenesisTree(tag, ToAsn1Genesis(g)).kids && parts == GenesisParts(g)
    ensures Encodings(ts)[4] == parts[4] && Encodings(ts)[5] == parts[5] && Encodings(ts)[6] == parts[6]
    ensures Encodings(ts)[7] == parts[7] && Encodings(ts)[8] == parts[8]
  {
    PrimAt(ts, 4, 0x04, g.creator);
    PrimAt(ts, 5, 0x04, g.validatorKey);
    PrimAt(ts, 6, 0x04, g.stakeAddress);
    SpecieAt(ts, 7, g.greed);
    PrimAt(ts, 8, 0x04, g.seed);
  }

  lemma NineEqual(es: seq<Bytes>, parts: seq<Bytes>)
    requires |es| == |parts| == 9
    requires es[0] == parts[0] && es[1] == parts[1] && es[2] == parts[2] && es[3] == parts[3] && es[4] == parts[4]
    requires es[5] == parts[5] && es[6] == parts[6] && es[7] == parts[7] && es[8] == parts[8]
    ensures es == parts
  {
  }

  lemma {:induction false} FieldsEncoded(tag: byte, g: Genesis, ts: seq<Tree>, parts: seq<Bytes>)
    requires ts == GenesisTree(tag, ToAsn1Genesis(g)).kids && parts == GenesisParts(g)
    ensures Encode(Cons(tag, ts)) == Tlv(tag, Joined(parts))
  {
    EncodingsJoined(tag, ts);
    assert Encodings(ts) == parts by {
      FirstFields(tag, g, ts, parts);
      LastFields(tag, g, ts, parts);
      NineEqual(Encodings(ts), parts);
    }
  }

  lemma GenesisEncoded(tag: byte, g: Genesis)
    ensures Encode(GenesisTree(tag, ToAsn1Genesis(g))) == GenesisLayout(tag, g)
  {
    FieldsEncoded(tag, g, GenesisTree(tag, ToAsn1Genesis(g)).kids, GenesisParts(g));
  }

  lemma ShardInfoEncoded(s: ShardInfo)
    ensures Encode(ShardInfoTree(ToAsn1ShardInfo(s))) == ShardInfoLayout(s)
  {
    HashEncoded(s.hash);
    EncodedNum(s.blocks);
    EncodedCons(0x30, [HashTree(s.hash), Num(s.blocks)], [HashLayout(s.hash.sha2, s.hash.sha3), Integer(s.blocks)]);
    JoinedTwo(HashLayout(s.hash.sha2, s.hash.sha3), Integer(s.blocks));
  }

  lemma {:induction false} ShardInfoTreesAt(infos: seq<Asn1ShardInfo>)
    ensures |ShardInfoTrees(infos)| == |infos|
    ensures forall i :: 0 <= i < |infos| ==> ShardInfoTrees(infos)[i] == ShardInfoTree(infos[i])
  {
    if infos != [] {
      ShardInfoTreesAt(infos[1..]);
    }
  }

  lemma ShardInfosEncoded(infos: seq<ShardInfo>)
    ensures Encode(Cons(SEQUENCE, ShardInfoTrees(ToAsn1ShardInfos(infos))))
         == Tlv(0x30, Joined(Converted(ShardInfoLayout, infos)))
  {
    var ts := ShardInfoTrees(ToAsn1ShardInfos(infos));
    ShardInfoTreesAt(ToAsn1ShardInfos(infos));
    forall i | 0 <= i < |ts|
      ensures Encode(ts[i]) == Converted(ShardInfoLayout, infos)[i]
    {
      ShardInfoEncoded(infos[i]);
    }
    EncodedCons(0x30, ts, Converted(ShardInfoLayout, infos));
  }

  lemma ZeroEncoded()
    ensures Encode(Num(0)) == [0x02, 0x01, 0x00]
  {
    assert IntegerOctets(0) == [0];
  }

  lemma ContentEncoded(r: Reconciliation)
    ensures Encode(ContentTree(ToAsn1Reconciliation(r).content)) == ContentLayout(r)
  {
    var infos := Cons(SEQUENCE, ShardInfoTrees(ToAsn1ShardInfos(r.shardInfo)));
    var laidOut := Tlv(0x30, Joined(Converted(ShardInfoLayout, r.shardInfo)));
    EncodedNum(r.protocol);
    ZeroEncoded();
    EncodedNum(r.chainId);
    ShardInfosEncoded(r.shardInfo);
    EncodedPrim(0x04, r.leader);
    EncodedCons(0x30, [Num(r.protocol), Num(0), Num(r.chainId), infos, Octets(r.leader)],
                [Integer(r.protocol), [0x02, 0x01, 0x00], Integer(r.chainId), laidOut, OctetString(r.leader)]);
  }

  lemma VoteEncoded(v: Validation)
    ensures VoteBytes(v) == Encode(VoteTree(v)) == VoteLayout(v)
  {
    var flag: byte := if v.verified then 0xff else 0x00;
    EncodedPrim(0x01, [flag]);
    EncodedPrim(0x04, v.address);
    EncodedPrim(0x04, v.signature);
    EncodedCons(0x30, VoteTree(v).kids, [[0x01, 0x01, flag], OctetString(v.address), OctetString(v.signature)]);
  }

  lemma {:induction false} VoteTreesAt(votes: seq<Validation>)
    ensures |VoteTrees(votes)| == |votes|
    ensures forall i :: 0 <= i < |votes| ==> VoteTrees(votes)[i] == VoteTree(votes[i])
  {
    if votes != [] {
      VoteTreesAt(votes[1..]);
    }
  }

  lemma {:induction false} VotesEncoded(votes: seq<Validation>)
    ensures Encode(Cons(SET, VoteTrees(votes))) == Tlv(0x31, Joined(Converted(VoteLayout, votes)))
  {
    var ts := VoteTrees(votes);
    VoteTreesAt(votes);
    forall i | 0 <= i < |ts|
      ensures Encode(ts[i]) == Converted(VoteLayout, votes)[i]
    {
      VoteEncoded(votes[i]);
    }
    EncodedCons(0x31, ts, Converted(VoteLayout, votes));
  }

  lemma ReconciliationEncoded(tag: byte, r: Reconciliation)
    ensures Encode(ReconciliationTree(tag, ToAsn1Reconciliation(r))) == ReconciliationLayout(tag, r)
  {
    ContentEncoded(r);
    EncodedPrim(0x04, r.signature);
    VotesEncoded(SortVotes(r.votes));
    EncodedCons(tag, ReconciliationTree(tag, ToAsn1Reconciliation(r)).kids,
                [ContentLayout(r), OctetString(r.signature),
                 Tlv(0x31, Joined(Converted(VoteLayout, SortVotes(r.votes))))]);
  }

  /** The identifier that tells the kinds of block apart. */
  lemma FirstOctet(b: Block)
    ensures |EncodeBlock(b)| > 0
    ensures EncodeBlock(b)[0]
         == match b
            case NoBlock => 0x05
            case GenesisBlock(_) => 0xa1
            case ReconciliationBlock(_) => 0xa2
            case NodeBlock(_) => 0xa3
  {
  }

  /** Every block is sent as laid out. */
  lemma BlockBytes(b: Block)
    ensures EncodeBlock(b) == BlockLayout(b)
  {
    match b
    case NoBlock => EncodedPrim(0x05, []);
    case GenesisBlock(g) => GenesisEncoded(0xa1, g);
    case ReconciliationBlock(r) => ReconciliationEncoded(0xa2, r);
    case NodeBlock(_) =>
  }

  /** Every genesis block and every content is hashed as laid out. */
  lemma HashedBytes(g: Genesis, r: Reconciliation)
    ensures GenesisBytes(g) == HashedLayout(GenesisBlock(g))
    ensures ContentBytes(r) == HashedLayout(ReconciliationBlock(r))
  {
    GenesisEncoded(0x30, g);
    ContentEncoded(r);
  }

  /** A hash is stored as laid out; with digests of 256 bits it takes 70 bytes. */
  lemma HashStored(h: Hash)
    ensures HashBytes(h) == HashLayout(h.sha2, h.sha3)
    ensures |h.sha2| == 32 && |h.sha3| == 32 ==>
              HashBytes(h) == [0x30, 68] + [0x04, 32] + h.sha2 + [0x04, 32] + h.sha3
  {
    HashEncoded(h);
  }

  /** The two digests of the hashed bytes, each in its own field. */
  lemma HashOfBlock(c: Crypto, b: Block)
    requires b.GenesisBlock? || b.ReconciliationBlock?
    ensures var h := BlockDer.BlockHash(c, b);
            h.sha2 == c.sha2(HashedLayout(b)) && h.sha3 == c.sha3(HashedLayout(b))
  {
    if b.GenesisBlock? {
      GenesisEncoded(0x30, b.genesis);
    } else {
      ContentEncoded(b.reconciliation);
    }
  }

  // ----- the order of a set -----

  /** At the first octet in which they differ, a has the smaller one; or a is a beginning of b. */
  ghost predicate NotAfter(a: Bytes, b: Bytes) {
    a <= b || exists i :: 0 <= i < |a| && i < |b| && a[..i] == b[..i] && a[i] < b[i]
  }

  lemma {:induction false} LeMeans(a: Bytes, b: Bytes)
    requires BytesLe(a, b)
    ensures NotAfter(a, b)
  {
    if a != [] && a[0] == b[0] {
      LeMeans(a[1..], b[1..]);
      assert a == [a[0]] + a[1..] && b == [b[0]] + b[1..];
      if !(a[1..] <= b[1..]) {
        var i :| 0 <= i < |a[1..]| && i < |b[1..]| && a[1..][..i] == b[1..][..i] && a[1..][i] < b[1..][i];
        assert a[..i + 1] == [a[0]] + a[1..][..i] && b[..i + 1] == [b[0]] + b[1..][..i];
        assert a[i + 1] < b[i + 1];
      }
    } else if a != [] {
      assert a[..0] == b[..0];
    }
  }

  lemma {:induction false} OrderedAt(votes: seq<Validation>, i: nat)
    requires InOrder(votes) && i + 1 < |votes|
    ensures VoteLe(votes[i], votes[i + 1])
  {
    if i > 0 {
      OrderedAt(votes[1..], i - 1);
    }
  }

  /** X.690 section 11.6: the votes are sent in ascending order of their encodings, and all of them are. */
  lemma {:induction false} SetOrder(votes: seq<Validation>)
    ensures multiset(SortVotes(votes)) == multiset(votes)
    ensures forall i :: 0 <= i && i + 1 < |SortVotes(votes)| ==>
              NotAfter(VoteLayout(SortVotes(votes)[i]), VoteLayout(SortVotes(votes)[i + 1]))
  {
    SortVotesSorts(votes);
    var sorted := SortVotes(votes);
    forall i | 0 <= i && i + 1 < |sorted|
      ensures NotAfter(VoteLayout(sorted[i]), VoteLayout(sorted[i + 1]))
    {
      OrderedAt(sorted, i);
      VoteEncoded(sorted[i]);
      VoteEncoded(sorted[i + 1]);
      LeMeans(VoteBytes(sorted[i]), VoteBytes(sorted[i + 1]));
    }
  }
}
