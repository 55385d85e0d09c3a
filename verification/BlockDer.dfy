/** The ASN.1 templates of the blocks over the DER layer, and what survives the wire. */
module BlockDer {
  import opened Base
  import opened Der
  import opened BlockTypes
  import opened BlockAsn1

  const BOOLEAN: byte := 0x01
  const OCTETS: byte := 0x04
  const NULL: byte := 0x05
  const UTF8: byte := 0x0c
  const SEQUENCE: byte := 0x30
  const SET: byte := 0x31
  const GENESIS_CHOICE: byte := 0xa1
  const RECONCILIATION_CHOICE: byte := 0xa2
  const NODE_CHOICE: byte := 0xa3

  // ----- templates, writing -----

  function Octets(bs: Bytes): (t: Tree) { Prim(OCTETS, bs) }

  function HashTree(h: Hash): (t: Tree) {
    Cons(SEQUENCE, [Octets(h.sha2), Octets(h.sha3)])
  }

  function SpecieTree(s: Asn1Specie): (t: Tree) {
    Cons(SEQUENCE, [Num(s.coins), Num(s.fluffs)])
  }

  function GenesisTree(tag: byte, g: Asn1Genesis): (t: Tree) {
    Cons(tag, [Num(g.protocol), Prim(UTF8, g.name), Num(g.version), Num(g.creation), Octets(g.creator),
               Octets(g.validatorKey), Octets(g.stakeAddress), SpecieTree(g.greed), Octets(g.seed)])
  }

  function ShardInfoTree(s: Asn1ShardInfo): (t: Tree) {
    Cons(SEQUENCE, [HashTree(s.hash), Num(s.blocks)])
  }

  function ShardInfoTrees(infos: seq<Asn1ShardInfo>): (ts: seq<Tree>) {
    if infos == [] then [] else [ShardInfoTree(infos[0])] + ShardInfoTrees(infos[1..])
  }

  function ContentTree(c: Asn1Content): (t: Tree) {
    Cons(SEQUENCE, [Num(c.protocol), Num(c.time), Num(c.chainId),
                    Cons(SEQUENCE, ShardInfoTrees(c.shardInfo)), Octets(c.leader)])
  }

  function VoteTree(v: Validation): (t: Tree) {
    Cons(SEQUENCE, [Prim(BOOLEAN, [if v.verified then 0xff else 0]), Octets(v.address), Octets(v.signature)])
  }

  function VoteTrees(votes: seq<Validation>): (ts: seq<Tree>) {
    if votes == [] then [] else [VoteTree(votes[0])] + VoteTrees(votes[1..])
  }

  /** The members of a SET OF are written in the order of their encodings (11.6). */
  function ReconciliationTree(tag: byte, r: Asn1Reconciliation): (t: Tree) {
    Cons(tag, [ContentTree(r.content), Octets(r.signature), Cons(SET, VoteTrees(SortVotes(r.votes)))])
  }

  // ----- the order of the votes -----

  function VoteBytes(v: Validation): (bs: Bytes) { Encode(VoteTree(v)) }

  /** Octet strings in dictionary order. */
  predicate BytesLe(a: Bytes, b: Bytes) {
    a == [] || (b != [] && (a[0] < b[0] || (a[0] == b[0] && BytesLe(a[1..], b[1..]))))
  }

  predicate VoteLe(a: Validation, b: Validation) {
    BytesLe(VoteBytes(a), VoteBytes(b))
  }

  function InsertVote(v: Validation, votes: seq<Validation>): (r: seq<Validation>) {
    if votes == [] || VoteLe(v, votes[0]) then [v] + votes
    else [votes[0]] + InsertVote(v, votes[1..])
  }

  function SortVotes(votes: seq<Validation>): (r: seq<Validation>) {
    if votes == [] then [] else InsertVote(votes[0], SortVotes(votes[1..]))
  }

  ghost predicate InOrder(votes: seq<Validation>) {
    |votes| < 2 || (VoteLe(votes[0], votes[1]) && InOrder(votes[1..]))
  }

  lemma {:induction false} BytesTotal(a: Bytes, b: Bytes)
    ensures BytesLe(a, b) || BytesLe(b, a)
  {
    if a != [] && b != [] && a[0] == b[0] {
      BytesTotal(a[1..], b[1..]);
    }
  }

  lemma {:induction false} InsertVoteSorts(v: Validation, votes: seq<Validation>)
    requires InOrder(votes)
    ensures InOrder(InsertVote(v, votes))
    ensures InsertVote(v, votes)[0] == v || (votes != [] && InsertVote(v, votes)[0] == votes[0])
  {
    if votes == [] || VoteLe(v, votes[0]) {
      assert InsertVote(v, votes)[1..] == votes;
    } else {
      InsertVoteSorts(v, votes[1..]);
      assert VoteLe(votes[0], v) by {
        BytesTotal(VoteBytes(v), VoteBytes(votes[0]));
      }
      assert InsertVote(v, votes)[1..] == InsertVote(v, votes[1..]);
    }
  }

  lemma {:induction false} InsertVoteKeeps(v: Validation, votes: seq<Validation>)
    ensures multiset(InsertVote(v, votes)) == multiset(votes) + multiset{v}
  {
    if votes != [] {
      InsertVoteKeeps(v, votes[1..]);
      assert votes == [votes[0]] + votes[1..];
    }
  }

  /** Sorting orders the votes by their encodings and loses or adds none. */
  lemma {:induction false} SortVotesSorts(votes: seq<Validation>)
    ensures InOrder(SortVotes(votes))
    ensures multiset(SortVotes(votes)) == multiset(votes)
  {
    if votes != [] {
      SortVotesSorts(votes[1..]);
      InsertVoteSorts(votes[0], SortVotes(votes[1..]));
      InsertVoteKeeps(votes[0], SortVotes(votes[1..]));
      assert votes == [votes[0]] + votes[1..];
    }
  }

  lemma {:induction false} SortedStays(votes: seq<Validation>)
    requires InOrder(votes)
    ensures SortVotes(votes) == votes
  {
    if votes != [] {
      SortedStays(votes[1..]);
      assert votes == [votes[0]] + votes[1..];
    }
  }

  // ----- templates, reading -----

  function IntFrom(t: Tree): (r: Option<int>) {
    if t.Num? then Some(t.v) else None
  }

  function OctetsFrom(tag: byte, t: Tree): (r: Option<Bytes>) {
    if t.Prim? && t.tag == tag then Some(t.content) else None
  }

  function KidsFrom(tag: byte, count: nat, t: Tree): (r: Option<seq<Tree>>)
    ensures r.Some? ==> |r.value| == count
  {
    if t.Cons? && t.tag == tag && |t.kids| == count then Some(t.kids) else None
  }

  function BooleanFrom(t: Tree): (r: Option<bool>) {
    if t.Prim? && t.tag == BOOLEAN && |t.content| == 1 then Some(t.content[0] != 0) else None
  }

  function HashFrom(t: Tree): (r: Option<Hash>) {
    var k :- KidsFrom(SEQUENCE, 2, t);
    var sha2 :- OctetsFrom(OCTETS, k[0]);
    var sha3 :- OctetsFrom(OCTETS, k[1]);
    Some(Hash(sha2, sha3))
  }

  function SpecieFrom(t: Tree): (r: Option<Asn1Specie>) {
    var k :- KidsFrom(SEQUENCE, 2, t);
    var coins :- IntFrom(k[0]);
    var fluffs :- IntFrom(k[1]);
    Some(Asn1Specie(coins, fluffs))
  }

  function GenesisFrom(tag: byte, t: Tree): (r: Option<Asn1Genesis>) {
    var k :- KidsFrom(tag, 9, t);
    var protocol :- IntFrom(k[0]);
    var name :- OctetsFrom(UTF8, k[1]);
    var version :- IntFrom(k[2]);
    var creation :- IntFrom(k[3]);
    var creator :- OctetsFrom(OCTETS, k[4]);
    var validatorKey :- OctetsFrom(OCTETS, k[5]);
    var stakeAddress :- OctetsFrom(OCTETS, k[6]);
    var greed :- SpecieFrom(k[7]);
    var seed :- OctetsFrom(OCTETS, k[8]);
    Some(Asn1Genesis(protocol, name, version, creation, creator, validatorKey, stakeAddress, greed, seed))
  }

  function ShardInfoFrom(t: Tree): (r: Option<Asn1ShardInfo>) {
    var k :- KidsFrom(SEQUENCE, 2, t);
    var hash :- HashFrom(k[0]);
    var blocks :- IntFrom(k[1]);
    Some(Asn1ShardInfo(hash, blocks))
  }

  function ShardInfosFrom(ts: seq<Tree>): (r: Option<seq<Asn1ShardInfo>>) {
    if ts == [] then Some([])
    else
      var first :- ShardInfoFrom(ts[0]);
      var others :- ShardInfosFrom(ts[1..]);
      Some([first] + others)
  }

  function ContentFrom(t: Tree): (r: Option<Asn1Content>) {
    var k :- KidsFrom(SEQUENCE, 5, t);
    var protocol :- IntFrom(k[0]);
    var time :- IntFrom(k[1]);
    var chainId :- IntFrom(k[2]);
    if !(k[3].Cons? && k[3].tag == SEQUENCE) then None
    else
      var shardInfo :- ShardInfosFrom(k[3].kids);
      var leader :- OctetsFrom(OCTETS, k[4]);
      Some(Asn1Content(protocol, time, chainId, shardInfo, leader))
  }

  function VoteFrom(t: Tree): (r: Option<Validation>) {
    var k :- KidsFrom(SEQUENCE, 3, t);
    var verified :- BooleanFrom(k[0]);
    var address :- OctetsFrom(OCTETS, k[1]);
    var signature :- OctetsFrom(OCTETS, k[2]);
    Some(Validation(verified, address, signature))
  }

  function VotesFrom(ts: seq<Tree>): (r: Option<seq<Validation>>) {
    if ts == [] then Some([])
    else
      var first :- VoteFrom(ts[0]);
      var others :- VotesFrom(ts[1..]);
      Some([first] + others)
  }

  function ReconciliationFrom(tag: byte, t: Tree): (r: Option<Asn1Reconciliation>) {
    var k :- KidsFrom(tag, 3, t);
    var content :- ContentFrom(k[0]);
    var signature :- OctetsFrom(OCTETS, k[1]);
    if !(k[2].Cons? && k[2].tag == SET) then None
    else
      var votes :- VotesFrom(k[2].kids);
      Some(Asn1Reconciliation(content, signature, votes))
  }

  // ----- whole blocks -----

  /** What is hashed for the genesis block. */
  function GenesisBytes(g: Genesis): (bs: Bytes) {
    Encode(GenesisTree(SEQUENCE, ToAsn1Genesis(g)))
  }

  /** What is hashed for a reconciliation block: its content, not the signature or the votes. */
  function ContentBytes(r: Reconciliation): (bs: Bytes) {
    Encode(ContentTree(ToAsn1Reconciliation(r).content))
  }

  function HashBytes(h: Hash): (bs: Bytes) {
    Encode(HashTree(h))
  }

  /** The CHOICE: a null, or one of the implicitly tagged bodies. */
  function EncodeChoice(t: Asn1Block): (bs: Bytes) {
    match t
    case Asn1Null => Encode(Prim(NULL, []))
    case Asn1GenesisChoice(g) => Encode(GenesisTree(GENESIS_CHOICE, g))
    case Asn1ReconciliationChoice(r) => Encode(ReconciliationTree(RECONCILIATION_CHOICE, r))
    case Asn1NodeChoice(n) => [NODE_CHOICE] + LengthOctets(|n|) + n
  }

  function EncodeBlock(b: Block): (bs: Bytes) {
    EncodeChoice(ToAsn1Block(b))
  }

  function Asn1BlockFrom(t: Tree, nodeOk: Bytes -> bool): (r: Option<Asn1Block>) {
    if Tag(t) == GENESIS_CHOICE then
      var g :- GenesisFrom(GENESIS_CHOICE, t);
      Some(Asn1GenesisChoice(g))
    else if Tag(t) == RECONCILIATION_CHOICE then
      var rec :- ReconciliationFrom(RECONCILIATION_CHOICE, t);
      Some(Asn1ReconciliationChoice(rec))
    else if t.Cons? && t.tag == NODE_CHOICE && nodeOk(EncodeAll(t.kids)) then
      Some(Asn1NodeChoice(EncodeAll(t.kids)))
    else if t == Prim(NULL, []) then Some(Asn1Null)
    else None
  }

  /** Decodes one block off the front of the data; anything after it is ignored. */
  function DecodeBlock(bs: Bytes, nodeOk: Bytes -> bool): (r: Option<DecodedBlock>) {
    var t :- Parse(bs);
    var a :- Asn1BlockFrom(t.0, nodeOk);
    DecodedCopiesExactly(a);
    Some(FromAsn1Block(a))
  }

  function BlockHash(c: Crypto, b: Block): (h: Hash) {
    match b
    case GenesisBlock(g) => HashOf(c, GenesisBytes(g))
    case ReconciliationBlock(r) => HashOf(c, ContentBytes(r))
    case _ => NULL_HASH
  }

  // ----- round trips -----

  lemma WellFormedKids(tag: byte, kids: seq<Tree>)
    requires IsConstructed(tag)
    requires forall i :: 0 <= i < |kids| ==> WellFormed(kids[i])
    ensures WellFormed(Cons(tag, kids))
  {
  }

  lemma HashRoundTrip(h: Hash)
    ensures HashFrom(HashTree(h)) == Some(h) && WellFormed(HashTree(h))
  {
    WellFormedKids(SEQUENCE, HashTree(h).kids);
  }

  lemma SpecieRoundTrip(s: Asn1Specie)
    ensures SpecieFrom(SpecieTree(s)) == Some(s) && WellFormed(SpecieTree(s))
  {
    WellFormedKids(SEQUENCE, SpecieTree(s).kids);
  }

  lemma GenesisWellFormed(tag: byte, g: Asn1Genesis)
    requires IsConstructed(tag)
    ensures WellFormed(GenesisTree(tag, g))
  {
    SpecieRoundTrip(g.greed);
    WellFormedKids(tag, GenesisTree(tag, g).kids);
  }

  lemma GenesisRoundTrip(tag: byte, g: Asn1Genesis)
    ensures GenesisFrom(tag, GenesisTree(tag, g)) == Some(g)
  {
    SpecieRoundTrip(g.greed);
  }

  lemma ShardInfoRoundTrip(s: Asn1ShardInfo)
    ensures ShardInfoFrom(ShardInfoTree(s)) == Some(s) && WellFormed(ShardInfoTree(s))
  {
    HashRoundTrip(s.hash);
    WellFormedKids(SEQUENCE, ShardInfoTree(s).kids);
  }

  lemma {:induction false} ShardInfosRoundTrip(infos: seq<Asn1ShardInfo>)
    ensures ShardInfosFrom(ShardInfoTrees(infos)) == Some(infos)
    ensures WellFormed(Cons(SEQUENCE, ShardInfoTrees(infos)))
  {
    if infos != [] {
      ShardInfoRoundTrip(infos[0]);
      ShardInfosRoundTrip(infos[1..]);
      assert ShardInfoTrees(infos)[1..] == ShardInfoTrees(infos[1..]);
      assert [infos[0]] + infos[1..] == infos;
    }
  }

  lemma ContentWellFormed(c: Asn1Content)
    ensures WellFormed(ContentTree(c))
  {
    ShardInfosRoundTrip(c.shardInfo);
    WellFormedKids(SEQUENCE, ContentTree(c).kids);
  }

  lemma ContentRoundTrip(c: Asn1Content)
    ensures ContentFrom(ContentTree(c)) == Some(c)
  {
    ShardInfosRoundTrip(c.shardInfo);
  }

  lemma VoteRoundTrip(v: Validation)
    ensures VoteFrom(VoteTree(v)) == Some(v) && WellFormed(VoteTree(v))
  {
    WellFormedKids(SEQUENCE, VoteTree(v).kids);
  }

  lemma {:induction false} VotesRoundTrip(votes: seq<Validation>)
    ensures VotesFrom(VoteTrees(votes)) == Some(votes)
    ensures WellFormed(Cons(SET, VoteTrees(votes)))
  {
    if votes != [] {
      VoteRoundTrip(votes[0]);
      VotesRoundTrip(votes[1..]);
      assert VoteTrees(votes)[1..] == VoteTrees(votes[1..]);
      assert [votes[0]] + votes[1..] == votes;
    }
  }

  lemma ReconciliationWellFormed(tag: byte, r: Asn1Reconciliation)
    requires IsConstructed(tag)
    ensures WellFormed(ReconciliationTree(tag, r))
  {
    ContentWellFormed(r.content);
    VotesRoundTrip(SortVotes(r.votes));
    WellFormedKids(tag, ReconciliationTree(tag, r).kids);
  }

  lemma ReconciliationRoundTrip(tag: byte, r: Asn1Reconciliation)
    ensures ReconciliationFrom(tag, ReconciliationTree(tag, r)) == Some(r.(votes := SortVotes(r.votes)))
  {
    ContentRoundTrip(r.content);
    VotesRoundTrip(SortVotes(r.votes));
  }

  /** The block with its votes in encoding order. */
  function WithSortedVotes(b: Block): (r: Block) {
    match b
    case ReconciliationBlock(r) => ReconciliationBlock(r.(votes := SortVotes(r.votes)))
    case _ => b
  }

  lemma {:induction false} DecodeTree(t: Tree, rest: Bytes, a: Asn1Block, nodeOk: Bytes -> bool)
    requires WellFormed(t) && |Encode(t)| <= MAX_LENGTH && Asn1BlockFrom(t, nodeOk) == Some(a)
    ensures DecodeBlock(Encode(t) + rest, nodeOk) == Some(FromAsn1Block(a))
  {
    ParseEncode(t, rest);
  }

  lemma GenesisDecodes(g: Genesis, rest: Bytes, nodeOk: Bytes -> bool)
    requires |EncodeBlock(GenesisBlock(g))| <= MAX_LENGTH
    ensures DecodeBlock(EncodeBlock(GenesisBlock(g)) + rest, nodeOk) == Some(Copied(GenesisBlock(g)))
  {
    var a := ToAsn1Genesis(g);
    GenesisWellFormed(GENESIS_CHOICE, a);
    GenesisRoundTrip(GENESIS_CHOICE, a);
    DecodeTree(GenesisTree(GENESIS_CHOICE, a), rest, Asn1GenesisChoice(a), nodeOk);
  }

  lemma ReconciliationDecodes(r: Reconciliation, rest: Bytes, nodeOk: Bytes -> bool)
    requires |EncodeBlock(ReconciliationBlock(r))| <= MAX_LENGTH
    ensures DecodeBlock(EncodeBlock(ReconciliationBlock(r)) + rest, nodeOk)
         == Some(WithSortedVotes(Copied(ReconciliationBlock(r))))
  {
    var a := ToAsn1Reconciliation(r);
    var t, sorted := ReconciliationTree(RECONCILIATION_CHOICE, a), a.(votes := SortVotes(a.votes));
    assert Asn1BlockFrom(t, nodeOk) == Some(Asn1ReconciliationChoice(sorted)) by {
      ReconciliationRoundTrip(RECONCILIATION_CHOICE, a);
    }
    ReconciliationWellFormed(RECONCILIATION_CHOICE, a);
    DecodeTree(t, rest, Asn1ReconciliationChoice(sorted), nodeOk);
    SortedCopy(r);
  }

  lemma SortedCopy(r: Reconciliation)
    ensures var a := ToAsn1Reconciliation(r);
            FromAsn1Block(Asn1ReconciliationChoice(a.(votes := SortVotes(a.votes))))
            == WithSortedVotes(Copied(ReconciliationBlock(r)))
  {
  }

  /**
    Decoding an encoded block, with anything after it, gives the copy of the
    block with its votes in encoding order.
   */
  lemma WireRoundTrip(b: Block, rest: Bytes, nodeOk: Bytes -> bool)
    requires !b.NodeBlock? && |EncodeBlock(b)| <= MAX_LENGTH
    ensures DecodeBlock(EncodeBlock(b) + rest, nodeOk) == Some(WithSortedVotes(Copied(b)))
  {
    match b
    case NoBlock =>
      DecodeTree(Prim(NULL, []), rest, Asn1Null, nodeOk);
    case GenesisBlock(g) =>
      GenesisDecodes(g, rest, nodeOk);
    case ReconciliationBlock(r) =>
      ReconciliationDecodes(r, rest, nodeOk);
  }

  /**
    The wire keeps every field, up to the order of the votes, exactly when the
    64-bit integers survive; the votes come back as a permutation in encoding order.
   */
  lemma WireKeepsFields(b: Block, rest: Bytes, nodeOk: Bytes -> bool)
    requires !b.NodeBlock? && |EncodeBlock(b)| <= MAX_LENGTH
    ensures DecodeBlock(EncodeBlock(b) + rest, nodeOk) == Some(WithSortedVotes(b)) <==> IntegersSurvive(b)
    ensures b.ReconciliationBlock? ==>
              var votes := WithSortedVotes(b).reconciliation.votes;
              multiset(votes) == multiset(b.reconciliation.votes) && InOrder(votes)
  {
    WireRoundTrip(b, rest, nodeOk);
    CopyIsIdentity(b);
    if b.ReconciliationBlock? {
      SortVotesSorts(b.reconciliation.votes);
      assert IntegersSurvive(b);
    }
  }

  /** Neither the wire nor a copy changes the bytes that are hashed. */
  lemma HashSurvives(c: Crypto, b: Block, rest: Bytes, nodeOk: Bytes -> bool)
    requires !b.NodeBlock? && |EncodeBlock(b)| <= MAX_LENGTH && IntegersSurvive(b)
    ensures var r := DecodeBlock(EncodeBlock(b) + rest, nodeOk);
            r.Some? && BlockHash(c, r.value) == BlockHash(c, b) == BlockHash(c, Copied(b))
            && EncodeBlock(r.value) == EncodeBlock(b)
  {
    WireKeepsFields(b, rest, nodeOk);
    CopyIsIdentity(b);
    if b.ReconciliationBlock? {
      var r := b.reconciliation;
      SortVotesSorts(r.votes);
      SortedStays(SortVotes(r.votes));
    }
  }
}
