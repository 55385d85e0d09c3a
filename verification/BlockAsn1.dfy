/**
  The intermediate form every block passes through when it is encoded, decoded
  or copied: structures whose integers are unbounded ASN.1 integers.
 */
module BlockAsn1 {
  import opened Base
  import opened BlockTypes

  datatype Asn1Genesis = Asn1Genesis(
    protocol: int,
    name: Bytes,
    version: int,
    creation: int,
    creator: Bytes,
    validatorKey: Bytes,
    stakeAddress: Bytes,
    greed: Asn1Specie,
    seed: Bytes)

  datatype Asn1Specie = Asn1Specie(coins: int, fluffs: int)

  datatype Asn1ShardInfo = Asn1ShardInfo(hash: Hash, blocks: int)

  datatype Asn1Content = Asn1Content(
    protocol: int,
    time: int,
    chainId: int,
    shardInfo: seq<Asn1ShardInfo>,
    leader: Bytes)

  datatype Asn1Reconciliation = Asn1Reconciliation(
    content: Asn1Content,
    signature: Bytes,
    votes: seq<Validation>)

  datatype Asn1Block =
    | Asn1Null
    | Asn1GenesisChoice(genesis: Asn1Genesis)
    | Asn1ReconciliationChoice(reconciliation: Asn1Reconciliation)
    | Asn1NodeChoice(node: Bytes)

  /** Negative values and values wider than 32 bits read as zero. */
  function ToUInt32(v: int): (r: uint32) {
    if v < 0 || v >= 0x1_0000_0000 then 0 else v
  }

  /**
    Negative values and values wider than 64 bits read as zero. What remains is
    fetched as a signed 64-bit integer, which answers -1 from 2^63 on.
   */
  function ToUInt64(v: int): (r: uint64) {
    if v < 0 || v >= 0x1_0000_0000_0000_0000 then 0
    else if v >= 0x8000_0000_0000_0000 then 0xffff_ffff_ffff_ffff
    else v
  }

  predicate SurvivesUInt64(v: uint64) {
    v < 0x8000_0000_0000_0000 || v == 0xffff_ffff_ffff_ffff
  }

  function ToAsn1Genesis(g: Genesis): (t: Asn1Genesis) {
    Asn1Genesis(g.protocol, g.name, g.version, g.creation, g.creator, g.validatorKey,
                g.stakeAddress, Asn1Specie(g.greed.coins, g.greed.fluffs), g.seed)
  }

  function FromAsn1Genesis(t: Asn1Genesis): (g: Genesis) {
    Genesis(ToUInt32(t.protocol), t.name, ToUInt32(t.version), ToUInt64(t.creation), t.creator,
            t.validatorKey, t.stakeAddress, Specie(ToUInt64(t.greed.coins), ToUInt32(t.greed.fluffs)), t.seed)
  }

  function ToAsn1ShardInfo(s: ShardInfo): (t: Asn1ShardInfo) {
    Asn1ShardInfo(s.hash, s.blocks)
  }

  function FromAsn1ShardInfo(t: Asn1ShardInfo): (s: ShardInfo) {
    ShardInfo(t.hash, ToUInt32(t.blocks))
  }

  function ToAsn1ShardInfos(infos: seq<ShardInfo>): (ts: seq<Asn1ShardInfo>) {
    Converted(ToAsn1ShardInfo, infos)
  }

  function FromAsn1ShardInfos(ts: seq<Asn1ShardInfo>): (infos: seq<ShardInfo>) {
    Converted(FromAsn1ShardInfo, ts)
  }

  /** The time of the content is never set: a fresh ASN.1 integer is zero. */
  function ToAsn1Reconciliation(r: Reconciliation): (t: Asn1Reconciliation) {
    Asn1Reconciliation(
      Asn1Content(r.protocol, 0, r.chainId, ToAsn1ShardInfos(r.shardInfo), r.leader),
      r.signature, r.votes)
  }

  function FromAsn1Reconciliation(t: Asn1Reconciliation): (r: Reconciliation) {
    Reconciliation(ToUInt32(t.content.protocol), ToUInt32(t.content.chainId),
                   FromAsn1ShardInfos(t.content.shardInfo), t.content.leader, t.signature, t.votes)
  }

  function ToAsn1Block(b: Block): (t: Asn1Block) {
    match b
    case NoBlock => Asn1Null
    case GenesisBlock(g) => Asn1GenesisChoice(ToAsn1Genesis(g))
    case ReconciliationBlock(r) => Asn1ReconciliationChoice(ToAsn1Reconciliation(r))
    case NodeBlock(n) => Asn1NodeChoice(n)
  }

  function FromAsn1Block(t: Asn1Block): (b: Block) {
    match t
    case Asn1Null => NoBlock
    case Asn1GenesisChoice(g) => GenesisBlock(FromAsn1Genesis(g))
    case Asn1ReconciliationChoice(r) => ReconciliationBlock(FromAsn1Reconciliation(r))
    case Asn1NodeChoice(n) => NodeBlock(n)
  }

  /** Copy assignment converts to the intermediate form and back. */
  function Copied(b: Block): (r: Block) {
    FromAsn1Block(ToAsn1Block(b))
  }

  /** The integers of the block that pass through a signed 64-bit fetch survive it. */
  predicate IntegersSurvive(b: Block) {
    b.GenesisBlock? ==> SurvivesUInt64(b.genesis.creation) && SurvivesUInt64(b.genesis.greed.coins)
  }

  /** Copying a block changes it exactly when a 64-bit integer in it does not survive. */
  lemma CopyIsIdentity(b: Block)
    ensures Copied(b) == b <==> IntegersSurvive(b)
  {
  }

  /** For one: a genesis block with 2^63 coins is copied with 2^64 - 1. */
  lemma HalfRangeChanges()
    ensures var g := Genesis(0, [], 0, 0, [], [], [], Specie(0x8000_0000_0000_0000, 0), []);
            Copied(GenesisBlock(g)) == GenesisBlock(g.(greed := Specie(0xffff_ffff_ffff_ffff, 0)))
  {
  }

  /** A block that came out of the intermediate form, decoded or copied, copies exactly. */
  lemma DecodedCopiesExactly(t: Asn1Block)
    ensures Copied(FromAsn1Block(t)) == FromAsn1Block(t)
  {
  }

  /** Blocks as they exist in memory after decoding. */
  type DecodedBlock = b: Block | Copied(b) == b witness NoBlock
}
