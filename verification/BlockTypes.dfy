/** The blocks of the chain and the parts they are made of, as values. */
module BlockTypes {
  import opened Base

  /** A pair of digests; the default one, with both parts empty, is the null hash. */
  datatype Hash = Hash(sha2: Bytes, sha3: Bytes)

  const NULL_HASH := Hash([], [])

  /** An amount: whole coins and hundred-millionths of a coin. */
  datatype Specie = Specie(coins: uint64, fluffs: uint32)

  datatype Genesis = Genesis(
    protocol: uint32,
    name: Bytes,
    version: uint32,
    creation: uint64,
    creator: Bytes,
    validatorKey: Bytes,
    stakeAddress: Bytes,
    greed: Specie,
    seed: Bytes)

  datatype ShardInfo = ShardInfo(hash: Hash, blocks: uint32)

  datatype Validation = Validation(verified: bool, address: Bytes, signature: Bytes)

  datatype Reconciliation = Reconciliation(
    protocol: uint32,
    chainId: uint32,
    shardInfo: seq<ShardInfo>,
    leader: Bytes,
    signature: Bytes,
    votes: seq<Validation>)

  /** A block; the body of a node block stays undecoded. */
  datatype Block =
    | NoBlock
    | GenesisBlock(genesis: Genesis)
    | ReconciliationBlock(reconciliation: Reconciliation)
    | NodeBlock(node: Bytes)

  /** The two digest functions, about which nothing is assumed. */
  datatype Crypto = Crypto(sha2: Bytes -> Bytes, sha3: Bytes -> Bytes)

  function HashOf(c: Crypto, content: Bytes): (h: Hash) {
    Hash(c.sha2(content), c.sha3(content))
  }
}
