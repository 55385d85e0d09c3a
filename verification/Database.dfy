/**
  The tables the curator writes, the statements it sends and what can make a
  statement fail: a fault outside our control, a primary key that is taken, or
  a number the column cannot hold. Keys and column types are those of the schema.
 */
module Database {
  import opened Base

  const MAX_INT := 0x7fff_ffff
  const MAX_BIGINT := 0x7fff_ffff_ffff_ffff

  datatype JoinRow = JoinRow(
    coins: int, fluffs: int, validatorAddress: string, validatorPubkey: Bytes, stakeWallet: int)

  datatype WalletRow = WalletRow(coins: int, fluffs: int, stakedCoins: int, stakedFluffs: int)

  /** Primary key of imported_blocks. */
  datatype ImportKey = ImportKey(reconciliation: int, shard: int)

  datatype ImportRow = ImportRow(block: int, hash: Bytes)

  /** Primary key of wallet_addresses. */
  datatype AddressKey = AddressKey(walletId: int, address: string)

  datatype Tables = Tables(
    validatorJoins: map<string, JoinRow>,
    wallets: map<int, WalletRow>,
    walletAddresses: map<AddressKey, Option<Bytes>>,
    importedBlocks: map<ImportKey, ImportRow>)

  const EMPTY_TABLES := Tables(map[], map[], map[], map[])

  /** Which requests to the database fail for reasons of its own during one integration. */
  datatype Faults = Faults(
    session: bool, select: bool, join: bool, wallet: bool, address: bool, truncate: bool, imported: bool)

  const NO_FAULTS := Faults(false, false, false, false, false, false, false)

  /** One INSERT: fails on a fault, on a taken key or when a value is out of range. */
  function Insert<K, V>(table: map<K, V>, key: K, row: V, inRange: bool, fault: bool): (r: Option<map<K, V>>)
    ensures r.Some? <==> !fault && inRange && key !in table
    ensures r.Some? ==> r.value == table[key := row]
  {
    if fault || !inRange || key in table then None else Some(table[key := row])
  }
}
