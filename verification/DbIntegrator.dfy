/**
  Integration of one block into the database. The pure functions say what an
  attempt does to the committed tables and to the cached cursor; the class runs
  the checks and statements one by one, as a session that is committed or dropped.
 */
module DbIntegration {
  import opened Base
  import opened BlockTypes
  import opened Database

  /**
    How blocks are read, copied, hashed and written as text. Integration makes
    no assumption about it; the codec of the program is put in at the end.
   */
  datatype Codec = Codec(
    decode: Bytes -> Option<Block>,
    copy: Block -> Block,
    genesisHash: Genesis -> Hash,
    reconciliationHash: Reconciliation -> Hash,
    hashBytes: Hash -> Bytes,
    printable: Bytes -> string)

  datatype Result =
    | Success
    | NoDatabase
    | DatabaseError
    | InvalidState
    | InvalidIndex
    | Duplicate
    | BadBlock
    | NoMatch
    | NotReady
    | AlreadyDone

  /** Where a block claims to be in the chain. */
  datatype Key = Key(recon: uint32, shard: uint32, block: uint32)

  /** What was last imported on a shard. */
  datatype Import = Import(block: uint32, hash: Hash)

  datatype DbState = DbState(
    tables: Tables,
    initialized: bool,
    currentRecon: uint32,
    lastImports: map<uint32, Import>)

  /** An index of a shard list as the 32-bit key it is looked up by. */
  function ShardKey(i: nat): (k: uint32) {
    i % 0x1_0000_0000
  }

  // ----- checks -----

  /** How the first scan judges one shard entry; Success means it goes on. */
  function FirstVerdict(lastImports: map<uint32, Import>, info: ShardInfo, key: uint32): (r: Result) {
    var imported := if key in lastImports then lastImports[key].block else 0;
    if imported < info.blocks then NotReady
    else if imported > info.blocks then BadBlock
    else if key !in lastImports && info.hash != NULL_HASH then BadBlock
    else if key in lastImports && info.hash != lastImports[key].hash then BadBlock
    else Success
  }

  /** The first verdict against an entry from i on, or Success. */
  function FirstScan(lastImports: map<uint32, Import>, infos: seq<ShardInfo>, i: nat): (r: Result)
    requires i <= |infos|
    decreases |infos| - i
  {
    if i == |infos| then Success
    else
      var v := FirstVerdict(lastImports, infos[i], ShardKey(i));
      if v != Success then v else FirstScan(lastImports, infos, i + 1)
  }

  /** What is imported on the shard that an index stands for; nothing yet is no blocks and the null hash. */
  function Imported(lastImports: map<uint32, Import>, i: nat): (info: ShardInfo) {
    var key := i % 0x1_0000_0000;
    if key in lastImports then ShardInfo(lastImports[key].hash, lastImports[key].block) else ShardInfo(Hash([], []), 0)
  }

  /** Entry j is the first, from i on, that differs from what is imported. */
  ghost predicate FirstDiffering(lastImports: map<uint32, Import>, infos: seq<ShardInfo>, i: nat, j: nat) {
    && i <= j < |infos| && infos[j] != Imported(lastImports, j)
    && forall k :: i <= k < j ==> infos[k] == Imported(lastImports, k)
  }

  /**
    The first entry that differs decides: the block is early if the entry asks for
    more blocks than are imported, and bad if not. Without one there is no objection.
   */
  lemma {:induction false} FirstScanDecides(lastImports: map<uint32, Import>, infos: seq<ShardInfo>, i: nat)
    requires i <= |infos|
    ensures FirstScan(lastImports, infos, i) == Success
       <==> forall j :: i <= j < |infos| ==> infos[j] == Imported(lastImports, j)
    ensures forall j: nat :: FirstDiffering(lastImports, infos, i, j) ==>
              FirstScan(lastImports, infos, i)
              == if infos[j].blocks > Imported(lastImports, j).blocks then NotReady else BadBlock
    decreases |infos| - i
  {
    if i < |infos| {
      FirstScanDecides(lastImports, infos, i + 1);
      assert FirstVerdict(lastImports, infos[i], ShardKey(i)) == Success <==> infos[i] == Imported(lastImports, i);
      forall j: nat | FirstDiffering(lastImports, infos, i, j)
        ensures j == i || FirstDiffering(lastImports, infos, i + 1, j)
      {
      }
    }
  }

  function SecondVerdict(lastImports: map<uint32, Import>, info: ShardInfo, key: uint32): (r: Result) {
    if key !in lastImports then NoMatch
    else if lastImports[key].block != info.blocks then NotReady
    else if lastImports[key].hash != info.hash then BadBlock
    else Success
  }

  function SecondScan(lastImports: map<uint32, Import>, infos: seq<ShardInfo>, i: nat): (r: Result)
    requires i <= |infos|
    decreases |infos| - i
  {
    if i == |infos| then Success
    else
      var v := SecondVerdict(lastImports, infos[i], ShardKey(i));
      if v != Success then v else SecondScan(lastImports, infos, i + 1)
  }

  /** Entry j is the first, from i on, whose shard is not imported or differs from what is. */
  ghost predicate FirstUnmatched(lastImports: map<uint32, Import>, infos: seq<ShardInfo>, i: nat, j: nat) {
    && i <= j < |infos| && (j % 0x1_0000_0000 !in lastImports || infos[j] != Imported(lastImports, j))
    && forall k :: i <= k < j ==> k % 0x1_0000_0000 in lastImports && infos[k] == Imported(lastImports, k)
  }

  /**
    In the second scan, too, the first entry that does not match decides: no import
    is no match, another count of blocks is early, and another hash is bad.
   */
  lemma {:induction false} SecondScanDecides(lastImports: map<uint32, Import>, infos: seq<ShardInfo>, i: nat)
    requires i <= |infos|
    ensures SecondScan(lastImports, infos, i) == Success
       <==> forall j :: i <= j < |infos| ==> j % 0x1_0000_0000 in lastImports && infos[j] == Imported(lastImports, j)
    ensures forall j: nat :: FirstUnmatched(lastImports, infos, i, j) ==>
              SecondScan(lastImports, infos, i)
              == if j % 0x1_0000_0000 !in lastImports then NoMatch
                 else if infos[j].blocks != Imported(lastImports, j).blocks then NotReady
                 else BadBlock
    decreases |infos| - i
  {
    if i < |infos| {
      SecondScanDecides(lastImports, infos, i + 1);
      assert SecondVerdict(lastImports, infos[i], ShardKey(i)) == Success
        <==> i % 0x1_0000_0000 in lastImports && infos[i] == Imported(lastImports, i);
      forall j: nat | FirstUnmatched(lastImports, infos, i, j)
        ensures j == i || FirstUnmatched(lastImports, infos, i + 1, j)
      {
      }
    }
  }

  // ----- effects -----

  /** One coin of the greed is staked; the subtraction is on unsigned 64-bit numbers. */
  function Spendable(greed: Specie): (coins: uint64) {
    (greed.coins - 1) % 0x1_0000_0000_0000_0000
  }

  predicate WalletInRange(greed: Specie) {
    Spendable(greed) <= MAX_BIGINT && greed.fluffs <= MAX_INT
  }

  function GenesisTables(c: Codec, f: Faults, t: Tables, g: Genesis): (r: Option<Tables>) {
    var joins :- Insert(t.validatorJoins, "0", JoinRow(1, 0, c.printable(g.creator), g.validatorKey, 1), true, f.join);
    var wallets :- Insert(t.wallets, 1, WalletRow(Spendable(g.greed), g.greed.fluffs, 1, 0),
                          WalletInRange(g.greed), f.wallet);
    var addresses :- Insert(t.walletAddresses, AddressKey(1, c.printable(g.stakeAddress)), None, true, f.address);
    var imported :- Insert(t.importedBlocks, ImportKey(0, 0),
                           ImportRow(0, c.hashBytes(c.genesisHash(g))), true, f.imported);
    Some(Tables(joins, wallets, addresses, imported))
  }

  /**
    The statements of a genesis block all go through, or none does: exactly when
    nothing fails, the amounts fit and every key is free. Then each of the four
    tables has one row more, and all the rows it had.
   */
  lemma GenesisAllOrNothing(c: Codec, f: Faults, t: Tables, g: Genesis)
    ensures var address := AddressKey(1, c.printable(g.stakeAddress));
            GenesisTables(c, f, t, g).Some?
            <==> && !f.join && !f.wallet && !f.address && !f.imported && WalletInRange(g.greed)
                 && "0" !in t.validatorJoins && 1 !in t.wallets && address !in t.walletAddresses
                 && ImportKey(0, 0) !in t.importedBlocks
    ensures var r := GenesisTables(c, f, t, g);
            r.Some? ==>
              && OneMore(t.validatorJoins, r.value.validatorJoins) && OneMore(t.wallets, r.value.wallets)
              && OneMore(t.walletAddresses, r.value.walletAddresses)
              && OneMore(t.importedBlocks, r.value.importedBlocks)
  {
  }

  ghost predicate OneMore<K, V>(table: map<K, V>, longer: map<K, V>) {
    |longer| == |table| + 1 && forall k :: k in table ==> k in longer && longer[k] == table[k]
  }

  function IntegratedGenesis(c: Codec, f: Faults, s: DbState, g: Genesis): (r: (DbState, Result)) {
    match GenesisTables(c, f, s.tables, g)
    case None => (s, DatabaseError)
    case Some(t) =>
      var imports := if 0 in s.lastImports then s.lastImports
                     else s.lastImports[0 := Import(0, c.genesisHash(g))];
      (s.(tables := t, currentRecon := 1, lastImports := imports), Success)
  }

  function ReconciliationTables(c: Codec, f: Faults, t: Tables, recon: uint32, h: Hash): (r: Option<Tables>) {
    if f.truncate then None
    else
      var imported :- Insert(map[], ImportKey(recon, 0), ImportRow(0, c.hashBytes(h)), recon <= MAX_INT, f.imported);
      Some(t.(importedBlocks := imported))
  }

  /** A reconciliation leaves one import row, its own, and no other table is touched; or nothing is stored. */
  lemma ReconciliationReplacesRow(c: Codec, f: Faults, t: Tables, recon: uint32, h: Hash)
    ensures var r := ReconciliationTables(c, f, t, recon, h);
            && (r.Some? <==> !f.truncate && !f.imported && recon <= MAX_INT)
            && (r.Some? ==> r.value.importedBlocks.Keys == {ImportKey(recon, 0)}
                            && r.value.(importedBlocks := t.importedBlocks) == t)
  {
  }

  function IntegratedReconciliation(c: Codec, f: Faults, s: DbState, r: Reconciliation): (res: (DbState, Result)) {
    if r.chainId != s.currentRecon then (s, BadBlock)
    else if |r.shardInfo| != |s.lastImports| then (s, BadBlock)
    else
      var verdict := SecondScan(s.lastImports, r.shardInfo, 0);
      if verdict != Success then (s, verdict)
      else
        var h := c.reconciliationHash(r);
        match ReconciliationTables(c, f, s.tables, s.currentRecon, h)
        case None => (s, DatabaseError)
        case Some(t) =>
          (s.(tables := t, currentRecon := (s.currentRecon + 1) % 0x1_0000_0000, lastImports := map[0 := Import(0, h)]),
           Success)
  }

  /** Node blocks are only checked for their number; nothing is stored yet. */
  function IntegratedNode(s: DbState, shard: uint32, block: uint32): (r: (DbState, Result)) {
    var last := if shard in s.lastImports then s.lastImports[shard].block else 0;
    if last >= block then (s, AlreadyDone)
    else if last + 1 < block then (s, NotReady)
    else (s, Success)
  }

  /** The cursor can be read from the table only while the table is empty. */
  predicate CanInitialize(s: DbState) {
    s.initialized || s.tables.importedBlocks == map[]
  }

  function Integrated(c: Codec, f: Faults, s: DbState, b: Block, key: Key): (r: (DbState, Result))
    requires CanInitialize(s)
    ensures CanInitialize(r.0)
    ensures r.1 != Success ==> r.0.(initialized := s.initialized) == s
  {
    if f.session then (s, NoDatabase)
    else if !s.initialized && f.select then (s, DatabaseError)
    else IntegratedWhenReady(c, f, s.(initialized := true), b, key)
  }

  function IntegratedWhenReady(c: Codec, f: Faults, s: DbState, b: Block, key: Key): (r: (DbState, Result)) {
    if key.recon > s.currentRecon then (s, NotReady)
    else if key.recon < s.currentRecon then (s, AlreadyDone)
    else if s.currentRecon == 0 then
      if key.shard != 0 then (s, InvalidIndex)
      else if key.block != 0 || !b.GenesisBlock? then (s, BadBlock)
      else IntegratedGenesis(c, f, s, b.genesis)
    else
      match b
      case ReconciliationBlock(r) =>
        var verdict := FirstScan(s.lastImports, r.shardInfo, 0);
        if verdict != Success then (s, verdict) else IntegratedReconciliation(c, f, s, r)
      case NodeBlock(_) => IntegratedNode(s, key.shard, key.block)
      case _ => (s, BadBlock)
  }

  // ----- the integrator -----

  /** The committed tables and the cached cursor into them. */
  class DbIntegrator {
    const codec: Codec
    var committed: Tables
    var initialized: bool
    var currentRecon: uint32
    var lastImports: map<uint32, Import>

    ghost function State(): (s: DbState)
      reads this
    {
      DbState(committed, initialized, currentRecon, lastImports)
    }

    /** Starts on an empty database. */
    constructor (codec: Codec)
      ensures this.codec == codec && State() == DbState(EMPTY_TABLES, false, 0, map[])
    {
      this.codec := codec;
      committed := EMPTY_TABLES;
      initialized := false;
      currentRecon := 0;
      lastImports := map[];
    }

    method Init(f: Faults) returns (r: Result)
      requires !initialized && CanInitialize(State())
      modifies this
      ensures r == if f.select then DatabaseError else Success
      ensures State() == old(State()).(initialized := !f.select)
    {
      if f.select {
        return DatabaseError;
      }
      assert committed.importedBlocks == map[];
      initialized := true;
      return Success;
    }

    method Integrate(f: Faults, data: Block, recon: uint32, shard: uint32, block: uint32) returns (r: Result)
      requires CanInitialize(State())
      modifies this
      ensures (State(), r) == Integrated(codec, f, old(State()), data, Key(recon, shard, block))
    {
      if f.session {
        return NoDatabase;
      }
      if !initialized {
        var status := Init(f);
        if status != Success {
          return status;
        }
      }
      if recon > currentRecon {
        return NotReady;
      } else if recon < currentRecon {
        return AlreadyDone;
      }
      if currentRecon == 0 {
        if shard != 0 {
          return InvalidIndex;
        } else if block != 0 {
          return BadBlock;
        } else if !data.GenesisBlock? {
          return BadBlock;
        }
        r := IntegrateGenesis(f, data.genesis);
        return;
      }
      if data.ReconciliationBlock? {
        r := ScanShards(data.reconciliation.shardInfo);
        if r == Success {
          r := IntegrateRecon(f, data.reconciliation);
        }
        return;
      }
      if !data.NodeBlock? {
        return BadBlock;
      }
      r := IntegrateNode(shard, block);
    }

    /** Does the reconciliation match what is imported on all the shards it names? */
    method ScanShards(infos: seq<ShardInfo>) returns (r: Result)
      ensures r == FirstScan(lastImports, infos, 0)
      ensures r == Success <==> forall j :: 0 <= j < |infos| ==> infos[j] == Imported(lastImports, j)
      ensures forall j: nat :: FirstDiffering(lastImports, infos, 0, j) ==>
                r == if infos[j].blocks > Imported(lastImports, j).blocks then NotReady else BadBlock
    {
      FirstScanDecides(lastImports, infos, 0);
      for ui := 0 to |infos|
        invariant FirstScan(lastImports, infos, 0) == FirstScan(lastImports, infos, ui)
      {
        var info, key := infos[ui], ShardKey(ui);
        var blocksImported := 0;
        if key in lastImports {
          blocksImported := lastImports[key].block;
        }
        if blocksImported < info.blocks {
          return NotReady;
        } else if blocksImported > info.blocks {
          return BadBlock;
        } else if key !in lastImports && info.hash != NULL_HASH {
          return BadBlock;
        } else if key in lastImports && info.hash != lastImports[key].hash {
          return BadBlock;
        }
      }
      return Success;
    }

    method IntegrateGenesis(f: Faults, genesis: Genesis) returns (r: Result)
      modifies this
      ensures (State(), r) == IntegratedGenesis(codec, f, old(State()), genesis)
    {
      var session := committed;
      var joins := Insert(session.validatorJoins, "0",
                          JoinRow(1, 0, codec.printable(genesis.creator), genesis.validatorKey, 1), true, f.join);
      if joins.None? {
        return DatabaseError;
      }
      session := session.(validatorJoins := joins.value);

      var wallets := Insert(session.wallets, 1, WalletRow(Spendable(genesis.greed), genesis.greed.fluffs, 1, 0),
                            WalletInRange(genesis.greed), f.wallet);
      if wallets.None? {
        return DatabaseError;
      }
      session := session.(wallets := wallets.value);

      var addresses := Insert(session.walletAddresses, AddressKey(1, codec.printable(genesis.stakeAddress)),
                              None, true, f.address);
      if addresses.None? {
        return DatabaseError;
      }
      session := session.(walletAddresses := addresses.value);

      var hash := codec.genesisHash(genesis);
      var imported := Insert(session.importedBlocks, ImportKey(0, 0), ImportRow(0, codec.hashBytes(hash)),
                             true, f.imported);
      if imported.None? {
        return DatabaseError;
      }
      session := session.(importedBlocks := imported.value);

      committed := session;
      currentRecon := 1;
      if 0 !in lastImports {
        lastImports := lastImports[0 := Import(0, hash)];
      }
      return Success;
    }

    method IntegrateRecon(f: Faults, recon: Reconciliation) returns (r: Result)
      modifies this
      ensures (State(), r) == IntegratedReconciliation(codec, f, old(State()), recon)
    {
      if recon.chainId != currentRecon {
        return BadBlock;
      }
      if |recon.shardInfo| != |lastImports| {
        return BadBlock;
      }
      for shardIndex := 0 to |recon.shardInfo|
        invariant State() == old(State())
        invariant SecondScan(lastImports, recon.shardInfo, 0) == SecondScan(lastImports, recon.shardInfo, shardIndex)
      {
        var info, key := recon.shardInfo[shardIndex], ShardKey(shardIndex);
        if key !in lastImports {
          return NoMatch;
        }
        if lastImports[key].block != info.blocks {
          return NotReady;
        }
        if lastImports[key].hash != info.hash {
          return BadBlock;
        }
      }
      if f.truncate {
        return DatabaseError;
      }
      var session := committed.(importedBlocks := map[]);
      var hash := codec.reconciliationHash(recon);
      var imported := Insert(session.importedBlocks, ImportKey(currentRecon, 0), ImportRow(0, codec.hashBytes(hash)),
                             currentRecon <= MAX_INT, f.imported);
      if imported.None? {
        return DatabaseError;
      }
      session := session.(importedBlocks := imported.value);

      committed := session;
      currentRecon := (currentRecon + 1) % 0x1_0000_0000;
      lastImports := map[0 := Import(0, hash)];
      return Success;
    }

    method IntegrateNode(shard: uint32, block: uint32) returns (r: Result)
      ensures (State(), r) == IntegratedNode(State(), shard, block)
    {
      var lastBlock := 0;
      if shard in lastImports {
        lastBlock := lastImports[shard].block;
      }
      if lastBlock >= block {
        return AlreadyDone;
      }
      if lastBlock + 1 < block {
        return NotReady;
      }
      return Success;
    }
  }
}
