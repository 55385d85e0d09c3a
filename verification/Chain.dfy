/**
  The chain of blocks the integrator accepts, the database state that belongs
  to a chain, and what one attempt does to it.
 */
module Chain {
  import opened Base
  import opened BlockTypes
  import opened Database
  import opened DbIntegration

  // Reconciliation numbers are kept in a column of type INT.
  const LIMIT := 0x8000_0000

  function BlockHash(c: Codec, b: Block): (h: Hash) {
    match b
    case GenesisBlock(g) => c.genesisHash(g)
    case ReconciliationBlock(r) => c.reconciliationHash(r)
    case _ => NULL_HASH
  }

  /** Block b may stand at position k, after prev. */
  predicate Follows(c: Codec, prev: Block, b: Block, k: nat) {
    && b.ReconciliationBlock?
    && b.reconciliation.chainId == k
    && b.reconciliation.shardInfo == [ShardInfo(BlockHash(c, prev), 0)]
  }

  predicate CanStart(b: Block) {
    b.GenesisBlock? && WalletInRange(b.genesis.greed)
  }

  /** A genesis block, then reconciliations numbered 1, 2, ... that name their predecessor's hash. */
  ghost predicate Linked(c: Codec, chain: seq<Block>) {
    && (chain != [] ==> CanStart(chain[0]))
    && forall k :: 0 < k < |chain| ==> Follows(c, chain[k - 1], chain[k], k)
  }

  function Last(chain: seq<Block>): (b: Block)
    requires chain != []
  {
    chain[|chain| - 1]
  }

  function ImportsOf(c: Codec, chain: seq<Block>): (m: map<uint32, Import>) {
    if chain == [] then map[] else map[0 := Import(0, BlockHash(c, Last(chain)))]
  }

  function ImportedOf(c: Codec, chain: seq<Block>): (m: map<ImportKey, ImportRow>) {
    if chain == [] then map[]
    else map[ImportKey(|chain| - 1, 0) := ImportRow(0, c.hashBytes(BlockHash(c, Last(chain))))]
  }

  /** The tables that belong to a chain: one import row, and the wallet the genesis block made. */
  function TablesOf(c: Codec, chain: seq<Block>): (t: Tables)
    requires chain != [] ==> chain[0].GenesisBlock?
  {
    if chain == [] then EMPTY_TABLES
    else
      var g := chain[0].genesis;
      Tables(map["0" := JoinRow(1, 0, c.printable(g.creator), g.validatorKey, 1)],
             map[1 := WalletRow(g.greed.coins - 1, g.greed.fluffs, 1, 0)],
             map[AddressKey(1, c.printable(g.stakeAddress)) := None],
             ImportedOf(c, chain))
  }

  /** Cache and committed tables are those of the chain. */
  ghost predicate Holds(c: Codec, s: DbState, chain: seq<Block>) {
    && |chain| <= LIMIT
    && Linked(c, chain)
    && s.tables == TablesOf(c, chain)
    && s.currentRecon == |chain|
    && s.lastImports == ImportsOf(c, chain)
    && (s.initialized || chain == [])
  }

  /** Genesis and reconciliation blocks extend the chain; a node block does not. */
  predicate IsLink(b: Block) {
    b.GenesisBlock? || b.ReconciliationBlock?
  }

  /** What may come next: the number, the place of a genesis block, and the link itself. */
  ghost predicate Fits(c: Codec, chain: seq<Block>, b: Block, key: Key) {
    && key.recon == |chain|
    && if chain == [] then key.shard == 0 && key.block == 0 && CanStart(b)
       else Follows(c, Last(chain), b, |chain|)
  }

  /** A block that fits, while its number can still be stored. */
  ghost predicate Next(c: Codec, chain: seq<Block>, b: Block, key: Key) {
    |chain| < LIMIT && Fits(c, chain, b, key)
  }

  /** The spendable and the staked coins of an accepted genesis block add up to its greed. */
  lemma GreedConserved(greed: Specie)
    ensures WalletInRange(greed) <==> 1 <= greed.coins <= 0x8000_0000_0000_0000 && greed.fluffs <= MAX_INT
    ensures WalletInRange(greed) ==> Spendable(greed) == greed.coins - 1
  {
  }

  lemma LinkedExtended(c: Codec, chain: seq<Block>, b: Block, key: Key)
    requires Linked(c, chain) && Next(c, chain, b, key)
    ensures Linked(c, chain + [b])
  {
    var longer := chain + [b];
    forall k | 0 < k < |longer|
      ensures Follows(c, longer[k - 1], longer[k], k)
    {
      if k == |chain| {
        assert longer[k - 1] == Last(chain);
      } else {
        assert Follows(c, chain[k - 1], chain[k], k);
      }
    }
  }

  // ----- the two scans -----

  lemma {:induction false} FirstScanPasses(m: map<uint32, Import>, infos: seq<ShardInfo>, i: nat)
    requires i <= |infos|
    ensures FirstScan(m, infos, i) == Success
       <==> forall j :: i <= j < |infos| ==> FirstVerdict(m, infos[j], ShardKey(j)) == Success
    decreases |infos| - i
  {
    if i < |infos| {
      FirstScanPasses(m, infos, i + 1);
    }
  }

  /**
    After a first scan without objection the second scan can only object that a
    shard is missing, and it does so exactly when one is.
   */
  lemma {:induction false} SecondScanAfterFirst(m: map<uint32, Import>, infos: seq<ShardInfo>, i: nat)
    requires i <= |infos| && FirstScan(m, infos, i) == Success
    ensures SecondScan(m, infos, i) == Success <==> forall j :: i <= j < |infos| ==> ShardKey(j) in m
    ensures SecondScan(m, infos, i) == Success || SecondScan(m, infos, i) == NoMatch
    decreases |infos| - i
  {
    if i < |infos| {
      SecondScanAfterFirst(m, infos, i + 1);
    }
  }

  /** The shards are numbered from zero without gaps. */
  ghost predicate NoGaps(m: map<uint32, Import>) {
    forall j :: 0 <= j < |m| ==> ShardKey(j) in m
  }

  /**
    Without gaps, a reconciliation that passes the first scan and the count is
    never turned away by the second scan.
   */
  lemma {:induction false} SecondScanIsFailsafe(m: map<uint32, Import>, infos: seq<ShardInfo>)
    requires NoGaps(m) && FirstScan(m, infos, 0) == Success && |infos| == |m|
    ensures SecondScan(m, infos, 0) == Success
  {
    SecondScanAfterFirst(m, infos, 0);
  }

  /** What the scans and the count let through once something is imported: one entry, the last block. */
  lemma {:induction false} ScansPass(c: Codec, chain: seq<Block>, infos: seq<ShardInfo>)
    requires chain != []
    ensures var m := ImportsOf(c, chain);
            && |m| == 1 && NoGaps(m)
            && (FirstScan(m, infos, 0) == Success && |infos| == |m|
                <==> infos == [ShardInfo(BlockHash(c, Last(chain)), 0)])
  {
    var m, h := ImportsOf(c, chain), BlockHash(c, Last(chain));
    FirstScanPasses(m, infos, 0);
    if |infos| == 1 {
      assert FirstVerdict(m, infos[0], ShardKey(0)) == Success <==> infos[0] == ShardInfo(h, 0);
      assert infos == [infos[0]];
    }
  }

  // ----- one attempt -----

  /** No request of the attempt fails for the database's own reasons. */
  predicate Undisturbed(f: Faults) {
    f == NO_FAULTS
  }

  lemma GenesisAttempt(c: Codec, f: Faults, s: DbState, g: Genesis)
    requires Holds(c, s, []) && s.initialized
    ensures var (s', r) := IntegratedGenesis(c, f, s, g);
            if r == Success then CanStart(GenesisBlock(g)) && Holds(c, s', [GenesisBlock(g)])
            else s' == s && r == DatabaseError && (Undisturbed(f) ==> !CanStart(GenesisBlock(g)))
  {
    GreedConserved(g.greed);
  }

  /** The state a reconciliation leaves behind. */
  function Extended(c: Codec, s: DbState, r: Reconciliation): (s': DbState) {
    var h := c.reconciliationHash(r);
    s.(tables := s.tables.(importedBlocks := map[ImportKey(s.currentRecon, 0) := ImportRow(0, c.hashBytes(h))]),
       currentRecon := (s.currentRecon + 1) % 0x1_0000_0000,
       lastImports := map[0 := Import(0, h)])
  }

  lemma ReconciliationOutcome(c: Codec, f: Faults, s: DbState, r: Reconciliation)
    requires NoGaps(s.lastImports) && FirstScan(s.lastImports, r.shardInfo, 0) == Success
    ensures var accepted := r.chainId == s.currentRecon && |r.shardInfo| == |s.lastImports|
                            && !f.truncate && !f.imported && s.currentRecon <= MAX_INT;
            var (s', res) := IntegratedReconciliation(c, f, s, r);
            if accepted then s' == Extended(c, s, r) && res == Success else s' == s && res != Success
  {
    if |r.shardInfo| == |s.lastImports| {
      SecondScanIsFailsafe(s.lastImports, r.shardInfo);
    }
  }

  lemma ExtendedHolds(c: Codec, s: DbState, r: Reconciliation, chain: seq<Block>)
    requires Holds(c, s, chain) && chain != [] && |chain| < LIMIT
    requires Follows(c, Last(chain), ReconciliationBlock(r), |chain|)
    ensures Holds(c, Extended(c, s, r), chain + [ReconciliationBlock(r)])
  {
    var b := ReconciliationBlock(r);
    var longer := chain + [b];
    LinkedExtended(c, chain, b, Key(|chain|, 0, 0));
    assert Last(longer) == b && longer[0] == chain[0];
  }

  lemma ReconciliationAttempt(c: Codec, f: Faults, s: DbState, r: Reconciliation, chain: seq<Block>)
    requires Holds(c, s, chain) && chain != [] && FirstScan(s.lastImports, r.shardInfo, 0) == Success
    ensures var (s', res) := IntegratedReconciliation(c, f, s, r);
            var b := ReconciliationBlock(r);
            if res == Success then
              |chain| < LIMIT && Follows(c, Last(chain), b, |chain|) && Holds(c, s', chain + [b])
            else s' == s && (Undisturbed(f) && |chain| < LIMIT ==> !Follows(c, Last(chain), b, |chain|))
  {
    ScansPass(c, chain, r.shardInfo);
    ReconciliationOutcome(c, f, s, r);
    if IntegratedReconciliation(c, f, s, r).1 == Success {
      ExtendedHolds(c, s, r, chain);
    }
  }

  /** What an attempt of block b leaves behind, as far as the chain goes. */
  ghost predicate Attempted(c: Codec, s: DbState, b: Block, key: Key, chain: seq<Block>, s': DbState, r: Result,
                            quiet: bool)
  {
    if r == Success && IsLink(b) then Next(c, chain, b, key) && Holds(c, s', chain + [b])
    else s' == s && (quiet ==> !Next(c, chain, b, key))
  }

  lemma FirstAttempt(c: Codec, f: Faults, s: DbState, b: Block, key: Key)
    requires Holds(c, s, []) && s.initialized
    ensures var (s', r) := IntegratedWhenReady(c, f, s, b, key);
            Attempted(c, s, b, key, [], s', r, Undisturbed(f))
  {
    if b.GenesisBlock? {
      GenesisAttempt(c, f, s, b.genesis);
      assert [] + [b] == [b];
    }
  }

  lemma LaterAttempt(c: Codec, f: Faults, s: DbState, b: Block, key: Key, chain: seq<Block>)
    requires Holds(c, s, chain) && s.initialized && chain != []
    ensures var (s', r) := IntegratedWhenReady(c, f, s, b, key);
            Attempted(c, s, b, key, chain, s', r, Undisturbed(f))
  {
    if key.recon == s.currentRecon && b.ReconciliationBlock? {
      ScansPass(c, chain, b.reconciliation.shardInfo);
      if FirstScan(s.lastImports, b.reconciliation.shardInfo, 0) == Success {
        ReconciliationAttempt(c, f, s, b.reconciliation, chain);
      }
    }
  }

  lemma ReadyAttempt(c: Codec, f: Faults, s: DbState, b: Block, key: Key, chain: seq<Block>)
    requires Holds(c, s, chain) && s.initialized
    ensures var (s', r) := IntegratedWhenReady(c, f, s, b, key);
            Attempted(c, s, b, key, chain, s', r, Undisturbed(f))
  {
    if chain == [] {
      FirstAttempt(c, f, s, b, key);
    } else {
      LaterAttempt(c, f, s, b, key, chain);
    }
  }

  lemma AttemptedFrom(c: Codec, s: DbState, b: Block, key: Key, chain: seq<Block>, s': DbState, r: Result, quiet: bool)
    requires Holds(c, s, chain) && Attempted(c, s.(initialized := true), b, key, chain, s', r, quiet)
    ensures if r == Success && IsLink(b) then Next(c, chain, b, key) && Holds(c, s', chain + [b])
            else
              && s'.(initialized := s.initialized) == s && Holds(c, s', chain)
              && (quiet ==> !Next(c, chain, b, key))
  {
  }

  /**
    One attempt. A link is integrated only as the next one of the chain, and then
    cache and tables are those of the longer chain; every other attempt leaves
    both as they were. Undisturbed, the next link is always integrated.
   */
  lemma Attempt(c: Codec, f: Faults, s: DbState, b: Block, key: Key, chain: seq<Block>)
    requires Holds(c, s, chain)
    ensures var (s', r) := Integrated(c, f, s, b, key);
            if r == Success && IsLink(b) then Next(c, chain, b, key) && Holds(c, s', chain + [b])
            else
              && s'.(initialized := s.initialized) == s && Holds(c, s', chain)
              && (Undisturbed(f) ==> !Next(c, chain, b, key))
  {
    if !f.session && (s.initialized || !f.select) {
      var ready := s.(initialized := true);
      var (s', r) := IntegratedWhenReady(c, f, ready, b, key);
      ReadyAttempt(c, f, ready, b, key, chain);
      AttemptedFrom(c, s, b, key, chain, s', r, Undisturbed(f));
    }
  }

  /** A block that fits is never rejected: when it fails, the database failed. */
  lemma FittingNotRejected(c: Codec, f: Faults, s: DbState, b: Block, key: Key, chain: seq<Block>)
    requires Holds(c, s, chain) && Fits(c, chain, b, key)
    ensures var r := Integrated(c, f, s, b, key).1;
            r == Success || r == NoDatabase || r == DatabaseError
  {
    if chain != [] {
      var infos := b.reconciliation.shardInfo;
      ScansPass(c, chain, infos);
      SecondScanIsFailsafe(s.lastImports, infos);
    }
  }
}
