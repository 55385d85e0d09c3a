/**
  The answer of the integrator to every block, said of the chain integrated so
  far and not of the checks that give it, and what it means for waiting blocks.
 */
module Verdicts {
  import opened BlockTypes
  import opened Database
  import opened DbIntegration
  import opened Chain
  import opened Integration

  /** The shard entry a chain calls for: the hash of its last block on shard 0, nothing on any other. */
  function Due(c: Codec, chain: seq<Block>, i: nat): (info: ShardInfo)
    requires chain != []
  {
    if i % 0x1_0000_0000 == 0 then ShardInfo(BlockHash(c, Last(chain)), 0) else ShardInfo(Hash([], []), 0)
  }

  /** The first entry, from i on, that is not what the chain calls for; the length if there is none. */
  function Difference(c: Codec, chain: seq<Block>, infos: seq<ShardInfo>, i: nat): (j: nat)
    requires chain != [] && i <= |infos|
    ensures i <= j <= |infos| && (j < |infos| ==> infos[j] != Due(c, chain, j))
    ensures forall k :: i <= k < j ==> infos[k] == Due(c, chain, k)
    decreases |infos| - i
  {
    if i < |infos| && infos[i] == Due(c, chain, i) then Difference(c, chain, infos, i + 1) else i
  }

  /** The answer to a block, by the chain alone, when no request to the database fails. */
  function Verdict(c: Codec, chain: seq<Block>, b: Block, key: Key): (r: Result) {
    if key.recon > |chain| then NotReady
    else if key.recon < |chain| then AlreadyDone
    else if chain == [] then
      if key.shard != 0 then InvalidIndex
      else if key.block != 0 || !b.GenesisBlock? then BadBlock
      else if 1 <= b.genesis.greed.coins <= 0x8000_0000_0000_0000 && b.genesis.greed.fluffs < 0x8000_0000 then Success
      else DatabaseError
    else
      match b
      case ReconciliationBlock(r) =>
        var j := Difference(c, chain, r.shardInfo, 0);
        if j < |r.shardInfo| then if r.shardInfo[j].blocks > 0 then NotReady else BadBlock
        else if r.chainId != |chain| || |r.shardInfo| != 1 then BadBlock
        else if |chain| < 0x8000_0000 then Success
        else DatabaseError
      case NodeBlock(_) => if key.block == 0 then AlreadyDone else if key.block == 1 then Success else NotReady
      case _ => BadBlock
  }

  /** One of the statements that would store the block fails. */
  predicate StatementFails(f: Faults, b: Block) {
    || (b.GenesisBlock? && (f.join || f.wallet || f.address || f.imported))
    || (b.ReconciliationBlock? && (f.truncate || f.imported))
  }

  lemma {:induction false} DueImported(c: Codec, chain: seq<Block>, infos: seq<ShardInfo>)
    requires chain != []
    ensures var m, j := ImportsOf(c, chain), Difference(c, chain, infos, 0);
            if j < |infos| then FirstDiffering(m, infos, 0, j) && Imported(m, j).blocks == 0
            else forall k :: 0 <= k < |infos| ==> infos[k] == Imported(m, k)
  {
    forall k: nat
      ensures Imported(ImportsOf(c, chain), k) == Due(c, chain, k)
    {
    }
  }

  lemma {:induction false} ScanVerdict(c: Codec, chain: seq<Block>, infos: seq<ShardInfo>)
    requires chain != []
    ensures var r, j := FirstScan(ImportsOf(c, chain), infos, 0), Difference(c, chain, infos, 0);
            r == if j == |infos| then Success else if infos[j].blocks > 0 then NotReady else BadBlock
  {
    DueImported(c, chain, infos);
    FirstScanDecides(ImportsOf(c, chain), infos, 0);
  }

  lemma ReconciliationVerdict(c: Codec, f: Faults, s: DbState, r: Reconciliation, key: Key, chain: seq<Block>)
    requires Holds(c, s, chain) && chain != [] && s.initialized && key.recon == |chain|
    ensures var b := ReconciliationBlock(r);
            var v := Verdict(c, chain, b, key);
            IntegratedWhenReady(c, f, s, b, key).1 == if v == Success && StatementFails(f, b) then DatabaseError else v
  {
    var infos := r.shardInfo;
    ScanVerdict(c, chain, infos);
    if FirstScan(s.lastImports, infos, 0) == Success {
      ScansPass(c, chain, infos);
      if |infos| == |s.lastImports| {
        SecondScanIsFailsafe(s.lastImports, infos);
      }
    }
  }

  lemma ReadyVerdict(c: Codec, f: Faults, s: DbState, b: Block, key: Key, chain: seq<Block>)
    requires Holds(c, s, chain) && s.initialized
    ensures var v := Verdict(c, chain, b, key);
            IntegratedWhenReady(c, f, s, b, key).1 == if v == Success && StatementFails(f, b) then DatabaseError else v
  {
    if chain == [] {
      if b.GenesisBlock? {
        GreedConserved(b.genesis.greed);
      }
    } else if b.ReconciliationBlock? && key.recon == |chain| {
      ReconciliationVerdict(c, f, s, b.reconciliation, key, chain);
    }
  }

  /**
    Every answer of the integrator, for every block, key and fault: without a session
    there is no database; the first one must also read the table; what is to be stored
    can fail; everything else is decided by the chain.
   */
  lemma AttemptVerdict(c: Codec, f: Faults, s: DbState, b: Block, key: Key, chain: seq<Block>)
    requires Holds(c, s, chain)
    ensures var v := Verdict(c, chain, b, key);
            Integrated(c, f, s, b, key).1
            == if f.session then NoDatabase
               else if !s.initialized && f.select then DatabaseError
               else if v == Success && StatementFails(f, b) then DatabaseError
               else v
  {
    if !f.session && (s.initialized || !f.select) {
      ReadyVerdict(c, f, s.(initialized := true), b, key, chain);
    }
  }

  // ----- answers over runs -----

  predicate Leaves(r: Result) {
    r == Success || r == InvalidIndex || r == BadBlock || r == AlreadyDone
  }

  predicate Stays(r: Result) {
    r == NotReady || r == NoDatabase || r == DatabaseError
  }

  ghost predicate Answered(log: seq<Try>) {
    forall i :: 0 <= i < |log| ==> Leaves(log[i].result) || Stays(log[i].result)
  }

  /** One offer: the block is gone or waits on, as the answer says, and no other block is touched. */
  lemma OfferAnswered(c: Codec, f: Faults, m: Machine)
    requires CanInitialize(m.db) && Holds(c, m.db, ChainOf(c, m)) && m.pending != map[]
    ensures var k, m' := Least(m.pending.Keys), TryNext(c, f, m).0;
            && |m'.log| == |m.log| + 1 && m'.log[..|m.log|] == m.log && m'.log[|m.log|].key == k
            && var r := m'.log[|m.log|].result;
               if Leaves(r) then m'.pending == m.pending - {k} else Stays(r) && m'.pending == m.pending
  {
    var k := Least(m.pending.Keys);
    AttemptVerdict(c, f, m.db, c.copy(m.pending[k]), k, ChainOf(c, m));
  }

  lemma NextAnswered(c: Codec, f: Faults, m: Machine)
    requires CanInitialize(m.db) && Safe(c, m) && Answered(m.log)
    ensures var m' := TryNext(c, f, m).0; Safe(c, m') && Answered(m'.log)
  {
    TryNextConserves(c, f, m);
    TryNextLinks(c, f, m);
    if m.pending != map[] {
      OfferAnswered(c, f, m);
      AnsweredSnoc(m.log, TryNext(c, f, m).0.log);
    }
  }

  lemma AnsweredSnoc(log: seq<Try>, log': seq<Try>)
    requires Answered(log) && |log'| == |log| + 1 && log'[..|log|] == log
    requires Leaves(log'[|log|].result) || Stays(log'[|log|].result)
    ensures Answered(log')
  {
    assert log' == log + [log'[|log|]];
  }

  lemma {:induction false} CallAnswered(c: Codec, faults: nat -> Faults, i: nat, m: Machine)
    requires CanInitialize(m.db) && Safe(c, m) && Answered(m.log)
    ensures Answered(TryIntegrate(c, faults, i, m).log)
    decreases |m.pending|
  {
    NextAnswered(c, faults(i), m);
    var (m', again) := TryNext(c, faults(i), m);
    if again {
      CallAnswered(c, faults, i + 1, m');
    }
  }

  /**
    In every run each answer is one of seven: the block left with Success, InvalidIndex,
    BadBlock or AlreadyDone, or waits on after NotReady, NoDatabase or DatabaseError.
   */
  lemma {:induction false} RunAnswered(c: Codec, events: seq<Delivery>)
    ensures Answered(Run(c, events).log)
  {
    if events != [] {
      var init, e := events[..|events| - 1], events[|events| - 1];
      RunAnswered(c, init);
      RunSafe(c, init);
      var m, data := Run(c, init), c.decode(e.data);
      if data.Some? {
        StoreConserves(m, e.key, data.value);
        CallAnswered(c, e.faults, 0, Store(m, e.key, data.value));
      }
    }
  }

  // ----- blocks that wait for others -----

  /** The first thing wrong with the reconciliation is a shard that lacks blocks. */
  predicate Early(c: Codec, chain: seq<Block>, b: Block) {
    && chain != [] && b.ReconciliationBlock?
    && var infos := b.reconciliation.shardInfo;
       var j := Difference(c, chain, infos, 0);
       j < |infos| && infos[j].blocks > 0
  }

  /** The reconciliation names blocks on shard 0, whatever comes before it. */
  predicate AsksForBlocks(b: Block) {
    b.ReconciliationBlock? && b.reconciliation.shardInfo != [] && b.reconciliation.shardInfo[0].blocks > 0
  }

  lemma AskingIsEarly(c: Codec, chain: seq<Block>, b: Block)
    requires chain != [] && AsksForBlocks(b)
    ensures Early(c, chain, b)
  {
  }

  /** An early reconciliation is put off, whatever fails. */
  lemma EarlyNotFinal(c: Codec, f: Faults, s: DbState, b: Block, key: Key, chain: seq<Block>)
    requires Holds(c, s, chain) && key.recon == |chain| && Early(c, chain, b)
    ensures var r := Integrated(c, f, s, b, key).1;
            !IsFinal(r) && (Undisturbed(f) ==> r == NotReady)
  {
    AttemptVerdict(c, f, s, b, key, chain);
  }

  /** Block b waits at k and will go on waiting until its reconciliation is done. */
  ghost predicate PutOff(c: Codec, m: Machine, k: Key, b: Block) {
    && k in m.pending && m.pending[k] == b && m.db.currentRecon <= k.recon
    && (m.db.currentRecon < k.recon ==> AsksForBlocks(c.copy(b)))
    && (m.db.currentRecon == k.recon ==> Early(c, ChainOf(c, m), c.copy(b)))
  }

  /** It still waits, or another block took its number. */
  ghost predicate Kept(c: Codec, m: Machine, k: Key, b: Block) {
    && Holds(c, m.db, ChainOf(c, m)) && Numbered(LinkTries(c, m.log))
    && (m.db.currentRecon > k.recon || PutOff(c, m, k, b))
  }

  lemma ChainKept(c: Codec, m: Machine, m': Machine, t: Try)
    requires Holds(c, m.db, ChainOf(c, m)) && Holds(c, m'.db, ChainOf(c, m')) && m'.log == m.log + [t]
    requires m'.db.currentRecon == m.db.currentRecon
    ensures ChainOf(c, m') == ChainOf(c, m)
  {
    LogSnoc(c, m.log, t);
    assert LinkTries(c, m'.log) == LinkTries(c, m.log);
  }

  lemma TryNextKeeps(c: Codec, f: Faults, m: Machine, k: Key, b: Block)
    requires CanInitialize(m.db) && Kept(c, m, k, b)
    ensures Kept(c, TryNext(c, f, m).0, k, b)
  {
    if m.pending != map[] {
      var j := Least(m.pending.Keys);
      var offered := c.copy(m.pending[j]);
      var m' := TryNext(c, f, m).0;
      var res := Integrated(c, f, m.db, offered, j).1;
      TryNextLinks(c, f, m);
      Attempt(c, f, m.db, offered, j, ChainOf(c, m));
      OfferKeeps(c, f, m, m', j, res, k, b);
    }
  }

  lemma {:induction false} OfferKeeps(c: Codec, f: Faults, m: Machine, m': Machine, j: Key, res: Result, k: Key,
                                      b: Block)
    requires CanInitialize(m.db) && Kept(c, m, k, b) && j in m.pending
    requires res == Integrated(c, f, m.db, c.copy(m.pending[j]), j).1
    requires m'.pending == (if IsFinal(res) then m.pending - {j} else m.pending)
    requires m'.log == m.log + [Try(j, m.pending[j], res)]
    requires m'.db.currentRecon == m.db.currentRecon || m'.db.currentRecon == m.db.currentRecon + 1
    requires Holds(c, m'.db, ChainOf(c, m')) && Numbered(LinkTries(c, m'.log))
    ensures Kept(c, m', k, b)
  {
    if m'.db.currentRecon <= k.recon {
      OfferStays(c, f, m, k, b);
      if m'.db.currentRecon == m.db.currentRecon {
        ChainKept(c, m, m', Try(j, m.pending[j], res));
      } else if m'.db.currentRecon == k.recon {
        AskingIsEarly(c, ChainOf(c, m'), c.copy(b));
      }
    }
  }

  /** When it is offered itself, the answer is not final. */
  lemma OfferStays(c: Codec, f: Faults, m: Machine, k: Key, b: Block)
    requires CanInitialize(m.db) && Holds(c, m.db, ChainOf(c, m)) && PutOff(c, m, k, b)
    ensures !IsFinal(Integrated(c, f, m.db, c.copy(b), k).1)
  {
    if m.db.currentRecon == k.recon {
      EarlyNotFinal(c, f, m.db, c.copy(b), k, ChainOf(c, m));
    } else {
      AttemptVerdict(c, f, m.db, c.copy(b), k, ChainOf(c, m));
    }
  }

  lemma {:induction false} CallKeeps(c: Codec, faults: nat -> Faults, i: nat, m: Machine, k: Key, b: Block)
    requires CanInitialize(m.db) && Kept(c, m, k, b)
    ensures Kept(c, TryIntegrate(c, faults, i, m), k, b)
    decreases |m.pending|
  {
    TryNextKeeps(c, faults(i), m, k, b);
    var (m', again) := TryNext(c, faults(i), m);
    if again {
      CallKeeps(c, faults, i + 1, m', k, b);
    }
  }

  lemma StoreKeeps(c: Codec, m: Machine, key: Key, data: Block, k: Key, b: Block)
    requires Kept(c, m, k, b)
    ensures Kept(c, Store(m, key, data), k, b)
  {
    assert ChainOf(c, Store(m, key, data)) == ChainOf(c, m);
  }

  /**
    A reconciliation that waits for blocks of its shards is never lost: after any
    deliveries and any failures it still waits, or another block took its number.
   */
  lemma {:induction false} NeverLost(c: Codec, events: seq<Delivery>, later: seq<Delivery>, k: Key, b: Block)
    requires PutOff(c, Run(c, events), k, b)
    ensures var m := Run(c, events + later);
            m.db.currentRecon > k.recon || (k in m.pending && m.pending[k] == b)
  {
    RunSafe(c, events);
    KeptOn(c, events, later, k, b);
  }

  lemma {:induction false} KeptOn(c: Codec, events: seq<Delivery>, later: seq<Delivery>, k: Key, b: Block)
    requires Kept(c, Run(c, events), k, b)
    ensures Kept(c, Run(c, events + later), k, b)
  {
    if later == [] {
      assert events + later == events;
    } else {
      var n := |later| - 1;
      KeptOn(c, events, later[..n], k, b);
      KeptNext(c, events + later[..n], later[n], k, b);
      assert (events + later[..n]) + [later[n]] == events + later;
    }
  }

  lemma {:induction false} KeptNext(c: Codec, events: seq<Delivery>, e: Delivery, k: Key, b: Block)
    requires Kept(c, Run(c, events), k, b)
    ensures Kept(c, Run(c, events + [e]), k, b)
  {
    assert (events + [e])[..|events|] == events;
    AddKeeps(c, e, Run(c, events), k, b);
  }

  lemma AddKeeps(c: Codec, e: Delivery, m: Machine, k: Key, b: Block)
    requires CanInitialize(m.db) && Kept(c, m, k, b)
    ensures Kept(c, AddBlock(c, e, m), k, b)
  {
    var data := c.decode(e.data);
    if data.Some? {
      StoreKeeps(c, m, e.key, data.value, k, b);
      CallKeeps(c, e.faults, 0, Store(m, e.key, data.value), k, b);
    }
  }
}
