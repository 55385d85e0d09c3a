/**
  The integration machine: blocks arrive in any order, wait in an ordered map
  and are offered lowest first. The state is a value; deliveries are events.
 */
module Integration {
  import opened Base
  import opened BlockTypes
  import opened Database
  import opened DbIntegration
  import opened Chain

  datatype Item = Item(key: Key, block: Block)

  /** One offer of a block to the database integrator. */
  datatype Try = Try(key: Key, block: Block, result: Result)

  /** The database and the waiting blocks, with what was ever accepted and tried. */
  datatype Machine = Machine(
    db: DbState,
    pending: map<Key, Block>,
    accepted: seq<Item>,
    log: seq<Try>)

  /** A block arrives; the faults are those of the attempts it sets off, in turn. */
  datatype Delivery = Delivery(data: Bytes, key: Key, faults: nat -> Faults)

  const START := Machine(DbState(EMPTY_TABLES, false, 0, map[]), map[], [], [])

  predicate KeyLe(a: Key, b: Key) {
    || a.recon < b.recon
    || (a.recon == b.recon && (a.shard < b.shard || (a.shard == b.shard && a.block <= b.block)))
  }

  ghost function Least(keys: set<Key>): (k: Key)
    requires keys != {}
    ensures k in keys && forall j :: j in keys ==> KeyLe(k, j)
  {
    var x :| x in keys;
    if keys == {x} then x
    else
      var y := Least(keys - {x});
      assert forall j :: j in keys ==> j == x || j in keys - {x};
      if KeyLe(x, y) then x else y
  }

  lemma {:induction false} LeastIs(keys: set<Key>, k: Key)
    requires k in keys && forall j :: j in keys ==> KeyLe(k, j)
    ensures Least(keys) == k
  {
  }

  predicate IsSuccess(r: Result) {
    r == Success
  }

  predicate IsBadBlock(r: Result) {
    r == InvalidIndex || r == Duplicate || r == BadBlock || r == NoMatch || r == AlreadyDone
  }

  /** The block is done with and leaves the map. */
  predicate IsFinal(r: Result) {
    IsSuccess(r) || IsBadBlock(r)
  }

  lemma RemovalShrinks(pending: map<Key, Block>, k: Key)
    requires k in pending
    ensures |pending - {k}| == |pending| - 1
  {
    assert (pending - {k}).Keys == pending.Keys - {k};
  }

  /** Offers the least waiting block; true asks for another round. */
  ghost function TryNext(c: Codec, f: Faults, m: Machine): (r: (Machine, bool))
    requires CanInitialize(m.db)
    ensures CanInitialize(r.0.db)
    ensures r.1 ==> |r.0.pending| < |m.pending|
  {
    if m.pending == map[] then (m, false)
    else
      var k := Least(m.pending.Keys);
      var b := m.pending[k];
      var (db, res) := Integrated(c, f, m.db, c.copy(b), k);
      RemovalShrinks(m.pending, k);
      var left := if IsFinal(res) then m.pending - {k} else m.pending;
      (m.(db := db, pending := left, log := m.log + [Try(k, b, res)]), IsSuccess(res))
  }

  ghost function TryIntegrate(c: Codec, faults: nat -> Faults, i: nat, m: Machine): (r: Machine)
    requires CanInitialize(m.db)
    ensures CanInitialize(r.db)
    decreases |m.pending|
  {
    var (m', again) := TryNext(c, faults(i), m);
    if again then TryIntegrate(c, faults, i + 1, m') else m'
  }

  /** A block whose place is taken is not accepted. */
  function Store(m: Machine, key: Key, b: Block): (r: Machine) {
    if key in m.pending then m
    else m.(pending := m.pending[key := b], accepted := m.accepted + [Item(key, b)])
  }

  ghost function AddBlock(c: Codec, e: Delivery, m: Machine): (r: Machine)
    requires CanInitialize(m.db)
    ensures CanInitialize(r.db)
  {
    match c.decode(e.data)
    case None => m
    case Some(b) => TryIntegrate(c, e.faults, 0, Store(m, e.key, b))
  }

  ghost function Run(c: Codec, events: seq<Delivery>): (m: Machine)
    ensures CanInitialize(m.db)
  {
    if events == [] then START
    else AddBlock(c, events[|events| - 1], Run(c, events[..|events| - 1]))
  }

  // ----- what every run keeps -----

  /** An offer that put a link into the chain. */
  predicate IsLinkTry(c: Codec, t: Try) {
    IsSuccess(t.result) && IsLink(c.copy(t.block))
  }

  /** The offers that put a link into the chain. */
  function LinkTries(c: Codec, log: seq<Try>): (tries: seq<Try>) {
    if log == [] then []
    else
      var t := log[|log| - 1];
      LinkTries(c, log[..|log| - 1]) + if IsLinkTry(c, t) then [t] else []
  }

  function Blocks(c: Codec, tries: seq<Try>): (bs: seq<Block>)
    ensures |bs| == |tries|
  {
    seq(|tries|, i requires 0 <= i < |tries| => c.copy(tries[i].block))
  }

  /** The chain of all genesis and reconciliation blocks that were integrated. */
  function ChainOf(c: Codec, m: Machine): (chain: seq<Block>) {
    Blocks(c, LinkTries(c, m.log))
  }

  function Items(pending: map<Key, Block>): (items: set<Item>) {
    set k | k in pending :: Item(k, pending[k])
  }

  /** The blocks that were offered with a final result, each as often as that happened. */
  function Finished(log: seq<Try>): (items: multiset<Item>) {
    if log == [] then multiset{}
    else
      var t := log[|log| - 1];
      Finished(log[..|log| - 1]) + if IsFinal(t.result) then multiset{Item(t.key, t.block)} else multiset{}
  }

  /** Every accepted block is either waiting or was finished, and nothing else is. */
  ghost predicate Conserved(m: Machine) {
    multiset(m.accepted) == multiset(Items(m.pending)) + Finished(m.log)
  }

  /** The k-th link was offered under number k. */
  ghost predicate Numbered(tries: seq<Try>) {
    forall k :: 0 <= k < |tries| ==> tries[k].key.recon == k
  }

  ghost predicate Safe(c: Codec, m: Machine) {
    && Holds(c, m.db, ChainOf(c, m))
    && Numbered(LinkTries(c, m.log))
    && Conserved(m)
  }

  lemma {:induction false} LogSnoc(c: Codec, log: seq<Try>, t: Try)
    ensures LinkTries(c, log + [t])
         == LinkTries(c, log) + if IsLinkTry(c, t) then [t] else []
    ensures Finished(log + [t])
         == Finished(log) + if IsFinal(t.result) then multiset{Item(t.key, t.block)} else multiset{}
  {
    assert (log + [t])[..|log|] == log;
  }

  lemma ItemsMembers(pending: map<Key, Block>)
    ensures forall x :: x in Items(pending) <==> x.key in pending && pending[x.key] == x.block
  {
    forall x: Item
      ensures x in Items(pending) <==> x.key in pending && pending[x.key] == x.block
    {
      if x.key in pending && pending[x.key] == x.block {
        assert x == Item(x.key, pending[x.key]);
      }
    }
  }

  lemma ItemsRemoved(pending: map<Key, Block>, k: Key)
    requires k in pending
    ensures multiset(Items(pending)) == multiset(Items(pending - {k})) + multiset{Item(k, pending[k])}
  {
    ItemsMembers(pending);
    ItemsMembers(pending - {k});
  }

  lemma ItemsAdded(pending: map<Key, Block>, k: Key, b: Block)
    requires k !in pending
    ensures multiset(Items(pending[k := b])) == multiset(Items(pending)) + multiset{Item(k, b)}
  {
    ItemsMembers(pending);
    ItemsMembers(pending[k := b]);
  }

  lemma StoreConserves(m: Machine, key: Key, b: Block)
    requires Conserved(m)
    ensures Conserved(Store(m, key, b))
  {
    if key !in m.pending {
      ItemsAdded(m.pending, key, b);
    }
  }

  lemma TryNextConserves(c: Codec, f: Faults, m: Machine)
    requires CanInitialize(m.db) && Conserved(m)
    ensures Conserved(TryNext(c, f, m).0)
  {
    if m.pending != map[] {
      var k := Least(m.pending.Keys);
      ItemsRemoved(m.pending, k);
      var res := Integrated(c, f, m.db, c.copy(m.pending[k]), k).1;
      LogSnoc(c, m.log, Try(k, m.pending[k], res));
    }
  }

  /** How the chain grows with the log. */
  lemma {:induction false} ChainGrows(c: Codec, db: DbState, log: seq<Try>, t: Try)
    requires Numbered(LinkTries(c, log))
    requires var chain, b := Blocks(c, LinkTries(c, log)), c.copy(t.block);
             if IsLinkTry(c, t) then Next(c, chain, b, t.key) && Holds(c, db, chain + [b])
             else Holds(c, db, chain)
    ensures Holds(c, db, Blocks(c, LinkTries(c, log + [t]))) && Numbered(LinkTries(c, log + [t]))
  {
    LogSnoc(c, log, t);
    var tries, b := LinkTries(c, log), c.copy(t.block);
    if IsLinkTry(c, t) {
      assert Blocks(c, tries + [t]) == Blocks(c, tries) + [b];
    } else {
      assert tries + [] == tries;
    }
  }

  lemma {:induction false} TryNextLinks(c: Codec, f: Faults, m: Machine)
    requires CanInitialize(m.db) && Holds(c, m.db, ChainOf(c, m)) && Numbered(LinkTries(c, m.log))
    ensures var m' := TryNext(c, f, m).0;
            Holds(c, m'.db, ChainOf(c, m')) && Numbered(LinkTries(c, m'.log))
  {
    if m.pending != map[] {
      var k := Least(m.pending.Keys);
      var b := m.pending[k];
      var (db, res) := Integrated(c, f, m.db, c.copy(b), k);
      Attempt(c, f, m.db, c.copy(b), k, ChainOf(c, m));
      ChainGrows(c, db, m.log, Try(k, b, res));
    }
  }

  lemma {:induction false} TryIntegrateSafe(c: Codec, faults: nat -> Faults, i: nat, m: Machine)
    requires CanInitialize(m.db) && Safe(c, m)
    ensures Safe(c, TryIntegrate(c, faults, i, m))
    decreases |m.pending|
  {
    TryNextConserves(c, faults(i), m);
    TryNextLinks(c, faults(i), m);
    var (m', again) := TryNext(c, faults(i), m);
    if again {
      TryIntegrateSafe(c, faults, i + 1, m');
    }
  }

  /**
    Every run, whatever is delivered and whatever fails: the integrated links
    form one chain, cache and tables are those of that chain, the k-th link came
    as number k, and no accepted block is lost or duplicated.
   */
  lemma {:induction false} RunSafe(c: Codec, events: seq<Delivery>)
    ensures Safe(c, Run(c, events))
  {
    if events != [] {
      var init, e := events[..|events| - 1], events[|events| - 1];
      RunSafe(c, init);
      var m := Run(c, init);
      if c.decode(e.data).Some? {
        var b := c.decode(e.data).value;
        StoreConserves(m, e.key, b);
        TryIntegrateSafe(c, e.faults, 0, Store(m, e.key, b));
      }
    }
  }

  /** Later links have higher numbers, so no number succeeds twice. */
  lemma {:induction false} LinksIncrease(c: Codec, log: seq<Try>)
    requires Numbered(LinkTries(c, log))
    ensures forall i :: 0 <= i < |log| && IsLinkTry(c, log[i]) ==> log[i].key.recon < |LinkTries(c, log)|
    ensures forall i, j :: 0 <= i < j < |log| && IsLinkTry(c, log[i]) && IsLinkTry(c, log[j])
                       ==> log[i].key.recon < log[j].key.recon
  {
    if log != [] {
      var init, t := log[..|log| - 1], log[|log| - 1];
      var tries := LinkTries(c, log);
      forall k | 0 <= k < |LinkTries(c, init)|
        ensures LinkTries(c, init)[k].key.recon == k
      {
        assert tries[k] == LinkTries(c, init)[k];
      }
      LinksIncrease(c, init);
      forall i | 0 <= i < |init|
        ensures log[i] == init[i]
      {
      }
      assert IsLinkTry(c, t) ==> tries[|tries| - 1] == t;
    }
  }

  /** A genesis block of the run's chain is in the wallet table, coin for coin, and one import row is the last link. */
  ghost predicate TablesAgree(c: Codec, db: DbState, chain: seq<Block>)
    requires chain != [] ==> chain[0].GenesisBlock?
  {
    if chain == [] then db.tables == EMPTY_TABLES && db.lastImports == map[]
    else
      && 0 in db.lastImports && db.lastImports[0] == Import(0, BlockHash(c, Last(chain)))
      && db.tables.importedBlocks
         == map[ImportKey(db.currentRecon - 1, 0) := ImportRow(0, c.hashBytes(db.lastImports[0].hash))]
      && db.tables.wallets.Keys == {1}
      && db.tables.wallets[1].coins + db.tables.wallets[1].stakedCoins == chain[0].genesis.greed.coins
      && db.tables.wallets[1].fluffs + db.tables.wallets[1].stakedFluffs == chain[0].genesis.greed.fluffs
  }

  /** What a run leaves behind, spelled out. */
  lemma {:induction false} RunChain(c: Codec, events: seq<Delivery>)
    ensures var m := Run(c, events);
            var chain := ChainOf(c, m);
            && Linked(c, chain) && m.db.currentRecon == |chain| <= LIMIT
            && TablesAgree(c, m.db, chain)
            && forall i, j :: 0 <= i < j < |m.log| && IsLinkTry(c, m.log[i]) && IsLinkTry(c, m.log[j])
                          ==> m.log[i].key.recon < m.log[j].key.recon
  {
    RunSafe(c, events);
    LinksIncrease(c, Run(c, events).log);
  }

  /** In every reachable state the second scan is only a failsafe. */
  lemma {:induction false} FailsafeInEveryRun(c: Codec, events: seq<Delivery>, infos: seq<ShardInfo>)
    ensures var imports := Run(c, events).db.lastImports;
            && NoGaps(imports)
            && (FirstScan(imports, infos, 0) == Success && |infos| == |imports|
                ==> SecondScan(imports, infos, 0) == Success)
  {
    RunSafe(c, events);
    var m := Run(c, events);
    if ChainOf(c, m) != [] {
      ScansPass(c, ChainOf(c, m), infos);
    }
    if FirstScan(m.db.lastImports, infos, 0) == Success && |infos| == |m.db.lastImports| {
      SecondScanIsFailsafe(m.db.lastImports, infos);
    }
  }

  /** One call makes at most as many attempts as blocks wait, and none only if none waits. */
  lemma {:induction false} AttemptsBounded(c: Codec, faults: nat -> Faults, i: nat, m: Machine)
    requires CanInitialize(m.db)
    ensures var m' := TryIntegrate(c, faults, i, m);
            && m.log <= m'.log && |m'.log| - |m.log| <= |m.pending|
            && (m'.log == m.log <==> m.pending == map[])
    decreases |m.pending|
  {
    var (m', again) := TryNext(c, faults(i), m);
    if m.pending != map[] {
      assert |m.pending| > 0;
      RemovalShrinks(m.pending, Least(m.pending.Keys));
    }
    if again {
      AttemptsBounded(c, faults, i + 1, m');
    }
  }
}
