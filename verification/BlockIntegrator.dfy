/**
  The waiting blocks as the program keeps them, in three nested ordered maps,
  and the loop that offers them. The nested maps behave like one flat map
  ordered by reconciliation, shard and block.
 */
module BlockIntegration {
  import opened Base
  import opened BlockTypes
  import opened Database
  import opened DbIntegration
  import opened Integration

  type PendingBlocks = map<uint32, Block>
  type PendingShards = map<uint32, PendingBlocks>
  type PendingRecons = map<uint32, PendingShards>

  predicate Has(n: PendingRecons, k: Key) {
    k.recon in n && k.shard in n[k.recon] && k.block in n[k.recon][k.shard]
  }

  function At(n: PendingRecons, k: Key): (b: Block)
    requires Has(n, k)
  {
    n[k.recon][k.shard][k.block]
  }

  /** The nested maps hold the blocks of the flat map and no others. */
  ghost predicate Represents(n: PendingRecons, flat: map<Key, Block>) {
    forall k :: (k in flat <==> Has(n, k)) && (k in flat ==> flat[k] == At(n, k))
  }

  /** No level holds an empty map. */
  ghost predicate NoEmpties(n: PendingRecons) {
    forall r :: r in n ==> n[r] != map[] && forall s :: s in n[r] ==> n[r][s] != map[]
  }

  function Lower(a: uint32, b: uint32): (m: uint32)
    ensures m <= a && m <= b && (m == a || m == b)
  {
    if a > b then b else a
  }

  predicate IsMin(keys: set<uint32>, k: uint32) {
    k in keys && forall j :: j in keys ==> k <= j
  }

  lemma MinExists(keys: set<uint32>)
    requires keys != {}
    ensures exists k :: k in keys && IsMin(keys, k)
  {
    var x :| x in keys;
    MinBelow(keys, x);
  }

  lemma {:induction false} MinBelow(keys: set<uint32>, x: uint32)
    requires x in keys
    ensures exists k :: k in keys && IsMin(keys, k)
    decreases x
  {
    if j :| j in keys && j < x {
      MinBelow(keys, j);
    } else {
      assert IsMin(keys, x);
    }
  }

  /** Least recon, then least shard, then least block is the least key. */
  lemma NestedLeast(n: PendingRecons, flat: map<Key, Block>, k: Key)
    requires Represents(n, flat) && Has(n, k)
    requires IsMin(n.Keys, k.recon) && IsMin(n[k.recon].Keys, k.shard) && IsMin(n[k.recon][k.shard].Keys, k.block)
    ensures flat != map[] && Least(flat.Keys) == k
  {
    forall j | j in flat.Keys
      ensures KeyLe(k, j)
    {
      assert Has(n, j);
    }
    LeastIs(flat.Keys, k);
  }

  lemma BothEmpty(n: PendingRecons, flat: map<Key, Block>)
    requires Represents(n, flat) && NoEmpties(n)
    ensures flat == map[] <==> n == map[]
  {
    if n != map[] {
      var r :| r in n;
      var s :| s in n[r];
      var b :| b in n[r][s];
      assert Has(n, Key(r, s, b));
    } else {
      assert forall k :: k in flat ==> Has(n, k);
    }
  }

  function ShardsAt(n: PendingRecons, r: uint32): (shards: PendingShards) {
    if r in n then n[r] else map[]
  }

  function BlocksAt(n: PendingRecons, r: uint32, s: uint32): (blocks: PendingBlocks) {
    if s in ShardsAt(n, r) then n[r][s] else map[]
  }

  /** The nested maps with the block at its place. */
  function With(n: PendingRecons, k: Key, b: Block): (r: PendingRecons) {
    n[k.recon := ShardsAt(n, k.recon)[k.shard := BlocksAt(n, k.recon, k.shard)[k.block := b]]]
  }

  lemma WithAt(n: PendingRecons, k: Key, b: Block, j: Key)
    ensures Has(With(n, k, b), j) <==> Has(n, j) || j == k
    ensures j == k ==> At(With(n, k, b), j) == b
    ensures j != k && Has(n, j) ==> At(With(n, k, b), j) == At(n, j)
  {
  }

  lemma WithNoEmpties(n: PendingRecons, k: Key, b: Block)
    requires NoEmpties(n)
    ensures NoEmpties(With(n, k, b))
  {
    var blocks := BlocksAt(n, k.recon, k.shard)[k.block := b];
    assert k.block in blocks;
    assert k.shard in ShardsAt(n, k.recon)[k.shard := blocks];
  }

  /** Placing a block in the nested maps places it in the flat map. */
  lemma RepresentsWith(n: PendingRecons, flat: map<Key, Block>, k: Key, b: Block)
    requires Represents(n, flat)
    ensures Represents(With(n, k, b), flat[k := b])
  {
    var n', flat' := With(n, k, b), flat[k := b];
    forall j: Key
      ensures (j in flat' <==> Has(n', j)) && (j in flat' ==> flat'[j] == At(n', j))
    {
      WithAt(n, k, b, j);
    }
  }

  /** The nested maps without one block, and without the levels that become empty. */
  function Without(n: PendingRecons, k: Key): (r: PendingRecons)
    requires Has(n, k)
  {
    var blocks: PendingBlocks := n[k.recon][k.shard] - {k.block};
    var shards: PendingShards := if blocks == map[] then n[k.recon] - {k.shard} else n[k.recon][k.shard := blocks];
    if shards == map[] then n - {k.recon} else n[k.recon := shards]
  }

  lemma WithoutAt(n: PendingRecons, k: Key, j: Key)
    requires Has(n, k)
    ensures Has(Without(n, k), j) <==> Has(n, j) && j != k
    ensures Has(n, j) && j != k ==> At(Without(n, k), j) == At(n, j)
  {
    var blocks: PendingBlocks := n[k.recon][k.shard] - {k.block};
    var shards: PendingShards := if blocks == map[] then n[k.recon] - {k.shard} else n[k.recon][k.shard := blocks];
    if Has(n, j) && j != k && j.recon == k.recon {
      assert j.shard == k.shard ==> j.block in blocks;
      assert j.shard in shards;
    }
  }

  lemma WithoutNoEmpties(n: PendingRecons, k: Key)
    requires NoEmpties(n) && Has(n, k)
    ensures NoEmpties(Without(n, k))
  {
  }

  /** Removing a block from the nested maps removes it from the flat map. */
  lemma RepresentsWithout(n: PendingRecons, flat: map<Key, Block>, k: Key)
    requires Represents(n, flat) && Has(n, k)
    ensures Represents(Without(n, k), flat - {k})
  {
    var n', flat' := Without(n, k), flat - {k};
    forall j: Key
      ensures (j in flat' <==> Has(n', j)) && (j in flat' ==> flat'[j] == At(n', j))
    {
      WithoutAt(n, k, j);
    }
  }

  /** Takes the block out, then cleans up the lists that became empty. */
  method Erase(n: PendingRecons, recon: uint32, shard: uint32, block: uint32) returns (r: PendingRecons)
    requires NoEmpties(n)
    ensures var key := Key(recon, shard, block);
            r == if Has(n, key) then Without(n, key) else n
  {
    r := n;
    if recon !in n {
      return;
    }
    var pendingShards: PendingShards := n[recon];
    if shard !in pendingShards {
      return;
    }
    var pendingBlocks: PendingBlocks := pendingShards[shard];
    if block in pendingBlocks {
      pendingBlocks := pendingBlocks - {block};
    }
    if pendingBlocks == map[] {
      pendingShards := pendingShards - {shard};
    } else {
      pendingShards := pendingShards[shard := pendingBlocks];
    }
    assert block !in n[recon][shard] ==> pendingShards == n[recon];
    if pendingShards == map[] {
      r := n - {recon};
    } else {
      r := n[recon := pendingShards];
    }
  }

  /** Finds or makes the lists on the way, and places the block unless its place is taken. */
  method Emplace(n: PendingRecons, recon: uint32, shard: uint32, block: uint32, data: Block) returns (r: PendingRecons)
    ensures var key := Key(recon, shard, block);
            r == if Has(n, key) then n else With(n, key, data)
  {
    r := n;
    var pendingShards := ShardsAt(n, recon);
    var pendingBlocks := BlocksAt(n, recon, shard);
    if block !in pendingBlocks {
      pendingBlocks := pendingBlocks[block := data];
      pendingShards := pendingShards[shard := pendingBlocks];
      r := r[recon := pendingShards];
    }
  }

  /** Walks the shards of the least reconciliation in order, from the cursor on, to the first block. */
  method FindLeast(n: PendingRecons, shardCursor: uint32) returns (found: Option<Key>)
    requires NoEmpties(n) && shardCursor == 0
    ensures found.None? <==> n == map[]
    ensures found.Some? ==>
              var k := found.value;
              Has(n, k) && IsMin(n.Keys, k.recon) && IsMin(n[k.recon].Keys, k.shard)
              && IsMin(n[k.recon][k.shard].Keys, k.block)
  {
    found := None;
    if n == map[] {
      return;
    }
    MinExists(n.Keys);
    var recon: uint32 :| recon in n.Keys && IsMin(n.Keys, recon);
    var pendingShards := n[recon];
    assert pendingShards != map[];  // so the list is never erased for being empty
    var left := pendingShards.Keys;
    while left != {} && found.None?
      invariant found.None? ==> left == pendingShards.Keys
      invariant found.Some? ==> Has(n, found.value) && found.value.recon == recon
      invariant found.Some? ==> IsMin(pendingShards.Keys, found.value.shard)
      invariant found.Some? ==> IsMin(pendingShards[found.value.shard].Keys, found.value.block)
      decreases |left|
    {
      MinExists(left);
      var shard: uint32 :| shard in left && IsMin(left, shard);
      left := left - {shard};
      if shard >= shardCursor {
        var pendingBlocks := pendingShards[shard];
        MinExists(pendingBlocks.Keys);
        var block: uint32 :| block in pendingBlocks.Keys && IsMin(pendingBlocks.Keys, block);
        found := Some(Key(recon, shard, block));
      }
    }
  }

  /** Collects blocks that wait to be integrated and offers them, lowest first. */
  class BlockIntegrator {
    const codec: Codec
    const dbIntegrator: DbIntegrator
    var pendingRecons: PendingRecons
    var shardCursor: uint32
    ghost var pending: map<Key, Block>
    ghost var accepted: seq<Item>
    ghost var log: seq<Try>

    ghost predicate Valid()
      reads this, dbIntegrator
    {
      && dbIntegrator.codec == codec
      && CanInitialize(dbIntegrator.State())
      && Represents(pendingRecons, pending)
      && NoEmpties(pendingRecons)
      && shardCursor == 0
    }

    ghost function State(): (m: Machine)
      reads this, dbIntegrator
    {
      Machine(dbIntegrator.State(), pending, accepted, log)
    }

    constructor (codec: Codec)
      ensures Valid() && fresh(dbIntegrator) && this.codec == codec && State() == START
    {
      this.codec := codec;
      dbIntegrator := new DbIntegrator(codec);
      pendingRecons := map[];
      shardCursor := 0;
      pending := map[];
      accepted := [];
      log := [];
    }

    method AddBlock(binData: Bytes, recon: uint32, shard: uint32, block: uint32, faults: nat -> Faults)
      requires Valid()
      modifies this, dbIntegrator
      ensures Valid()
      ensures State() == Integration.AddBlock(codec, Delivery(binData, Key(recon, shard, block), faults), old(State()))
    {
      var data := codec.decode(binData);
      if data.None? {
        return;
      }
      Place(data.value, recon, shard, block);
      TryIntegrate(faults);
    }

    /** A place that is taken keeps the block it has. */
    method Place(data: Block, recon: uint32, shard: uint32, block: uint32)
      requires Valid()
      modifies this
      ensures Valid() && State() == Store(old(State()), Key(recon, shard, block), data)
    {
      ghost var key := Key(recon, shard, block);
      WithNoEmpties(pendingRecons, key, data);
      RepresentsWith(pendingRecons, pending, key, data);
      if key !in pending {
        pending := pending[key := data];
        accepted := accepted + [Item(key, data)];
      }
      pendingRecons := Emplace(pendingRecons, recon, shard, block, data);
      shardCursor := Lower(shardCursor, shard);
    }

    method RemoveBlock(recon: uint32, shard: uint32, block: uint32)
      requires Valid()
      modifies this
      ensures Valid() && State() == old(State()).(pending := old(State()).pending - {Key(recon, shard, block)})
    {
      ghost var key := Key(recon, shard, block);
      if Has(pendingRecons, key) {
        WithoutNoEmpties(pendingRecons, key);
        RepresentsWithout(pendingRecons, pending, key);
      }
      pendingRecons := Erase(pendingRecons, recon, shard, block);
      pending := pending - {key};
    }

    /** Finds the least waiting block, walking the shards of the least reconciliation in order. */
    method FindNext() returns (found: Option<Key>)
      requires Valid()
      ensures found.None? <==> pending == map[]
      ensures found.Some? ==> Has(pendingRecons, found.value) && found.value == Least(pending.Keys)
    {
      BothEmpty(pendingRecons, pending);
      found := FindLeast(pendingRecons, shardCursor);
      if found.Some? {
        NestedLeast(pendingRecons, pending, found.value);
      }
    }

    method TryNext(f: Faults) returns (again: bool)
      requires Valid()
      modifies this, dbIntegrator
      ensures Valid() && (State(), again) == Integration.TryNext(codec, f, old(State()))
    {
      var next := FindNext();
      if next.None? {
        return false;
      }
      var key := next.value;
      var stored := pendingRecons[key.recon][key.shard][key.block];
      var ret := Offer(f, stored, key);
      again := IsSuccess(ret);
      Finish(key, stored, ret);
    }

    /** Records the attempt and takes the block out if it is done with. */
    method Finish(key: Key, ghost stored: Block, ret: Result)
      requires Valid()
      modifies this
      ensures Valid()
      ensures State() == old(State()).(
                pending := if IsFinal(ret) then old(pending) - {key} else old(pending),
                log := old(log) + [Try(key, stored, ret)])
    {
      log := log + [Try(key, stored, ret)];
      if IsSuccess(ret) || IsBadBlock(ret) {
        RemoveBlock(key.recon, key.shard, key.block);
      }
    }

    /** Hands a copy of the block to the database integrator. */
    method Offer(f: Faults, stored: Block, key: Key) returns (ret: Result)
      requires Valid()
      modifies dbIntegrator
      ensures Valid() && State() == old(State()).(db := dbIntegrator.State())
      ensures (dbIntegrator.State(), ret) == Integrated(codec, f, old(State()).db, codec.copy(stored), key)
    {
      var data := codec.copy(stored);
      ret := dbIntegrator.Integrate(f, data, key.recon, key.shard, key.block);
    }

    method TryIntegrate(faults: nat -> Faults)
      requires Valid()
      modifies this, dbIntegrator
      ensures Valid() && State() == Integration.TryIntegrate(codec, faults, 0, old(State()))
    {
      ghost var goal := Integration.TryIntegrate(codec, faults, 0, State());
      var retry, i := true, 0;
      while retry
        invariant Valid()
        invariant if retry then Integration.TryIntegrate(codec, faults, i, State()) == goal else State() == goal
        decreases if retry then |State().pending| + 1 else 0
      {
        retry := TryNext(faults(i));
        i := i + 1;
      }
    }
  }
}
