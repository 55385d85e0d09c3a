/**
  What a hash says about a chain: two chains with the same last hash are the same
  chain, block by block, up to signatures and votes, unless blocks of theirs collide.
 */
module TamperEvidence {
  import opened Base
  import opened BlockTypes
  import opened BlockAsn1
  import opened DbIntegration
  import opened Chain
  import opened Integration
  import BlockDer
  import Curator
  import Der

  /** The bytes of a link that are hashed. */
  function Hashed(b: Block): (bs: Bytes) {
    match b
    case GenesisBlock(g) => BlockDer.GenesisBytes(g)
    case ReconciliationBlock(r) => BlockDer.ContentBytes(r)
    case _ => []
  }

  /** Equal, but for what is not hashed: the signature and the votes of a reconciliation. */
  predicate SameContent(b: Block, b': Block) {
    || (b.GenesisBlock? && b == b')
    || (b.ReconciliationBlock? && b'.ReconciliationBlock?
        && b.reconciliation.(signature := [], votes := []) == b'.reconciliation.(signature := [], votes := []))
  }

  /** Two blocks that are hashed differently but have the same digests. */
  predicate Collide(h: Crypto, b: Block, b': Block) {
    var x, y := Hashed(b), Hashed(b');
    x != y && h.sha2(x) == h.sha2(y) && h.sha3(x) == h.sha3(y)
  }

  /** A block of the one chain collides with a block of the other. */
  ghost predicate Collision(h: Crypto, chain: seq<Block>, chain': seq<Block>) {
    exists i, j :: 0 <= i < |chain| && 0 <= j < |chain'| && Collide(h, chain[i], chain'[j])
  }

  lemma {:induction false} EncodedTwice(t: Der.Tree, t': Der.Tree)
    requires Der.WellFormed(t) && Der.WellFormed(t') && |Der.Encode(t)| <= Der.MAX_LENGTH
    ensures Der.Encode(t) == Der.Encode(t') <==> t == t'
  {
    if Der.Encode(t) == Der.Encode(t') {
      Der.ParseEncode(t, []);
      Der.ParseEncode(t', []);
    }
  }

  lemma GenesisDetermined(g: Genesis, g': Genesis)
    requires |BlockDer.GenesisBytes(g)| <= Der.MAX_LENGTH && BlockDer.GenesisBytes(g) == BlockDer.GenesisBytes(g')
    ensures g == g'
  {
    var a, a' := ToAsn1Genesis(g), ToAsn1Genesis(g');
    BlockDer.GenesisWellFormed(BlockDer.SEQUENCE, a);
    BlockDer.GenesisWellFormed(BlockDer.SEQUENCE, a');
    EncodedTwice(BlockDer.GenesisTree(BlockDer.SEQUENCE, a), BlockDer.GenesisTree(BlockDer.SEQUENCE, a'));
    BlockDer.GenesisRoundTrip(BlockDer.SEQUENCE, a);
    BlockDer.GenesisRoundTrip(BlockDer.SEQUENCE, a');
    assert a == a';
  }

  lemma ContentDetermined(r: Reconciliation, r': Reconciliation)
    requires |BlockDer.ContentBytes(r)| <= Der.MAX_LENGTH && BlockDer.ContentBytes(r) == BlockDer.ContentBytes(r')
    ensures r.(signature := [], votes := []) == r'.(signature := [], votes := [])
  {
    var a, a' := ToAsn1Reconciliation(r).content, ToAsn1Reconciliation(r').content;
    assert a == a' by {
      BlockDer.ContentWellFormed(a);
      BlockDer.ContentWellFormed(a');
      EncodedTwice(BlockDer.ContentTree(a), BlockDer.ContentTree(a'));
      BlockDer.ContentRoundTrip(a);
      BlockDer.ContentRoundTrip(a');
    }
    InfosDetermined(r.shardInfo, r'.shardInfo);
  }

  lemma InfosDetermined(infos: seq<ShardInfo>, infos': seq<ShardInfo>)
    requires ToAsn1ShardInfos(infos) == ToAsn1ShardInfos(infos')
    ensures infos == infos'
  {
    forall i | 0 <= i < |infos|
      ensures infos[i] == infos'[i]
    {
      assert ToAsn1ShardInfos(infos)[i] == ToAsn1ShardInfo(infos[i]);
      assert ToAsn1ShardInfos(infos')[i] == ToAsn1ShardInfo(infos'[i]);
    }
  }

  /** A genesis block is never hashed to what a reconciliation is: their second fields have different tags. */
  lemma KindsDiffer(g: Genesis, r: Reconciliation)
    requires |BlockDer.GenesisBytes(g)| <= Der.MAX_LENGTH
    ensures BlockDer.GenesisBytes(g) != BlockDer.ContentBytes(r)
  {
    var a, a' := ToAsn1Genesis(g), ToAsn1Reconciliation(r).content;
    var t, t' := BlockDer.GenesisTree(BlockDer.SEQUENCE, a), BlockDer.ContentTree(a');
    assert t.kids[1].Prim? && t'.kids[1].Num?;
    BlockDer.GenesisWellFormed(BlockDer.SEQUENCE, a);
    BlockDer.ContentWellFormed(a');
    EncodedTwice(t, t');
  }

  /** The hashed bytes determine the content. */
  lemma HashedDetermines(b: Block, b': Block)
    requires IsLink(b) && IsLink(b') && |Hashed(b)| <= Der.MAX_LENGTH && Hashed(b) == Hashed(b')
    ensures SameContent(b, b')
  {
    if b.GenesisBlock? && b'.GenesisBlock? {
      GenesisDetermined(b.genesis, b'.genesis);
    } else if b.ReconciliationBlock? && b'.ReconciliationBlock? {
      ContentDetermined(b.reconciliation, b'.reconciliation);
    } else if b.GenesisBlock? {
      KindsDiffer(b.genesis, b'.reconciliation);
    } else {
      KindsDiffer(b'.genesis, b.reconciliation);
    }
  }

  /** Links of the same hash have the same content. */
  lemma HashDetermines(h: Crypto, nodeOk: Bytes -> bool, b: Block, b': Block)
    requires IsLink(b) && IsLink(b') && |Hashed(b)| <= Der.MAX_LENGTH
    requires var c := Curator.ProgramCodec(h, nodeOk); BlockHash(c, b) == BlockHash(c, b')
    ensures SameContent(b, b') || Collide(h, b, b')
  {
    assert HashOf(h, Hashed(b)) == HashOf(h, Hashed(b'));
    if Hashed(b) == Hashed(b') {
      HashedDetermines(b, b');
    }
  }

  ghost predicate SameChain(chain: seq<Block>, chain': seq<Block>) {
    |chain| == |chain'| && forall k :: 0 <= k < |chain| ==> SameContent(chain[k], chain'[k])
  }

  ghost predicate Small(chain: seq<Block>) {
    forall k :: 0 <= k < |chain| ==> |Hashed(chain[k])| <= Der.MAX_LENGTH
  }

  lemma LastOfLinked(c: Codec, chain: seq<Block>)
    requires Linked(c, chain) && chain != []
    ensures IsLink(Last(chain)) && Linked(c, chain[..|chain| - 1])
    ensures Last(chain).GenesisBlock? <==> |chain| == 1
    ensures |chain| > 1 ==> Follows(c, chain[|chain| - 2], Last(chain), |chain| - 1)
  {
    var n := |chain| - 1;
    assert n > 0 ==> Follows(c, chain[n - 1], chain[n], n);
    forall k | 0 < k < n
      ensures Follows(c, chain[..n][k - 1], chain[..n][k], k)
    {
      assert Follows(c, chain[k - 1], chain[k], k);
    }
  }

  /** The hash of the last block determines the whole chain, its length included. */
  lemma {:induction false} LastHashDetermines(h: Crypto, nodeOk: Bytes -> bool, chain: seq<Block>, chain': seq<Block>)
    requires var c := Curator.ProgramCodec(h, nodeOk);
             && Linked(c, chain) && Linked(c, chain') && chain != [] && chain' != []
             && BlockHash(c, Last(chain)) == BlockHash(c, Last(chain'))
    requires Small(chain)
    ensures SameChain(chain, chain') || Collision(h, chain, chain')
    decreases |chain|
  {
    var c := Curator.ProgramCodec(h, nodeOk);
    LastOfLinked(c, chain);
    LastOfLinked(c, chain');
    HashDetermines(h, nodeOk, Last(chain), Last(chain'));
    if Collide(h, Last(chain), Last(chain')) {
      assert Collide(h, chain[|chain| - 1], chain'[|chain'| - 1]);
    } else {
      var init, init' := chain[..|chain| - 1], chain'[..|chain'| - 1];
      if |chain| > 1 {
        SamePredecessors(c, chain, chain');
        LastHashDetermines(h, nodeOk, init, init');
        CollisionLonger(h, chain, chain');
      }
      SameLonger(chain, chain');
    }
  }

  lemma CollisionLonger(h: Crypto, chain: seq<Block>, chain': seq<Block>)
    requires chain != [] && chain' != []
    ensures Collision(h, chain[..|chain| - 1], chain'[..|chain'| - 1]) ==> Collision(h, chain, chain')
  {
    var init, init' := chain[..|chain| - 1], chain'[..|chain'| - 1];
    if Collision(h, init, init') {
      var i, j :| 0 <= i < |init| && 0 <= j < |init'| && Collide(h, init[i], init'[j]);
      assert Collide(h, chain[i], chain'[j]);
    }
  }

  lemma SamePredecessors(c: Codec, chain: seq<Block>, chain': seq<Block>)
    requires Linked(c, chain) && Linked(c, chain') && |chain| > 1 && chain' != []
    requires SameContent(Last(chain), Last(chain'))
    ensures |chain'| == |chain|
    ensures BlockHash(c, Last(chain[..|chain| - 1])) == BlockHash(c, Last(chain'[..|chain'| - 1]))
  {
    LastOfLinked(c, chain);
    LastOfLinked(c, chain');
    var r, r' := Last(chain).reconciliation, Last(chain').reconciliation;
    assert r.chainId == r'.chainId && r.shardInfo == r'.shardInfo;
    assert r.shardInfo[0].hash == BlockHash(c, chain[|chain| - 2]);
    assert r'.shardInfo[0].hash == BlockHash(c, chain'[|chain'| - 2]);
  }

  lemma SameLonger(chain: seq<Block>, chain': seq<Block>)
    requires chain != [] && |chain| == |chain'| && SameContent(Last(chain), Last(chain'))
    ensures SameChain(chain[..|chain| - 1], chain'[..|chain'| - 1]) ==> SameChain(chain, chain')
  {
    var init, init' := chain[..|chain| - 1], chain'[..|chain'| - 1];
    if SameChain(init, init') {
      forall k | 0 <= k < |chain|
        ensures SameContent(chain[k], chain'[k])
      {
        if k < |chain| - 1 {
          assert init[k] == chain[k] && init'[k] == chain'[k];
        }
      }
    }
  }

  /**
    Two curators that cached the same hash, after any deliveries and any failures,
    integrated the same chain.
   */
  lemma {:induction false} SameHashSameChain(h: Crypto, nodeOk: Bytes -> bool, events: seq<Delivery>,
                                             events': seq<Delivery>)
    requires var c := Curator.ProgramCodec(h, nodeOk);
             var m, m' := Run(c, events), Run(c, events');
             && 0 in m.db.lastImports && 0 in m'.db.lastImports
             && m.db.lastImports[0].hash == m'.db.lastImports[0].hash
             && Small(ChainOf(c, m))
    ensures var c := Curator.ProgramCodec(h, nodeOk);
            var chain, chain' := ChainOf(c, Run(c, events)), ChainOf(c, Run(c, events'));
            SameChain(chain, chain') || Collision(h, chain, chain')
  {
    var c := Curator.ProgramCodec(h, nodeOk);
    RunSafe(c, events);
    RunSafe(c, events');
    LastHashDetermines(h, nodeOk, ChainOf(c, Run(c, events)), ChainOf(c, Run(c, events')));
  }
}
