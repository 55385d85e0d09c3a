/**
  The curator with its own codec: chains that were serialized by one node and
  are read, copied, hashed and integrated by another.
 */
module Curator {
  import opened Base
  import opened BlockTypes
  import opened BlockAsn1
  import opened Database
  import opened DbIntegration
  import opened Chain
  import opened Integration
  import opened OrderIndependence
  import Address
  import BlockDer
  import BlockObjects
  import Der
  import WireLayout

  /** How the program reads, copies, hashes and prints; what makes a node's body decodable is left open. */
  function ProgramCodec(h: Crypto, nodeOk: Bytes -> bool): (c: Codec) {
    Codec((bs: Bytes) => BlockDer.DecodeBlock(bs, nodeOk),
          (b: Block) => Copied(b),
          (g: Genesis) => HashOf(h, BlockDer.GenesisBytes(g)),
          (r: Reconciliation) => HashOf(h, BlockDer.ContentBytes(r)),
          (hash: Hash) => BlockDer.HashBytes(hash),
          (bs: Bytes) => Address.Printable(bs))
  }

  // ----- what the objects compute -----

  /** Decoding into a new block object. */
  method ReadBlock(h: Crypto, nodeOk: Bytes -> bool, data: Bytes) returns (b: Option<Block>)
    ensures b == ProgramCodec(h, nodeOk).decode(data)
  {
    var block := new BlockObjects.BlockObject();
    var ok := block.Decode(data, nodeOk);
    if !ok {
      return None;
    }
    var value := block.Value();
    return Some(value);
  }

  /** Assigning a waiting block to the one that is offered. */
  method CopyBlock(h: Crypto, nodeOk: Bytes -> bool, stored: Block) returns (data: Block)
    ensures data == ProgramCodec(h, nodeOk).copy(stored)
  {
    var waiting := new BlockObjects.BlockObject.From(stored);
    var offered := new BlockObjects.BlockObject();
    offered.Assign(waiting);
    data := offered.Value();
  }

  /** Hashing the genesis block, or the content of a reconciliation. */
  method HashLink(h: Crypto, nodeOk: Bytes -> bool, b: Block) returns (hash: Hash)
    requires IsLink(b)
    ensures hash == BlockHash(ProgramCodec(h, nodeOk), b)
    ensures hash.sha2 == h.sha2(WireLayout.HashedLayout(b)) && hash.sha3 == h.sha3(WireLayout.HashedLayout(b))
  {
    var encoded;
    if b.GenesisBlock? {
      var genesis := new BlockObjects.GenesisObject.From(b.genesis);
      encoded := genesis.Encode();
    } else {
      var recon := new BlockObjects.ReconciliationObject.From(b.reconciliation);
      encoded := recon.ToContent();
    }
    hash := HashOf(h, encoded);
  }

  // ----- chains on the wire -----

  /** A block that its integers and its size allow to be sent. */
  predicate Sendable(b: Block) {
    !b.NodeBlock? && IntegersSurvive(b) && |BlockDer.EncodeBlock(b)| <= Der.MAX_LENGTH
  }

  /** A chain as its authors made it: every block names the hash of the one before. */
  ghost predicate SentChain(c: Codec, blocks: seq<Block>) {
    Linked(c, blocks) && forall k :: 0 <= k < |blocks| ==> Sendable(blocks[k])
  }

  /** What arrives: the same blocks, with votes in encoding order. */
  function Received(blocks: seq<Block>): (r: seq<Block>)
    ensures |r| == |blocks|
  {
    Converted(BlockDer.WithSortedVotes, blocks)
  }

  lemma ReceivedBlock(nodeOk: Bytes -> bool, b: Block, data: Bytes)
    requires Sendable(b) && BlockDer.EncodeBlock(b) <= data
    ensures BlockDer.DecodeBlock(data, nodeOk) == Some(BlockDer.WithSortedVotes(b))
  {
    var sent := BlockDer.EncodeBlock(b);
    assert data == sent + data[|sent|..];
    BlockDer.WireKeepsFields(b, data[|sent|..], nodeOk);
  }

  lemma SortedKeepsHash(h: Crypto, nodeOk: Bytes -> bool, b: Block)
    requires Sendable(b)
    ensures var c, r := ProgramCodec(h, nodeOk), BlockDer.WithSortedVotes(b);
            BlockHash(c, r) == BlockHash(c, b) == BlockDer.BlockHash(h, b) && c.copy(r) == r
  {
    CopyIsIdentity(b);
    CopyIsIdentity(BlockDer.WithSortedVotes(b));
  }

  lemma SortedFollows(h: Crypto, nodeOk: Bytes -> bool, prev: Block, b: Block, k: nat)
    requires Sendable(prev) && Follows(ProgramCodec(h, nodeOk), prev, b, k)
    ensures Follows(ProgramCodec(h, nodeOk), BlockDer.WithSortedVotes(prev), BlockDer.WithSortedVotes(b), k)
  {
    SortedKeepsHash(h, nodeOk, prev);
  }

  /** The wire keeps a chain a chain, and its blocks are copied exactly. */
  lemma ReceivedChain(h: Crypto, nodeOk: Bytes -> bool, blocks: seq<Block>)
    requires SentChain(ProgramCodec(h, nodeOk), blocks)
    ensures GoodChain(ProgramCodec(h, nodeOk), Received(blocks))
  {
    var c, r := ProgramCodec(h, nodeOk), Received(blocks);
    forall k | 0 <= k < |r|
      ensures c.copy(r[k]) == r[k]
    {
      SortedKeepsHash(h, nodeOk, blocks[k]);
    }
    forall k | 0 < k < |r|
      ensures Follows(c, r[k - 1], r[k], k)
    {
      assert Follows(c, blocks[k - 1], blocks[k], k);
      SortedFollows(h, nodeOk, blocks[k - 1], blocks[k], k);
    }
  }

  /** A delivery of a serialized block of the chain, at its place; more bytes may follow it. */
  predicate Carries(blocks: seq<Block>, e: Delivery) {
    && e.key == Place(e.key.recon) && e.key.recon < |blocks|
    && BlockDer.EncodeBlock(blocks[e.key.recon]) <= e.data
  }

  lemma CarriedFromChain(h: Crypto, nodeOk: Bytes -> bool, blocks: seq<Block>, events: seq<Delivery>)
    requires forall k :: 0 <= k < |blocks| ==> Sendable(blocks[k])
    requires forall i :: 0 <= i < |events| ==> Carries(blocks, events[i])
    ensures AllFromChain(ProgramCodec(h, nodeOk), Received(blocks), events)
  {
    forall i | 0 <= i < |events|
      ensures FromChain(ProgramCodec(h, nodeOk), Received(blocks), events[i])
    {
      assert Carries(blocks, events[i]);
      ReceivedBlock(nodeOk, blocks[events[i].key.recon], events[i].data);
    }
  }

  /**
    Serialized blocks of one chain, delivered in any order and with repeats: the
    state after every delivery is determined by the set of numbers that arrived.
   */
  lemma {:induction false} WireOrderIndependent(h: Crypto, nodeOk: Bytes -> bool, blocks: seq<Block>,
                                                events: seq<Delivery>)
    requires SentChain(ProgramCodec(h, nodeOk), blocks) && NeverDisturbed(events)
    requires forall i :: 0 <= i < |events| ==> Carries(blocks, events[i])
    ensures forall r :: r in Delivered(events) ==> r < |blocks|
    ensures var c := ProgramCodec(h, nodeOk);
            Determined(c, Received(blocks), Delivered(events), Run(c, events))
  {
    ReceivedChain(h, nodeOk, blocks);
    CarriedFromChain(h, nodeOk, blocks, events);
    OrderIndependent(ProgramCodec(h, nodeOk), Received(blocks), events);
  }

  /**
    The tables that belong to a serialized chain: the genesis author's validator,
    wallet and address, and one import row with the two digests of the last block's
    bytes, as laid out.
   */
  function LoadedTables(h: Crypto, blocks: seq<Block>): (t: Tables)
    requires blocks != [] && blocks[0].GenesisBlock?
  {
    var g, n := blocks[0].genesis, |blocks|;
    var hashed := WireLayout.HashedLayout(blocks[n - 1]);
    Tables(map["0" := JoinRow(1, 0, Address.Printable(g.creator), g.validatorKey, 1)],
           map[1 := WalletRow(g.greed.coins - 1, g.greed.fluffs, 1, 0)],
           map[AddressKey(1, Address.Printable(g.stakeAddress)) := None],
           map[ImportKey(n - 1, 0) := ImportRow(0, WireLayout.HashLayout(h.sha2(hashed), h.sha3(hashed)))])
  }

  lemma HeldTables(h: Crypto, nodeOk: Bytes -> bool, db: DbState, blocks: seq<Block>)
    requires SentChain(ProgramCodec(h, nodeOk), blocks) && blocks != []
    requires Holds(ProgramCodec(h, nodeOk), db, Received(blocks))
    ensures db.tables == LoadedTables(h, blocks)
  {
    var last := blocks[|blocks| - 1];
    SortedKeepsHash(h, nodeOk, last);
    assert IsLink(last) by {
      assert |blocks| > 1 ==> Follows(ProgramCodec(h, nodeOk), blocks[|blocks| - 2], last, |blocks| - 1);
    }
    WireLayout.HashOfBlock(h, last);
    WireLayout.HashStored(BlockDer.BlockHash(h, last));
    assert Received(blocks)[0] == blocks[0];
  }

  /**
    Once all blocks of the chain have arrived, everything is integrated, and the
    tables are those of the chain as it was sent.
   */
  lemma {:induction false} WireAllArrived(h: Crypto, nodeOk: Bytes -> bool, blocks: seq<Block>, events: seq<Delivery>)
    requires SentChain(ProgramCodec(h, nodeOk), blocks) && NeverDisturbed(events)
    requires 0 < |blocks| <= LIMIT
    requires forall i :: 0 <= i < |events| ==> Carries(blocks, events[i])
    requires forall r: uint32 :: r < |blocks| ==> r in Delivered(events)
    ensures var m := Run(ProgramCodec(h, nodeOk), events);
            m.pending == map[] && m.db.currentRecon == |blocks| && m.db.tables == LoadedTables(h, blocks)
  {
    var c := ProgramCodec(h, nodeOk);
    ReceivedChain(h, nodeOk, blocks);
    CarriedFromChain(h, nodeOk, blocks, events);
    AllArrived(c, Received(blocks), events);
    HeldTables(h, nodeOk, Run(c, events).db, blocks);
  }

  // ----- numbers that do not fit -----

  /**
    A reconciliation as it comes off the wire is a link exactly when the number sent
    is the chain's next, so one that does not fit 32 bits never is. A block count
    that does not fit passes for zero.
   */
  lemma WireLink(c: Codec, t: Asn1Reconciliation, prev: Block, k: uint32)
    requires k > 0
    ensures var infos := t.content.shardInfo;
            Follows(c, prev, FromAsn1Block(Asn1ReconciliationChoice(t)), k)
            <==> && t.content.chainId == k && |infos| == 1 && infos[0].hash == BlockHash(c, prev)
                 && (infos[0].blocks <= 0 || infos[0].blocks >= 0x1_0000_0000)
  {
    var read := FromAsn1ShardInfos(t.content.shardInfo);
    if |read| == 1 {
      assert read == [read[0]] && read[0] == FromAsn1ShardInfo(t.content.shardInfo[0]);
    }
  }

  /**
    A genesis block as it comes off the wire can start a chain exactly when the coins
    sent are from 1 up to, but not including, 2^63, and its fluffs fit 31 bits or do
    not fit 32, in which case they pass for zero.
   */
  lemma WireGreed(t: Asn1Genesis)
    ensures CanStart(FromAsn1Block(Asn1GenesisChoice(t)))
       <==> 1 <= t.greed.coins < 0x8000_0000_0000_0000
            && (t.greed.fluffs < 0x8000_0000 || t.greed.fluffs >= 0x1_0000_0000)
  {
    GreedConserved(FromAsn1Genesis(t).greed);
  }
}
