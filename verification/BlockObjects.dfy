/**
  Blocks as objects: their fields are converted to and from ASN.1 structures one
  by one, and a block owns at most one part, the one its type names.
 */
module BlockObjects {
  import opened Base
  import opened BlockTypes
  import opened BlockAsn1
  import opened Stacks
  import BlockDer
  import Der
  import WireLayout

  /** An ASN.1 structure that is written in place. */
  class Struct<T> {
    var fields: T

    constructor (fields: T)
      ensures this.fields == fields
    {
      this.fields := fields;
    }
  }

  const NEW_GENESIS := Asn1Genesis(0, [], 0, 0, [], [], [], Asn1Specie(0, 0), [])

  class GenesisObject {
    var protocol: uint32
    var name: Bytes
    var version: uint32
    var creation: uint64
    var creator: Bytes
    var validatorKey: Bytes
    var stakeAddress: Bytes
    var greed: Specie
    var seed: Bytes

    ghost function State(): (g: Genesis)
      reads this
    {
      Genesis(protocol, name, version, creation, creator, validatorKey, stakeAddress, greed, seed)
    }

    /** The object a value is moved into. */
    constructor From(g: Genesis)
      ensures State() == g
    {
      protocol, name, version, creation, creator := g.protocol, g.name, g.version, g.creation, g.creator;
      validatorKey, stakeAddress, greed, seed := g.validatorKey, g.stakeAddress, g.greed, g.seed;
    }

    constructor ()
      ensures State() == Genesis(0, [], 0, 0, [], [], [], Specie(0, 0), [])
    {
      protocol, version, creation := 0, 0, 0;
      name, creator, validatorKey, stakeAddress, seed := [], [], [], [], [];
      greed := Specie(0, 0);
    }

    method ToAsn1(t: Struct<Asn1Genesis>)
      modifies t
      ensures t.fields == ToAsn1Genesis(State())
    {
      t.fields := t.fields.(protocol := protocol);
      t.fields := t.fields.(name := name);
      t.fields := t.fields.(version := version);
      t.fields := t.fields.(creation := creation);
      t.fields := t.fields.(creator := creator);
      t.fields := t.fields.(validatorKey := validatorKey);
      t.fields := t.fields.(stakeAddress := stakeAddress);
      t.fields := t.fields.(greed := Asn1Specie(greed.coins, greed.fluffs));
      t.fields := t.fields.(seed := seed);
    }

    method FromAsn1(t: Struct<Asn1Genesis>)
      modifies this
      ensures State() == FromAsn1Genesis(t.fields)
    {
      protocol := ToUInt32(t.fields.protocol);
      name := t.fields.name;
      version := ToUInt32(t.fields.version);
      creation := ToUInt64(t.fields.creation);
      creator := t.fields.creator;
      validatorKey := t.fields.validatorKey;
      stakeAddress := t.fields.stakeAddress;
      greed := Specie(ToUInt64(t.fields.greed.coins), ToUInt32(t.fields.greed.fluffs));
      seed := t.fields.seed;
    }

    method Encode() returns (data: Bytes)
      ensures data == BlockDer.GenesisBytes(State()) == WireLayout.GenesisLayout(0x30, State())
    {
      WireLayout.GenesisEncoded(0x30, State());
      var obj := new Struct(NEW_GENESIS);
      ToAsn1(obj);
      data := Der.Encode(BlockDer.GenesisTree(BlockDer.SEQUENCE, obj.fields));
    }
  }

  /** The structure of a reconciliation, with its two stacks. */
  class ReconciliationStruct {
    var protocol: int
    var time: int
    var chainId: int
    const shardInfo: Stack<Asn1ShardInfo>
    var leader: Bytes
    var signature: Bytes
    const votes: Stack<Validation>

    ghost function State(): (t: Asn1Reconciliation)
      reads this, shardInfo, votes
    {
      Asn1Reconciliation(Asn1Content(protocol, time, chainId, shardInfo.items, leader), signature, votes.items)
    }

    constructor ()
      ensures State() == Asn1Reconciliation(Asn1Content(0, 0, 0, [], []), [], [])
      ensures fresh(shardInfo) && fresh(votes)
    {
      protocol, time, chainId := 0, 0, 0;
      leader, signature := [], [];
      shardInfo := new Stack<Asn1ShardInfo>();
      votes := new Stack<Validation>();
    }

    /** The value as the decoder hands it over. */
    constructor From(t: Asn1Reconciliation)
      ensures State() == t
      ensures fresh(shardInfo) && fresh(votes)
    {
      protocol, time, chainId := t.content.protocol, t.content.time, t.content.chainId;
      leader, signature := t.content.leader, t.signature;
      shardInfo := new Stack<Asn1ShardInfo>();
      votes := new Stack<Validation>();
      new;
      shardInfo.items := t.content.shardInfo;
      votes.items := t.votes;
    }
  }

  class ReconciliationObject {
    var protocol: uint32
    var chainId: uint32
    var shardInfo: seq<ShardInfo>
    var leader: Bytes
    var signature: Bytes
    var votes: seq<Validation>

    ghost function State(): (r: Reconciliation)
      reads this
    {
      Reconciliation(protocol, chainId, shardInfo, leader, signature, votes)
    }

    /** The object a value is moved into. */
    constructor From(r: Reconciliation)
      ensures State() == r
    {
      protocol, chainId, shardInfo := r.protocol, r.chainId, r.shardInfo;
      leader, signature, votes := r.leader, r.signature, r.votes;
    }

    constructor ()
      ensures State() == Reconciliation(0, 0, [], [], [], [])
    {
      protocol, chainId := 0, 0;
      shardInfo, leader, signature, votes := [], [], [], [];
    }

    /** Writes every field but the time, which keeps the value it has. */
    method ToAsn1(t: ReconciliationStruct)
      modifies t, t.shardInfo, t.votes
      ensures var r := ToAsn1Reconciliation(State());
              t.State() == r.(content := r.content.(time := old(t.time)))
    {
      t.protocol := protocol;
      t.chainId := chainId;
      ToStack(t.shardInfo, shardInfo, ToAsn1ShardInfo);
      t.leader := leader;
      t.signature := signature;
      ToStack(t.votes, votes, (v: Validation) => v);
      assert Converted((v: Validation) => v, votes) == votes;
    }

    method FromAsn1(t: ReconciliationStruct)
      modifies this
      ensures State() == FromAsn1Reconciliation(t.State())
    {
      protocol := ToUInt32(t.protocol);
      chainId := ToUInt32(t.chainId);
      shardInfo := FromStack(t.shardInfo, FromAsn1ShardInfo);
      leader := t.leader;
      signature := t.signature;
      votes := FromStack(t.votes, (v: Validation) => v);
    }

    method ToContent() returns (data: Bytes)
      ensures data == BlockDer.ContentBytes(State()) == WireLayout.ContentLayout(State())
    {
      WireLayout.ContentEncoded(State());
      var obj := new ReconciliationStruct();
      ToAsn1(obj);
      var content := Asn1Content(obj.protocol, obj.time, obj.chainId, obj.shardInfo.items, obj.leader);
      assert content == ToAsn1Reconciliation(State()).content;
      data := Der.Encode(BlockDer.ContentTree(content));
    }
  }

  /** A node block's body is carried over as it is. */
  class NodeObject {
    const body: Bytes

    constructor (body: Bytes)
      ensures this.body == body
    {
      this.body := body;
    }
  }

  datatype Type = NoType | GenesisType | ReconciliationType | NodeType

  class BlockObject {
    var kind: Type
    var genesis: GenesisObject?
    var reconciliation: ReconciliationObject?
    var node: NodeObject?

    /** The block has exactly the part its type names. */
    ghost predicate Valid()
      reads this
    {
      && (kind == GenesisType <==> genesis != null)
      && (kind == ReconciliationType <==> reconciliation != null)
      && (kind == NodeType <==> node != null)
    }

    ghost function Parts(): (parts: set<object>)
      reads this
    {
      (if genesis == null then {} else {genesis})
      + (if reconciliation == null then {} else {reconciliation})
      + (if node == null then {} else {node})
    }

    ghost function State(): (b: Block)
      requires Valid()
      reads this, genesis, reconciliation
    {
      match kind
      case NoType => NoBlock
      case GenesisType => GenesisBlock(genesis.State())
      case ReconciliationType => ReconciliationBlock(reconciliation.State())
      case NodeType => NodeBlock(node.body)
    }

    constructor ()
      ensures Valid() && State() == NoBlock
    {
      kind := NoType;
      genesis, reconciliation, node := null, null, null;
    }

    method ResetChoice()
      modifies this
      ensures Valid() && State() == NoBlock
    {
      kind := NoType;
      genesis, reconciliation, node := null, null, null;
    }

    /** The genesis is passed by value and moved into a part of the block's own. */
    method SetGenesis(g: Genesis)
      modifies this
      ensures Valid() && fresh(Parts()) && State() == GenesisBlock(g)
    {
      ResetChoice();
      kind := GenesisType;
      genesis := new GenesisObject.From(g);
    }

    method SetReconciliation(r: Reconciliation)
      modifies this
      ensures Valid() && fresh(Parts()) && State() == ReconciliationBlock(r)
    {
      ResetChoice();
      kind := ReconciliationType;
      reconciliation := new ReconciliationObject.From(r);
    }

    method SetNode(body: Bytes)
      modifies this
      ensures Valid() && fresh(Parts()) && State() == NodeBlock(body)
    {
      ResetChoice();
      kind := NodeType;
      node := new NodeObject(body);
    }

    /** A new block with the given value. */
    constructor From(b: Block)
      ensures Valid() && fresh(Parts()) && State() == b
    {
      kind := NoType;
      genesis, reconciliation, node := null, null, null;
      new;
      if b.GenesisBlock? {
        SetGenesis(b.genesis);
      } else if b.ReconciliationBlock? {
        SetReconciliation(b.reconciliation);
      } else if b.NodeBlock? {
        SetNode(b.node);
      }
    }

    /** The value, read off the fields of the part the type names. */
    method Value() returns (b: Block)
      requires Valid()
      ensures b == State()
    {
      if kind == GenesisType {
        b := GenesisBlock(Genesis(genesis.protocol, genesis.name, genesis.version, genesis.creation, genesis.creator,
                                  genesis.validatorKey, genesis.stakeAddress, genesis.greed, genesis.seed));
      } else if kind == ReconciliationType {
        b := ReconciliationBlock(
          Reconciliation(reconciliation.protocol, reconciliation.chainId, reconciliation.shardInfo,
                         reconciliation.leader, reconciliation.signature, reconciliation.votes));
      } else if kind == NodeType {
        b := NodeBlock(node.body);
      } else {
        b := NoBlock;
      }
    }

    /** The structure is freed and set up anew, whatever it held. */
    method ToAsn1(t: Struct<Asn1Block>)
      requires Valid()
      modifies t
      ensures t.fields == ToAsn1Block(State())
    {
      t.fields := Asn1Null;
      if kind == GenesisType {
        var g := new Struct<Asn1Genesis>(NEW_GENESIS);
        genesis.ToAsn1(g);
        t.fields := Asn1GenesisChoice(g.fields);
      } else if kind == ReconciliationType {
        var r := new ReconciliationStruct();
        reconciliation.ToAsn1(r);
        var content := Asn1Content(r.protocol, r.time, r.chainId, r.shardInfo.items, r.leader);
        t.fields := Asn1ReconciliationChoice(Asn1Reconciliation(content, r.signature, r.votes.items));
      } else if kind == NodeType {
        t.fields := Asn1NodeChoice(node.body);
      }
    }

    /** Any part the block had is given up for a new one. */
    method FromAsn1(t: Struct<Asn1Block>)
      modifies this
      ensures Valid() && fresh(Parts()) && State() == FromAsn1Block(t.fields)
    {
      ResetChoice();
      if t.fields.Asn1GenesisChoice? {
        kind := GenesisType;
        genesis := new GenesisObject();
        var fields := new Struct<Asn1Genesis>(t.fields.genesis);
        genesis.FromAsn1(fields);
      } else if t.fields.Asn1ReconciliationChoice? {
        kind := ReconciliationType;
        reconciliation := new ReconciliationObject();
        var fields := new ReconciliationStruct.From(t.fields.reconciliation);
        reconciliation.FromAsn1(fields);
      } else if t.fields.Asn1NodeChoice? {
        kind := NodeType;
        node := new NodeObject(t.fields.node);
      }
    }

    /** Copy assignment: the copy shares no part with the original, which stays as it is. */
    method Assign(rhs: BlockObject)
      requires Valid() && rhs.Valid()
      modifies this
      ensures Valid() && rhs.Valid()
      ensures rhs != this ==> fresh(Parts()) && State() == Copied(old(rhs.State())) && rhs.State() == old(rhs.State())
      ensures rhs == this ==> State() == old(State())
    {
      if this != rhs {
        var t := new Struct(Asn1Null);
        rhs.ToAsn1(t);
        FromAsn1(t);
      }
    }

    /** Move assignment: the part changes hands and the other block is left empty. */
    method MoveFrom(rhs: BlockObject)
      requires Valid() && rhs.Valid()
      modifies this, rhs
      ensures Valid() && rhs.Valid() && State() == old(rhs.State())
      ensures rhs != this ==> rhs.State() == NoBlock && Parts() == old(rhs.Parts())
    {
      if this != rhs {
        ResetChoice();
        kind := rhs.kind;
        genesis := rhs.genesis;
        reconciliation := rhs.reconciliation;
        node := rhs.node;
        rhs.ResetChoice();
      }
    }

    method Encode() returns (data: Bytes)
      requires Valid()
      ensures data == BlockDer.EncodeBlock(State()) == WireLayout.BlockLayout(State())
    {
      WireLayout.BlockBytes(State());
      var obj := new Struct(Asn1Null);
      ToAsn1(obj);
      data := BlockDer.EncodeChoice(obj.fields);
    }

    /** Decoding into a block leaves it alone when the data is not a block. */
    method Decode(data: Bytes, nodeOk: Bytes -> bool) returns (ok: bool)
      requires Valid()
      modifies this
      ensures Valid() && (ok <==> BlockDer.DecodeBlock(data, nodeOk).Some?)
      ensures if ok then State() == BlockDer.DecodeBlock(data, nodeOk).value && fresh(Parts())
              else State() == old(State())
    {
      var tree := Der.Parse(data);
      if tree.None? {
        return false;
      }
      var fields := BlockDer.Asn1BlockFrom(tree.value.0, nodeOk);
      if fields.None? {
        return false;
      }
      var asn1Data := new Struct(fields.value);
      FromAsn1(asn1Data);
      return true;
    }
  }
}
