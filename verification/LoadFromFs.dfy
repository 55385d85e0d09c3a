/** Loading the block directory: every file whose name is accepted is read back by its numbers and handed over. */
module LoadFromFs {
  import opened Base
  import opened Database
  import opened DbIntegration
  import opened Integration
  import opened BlockFilename
  import BlockIntegration

  /** The readable files by name. */
  type Directory = map<string, Bytes>

  /** An unreadable file reads as no data. */
  function ReadBlock(dir: Directory, recon: uint32, shard: uint32, block: uint32): (data: Bytes) {
    var name := Get(Triple(recon, shard, block));
    if name in dir then dir[name] else []
  }

  /** The delivery of the block with the given numbers, if there are numbers and there is data. */
  function HandOver(dir: Directory, t: Option<Triple>, faults: nat -> Faults): (e: Option<Delivery>) {
    if t.None? then None
    else
      var data := ReadBlock(dir, t.value.reconciliation, t.value.shard, t.value.block);
      if data == [] then None
      else Some(Delivery(data, Key(t.value.reconciliation, t.value.shard, t.value.block), faults))
  }

  /** What loading one listed file hands over, if anything. */
  ghost function FileDelivery(dir: Directory, name: string, faults: nat -> Faults): (e: Option<Delivery>) {
    HandOver(dir, Parsed(name), faults)
  }

  /** The faults of the attempts that the i-th file sets off. */
  function FaultsOf(faults: (nat, nat) -> Faults, i: nat): (f: nat -> Faults) {
    (j: nat) => faults(i, j)
  }

  ghost function FileDeliveries(dir: Directory, files: seq<string>, faults: (nat, nat) -> Faults)
    : (es: seq<Option<Delivery>>)
    ensures |es| == |files|
  {
    seq(|files|, i requires 0 <= i < |files| => FileDelivery(dir, files[i], FaultsOf(faults, i)))
  }

  function Present(es: seq<Option<Delivery>>): (events: seq<Delivery>) {
    if es == [] then []
    else
      var last := es[|es| - 1];
      Present(es[..|es| - 1]) + if last.Some? then [last.value] else []
  }

  /** What loading the listed files hands over, in turn. */
  ghost function Deliveries(dir: Directory, files: seq<string>, faults: (nat, nat) -> Faults): (events: seq<Delivery>) {
    Present(FileDeliveries(dir, files, faults))
  }

  lemma HandOverReads(dir: Directory, t: Triple, name: string, faults: nat -> Faults)
    requires Get(t) == name
    ensures HandOver(dir, Some(t), faults)
         == if name in dir && dir[name] != []
            then Some(Delivery(dir[name], Key(t.reconciliation, t.shard, t.block), faults)) else None
  {
    assert t == Triple(t.reconciliation, t.shard, t.block);
  }

  /** An accepted name is read from the file of that name, and nothing else is handed over. */
  lemma FileRead(dir: Directory, name: string, faults: nat -> Faults)
    ensures var e, t := FileDelivery(dir, name, faults), Parsed(name);
            if t.Some? && name in dir && dir[name] != []
            then e == Some(Delivery(dir[name], Key(t.value.reconciliation, t.value.shard, t.value.block), faults))
            else e == None
  {
    var t := Parsed(name);
    if t.Some? {
      GetParse(name);
      HandOverReads(dir, t.value, name, faults);
    }
  }

  lemma {:induction false} PresentOnly(es: seq<Option<Delivery>>)
    ensures forall i :: 0 <= i < |Present(es)| ==> Some(Present(es)[i]) in es
  {
    if es != [] {
      PresentOnly(es[..|es| - 1]);
    }
  }

  lemma {:induction false} PresentAll(es: seq<Option<Delivery>>, i: nat)
    requires i < |es| && es[i].Some?
    ensures es[i].value in Present(es)
  {
    if i < |es| - 1 {
      PresentAll(es[..|es| - 1], i);
    }
  }

  /** Every delivery is that of some listed file. */
  lemma DeliveredFile(dir: Directory, files: seq<string>, faults: (nat, nat) -> Faults, i: nat) returns (k: nat)
    requires i < |Deliveries(dir, files, faults)|
    ensures k < |files| && FileDelivery(dir, files[k], FaultsOf(faults, k)) == Some(Deliveries(dir, files, faults)[i])
  {
    var es := FileDeliveries(dir, files, faults);
    PresentOnly(es);
    k :| 0 <= k < |es| && es[k] == Some(Present(es)[i]);
  }

  /** Every listed file that can be read and has an accepted name is delivered. */
  lemma FileDelivered(dir: Directory, files: seq<string>, faults: (nat, nat) -> Faults, k: nat) returns (i: nat)
    requires k < |files| && FileDelivery(dir, files[k], FaultsOf(faults, k)).Some?
    ensures var events := Deliveries(dir, files, faults);
            i < |events| && FileDelivery(dir, files[k], FaultsOf(faults, k)) == Some(events[i])
  {
    var es := FileDeliveries(dir, files, faults);
    PresentAll(es, k);
    i :| 0 <= i < |Present(es)| && Present(es)[i] == es[k].value;
  }

  method LoadFile(integrator: BlockIntegration.BlockIntegrator, dir: Directory, reloadFrom: uint32, file: string,
                  faults: nat -> Faults)
    requires integrator.Valid()
    modifies integrator, integrator.dbIntegrator
    ensures integrator.Valid()
    ensures var e := FileDelivery(dir, file, faults);
            var was := old(integrator.State());
            integrator.State() == if e.Some? && e.value.key.recon >= reloadFrom
                                  then AddBlock(integrator.codec, e.value, was) else was
  {
    var t := Parse(file);
    if t.None? {
      return;
    }
    var Triple(curRecon, curShard, curBlock) := t.value;
    if curRecon < reloadFrom {
      return;
    }
    var blockData := ReadBlock(dir, curRecon, curShard, curBlock);
    if blockData == [] {
      return;
    }
    integrator.AddBlock(blockData, curRecon, curShard, curBlock, faults);
  }

  lemma FileDeliveriesPrefix(dir: Directory, files: seq<string>, n: nat, faults: (nat, nat) -> Faults)
    requires n <= |files|
    ensures FileDeliveries(dir, files[..n], faults) == FileDeliveries(dir, files, faults)[..n]
  {
    forall i | 0 <= i < n
      ensures FileDeliveries(dir, files[..n], faults)[i] == FileDeliveries(dir, files, faults)[i]
    {
      assert files[..n][i] == files[i];
    }
  }

  lemma {:induction false} RunSnoc(c: Codec, dir: Directory, files: seq<string>, i: nat, faults: (nat, nat) -> Faults)
    requires i < |files|
    ensures var m := Run(c, Deliveries(dir, files[..i], faults));
            var e := FileDelivery(dir, files[i], FaultsOf(faults, i));
            Run(c, Deliveries(dir, files[..i + 1], faults)) == if e.Some? then AddBlock(c, e.value, m) else m
  {
    FileDeliveriesPrefix(dir, files[..i + 1], i, faults);
    assert files[..i + 1][..i] == files[..i];
    PresentSnoc(c, FileDeliveries(dir, files[..i + 1], faults));
  }

  method LoadNext(integrator: BlockIntegration.BlockIntegrator, dir: Directory, files: seq<string>, i: nat,
                  faults: (nat, nat) -> Faults)
    requires i < |files|
    requires integrator.Valid() && integrator.State() == Run(integrator.codec, Deliveries(dir, files[..i], faults))
    modifies integrator, integrator.dbIntegrator
    ensures integrator.Valid() && integrator.State() == Run(integrator.codec, Deliveries(dir, files[..i + 1], faults))
  {
    RunSnoc(integrator.codec, dir, files, i, faults);
    LoadFile(integrator, dir, 0, files[i], FaultsOf(faults, i));
  }

  /** Loads the files one after the other; the number to start from is not used yet. */
  method Init(integrator: BlockIntegration.BlockIntegrator, dir: Directory, files: seq<string>, reloadFrom: uint32,
              faults: (nat, nat) -> Faults)
    requires integrator.Valid() && integrator.State() == START
    modifies integrator, integrator.dbIntegrator
    ensures integrator.Valid()
    ensures integrator.State() == Run(integrator.codec, Deliveries(dir, files, faults))
  {
    for i := 0 to |files|
      invariant integrator.Valid()
      invariant integrator.State() == Run(integrator.codec, Deliveries(dir, files[..i], faults))
    {
      LoadNext(integrator, dir, files, i, faults);
    }
    assert files[..|files|] == files;
  }

  lemma PresentSnoc(c: Codec, es: seq<Option<Delivery>>)
    requires es != []
    ensures var last, m := es[|es| - 1], Run(c, Present(es[..|es| - 1]));
            Run(c, Present(es)) == if last.Some? then AddBlock(c, last.value, m) else m
  {
    var n := |es| - 1;
    var all, earlier := Present(es), Present(es[..n]);
    if es[n].Some? {
      assert all[..|all| - 1] == earlier;
    } else {
      assert all == earlier;
    }
  }
}
