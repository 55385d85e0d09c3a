/**
  What loading a directory that holds a chain comes to, in any order of listing
  and with other files in it.
 */
module BlockDirectory {
  import opened Base
  import opened BlockTypes
  import opened Database
  import opened DbIntegration
  import opened Chain
  import opened Integration
  import opened OrderIndependence
  import opened Strays
  import opened BlockFilename
  import opened LoadFromFs
  import BlockDer
  import Curator

  function KeyOf(t: Triple): (k: Key) {
    Key(t.reconciliation, t.shard, t.block)
  }

  function PlaceName(k: uint32): (name: string) {
    Get(Triple(k, 0, 0))
  }

  /** The file is read as block b for place k. */
  ghost predicate HoldsBlock(c: Codec, dir: Directory, name: string, k: Key, b: Block) {
    && name in dir && dir[name] != [] && c.decode(dir[name]) == Some(b)
    && Parsed(name).Some? && KeyOf(Parsed(name).value) == k
  }

  /** The chain is in the directory, every block under its name. */
  ghost predicate HoldsChain(c: Codec, dir: Directory, chain: seq<Block>) {
    && 0 < |chain| <= 100000000
    && forall k: uint32 :: k < |chain| ==> HoldsBlock(c, dir, PlaceName(k), Place(k), chain[k])
  }

  /** Every other block in the directory is a stray: it does not continue the chain. */
  ghost predicate OthersStray(c: Codec, dir: Directory, chain: seq<Block>) {
    forall name, k, b :: HoldsBlock(c, dir, name, k, b) ==> MayWait(c, chain, k, b)
  }

  /** There is no other block in the directory. */
  ghost predicate NoOthers(c: Codec, dir: Directory, chain: seq<Block>) {
    forall name, k, b :: HoldsBlock(c, dir, name, k, b) ==> IsPlace(chain, k)
  }

  /** No stray in the directory has a number between that of the first and that of the last block. */
  ghost predicate OthersHarmless(c: Codec, dir: Directory, chain: seq<Block>) {
    forall name, k, b :: HoldsBlock(c, dir, name, k, b) ==> IsPlace(chain, k) || Harmless(chain, k)
  }

  ghost predicate AlwaysCalm(faults: (nat, nat) -> Faults) {
    forall i: nat, j: nat :: Undisturbed(faults(i, j))
  }

  // ----- files and deliveries -----

  lemma DeliveryHolds(c: Codec, dir: Directory, name: string, faults: nat -> Faults)
    requires FileDelivery(dir, name, faults).Some?
    ensures var e := FileDelivery(dir, name, faults).value;
            && e.faults == faults
            && (c.decode(e.data).Some? ==> HoldsBlock(c, dir, name, e.key, c.decode(e.data).value))
  {
    FileRead(dir, name, faults);
  }

  lemma HeldDelivers(c: Codec, dir: Directory, name: string, k: Key, b: Block, faults: nat -> Faults)
    requires HoldsBlock(c, dir, name, k, b)
    ensures FileDelivery(dir, name, faults) == Some(Delivery(dir[name], k, faults))
  {
    FileRead(dir, name, faults);
  }

  /** A place has one name. */
  lemma NameOfPlace(c: Codec, dir: Directory, name: string, r: uint32, b: Block)
    requires HoldsBlock(c, dir, name, Place(r), b)
    ensures name == PlaceName(r)
  {
    GetParse(name);
    assert Parsed(name).value == Triple(r, 0, 0);
  }

  /** A place of the chain is only taken by the block of the chain. */
  lemma OnlyChainAtPlace(c: Codec, dir: Directory, chain: seq<Block>, name: string, k: Key, b: Block)
    requires HoldsChain(c, dir, chain) && HoldsBlock(c, dir, name, k, b) && IsPlace(chain, k)
    ensures b == chain[k.recon]
  {
    NameOfPlace(c, dir, name, k.recon, b);
    assert HoldsBlock(c, dir, PlaceName(k.recon), Place(k.recon), chain[k.recon]);
  }

  lemma FilesSent(c: Codec, dir: Directory, chain: seq<Block>, files: seq<string>, faults: (nat, nat) -> Faults)
    requires OthersStray(c, dir, chain) && AlwaysCalm(faults)
    ensures var events := Deliveries(dir, files, faults); AllSent(c, chain, events) && NeverDisturbed(events)
  {
    var events := Deliveries(dir, files, faults);
    forall i | 0 <= i < |events|
      ensures Sent(c, chain, events[i]) && Calm(events[i].faults)
    {
      var k := DeliveredFile(dir, files, faults, i);
      DeliveryHolds(c, dir, files[k], FaultsOf(faults, k));
    }
  }

  lemma FilesHarmless(c: Codec, dir: Directory, chain: seq<Block>, files: seq<string>, faults: (nat, nat) -> Faults)
    requires OthersHarmless(c, dir, chain)
    ensures NoHarm(c, chain, Deliveries(dir, files, faults))
  {
    var events := Deliveries(dir, files, faults);
    forall i | 0 <= i < |events| && c.decode(events[i].data).Some?
      ensures IsPlace(chain, events[i].key) || Harmless(chain, events[i].key)
    {
      var k := DeliveredFile(dir, files, faults, i);
      DeliveryHolds(c, dir, files[k], FaultsOf(faults, k));
      assert HoldsBlock(c, dir, files[k], events[i].key, c.decode(events[i].data).value);
    }
  }

  /** A block whose file is listed is delivered. */
  lemma HeldDelivered(c: Codec, dir: Directory, files: seq<string>, faults: (nat, nat) -> Faults, name: string, k: Key,
                      b: Block) returns (i: nat)
    requires HoldsBlock(c, dir, name, k, b) && name in files
    ensures var events := Deliveries(dir, files, faults);
            i < |events| && events[i].key == k && c.decode(events[i].data) == Some(b)
  {
    var j :| 0 <= j < |files| && files[j] == name;
    HeldDelivers(c, dir, name, k, b, FaultsOf(faults, j));
    i := FileDelivered(dir, files, faults, j);
  }

  lemma {:induction false} PlaceArrives(c: Codec, dir: Directory, chain: seq<Block>, files: seq<string>, faults: (nat,
                                        nat) -> Faults,
                     r: uint32)
    requires HoldsChain(c, dir, chain) && r < |chain| && PlaceName(r) in files
    ensures r in Arrived(c, chain, Deliveries(dir, files, faults))
  {
    assert HoldsBlock(c, dir, PlaceName(r), Place(r), chain[r]);
    var i := HeldDelivered(c, dir, files, faults, PlaceName(r), Place(r), chain[r]);
    ArrivedAt(c, chain, Deliveries(dir, files, faults), i);
  }

  // ----- only the chain -----

  /** The deliveries that decode; the others change nothing. */
  function Decodable(c: Codec, events: seq<Delivery>): (r: seq<Delivery>) {
    if events == [] then []
    else
      var e := events[|events| - 1];
      Decodable(c, events[..|events| - 1]) + if c.decode(e.data).Some? then [e] else []
  }

  lemma {:induction false} RunDecodable(c: Codec, events: seq<Delivery>)
    ensures Run(c, events) == Run(c, Decodable(c, events))
  {
    if events != [] {
      var init, e := events[..|events| - 1], events[|events| - 1];
      RunDecodable(c, init);
      if c.decode(e.data).Some? {
        assert Decodable(c, events)[..|Decodable(c, init)|] == Decodable(c, init);
      } else {
        assert Decodable(c, events) == Decodable(c, init);
      }
    }
  }

  lemma {:induction false} DecodableOnly(c: Codec, events: seq<Delivery>)
    ensures forall e :: e in Decodable(c, events) <==> e in events && c.decode(e.data).Some?
  {
    if events != [] {
      var init, e := events[..|events| - 1], events[|events| - 1];
      DecodableOnly(c, init);
      assert events == init + [e];
    }
  }

  lemma {:induction false} DeliveredMember(events: seq<Delivery>, e: Delivery)
    requires e in events
    ensures e.key.recon in Delivered(events)
  {
    var init := events[..|events| - 1];
    if e != events[|events| - 1] {
      assert e in init;
      DeliveredMember(init, e);
    }
  }

  lemma {:induction false} DecodableFromChain(c: Codec, dir: Directory, chain: seq<Block>, files: seq<string>,
                           faults: (nat, nat) -> Faults)
    requires HoldsChain(c, dir, chain) && NoOthers(c, dir, chain) && AlwaysCalm(faults)
    ensures var events := Decodable(c, Deliveries(dir, files, faults));
            AllFromChain(c, chain, events) && NeverDisturbed(events)
  {
    var all := Deliveries(dir, files, faults);
    var events := Decodable(c, all);
    DecodableOnly(c, all);
    forall i | 0 <= i < |events|
      ensures FromChain(c, chain, events[i]) && Calm(events[i].faults)
    {
      assert events[i] in all;
      var j :| 0 <= j < |all| && all[j] == events[i];
      var k := DeliveredFile(dir, files, faults, j);
      DeliveryHolds(c, dir, files[k], FaultsOf(faults, k));
      var b := c.decode(events[i].data).value;
      assert HoldsBlock(c, dir, files[k], events[i].key, b);
      OnlyChainAtPlace(c, dir, chain, files[k], events[i].key, b);
    }
  }

  /** With no other block in the directory, the whole chain is integrated and nothing is left waiting. */
  lemma {:induction false} LoadsOnlyChain(c: Codec, dir: Directory, chain: seq<Block>, files: seq<string>,
                                          faults: (nat, nat) -> Faults)
    requires GoodChain(c, chain) && HoldsChain(c, dir, chain) && NoOthers(c, dir, chain) && AlwaysCalm(faults)
    requires forall name :: name in dir ==> name in files
    ensures var m := Run(c, Deliveries(dir, files, faults));
            m.pending == map[] && m.db.currentRecon == |chain| && Holds(c, m.db, chain)
  {
    var all := Deliveries(dir, files, faults);
    var events := Decodable(c, all);
    DecodableFromChain(c, dir, chain, files, faults);
    forall r: uint32 | r < |chain|
      ensures r in Delivered(events)
    {
      assert HoldsBlock(c, dir, PlaceName(r), Place(r), chain[r]);
      PlaceDelivered(c, dir, files, faults, r, chain[r]);
    }
    AllArrived(c, chain, events);
    RunDecodable(c, all);
  }

  lemma {:induction false} PlaceDelivered(c: Codec, dir: Directory, files: seq<string>, faults: (nat, nat) -> Faults,
                                          r: uint32, b: Block)
    requires HoldsBlock(c, dir, PlaceName(r), Place(r), b) && PlaceName(r) in files
    ensures r in Delivered(Decodable(c, Deliveries(dir, files, faults)))
  {
    var all := Deliveries(dir, files, faults);
    var i := HeldDelivered(c, dir, files, faults, PlaceName(r), Place(r), b);
    DecodableOnly(c, all);
    assert all[i] in Decodable(c, all);
    DeliveredMember(Decodable(c, all), all[i]);
  }

  // ----- among strays -----

  /** With harmless strays, the whole chain is integrated, however the directory is listed. */
  lemma {:induction false} LoadsAmongHarmless(c: Codec, dir: Directory, chain: seq<Block>, files: seq<string>,
                           faults: (nat, nat) -> Faults)
    requires GoodChain(c, chain) && HoldsChain(c, dir, chain) && AlwaysCalm(faults)
    requires OthersStray(c, dir, chain) && OthersHarmless(c, dir, chain)
    requires forall name :: name in dir ==> name in files
    ensures var m := Run(c, Deliveries(dir, files, faults)); m.db.currentRecon == |chain| && Holds(c, m.db, chain)
  {
    FilesSent(c, dir, chain, files, faults);
    FilesHarmless(c, dir, chain, files, faults);
    forall r: uint32 | r < |chain|
      ensures r in Arrived(c, chain, Deliveries(dir, files, faults))
    {
      assert HoldsBlock(c, dir, PlaceName(r), Place(r), chain[r]);
      PlaceArrives(c, dir, chain, files, faults, r);
    }
    HarmlessComplete(c, chain, Deliveries(dir, files, faults));
  }

  /** A listing of the directory: every file once. */
  ghost predicate Lists(dir: Directory, files: seq<string>) {
    && (forall name :: name in files <==> name in dir)
    && (forall i, j :: 0 <= i < j < |files| ==> files[i] != files[j])
  }

  ghost function Enumerated(names: set<string>): (files: seq<string>)
    ensures forall name :: name in files <==> name in names
    ensures forall i, j :: 0 <= i < j < |files| ==> files[i] != files[j]
  {
    if names == {} then []
    else
      var name :| name in names;
      Enumerated(names - {name}) + [name]
  }

  /** The listing with the first block of the chain at the end. */
  ghost function FirstLast(dir: Directory): (files: seq<string>)
    requires PlaceName(0) in dir
    ensures Lists(dir, files) && files != [] && files[|files| - 1] == PlaceName(0)
  {
    Enumerated(dir.Keys - {PlaceName(0)}) + [PlaceName(0)]
  }

  /** A stray that is not harmless keeps that listing from integrating the whole chain. */
  lemma {:induction false} FirstLastStalls(c: Codec, dir: Directory, chain: seq<Block>, faults: (nat, nat) -> Faults,
                                           name: string, k: Key,
                        b: Block)
    requires GoodChain(c, chain) && HoldsChain(c, dir, chain) && OthersStray(c, dir, chain) && AlwaysCalm(faults)
    requires HoldsBlock(c, dir, name, k, b) && !IsPlace(chain, k) && !Harmless(chain, k)
    ensures PlaceName(0) in dir
    ensures Run(c, Deliveries(dir, FirstLast(dir), faults)).db.currentRecon <= k.recon + 1 < |chain|
  {
    assert HoldsBlock(c, dir, PlaceName(0), Place(0), chain[0]);
    var files := FirstLast(dir);
    var n := |files| - 1;
    var init := files[..n];
    FilesSent(c, dir, chain, init, faults);
    NotFirst(c, dir, chain, files, faults);
    forall r: uint32 | 0 < r < |chain|
      ensures r in Arrived(c, chain, Deliveries(dir, init, faults))
    {
      assert HoldsBlock(c, dir, PlaceName(r), Place(r), chain[r]);
      EarlierListed(c, dir, files, PlaceName(r), Place(r), chain[r]);
      PlaceArrives(c, dir, chain, init, faults, r);
    }
    EarlierListed(c, dir, files, name, k, b);
    var i := HeldDelivered(c, dir, init, faults, name, k, b);
    var e := Delivery(dir[PlaceName(0)], Place(0), FaultsOf(faults, n));
    StallsBehind(c, chain, Deliveries(dir, init, faults), i, e);
    HeldDelivers(c, dir, PlaceName(0), Place(0), chain[0], FaultsOf(faults, n));
    DeliveriesSnoc(dir, files, faults);
  }

  lemma DeliveriesSnoc(dir: Directory, files: seq<string>, faults: (nat, nat) -> Faults)
    requires files != []
    ensures var n := |files| - 1;
            var e := FileDelivery(dir, files[n], FaultsOf(faults, n));
            Deliveries(dir, files, faults) == Deliveries(dir, files[..n], faults) + if e.Some? then [e.value] else []
  {
    var n := |files| - 1;
    FileDeliveriesPrefix(dir, files, n, faults);
  }

  /** Only the last file holds a block for the first place. */
  lemma NotFirst(c: Codec, dir: Directory, chain: seq<Block>, files: seq<string>, faults: (nat, nat) -> Faults)
    requires Lists(dir, files) && files != [] && files[|files| - 1] == PlaceName(0)
    ensures var events := Deliveries(dir, files[..|files| - 1], faults);
            forall i :: 0 <= i < |events| && c.decode(events[i].data).Some? ==> events[i].key != Place(0)
  {
    var init := files[..|files| - 1];
    var events := Deliveries(dir, init, faults);
    forall i | 0 <= i < |events| && c.decode(events[i].data).Some?
      ensures events[i].key != Place(0)
    {
      var k := DeliveredFile(dir, init, faults, i);
      DeliveryHolds(c, dir, init[k], FaultsOf(faults, k));
      assert init[k] != files[|files| - 1];
      if events[i].key == Place(0) {
        NameOfPlace(c, dir, init[k], 0, c.decode(events[i].data).value);
      }
    }
  }

  /** Every other block is listed before the first one. */
  lemma EarlierListed(c: Codec, dir: Directory, files: seq<string>, name: string, k: Key, b: Block)
    requires Lists(dir, files) && files != [] && files[|files| - 1] == PlaceName(0)
    requires HoldsBlock(c, dir, name, k, b) && k != Place(0)
    ensures name in files[..|files| - 1]
  {
    assert name != PlaceName(0) by {
      NameOfTriple(Triple(0, 0, 0));
    }
    assert name in files;
  }

  // ----- listings that follow the chain -----

  predicate KeyBefore(a: Key, b: Key) {
    KeyLe(a, b) && a != b
  }

  /** The places, of n, whose names are among the files. */
  ghost function Seen(n: nat, files: seq<string>): (seen: set<uint32>) {
    set r: uint32 | r < n && PlaceName(r) in files
  }

  /** The blocks of the chain that come before the block in this file, if there is one, have been seen. */
  ghost predicate InTurn(c: Codec, dir: Directory, chain: seq<Block>, name: string, seen: set<uint32>) {
    forall k, b, r: uint32 ::
      HoldsBlock(c, dir, name, k, b) && r < |chain| && KeyBefore(Place(r), k) ==> r in seen
  }

  ghost predicate ChainOrder(c: Codec, dir: Directory, chain: seq<Block>, files: seq<string>) {
    forall i :: 0 <= i < |files| ==> InTurn(c, dir, chain, files[i], Seen(|chain|, files[..i]))
  }

  /** The chain is complete, or all of it that was seen is integrated and nothing waits. */
  ghost predicate CaughtUp(chain: seq<Block>, m: Machine, seen: set<uint32>) {
    var n := m.db.currentRecon;
    n == |chain| || (m.pending == map[] && forall r: uint32 :: r < |chain| ==> (r < n <==> r in seen))
  }

  lemma PlaceNames(r: uint32, q: uint32)
    requires r < 100000000 && q < 100000000
    ensures PlaceName(r) == PlaceName(q) <==> r == q
  {
    NameOfTriple(Triple(r, 0, 0));
    NameOfTriple(Triple(q, 0, 0));
  }

  lemma SeenPlace(n: nat, files: seq<string>, q: uint32)
    requires q < n <= 100000000
    ensures Seen(n, files + [PlaceName(q)]) == Seen(n, files) + {q}
  {
    forall r: uint32 | r < n
      ensures r in Seen(n, files + [PlaceName(q)]) <==> r in Seen(n, files) || r == q
    {
      PlaceNames(r, q);
    }
  }

  lemma SeenOther(n: nat, files: seq<string>, name: string)
    requires forall r: uint32 :: r < n ==> PlaceName(r) != name
    ensures Seen(n, files + [name]) == Seen(n, files)
  {
  }

  /** What comes in its turn is the next block of the chain, is stale, or comes after the whole chain. */
  lemma TurnOf(c: Codec, dir: Directory, chain: seq<Block>, m: Machine, seen: set<uint32>, name: string, k: Key,
               b: Block)
    requires CaughtUp(chain, m, seen) && m.db.currentRecon < |chain|
    requires HoldsBlock(c, dir, name, k, b) && InTurn(c, dir, chain, name, seen)
    requires IsPlace(chain, k) ==> k.recon !in seen
    ensures if IsPlace(chain, k) then k.recon == m.db.currentRecon else k.recon < m.db.currentRecon
  {
    var n := m.db.currentRecon;
    if k.recon >= n && k != Place(n) {
      assert KeyBefore(Place(n), k);
    }
  }

  lemma CaughtNext(chain: seq<Block>, m: Machine, m': Machine, seen: set<uint32>)
    requires CaughtUp(chain, m, seen) && m.db.currentRecon < |chain|
    requires m'.pending == map[] && m'.db.currentRecon == m.db.currentRecon + 1
    ensures CaughtUp(chain, m', seen + {m.db.currentRecon})
  {
  }

  lemma CaughtSame(chain: seq<Block>, m: Machine, m': Machine, seen: set<uint32>)
    requires CaughtUp(chain, m, seen) && m'.pending == m.pending && m'.db.currentRecon == m.db.currentRecon
    ensures CaughtUp(chain, m', seen + {})
  {
  }

  lemma TurnTaken(c: Codec, dir: Directory, chain: seq<Block>, m: Machine, seen: set<uint32>, name: string, e: Delivery)
    requires GoodChain(c, chain) && 0 < |chain| <= LIMIT && Sent(c, chain, e) && Calm(e.faults)
    requires Amid(c, chain, m) && CanInitialize(m.db) && CaughtUp(chain, m, seen)
    requires c.decode(e.data).Some? && HoldsBlock(c, dir, name, e.key, c.decode(e.data).value)
    requires InTurn(c, dir, chain, name, seen) && (IsPlace(chain, e.key) ==> e.key.recon !in seen)
    ensures CaughtUp(chain, AddBlock(c, e, m), seen + if IsPlace(chain, e.key) then {e.key.recon} else {})
  {
    if m.db.currentRecon == |chain| {
      AddAmid(c, chain, e, m);
    } else {
      TurnOf(c, dir, chain, m, seen, name, e.key, c.decode(e.data).value);
      if IsPlace(chain, e.key) {
        NextIntegrates(c, chain, e, m);
        CaughtNext(chain, m, AddBlock(c, e, m), seen);
      } else {
        Bounced(c, chain, e, m);
        CaughtSame(chain, m, AddBlock(c, e, m), seen);
      }
    }
  }

  /** A file of the chain is the file of a place; any other is of none. */
  lemma FileOfPlace(c: Codec, dir: Directory, chain: seq<Block>, name: string, k: Key, b: Block)
    requires HoldsChain(c, dir, chain) && HoldsBlock(c, dir, name, k, b)
    ensures if IsPlace(chain, k) then name == PlaceName(k.recon)
            else forall r: uint32 :: r < |chain| ==> PlaceName(r) != name
  {
    if IsPlace(chain, k) {
      NameOfPlace(c, dir, name, k.recon, b);
    } else {
      forall r: uint32 | r < |chain|
        ensures PlaceName(r) != name
      {
        assert HoldsBlock(c, dir, PlaceName(r), Place(r), chain[r]);
      }
    }
  }

  lemma NoFileOfPlace(c: Codec, dir: Directory, chain: seq<Block>, name: string, faults: nat -> Faults)
    requires HoldsChain(c, dir, chain)
    requires var e := FileDelivery(dir, name, faults); e.None? || c.decode(e.value.data).None?
    ensures forall r: uint32 :: r < |chain| ==> PlaceName(r) != name
  {
    forall r: uint32 | r < |chain|
      ensures PlaceName(r) != name
    {
      assert HoldsBlock(c, dir, PlaceName(r), Place(r), chain[r]);
      HeldDelivers(c, dir, PlaceName(r), Place(r), chain[r], faults);
    }
  }

  /** The state after one more file. */
  ghost function Taken(c: Codec, dir: Directory, m: Machine, name: string, faults: nat -> Faults): (m': Machine)
    requires CanInitialize(m.db)
  {
    var e := FileDelivery(dir, name, faults);
    if e.Some? then AddBlock(c, e.value, m) else m
  }

  lemma FileTaken(c: Codec, dir: Directory, chain: seq<Block>, m: Machine, files: seq<string>, name: string,
                  faults: nat -> Faults)
    requires GoodChain(c, chain) && HoldsChain(c, dir, chain) && OthersStray(c, dir, chain) && Calm(faults)
    requires Amid(c, chain, m) && CanInitialize(m.db) && CaughtUp(chain, m, Seen(|chain|, files))
    requires InTurn(c, dir, chain, name, Seen(|chain|, files)) && name !in files
    ensures CaughtUp(chain, Taken(c, dir, m, name, faults), Seen(|chain|, files + [name]))
  {
    var e := FileDelivery(dir, name, faults);
    if e.Some? && c.decode(e.value.data).Some? {
      DeliveryHolds(c, dir, name, faults);
      BlockTaken(c, dir, chain, m, files, name, e.value);
    } else {
      NoFileOfPlace(c, dir, chain, name, faults);
      SeenOther(|chain|, files, name);
    }
  }

  lemma BlockTaken(c: Codec, dir: Directory, chain: seq<Block>, m: Machine, files: seq<string>, name: string,
                   e: Delivery)
    requires GoodChain(c, chain) && HoldsChain(c, dir, chain) && OthersStray(c, dir, chain) && Calm(e.faults)
    requires Amid(c, chain, m) && CanInitialize(m.db) && CaughtUp(chain, m, Seen(|chain|, files))
    requires InTurn(c, dir, chain, name, Seen(|chain|, files)) && name !in files
    requires c.decode(e.data).Some? && HoldsBlock(c, dir, name, e.key, c.decode(e.data).value)
    ensures CaughtUp(chain, AddBlock(c, e, m), Seen(|chain|, files + [name]))
  {
    SeenAfter(c, dir, chain, files, name, e.key, c.decode(e.data).value);
    TurnTaken(c, dir, chain, m, Seen(|chain|, files), name, e);
  }

  lemma SeenAfter(c: Codec, dir: Directory, chain: seq<Block>, files: seq<string>, name: string, k: Key, b: Block)
    requires HoldsChain(c, dir, chain) && HoldsBlock(c, dir, name, k, b) && name !in files
    ensures IsPlace(chain, k) ==> k.recon !in Seen(|chain|, files)
    ensures Seen(|chain|, files + [name]) == Seen(|chain|, files) + if IsPlace(chain, k) then {k.recon} else {}
  {
    FileOfPlace(c, dir, chain, name, k, b);
    if IsPlace(chain, k) {
      SeenPlace(|chain|, files, k.recon);
    } else {
      SeenOther(|chain|, files, name);
    }
  }

  /** The first i files leave everything caught up. */
  ghost predicate CaughtUpAt(c: Codec, dir: Directory, chain: seq<Block>, files: seq<string>,
                             faults: (nat, nat) -> Faults, i: nat)
    requires i <= |files|
  {
    CaughtUp(chain, Run(c, Deliveries(dir, files[..i], faults)), Seen(|chain|, files[..i]))
  }

  lemma NextInOrder(c: Codec, dir: Directory, chain: seq<Block>, files: seq<string>, faults: (nat, nat) -> Faults,
                    n: nat)
    requires GoodChain(c, chain) && HoldsChain(c, dir, chain) && OthersStray(c, dir, chain) && AlwaysCalm(faults)
    requires Lists(dir, files) && ChainOrder(c, dir, chain, files)
    requires n < |files| && CaughtUpAt(c, dir, chain, files, faults, n)
    ensures CaughtUpAt(c, dir, chain, files, faults, n + 1)
  {
    var m := Run(c, Deliveries(dir, files[..n], faults));
    assert Amid(c, chain, m) by {
      FilesSent(c, dir, chain, files[..n], faults);
      RunAmid(c, chain, Deliveries(dir, files[..n], faults));
    }
    assert Run(c, Deliveries(dir, files[..n + 1], faults)) == Taken(c, dir, m, files[n], FaultsOf(faults, n)) by {
      RunSnoc(c, dir, files, n, faults);
    }
    FileTaken(c, dir, chain, m, files[..n], files[n], FaultsOf(faults, n));
    assert files[..n + 1] == files[..n] + [files[n]];
  }

  lemma {:induction false} InOrderRun(c: Codec, dir: Directory, chain: seq<Block>, files: seq<string>,
                                      faults: (nat, nat) -> Faults, i: nat)
    requires GoodChain(c, chain) && HoldsChain(c, dir, chain) && OthersStray(c, dir, chain) && AlwaysCalm(faults)
    requires Lists(dir, files) && ChainOrder(c, dir, chain, files) && i <= |files|
    ensures CaughtUpAt(c, dir, chain, files, faults, i)
  {
    if i > 0 {
      InOrderRun(c, dir, chain, files, faults, i - 1);
      NextInOrder(c, dir, chain, files, faults, i - 1);
    }
  }

  /** Whatever strays are in the directory, a listing that follows the chain integrates all of it. */
  lemma {:induction false} InOrderCompletes(c: Codec, dir: Directory, chain: seq<Block>, files: seq<string>,
                                            faults: (nat, nat) -> Faults)
    requires GoodChain(c, chain) && HoldsChain(c, dir, chain) && OthersStray(c, dir, chain) && AlwaysCalm(faults)
    requires Lists(dir, files) && ChainOrder(c, dir, chain, files)
    ensures var m := Run(c, Deliveries(dir, files, faults)); m.db.currentRecon == |chain| && Holds(c, m.db, chain)
  {
    var m := Run(c, Deliveries(dir, files, faults));
    assert CaughtUp(chain, m, Seen(|chain|, files)) by {
      InOrderRun(c, dir, chain, files, faults, |files|);
      assert files[..|files|] == files;
    }
    assert Amid(c, chain, m) by {
      FilesSent(c, dir, chain, files, faults);
      RunAmid(c, chain, Deliveries(dir, files, faults));
    }
    AllSeen(c, dir, chain, files);
    CaughtUpComplete(chain, m, Seen(|chain|, files));
    assert chain[..|chain|] == chain;
  }

  lemma CaughtUpComplete(chain: seq<Block>, m: Machine, seen: set<uint32>)
    requires CaughtUp(chain, m, seen) && m.db.currentRecon <= |chain|
    requires forall r: uint32 :: r < |chain| ==> r in seen
    ensures m.db.currentRecon == |chain|
  {
    var n := m.db.currentRecon;
    assert n < |chain| ==> n in seen;
  }

  lemma AllSeen(c: Codec, dir: Directory, chain: seq<Block>, files: seq<string>)
    requires HoldsChain(c, dir, chain) && Lists(dir, files)
    ensures forall r: uint32 :: r < |chain| ==> r in Seen(|chain|, files)
  {
    forall r: uint32 | r < |chain|
      ensures r in Seen(|chain|, files)
    {
      assert HoldsBlock(c, dir, PlaceName(r), Place(r), chain[r]);
    }
  }

  ghost predicate Sorted(files: seq<string>) {
    forall i, j :: 0 <= i < j < |files| ==> Before(files[i], files[j])
  }

  /** The name of an earlier place sorts before the name of a later block, and not the other way. */
  lemma {:induction false} EarlierName(c: Codec, dir: Directory, name: string, k: Key, b: Block, r: uint32)
    requires HoldsBlock(c, dir, name, k, b) && KeyBefore(Place(r), k) && r < 100000000
    ensures Before(PlaceName(r), name) && !Before(name, PlaceName(r)) && PlaceName(r) != name
  {
    var t, p := Parsed(name).value, Triple(r, 0, 0);
    GetParse(name);
    NameOrder(p, t);
    NameOrder(t, p);
    NameOrder(t, t);
  }

  lemma SortedInTurn(c: Codec, dir: Directory, chain: seq<Block>, files: seq<string>, i: nat, k: Key, b: Block,
                     r: uint32)
    requires HoldsChain(c, dir, chain) && Lists(dir, files) && Sorted(files) && i < |files| && r < |chain|
    requires HoldsBlock(c, dir, files[i], k, b) && KeyBefore(Place(r), k)
    ensures r in Seen(|chain|, files[..i])
  {
    assert HoldsBlock(c, dir, PlaceName(r), Place(r), chain[r]);
    EarlierName(c, dir, files[i], k, b, r);
    EarlierIndex(files, i, PlaceName(r));
  }

  lemma {:induction false} EarlierIndex(files: seq<string>, i: nat, name: string)
    requires Sorted(files) && i < |files| && name in files && name != files[i] && !Before(files[i], name)
    ensures name in files[..i]
  {
    var j :| 0 <= j < |files| && files[j] == name;
    assert files[..i][j] == name;
  }

  /** Names sort as the numbers in them: a sorted listing follows the chain. */
  lemma SortedFollowsChain(c: Codec, dir: Directory, chain: seq<Block>, files: seq<string>)
    requires HoldsChain(c, dir, chain) && Lists(dir, files) && Sorted(files)
    ensures ChainOrder(c, dir, chain, files)
  {
    forall i | 0 <= i < |files|
      ensures InTurn(c, dir, chain, files[i], Seen(|chain|, files[..i]))
    {
      forall k, b, r: uint32 | HoldsBlock(c, dir, files[i], k, b) && r < |chain| && KeyBefore(Place(r), k)
        ensures r in Seen(|chain|, files[..i])
      {
        SortedInTurn(c, dir, chain, files, i, k, b, r);
      }
    }
  }

  /** The names of the chain, in order. */
  ghost function ChainNames(n: nat): (names: seq<string>)
    requires n <= 100000000
    ensures |names| == n && forall i :: 0 <= i < n ==> names[i] == PlaceName(i)
  {
    seq(n, i requires 0 <= i < n => PlaceName(i))
  }

  /** The listing with the chain first, in order. */
  ghost function ChainFirst(dir: Directory, n: nat): (files: seq<string>)
    requires n <= 100000000
  {
    ChainNames(n) + Enumerated(dir.Keys - set name | name in ChainNames(n))
  }

  lemma ChainFirstLists(dir: Directory, n: nat)
    requires n <= 100000000 && forall r: uint32 :: r < n ==> PlaceName(r) in dir
    ensures Lists(dir, ChainFirst(dir, n))
  {
    var names := ChainNames(n);
    var others := Enumerated(dir.Keys - set name | name in names);
    forall i, j | 0 <= i < j < |names|
      ensures names[i] != names[j]
    {
      PlaceNames(i, j);
    }
    forall i, j | 0 <= i < |names| && 0 <= j < |others|
      ensures names[i] != others[j]
    {
      assert others[j] in others;
    }
  }

  lemma ChainFirstFollows(c: Codec, dir: Directory, chain: seq<Block>)
    requires HoldsChain(c, dir, chain)
    ensures Lists(dir, ChainFirst(dir, |chain|)) && ChainOrder(c, dir, chain, ChainFirst(dir, |chain|))
  {
    forall r: uint32 | r < |chain|
      ensures PlaceName(r) in dir
    {
      assert HoldsBlock(c, dir, PlaceName(r), Place(r), chain[r]);
    }
    ChainFirstLists(dir, |chain|);
    var files := ChainFirst(dir, |chain|);
    forall i | 0 <= i < |files|
      ensures InTurn(c, dir, chain, files[i], Seen(|chain|, files[..i]))
    {
      forall k, b, r: uint32 | HoldsBlock(c, dir, files[i], k, b) && r < |chain| && KeyBefore(Place(r), k)
        ensures r in Seen(|chain|, files[..i])
      {
        ChainFirstInTurn(c, dir, chain, i, k, b, r);
      }
    }
  }

  lemma ChainFirstInTurn(c: Codec, dir: Directory, chain: seq<Block>, i: nat, k: Key, b: Block, r: uint32)
    requires HoldsChain(c, dir, chain) && r < |chain| && KeyBefore(Place(r), k)
    requires var files := ChainFirst(dir, |chain|); i < |files| && HoldsBlock(c, dir, files[i], k, b)
    ensures r in Seen(|chain|, ChainFirst(dir, |chain|)[..i])
  {
    if i < |chain| {
      KeyOfPlace(c, dir, chain, i, k, b);
    }
    FirstNames(dir, |chain|, i, r);
  }

  lemma KeyOfPlace(c: Codec, dir: Directory, chain: seq<Block>, r: uint32, k: Key, b: Block)
    requires HoldsChain(c, dir, chain) && r < |chain| && HoldsBlock(c, dir, PlaceName(r), k, b)
    ensures k == Place(r)
  {
    assert HoldsBlock(c, dir, PlaceName(r), Place(r), chain[r]);
  }

  lemma FirstNames(dir: Directory, n: nat, i: nat, r: uint32)
    requires n <= 100000000 && r < n && r < i <= |ChainFirst(dir, n)|
    ensures r in Seen(n, ChainFirst(dir, n)[..i])
  {
    assert ChainFirst(dir, n)[..i][r] == ChainNames(n)[r];
  }

  // ----- when the order matters -----

  /** The database after loading the listed files. */
  ghost function Loaded(c: Codec, dir: Directory, files: seq<string>, faults: (nat, nat) -> Faults): (db: DbState) {
    Run(c, Deliveries(dir, files, faults)).db
  }

  /** Every listing leads to the same database. */
  ghost predicate OrderIrrelevant(c: Codec, dir: Directory, faults: (nat, nat) -> Faults) {
    forall files, files' :: Lists(dir, files) && Lists(dir, files')
      ==> Loaded(c, dir, files, faults) == Loaded(c, dir, files', faults)
  }

  /** Every listing leads to the whole chain. */
  ghost predicate AlwaysComplete(c: Codec, dir: Directory, chain: seq<Block>, faults: (nat, nat) -> Faults) {
    forall files :: Lists(dir, files) ==> Holds(c, Loaded(c, dir, files, faults), chain)
  }

  /** One listing integrates the whole chain and another one does not. */
  lemma TwoListingsDiffer(c: Codec, dir: Directory, chain: seq<Block>, faults: (nat, nat) -> Faults, name: string,
                          k: Key,
                          b: Block) returns (files: seq<string>, files': seq<string>)
    requires GoodChain(c, chain) && HoldsChain(c, dir, chain) && OthersStray(c, dir, chain) && AlwaysCalm(faults)
    requires HoldsBlock(c, dir, name, k, b) && !IsPlace(chain, k) && !Harmless(chain, k)
    ensures Lists(dir, files) && Holds(c, Loaded(c, dir, files, faults), chain)
    ensures Lists(dir, files') && Loaded(c, dir, files', faults).currentRecon <= k.recon + 1 < |chain|
  {
    FirstLastStalls(c, dir, chain, faults, name, k, b);
    ChainFirstFollows(c, dir, chain);
    files, files' := ChainFirst(dir, |chain|), FirstLast(dir);
    InOrderCompletes(c, dir, chain, files, faults);
  }

  /** For one: a node block that waits for others as block 5 of reconciliation 1. */
  lemma NodeBlockStalls(c: Codec, dir: Directory, chain: seq<Block>, faults: (nat, nat) -> Faults, body: Bytes)
    returns (files: seq<string>, files': seq<string>)
    requires GoodChain(c, chain) && HoldsChain(c, dir, chain) && OthersStray(c, dir, chain) && AlwaysCalm(faults)
    requires |chain| >= 3 && HoldsBlock(c, dir, Get(Triple(1, 0, 5)), Key(1, 0, 5), NodeBlock(body))
    ensures Lists(dir, files) && Loaded(c, dir, files, faults).currentRecon == |chain|
    ensures Lists(dir, files') && Loaded(c, dir, files', faults).currentRecon <= 2
  {
    files, files' := TwoListingsDiffer(c, dir, chain, faults, Get(Triple(1, 0, 5)), Key(1, 0, 5), NodeBlock(body));
  }

  /**
    The order of listing does not matter to the database, and the whole chain is
    integrated in every order, exactly when no stray in the directory has a number
    between that of the first and that of the last block.
   */
  lemma LoadsExactly(c: Codec, dir: Directory, chain: seq<Block>, faults: (nat, nat) -> Faults)
    requires GoodChain(c, chain) && HoldsChain(c, dir, chain) && OthersStray(c, dir, chain) && AlwaysCalm(faults)
    ensures OrderIrrelevant(c, dir, faults) <==> OthersHarmless(c, dir, chain)
    ensures AlwaysComplete(c, dir, chain, faults) <==> OthersHarmless(c, dir, chain)
  {
    if OthersHarmless(c, dir, chain) {
      forall files | Lists(dir, files)
        ensures Holds(c, Loaded(c, dir, files, faults), chain)
      {
        LoadsAmongHarmless(c, dir, chain, files, faults);
      }
    } else {
      var name, k, b :| HoldsBlock(c, dir, name, k, b) && !IsPlace(chain, k) && !Harmless(chain, k);
      var files, files' := TwoListingsDiffer(c, dir, chain, faults, name, k, b);
    }
  }

  // ----- the program's codec -----

  /** The serialized chain is in the directory, every block under its name. */
  ghost predicate HoldsSent(dir: Directory, blocks: seq<Block>) {
    && 0 < |blocks| <= 100000000
    && forall k: uint32 :: k < |blocks| ==> PlaceName(k) in dir && BlockDer.EncodeBlock(blocks[k]) <= dir[PlaceName(k)]
  }

  lemma SentIsHeld(h: Crypto, nodeOk: Bytes -> bool, dir: Directory, blocks: seq<Block>)
    requires Curator.SentChain(Curator.ProgramCodec(h, nodeOk), blocks) && HoldsSent(dir, blocks)
    ensures HoldsChain(Curator.ProgramCodec(h, nodeOk), dir, Curator.Received(blocks))
  {
    var c, chain := Curator.ProgramCodec(h, nodeOk), Curator.Received(blocks);
    forall k: uint32 | k < |chain|
      ensures HoldsBlock(c, dir, PlaceName(k), Place(k), chain[k])
    {
      NameOfTriple(Triple(k, 0, 0));
      Curator.ReceivedBlock(nodeOk, blocks[k], dir[PlaceName(k)]);
      EncodedNotEmpty(blocks[k]);
    }
  }

  lemma EncodedNotEmpty(b: Block)
    ensures BlockDer.EncodeBlock(b) != []
  {
  }

  /**
    A directory with a serialized chain and no other blocks, listed in any order:
    everything is integrated, and the tables are those of the chain as it was sent.
   */
  lemma LoadsChain(h: Crypto, nodeOk: Bytes -> bool, dir: Directory, blocks: seq<Block>, files: seq<string>,
                   faults: (nat, nat) -> Faults)
    requires Curator.SentChain(Curator.ProgramCodec(h, nodeOk), blocks) && HoldsSent(dir, blocks)
    requires NoOthers(Curator.ProgramCodec(h, nodeOk), dir, Curator.Received(blocks))
    requires (forall name :: name in dir ==> name in files) && AlwaysCalm(faults)
    ensures var m := Run(Curator.ProgramCodec(h, nodeOk), Deliveries(dir, files, faults));
            m.pending == map[] && m.db.currentRecon == |blocks| && m.db.tables == Curator.LoadedTables(h, blocks)
  {
    var c := Curator.ProgramCodec(h, nodeOk);
    SentIsHeld(h, nodeOk, dir, blocks);
    Curator.ReceivedChain(h, nodeOk, blocks);
    LoadsOnlyChain(c, dir, Curator.Received(blocks), files, faults);
    Curator.HeldTables(h, nodeOk, Run(c, Deliveries(dir, files, faults)).db, blocks);
  }

  /**
    A directory with a serialized chain among strays: the database does not depend
    on the order of listing, and has the whole chain in every order, exactly when
    all the strays are harmless.
   */
  lemma LoadsChainExactly(h: Crypto, nodeOk: Bytes -> bool, dir: Directory, blocks: seq<Block>,
                          faults: (nat, nat) -> Faults)
    requires Curator.SentChain(Curator.ProgramCodec(h, nodeOk), blocks) && HoldsSent(dir, blocks)
    requires OthersStray(Curator.ProgramCodec(h, nodeOk), dir, Curator.Received(blocks)) && AlwaysCalm(faults)
    ensures var c, chain := Curator.ProgramCodec(h, nodeOk), Curator.Received(blocks);
            && (OrderIrrelevant(c, dir, faults) <==> OthersHarmless(c, dir, chain))
            && (AlwaysComplete(c, dir, chain, faults) <==> OthersHarmless(c, dir, chain))
  {
    SentIsHeld(h, nodeOk, dir, blocks);
    Curator.ReceivedChain(h, nodeOk, blocks);
    LoadsExactly(Curator.ProgramCodec(h, nodeOk), dir, Curator.Received(blocks), faults);
  }

  /** Listed in sorted order, the whole chain is integrated whatever strays there are. */
  lemma SortedLoadsChain(h: Crypto, nodeOk: Bytes -> bool, dir: Directory, blocks: seq<Block>, files: seq<string>,
                         faults: (nat, nat) -> Faults)
    requires Curator.SentChain(Curator.ProgramCodec(h, nodeOk), blocks) && HoldsSent(dir, blocks)
    requires OthersStray(Curator.ProgramCodec(h, nodeOk), dir, Curator.Received(blocks)) && AlwaysCalm(faults)
    requires Lists(dir, files) && Sorted(files)
    ensures var db := Loaded(Curator.ProgramCodec(h, nodeOk), dir, files, faults);
            db.currentRecon == |blocks| && db.tables == Curator.LoadedTables(h, blocks)
  {
    var c, chain := Curator.ProgramCodec(h, nodeOk), Curator.Received(blocks);
    SentIsHeld(h, nodeOk, dir, blocks);
    Curator.ReceivedChain(h, nodeOk, blocks);
    SortedFollowsChain(c, dir, chain, files);
    InOrderCompletes(c, dir, chain, files, faults);
    Curator.HeldTables(h, nodeOk, Loaded(c, dir, files, faults), blocks);
  }
}
