/**
  Blocks of one chain among strays: blocks that wait under other names than those
  of the chain and do not continue it. Strays never get into the chain, but one
  that turns out to be stale ends a round of integration early.
 */
module Strays {
  import opened Base
  import opened BlockTypes
  import opened Database
  import opened DbIntegration
  import opened Chain
  import opened Integration
  import opened OrderIndependence

  predicate IsPlace(chain: seq<Block>, k: Key) {
    k.recon < |chain| && k == Place(k.recon)
  }

  /**
    A block at no place of the chain, that does not continue the chain in a way of
    its own: if it is a link at all, it has the hash of the chain's own link.
   */
  predicate Stray(c: Codec, chain: seq<Block>, k: Key, b: Block) {
    && !IsPlace(chain, k)
    && (0 < k.recon <= |chain| && Follows(c, chain[k.recon - 1], c.copy(b), k.recon)
        ==> k.recon < |chain| && BlockHash(c, c.copy(b)) == BlockHash(c, chain[k.recon]))
  }

  predicate MayWait(c: Codec, chain: seq<Block>, k: Key, b: Block) {
    if IsPlace(chain, k) then b == chain[k.recon] else Stray(c, chain, k, b)
  }

  /** A prefix of the chain is integrated; blocks of the chain and strays wait. */
  ghost predicate Amid(c: Codec, chain: seq<Block>, m: Machine) {
    && m.db.currentRecon <= |chain|
    && Holds(c, m.db, chain[..m.db.currentRecon])
    && forall k :: k in m.pending ==> MayWait(c, chain, k, m.pending[k])
  }

  // ----- one offer -----

  /** Offered at cursor n, a block with this key is turned away for good. */
  predicate Bounces(chain: seq<Block>, n: uint32, k: Key) {
    k.recon < n || (n == 0 && k.recon == 0 && !IsPlace(chain, k))
  }

  ghost predicate Offered(c: Codec, chain: seq<Block>, n: uint32, k: Key, db: DbState, res: Result, quiet: bool) {
    if db.currentRecon != n then
      IsSuccess(res) && k.recon == n < |chain| && db.currentRecon == n + 1 && Holds(c, db, chain[..n + 1])
    else
      && n <= |chain| && Holds(c, db, chain[..n])
      && (k.recon > n ==> !IsFinal(res))
      && (IsPlace(chain, k) && k.recon == n ==> !IsFinal(res) && (quiet ==> n == LIMIT))
      && (quiet && Bounces(chain, n, k) ==> IsFinal(res) && !IsSuccess(res))
  }

  /** A stray that is a link of the chain so far has the hash of the chain's next link. */
  lemma StrayLink(c: Codec, chain: seq<Block>, n: uint32, k: Key, b: Block)
    requires chain != [] && n <= |chain| && Stray(c, chain, k, b) && Next(c, chain[..n], c.copy(b), k)
    ensures k.recon == n && 0 < n < |chain|
    ensures c.copy(b).ReconciliationBlock? && BlockHash(c, c.copy(b)) == BlockHash(c, chain[n])
  {
    if n > 0 {
      assert Last(chain[..n]) == chain[n - 1];
    }
  }

  /** Cache and tables only depend on the hash of the last link. */
  lemma SameHashHolds(c: Codec, chain: seq<Block>, n: uint32, db: DbState, b: Block)
    requires Linked(c, chain) && 0 < n < |chain| && Holds(c, db, chain[..n] + [b])
    requires BlockHash(c, b) == BlockHash(c, chain[n])
    ensures Holds(c, db, chain[..n + 1])
  {
    var whole, other := chain[..n + 1], chain[..n] + [b];
    assert Last(whole) == chain[n] && Last(other) == b && whole[0] == other[0] == chain[0];
    forall k | 0 < k < |whole|
      ensures Follows(c, whole[k - 1], whole[k], k)
    {
      assert Follows(c, chain[k - 1], chain[k], k);
    }
  }

  lemma OfferStray(c: Codec, chain: seq<Block>, f: Faults, db: DbState, k: Key, b: Block)
    requires Linked(c, chain) && chain != [] && db.currentRecon <= |chain| && Holds(c, db, chain[..db.currentRecon])
    requires Stray(c, chain, k, b)
    ensures CanInitialize(db)
    ensures var (db', res) := Integrated(c, f, db, c.copy(b), k);
            Offered(c, chain, db.currentRecon, k, db', res, Undisturbed(f))
  {
    var n := db.currentRecon;
    var (db', res) := Integrated(c, f, db, c.copy(b), k);
    Attempt(c, f, db, c.copy(b), k, chain[..n]);
    if IsSuccess(res) && IsLink(c.copy(b)) {
      StrayLink(c, chain, n, k, b);
      SameHashHolds(c, chain, n, db', c.copy(b));
    } else if Undisturbed(f) && Bounces(chain, n, k) {
      Turned(c, db, c.copy(b), k);
    }
  }

  /** What is stale, or comes as number 0 to another place, is rejected. */
  lemma Turned(c: Codec, db: DbState, b: Block, k: Key)
    requires CanInitialize(db)
    requires k.recon < db.currentRecon || (db.currentRecon == 0 && k.recon == 0 && (k.shard != 0 || k.block != 0))
    ensures var res := Integrated(c, NO_FAULTS, db, b, k).1; IsFinal(res) && !IsSuccess(res)
  {
  }

  lemma OfferAny(c: Codec, chain: seq<Block>, f: Faults, db: DbState, k: Key, b: Block)
    requires GoodChain(c, chain) && chain != [] && MayWait(c, chain, k, b)
    requires db.currentRecon <= |chain| && Holds(c, db, chain[..db.currentRecon])
    ensures CanInitialize(db)
    ensures var (db', res) := Integrated(c, f, db, c.copy(b), k);
            Offered(c, chain, db.currentRecon, k, db', res, Undisturbed(f))
  {
    if IsPlace(chain, k) {
      Offer(c, chain, f, db, k.recon);
    } else {
      OfferStray(c, chain, f, db, k, b);
    }
  }

  // ----- one round -----

  /** The state after offering block k, the least, with the result. */
  ghost predicate Round(c: Codec, chain: seq<Block>, m: Machine, k: Key, m': Machine, res: Result, quiet: bool) {
    && k in m.pending && (forall j :: j in m.pending ==> KeyLe(k, j))
    && m'.pending == (if IsFinal(res) then m.pending - {k} else m.pending)
    && Offered(c, chain, m.db.currentRecon, k, m'.db, res, quiet)
  }

  /** A round that asks for another one keeps the invariant; the last one leaves what is to be shown. */
  ghost predicate NextKeeps(c: Codec, faults: nat -> Faults, i: nat, m: Machine, inv: Machine -> bool,
                            end: Machine -> bool)
    requires CanInitialize(m.db)
  {
    var (m', again) := TryNext(c, faults(i), m);
    if again then inv(m') else end(m')
  }

  /** The rule for a call: an invariant that every round keeps. */
  lemma {:induction false} CallEnds(c: Codec, faults: nat -> Faults, i: nat, m: Machine, inv: Machine -> bool,
                                    end: Machine -> bool)
    requires CanInitialize(m.db) && inv(m)
    requires forall j: nat, x: Machine :: CanInitialize(x.db) && inv(x) ==> NextKeeps(c, faults, j, x, inv, end)
    ensures end(TryIntegrate(c, faults, i, m))
    decreases |m.pending|
  {
    assert NextKeeps(c, faults, i, m, inv, end);
    var (m', again) := TryNext(c, faults(i), m);
    if again {
      CallEnds(c, faults, i + 1, m', inv, end);
    }
  }

  /** The first round of a call, and the state the call ends in. */
  lemma FirstRound(c: Codec, chain: seq<Block>, faults: nat -> Faults, i: nat, m: Machine)
    returns (k: Key, res: Result, m': Machine)
    requires GoodChain(c, chain) && chain != [] && Amid(c, chain, m) && CanInitialize(m.db) && m.pending != map[]
    ensures Round(c, chain, m, k, m', res, Undisturbed(faults(i)))
    ensures CanInitialize(m'.db) && (IsSuccess(res) ==> |m'.pending| < |m.pending|)
    ensures TryNext(c, faults(i), m) == (m', IsSuccess(res))
  {
    k := Least(m.pending.Keys);
    res := Integrated(c, faults(i), m.db, c.copy(m.pending[k]), k).1;
    OfferAny(c, chain, faults(i), m.db, k, m.pending[k]);
    m' := TryNext(c, faults(i), m).0;
  }

  lemma RoundAmid(c: Codec, chain: seq<Block>, m: Machine, k: Key, m': Machine, res: Result, quiet: bool)
    requires Amid(c, chain, m) && Round(c, chain, m, k, m', res, quiet)
    ensures Amid(c, chain, m') && m.db.currentRecon <= m'.db.currentRecon
  {
  }

  lemma {:induction false} TryIntegrateAmid(c: Codec, chain: seq<Block>, faults: nat -> Faults, i: nat, m: Machine)
    requires GoodChain(c, chain) && chain != [] && Amid(c, chain, m) && CanInitialize(m.db)
    ensures var m' := TryIntegrate(c, faults, i, m); Amid(c, chain, m') && m.db.currentRecon <= m'.db.currentRecon
    decreases |m.pending|
  {
    if m.pending != map[] {
      var k, res, m' := FirstRound(c, chain, faults, i, m);
      RoundAmid(c, chain, m, k, m', res, Undisturbed(faults(i)));
      if IsSuccess(res) {
        TryIntegrateAmid(c, chain, faults, i + 1, m');
      }
    }
  }

  // ----- runs -----

  /** A delivery of a block of the chain at its place, of a stray, or of something that is no block. */
  predicate Sent(c: Codec, chain: seq<Block>, e: Delivery) {
    var b := c.decode(e.data);
    b.Some? ==> MayWait(c, chain, e.key, b.value)
  }

  ghost predicate AllSent(c: Codec, chain: seq<Block>, events: seq<Delivery>) {
    forall i :: 0 <= i < |events| ==> Sent(c, chain, events[i])
  }

  lemma StoreAmid(c: Codec, chain: seq<Block>, m: Machine, k: Key, b: Block)
    requires Amid(c, chain, m) && MayWait(c, chain, k, b)
    ensures Amid(c, chain, Store(m, k, b))
  {
  }

  lemma AddAmid(c: Codec, chain: seq<Block>, e: Delivery, m: Machine)
    requires GoodChain(c, chain) && chain != [] && Amid(c, chain, m) && CanInitialize(m.db) && Sent(c, chain, e)
    ensures var m' := AddBlock(c, e, m); Amid(c, chain, m') && m.db.currentRecon <= m'.db.currentRecon
  {
    var b := c.decode(e.data);
    if b.Some? {
      StoreAmid(c, chain, m, e.key, b.value);
      TryIntegrateAmid(c, chain, e.faults, 0, Store(m, e.key, b.value));
    }
  }

  /** Whatever strays there are and whatever fails, only blocks of the chain get into it. */
  lemma {:induction false} RunAmid(c: Codec, chain: seq<Block>, events: seq<Delivery>)
    requires GoodChain(c, chain) && chain != [] && AllSent(c, chain, events)
    ensures Amid(c, chain, Run(c, events))
  {
    if events != [] {
      var init, e := events[..|events| - 1], events[|events| - 1];
      RunAmid(c, chain, init);
      AddAmid(c, chain, e, Run(c, init));
    }
  }

  /** A delivered block is stored, and a call is made. */
  lemma {:induction false} AddIsCall(c: Codec, e: Delivery, m: Machine)
    requires CanInitialize(m.db) && c.decode(e.data).Some?
    ensures AddBlock(c, e, m) == TryIntegrate(c, e.faults, 0, Store(m, e.key, c.decode(e.data).value))
  {
  }

  /** The numbers of the chain that arrived at their places. */
  function Arrived(c: Codec, chain: seq<Block>, events: seq<Delivery>): (d: set<uint32>) {
    if events == [] then {}
    else
      var e := events[|events| - 1];
      Arrived(c, chain, events[..|events| - 1])
      + if c.decode(e.data).Some? && IsPlace(chain, e.key) then {e.key.recon} else {}
  }

  lemma {:induction false} ArrivedAt(c: Codec, chain: seq<Block>, events: seq<Delivery>, i: nat)
    requires i < |events| && c.decode(events[i].data).Some? && IsPlace(chain, events[i].key)
    ensures events[i].key.recon in Arrived(c, chain, events)
  {
    if i < |events| - 1 {
      ArrivedAt(c, chain, events[..|events| - 1], i);
    }
  }

  // ----- strays that do no harm -----

  /** A stray with the number 0, of the last block of the chain, or later. */
  predicate Harmless(chain: seq<Block>, k: Key) {
    k.recon == 0 || k.recon + 1 >= |chain|
  }

  /** Nothing stale waits, and no stray that will be stale before the chain is complete. */
  ghost predicate Clear(chain: seq<Block>, m: Machine) {
    var n := m.db.currentRecon;
    n < |chain| ==>
      forall k :: k in m.pending ==> k.recon >= n && (!IsPlace(chain, k) ==> k.recon + 1 >= |chain|)
  }

  /** The next block of the chain does not wait. */
  predicate Done(chain: seq<Block>, m: Machine) {
    m.db.currentRecon < |chain| ==> Place(m.db.currentRecon) !in m.pending
  }

  /** The numbers that arrived wait, unless they are integrated. */
  ghost predicate Kept(chain: seq<Block>, m: Machine, d: set<uint32>) {
    forall r: uint32 :: r in d && m.db.currentRecon <= r < |chain| ==> Place(r) in m.pending
  }

  lemma RoundClear(c: Codec, chain: seq<Block>, m: Machine, k: Key, m': Machine, res: Result, d: set<uint32>)
    requires |chain| <= LIMIT && Amid(c, chain, m) && Clear(chain, m) && Kept(chain, m, d)
    requires Round(c, chain, m, k, m', res, true)
    ensures Clear(chain, m') && Kept(chain, m', d) && (!IsSuccess(res) ==> Done(chain, m'))
  {
    var n := m.db.currentRecon;
    if n < |chain| && Place(n) in m.pending {
      assert KeyLe(k, Place(n));
      assert k == Place(n);
    }
  }

  lemma {:induction false} TryIntegrateClear(c: Codec, chain: seq<Block>, faults: nat -> Faults, i: nat, m: Machine,
                                             d: set<uint32>)
    requires GoodChain(c, chain) && 0 < |chain| <= LIMIT && Amid(c, chain, m) && CanInitialize(m.db)
    requires Clear(chain, m) && Kept(chain, m, d) && Calm(faults)
    ensures var m' := TryIntegrate(c, faults, i, m); Clear(chain, m') && Kept(chain, m', d) && Done(chain, m')
    decreases |m.pending|
  {
    if m.pending != map[] {
      var k, res, m' := FirstRound(c, chain, faults, i, m);
      RoundAmid(c, chain, m, k, m', res, true);
      RoundClear(c, chain, m, k, m', res, d);
      if IsSuccess(res) {
        TryIntegrateClear(c, chain, faults, i + 1, m', d);
      }
    }
  }

  /** A block that bounces and comes before all that waits leaves no trace. */
  lemma Bounced(c: Codec, chain: seq<Block>, e: Delivery, m: Machine)
    requires GoodChain(c, chain) && chain != [] && Amid(c, chain, m) && CanInitialize(m.db) && Sent(c, chain, e)
    requires c.decode(e.data).Some? && e.key !in m.pending && (forall j :: j in m.pending ==> KeyLe(e.key, j))
    requires Bounces(chain, m.db.currentRecon, e.key) && Calm(e.faults)
    ensures var m' := AddBlock(c, e, m); m'.pending == m.pending && m'.db.currentRecon == m.db.currentRecon
  {
    var b := c.decode(e.data).value;
    var stored := Store(m, e.key, b);
    StoreAmid(c, chain, m, e.key, b);
    StoreLeast(m, e.key, b);
    AddIsCall(c, e, m);
    CallBounces(c, chain, e.faults, stored, e.key);
  }

  lemma StoreLeast(m: Machine, k: Key, b: Block)
    requires k !in m.pending && forall j :: j in m.pending ==> KeyLe(k, j)
    ensures var stored := Store(m, k, b);
            && k in stored.pending && stored.pending - {k} == m.pending && stored.db == m.db
            && forall j :: j in stored.pending ==> KeyLe(k, j)
  {
  }

  lemma {:induction false} CallBounces(c: Codec, chain: seq<Block>, faults: nat -> Faults, m: Machine, k: Key)
    requires GoodChain(c, chain) && chain != [] && Amid(c, chain, m) && CanInitialize(m.db) && Calm(faults)
    requires k in m.pending && (forall j :: j in m.pending ==> KeyLe(k, j)) && Bounces(chain, m.db.currentRecon, k)
    ensures var m' := TryIntegrate(c, faults, 0, m);
            m'.pending == m.pending - {k} && m'.db.currentRecon == m.db.currentRecon
  {
    var j, res, m' := FirstRound(c, chain, faults, 0, m);
    assert j == k by {
      assert KeyLe(j, k) && KeyLe(k, j);
    }
  }

  lemma StoreKept(chain: seq<Block>, m: Machine, k: Key, b: Block, d: set<uint32>)
    requires Kept(chain, m, d)
    ensures Kept(chain, Store(m, k, b), d + if IsPlace(chain, k) then {k.recon} else {})
  {
  }

  lemma Unclear(chain: seq<Block>, m: Machine, k: Key, b: Block)
    requires Clear(chain, m) && Done(chain, m) && m.db.currentRecon < |chain| && !Clear(chain, Store(m, k, b))
    requires IsPlace(chain, k) || Harmless(chain, k)
    ensures k !in m.pending && Bounces(chain, m.db.currentRecon, k)
    ensures forall j :: j in m.pending ==> KeyLe(k, j)
  {
  }

  lemma AddClear(c: Codec, chain: seq<Block>, e: Delivery, m: Machine, d: set<uint32>)
    requires GoodChain(c, chain) && 0 < |chain| <= LIMIT && Amid(c, chain, m) && CanInitialize(m.db)
    requires Clear(chain, m) && Kept(chain, m, d) && Done(chain, m)
    requires Sent(c, chain, e) && c.decode(e.data).Some? && (IsPlace(chain, e.key) || Harmless(chain, e.key))
    requires Calm(e.faults)
    ensures var m' := AddBlock(c, e, m);
            && Clear(chain, m') && Done(chain, m')
            && Kept(chain, m', d + if IsPlace(chain, e.key) then {e.key.recon} else {})
  {
    var n, b := m.db.currentRecon, c.decode(e.data).value;
    var stored := Store(m, e.key, b);
    var d' := d + if IsPlace(chain, e.key) then {e.key.recon} else {};
    StoreAmid(c, chain, m, e.key, b);
    if n == |chain| {
      AddAmid(c, chain, e, m);
    } else if Clear(chain, stored) {
      StoreKept(chain, m, e.key, b, d);
      AddIsCall(c, e, m);
      TryIntegrateClear(c, chain, e.faults, 0, stored, d');
    } else {
      Unclear(chain, m, e.key, b);
      Bounced(c, chain, e, m);
      SameClear(chain, m, AddBlock(c, e, m), d, d');
    }
  }

  lemma SameClear(chain: seq<Block>, m: Machine, m': Machine, d: set<uint32>, d': set<uint32>)
    requires m'.pending == m.pending && m'.db.currentRecon == m.db.currentRecon
    requires Clear(chain, m) && Done(chain, m) && Kept(chain, m, d)
    requires forall r :: r in d' && r >= m.db.currentRecon ==> r in d
    ensures Clear(chain, m') && Done(chain, m') && Kept(chain, m', d')
  {
  }

  lemma {:induction false} RunClear(c: Codec, chain: seq<Block>, events: seq<Delivery>)
    requires GoodChain(c, chain) && 0 < |chain| <= LIMIT && AllSent(c, chain, events) && NeverDisturbed(events)
    requires NoHarm(c, chain, events)
    ensures var m := Run(c, events);
            Clear(chain, m) && Done(chain, m) && Kept(chain, m, Arrived(c, chain, events))
  {
    if events != [] {
      var init, e := events[..|events| - 1], events[|events| - 1];
      RunClear(c, chain, init);
      RunAmid(c, chain, init);
      if c.decode(e.data).Some? {
        AddClear(c, chain, e, Run(c, init), Arrived(c, chain, init));
      }
    }
  }

  ghost predicate NoHarm(c: Codec, chain: seq<Block>, events: seq<Delivery>) {
    forall i :: 0 <= i < |events| && c.decode(events[i].data).Some? ==>
      IsPlace(chain, events[i].key) || Harmless(chain, events[i].key)
  }

  /** With harmless strays only, the whole chain is integrated in every order of arrival. */
  lemma {:induction false} HarmlessComplete(c: Codec, chain: seq<Block>, events: seq<Delivery>)
    requires GoodChain(c, chain) && 0 < |chain| <= LIMIT && AllSent(c, chain, events) && NeverDisturbed(events)
    requires NoHarm(c, chain, events) && forall r: uint32 :: r < |chain| ==> r in Arrived(c, chain, events)
    ensures var m := Run(c, events); m.db.currentRecon == |chain| && Holds(c, m.db, chain)
  {
    RunClear(c, chain, events);
    RunAmid(c, chain, events);
    assert chain[..|chain|] == chain;
  }

  /** With nothing waiting, the next block of the chain is integrated at once. */
  lemma NextIntegrates(c: Codec, chain: seq<Block>, e: Delivery, m: Machine)
    requires GoodChain(c, chain) && m.db.currentRecon < |chain| <= LIMIT && Amid(c, chain, m) && CanInitialize(m.db)
    requires m.pending == map[] && e.key == Place(m.db.currentRecon) && Calm(e.faults)
    requires c.decode(e.data) == Some(chain[m.db.currentRecon])
    ensures var m' := AddBlock(c, e, m); m'.pending == map[] && m'.db.currentRecon == m.db.currentRecon + 1
  {
    var n := m.db.currentRecon;
    var stored := Store(m, e.key, chain[n]);
    StoreAmid(c, chain, m, e.key, chain[n]);
    AddIsCall(c, e, m);
    assert e.key in stored.pending;
    var k, res, m' := FirstRound(c, chain, e.faults, 0, stored);
    assert k == e.key;
    assert m'.pending == map[];
    assert TryIntegrate(c, e.faults, 1, m') == m';
  }

  // ----- strays that do harm -----

  /** All blocks of the chain from the cursor on wait. */
  ghost predicate RestWaits(chain: seq<Block>, m: Machine) {
    forall r: uint32 :: m.db.currentRecon <= r < |chain| ==> Place(r) in m.pending
  }

  /** Stray s waits, and so does the rest of the chain, of which no block after the number of s is integrated. */
  ghost predicate Behind(chain: seq<Block>, m: Machine, s: Key) {
    && s in m.pending && !IsPlace(chain, s) && RestWaits(chain, m)
    && m.db.currentRecon <= s.recon + 1 < |chain|
  }

  /** A round while stray s waits: it ends the call, or integrates one more block up to the number of s. */
  lemma RoundBehind(c: Codec, chain: seq<Block>, m: Machine, k: Key, m': Machine, res: Result, s: Key)
    requires |chain| <= LIMIT && Round(c, chain, m, k, m', res, true) && Behind(chain, m, s)
    ensures m'.db.currentRecon <= s.recon + 1
    ensures IsSuccess(res) ==> Behind(chain, m', s)
  {
    var n := m.db.currentRecon;
    assert KeyLe(k, s);
    if n <= s.recon && k.recon >= n {
      assert KeyLe(k, Place(n));
      assert k == Place(n);
    }
  }

  ghost predicate Stuck(c: Codec, chain: seq<Block>, faults: nat -> Faults, m: Machine, s: Key) {
    && GoodChain(c, chain) && |chain| <= LIMIT && Calm(faults)
    && Amid(c, chain, m) && Behind(chain, m, s)
  }

  lemma NextBehind(c: Codec, chain: seq<Block>, faults: nat -> Faults, i: nat, m: Machine, s: Key)
    requires CanInitialize(m.db) && Stuck(c, chain, faults, m, s)
    ensures var (m', again) := TryNext(c, faults(i), m);
            if again then Stuck(c, chain, faults, m', s) else m'.db.currentRecon <= s.recon + 1
  {
    var k, res, m' := FirstRound(c, chain, faults, i, m);
    RoundBehind(c, chain, m, k, m', res, s);
    RoundAmid(c, chain, m, k, m', res, true);
  }

  lemma {:induction false} StopsBehind(c: Codec, chain: seq<Block>, faults: nat -> Faults, i: nat, m: Machine, s: Key)
    requires CanInitialize(m.db) && Stuck(c, chain, faults, m, s)
    ensures TryIntegrate(c, faults, i, m).db.currentRecon <= s.recon + 1
  {
    var inv := (x: Machine) => Stuck(c, chain, faults, x, s);
    var end := (x: Machine) => x.db.currentRecon <= s.recon + 1;
    forall j: nat, x: Machine | CanInitialize(x.db) && inv(x)
      ensures NextKeeps(c, faults, j, x, inv, end)
    {
      NextBehind(c, chain, faults, j, x, s);
    }
    CallEnds(c, faults, i, m, inv, end);
  }

  /** While the first block of the chain is missing, everything with another number waits, and nothing else does. */
  ghost predicate AtZero(c: Codec, m: Machine, events: seq<Delivery>) {
    && m.db.currentRecon == 0
    && (forall k :: k in m.pending ==> k.recon > 0)
    && (forall i :: 0 <= i < |events| && c.decode(events[i].data).Some? && events[i].key.recon > 0
          ==> events[i].key in m.pending)
  }

  lemma AddAtZero(c: Codec, chain: seq<Block>, e: Delivery, m: Machine)
    requires GoodChain(c, chain) && chain != [] && Amid(c, chain, m) && CanInitialize(m.db) && Sent(c, chain, e)
    requires m.db.currentRecon == 0 && (forall k :: k in m.pending ==> k.recon > 0)
    requires c.decode(e.data).Some? && e.key != Place(0) && Calm(e.faults)
    ensures var m' := AddBlock(c, e, m);
            m'.db.currentRecon == 0 && m'.pending == ZeroPending(c, e, m)
  {
    if e.key.recon == 0 {
      assert Bounces(chain, 0, e.key) && forall j :: j in m.pending ==> KeyLe(e.key, j);
      Bounced(c, chain, e, m);
    } else {
      var stored := Store(m, e.key, c.decode(e.data).value);
      StoreAmid(c, chain, m, e.key, c.decode(e.data).value);
      assert forall k :: k in stored.pending ==> k.recon > 0;
      assert e.key in stored.pending;
      EarlyWaits(c, chain, e.faults, stored);
      AddIsCall(c, e, m);
    }
  }

  /** What waits after a delivery while the first block is missing. */
  function ZeroPending(c: Codec, e: Delivery, m: Machine): (pending: map<Key, Block>) {
    var b := c.decode(e.data);
    if b.Some? && e.key.recon > 0 then Store(m, e.key, b.value).pending else m.pending
  }

  lemma {:induction false} EarlyWaits(c: Codec, chain: seq<Block>, faults: nat -> Faults, m: Machine)
    requires GoodChain(c, chain) && chain != [] && Amid(c, chain, m) && CanInitialize(m.db) && m.pending != map[]
    requires forall k :: k in m.pending ==> k.recon > m.db.currentRecon
    ensures var m' := TryIntegrate(c, faults, 0, m);
            m'.db.currentRecon == m.db.currentRecon && m'.pending == m.pending
  {
    var k, res, m' := FirstRound(c, chain, faults, 0, m);
    assert !IsFinal(res);
  }

  lemma {:induction false} RunAtZero(c: Codec, chain: seq<Block>, events: seq<Delivery>)
    requires GoodChain(c, chain) && chain != [] && AllSent(c, chain, events) && NeverDisturbed(events)
    requires forall i :: 0 <= i < |events| && c.decode(events[i].data).Some? ==> events[i].key != Place(0)
    ensures AtZero(c, Run(c, events), events)
  {
    if events != [] {
      var init, e := events[..|events| - 1], events[|events| - 1];
      RunAtZero(c, chain, init);
      RunAmid(c, chain, init);
      if c.decode(e.data).Some? {
        AddAtZero(c, chain, e, Run(c, init));
      }
      ZeroSnoc(c, Run(c, init), Run(c, events), init, e);
      assert init + [e] == events;
    }
  }

  lemma ZeroSnoc(c: Codec, m: Machine, m': Machine, events: seq<Delivery>, e: Delivery)
    requires AtZero(c, m, events) && m'.db.currentRecon == 0
    requires m'.pending == ZeroPending(c, e, m)
    ensures AtZero(c, m', events + [e])
  {
  }

  lemma {:induction false} ArrivedSome(c: Codec, chain: seq<Block>, events: seq<Delivery>, r: uint32)
    requires r in Arrived(c, chain, events)
    ensures exists i :: 0 <= i < |events| && c.decode(events[i].data).Some? && events[i].key == Place(r)
  {
    var init, e := events[..|events| - 1], events[|events| - 1];
    if r in Arrived(c, chain, init) {
      ArrivedSome(c, chain, init, r);
      var i :| 0 <= i < |init| && c.decode(init[i].data).Some? && init[i].key == Place(r);
      assert events[i] == init[i];
    } else {
      assert events[|events| - 1].key == Place(r);
    }
  }

  /** The first block comes last: a stray with a number between it and the last but one stops the integration. */
  lemma {:induction false} StallsBehind(c: Codec, chain: seq<Block>, events: seq<Delivery>, i: nat, e: Delivery)
    requires GoodChain(c, chain) && |chain| <= LIMIT && AllSent(c, chain, events) && NeverDisturbed(events)
    requires forall j :: 0 <= j < |events| && c.decode(events[j].data).Some? ==> events[j].key != Place(0)
    requires forall r: uint32 :: 0 < r < |chain| ==> r in Arrived(c, chain, events)
    requires i < |events| && c.decode(events[i].data).Some? && !IsPlace(chain, events[i].key)
    requires 0 < events[i].key.recon && events[i].key.recon + 1 < |chain|
    requires e.key == Place(0) && c.decode(e.data) == Some(chain[0]) && Calm(e.faults)
    ensures Run(c, events + [e]).db.currentRecon <= events[i].key.recon + 1
  {
    var m := Run(c, events);
    RunAmid(c, chain, events);
    RunAtZero(c, chain, events);
    forall r: uint32 | 0 < r < |chain|
      ensures Place(r) in m.pending
    {
      ArrivedSome(c, chain, events, r);
    }
    StallsFrom(c, chain, e, m, events[i].key);
    assert (events + [e])[..|events|] == events;
  }

  lemma StallsFrom(c: Codec, chain: seq<Block>, e: Delivery, m: Machine, s: Key)
    requires GoodChain(c, chain) && |chain| <= LIMIT && Amid(c, chain, m) && CanInitialize(m.db)
    requires m.db.currentRecon == 0 && forall r: uint32 :: 0 < r < |chain| ==> Place(r) in m.pending
    requires s in m.pending && !IsPlace(chain, s) && s.recon + 1 < |chain| && Place(0) !in m.pending
    requires e.key == Place(0) && c.decode(e.data) == Some(chain[0]) && Calm(e.faults)
    ensures AddBlock(c, e, m).db.currentRecon <= s.recon + 1
  {
    var stored := Store(m, Place(0), chain[0]);
    StoreAmid(c, chain, m, Place(0), chain[0]);
    assert Behind(chain, stored, s);
    AddIsCall(c, e, m);
    StopsBehind(c, chain, e.faults, 0, stored, s);
  }
}
