/**
  Blocks of one chain, delivered in any order and with repeats: what is
  integrated and what waits depends only on which blocks have arrived.
 */
module OrderIndependence {
  import opened Base
  import opened BlockTypes
  import opened Database
  import opened DbIntegration
  import opened Chain
  import opened Integration

  /** Where the r-th block of a chain is delivered. */
  function Place(r: uint32): (k: Key) {
    Key(r, 0, 0)
  }

  predicate Waits(m: Machine, r: uint32) {
    Place(r) in m.pending
  }

  /** No attempt of a call is disturbed. */
  ghost predicate Calm(faults: nat -> Faults) {
    forall j: nat :: Undisturbed(faults(j))
  }

  /** A chain whose blocks are unchanged by copying. */
  ghost predicate GoodChain(c: Codec, chain: seq<Block>) {
    Linked(c, chain) && forall k :: 0 <= k < |chain| ==> c.copy(chain[k]) == chain[k]
  }

  /** A prefix of the chain is integrated and only blocks of the chain wait, each at its place. */
  ghost predicate Stage(c: Codec, chain: seq<Block>, m: Machine) {
    && m.db.currentRecon <= |chain|
    && Holds(c, m.db, chain[..m.db.currentRecon])
    && forall k :: k in m.pending ==> k == Place(k.recon) && k.recon < |chain| && m.pending[k] == chain[k.recon]
  }

  /** From m to m' only waiting blocks were integrated, in order, and only repeats were dropped. */
  ghost predicate Progress(m: Machine, m': Machine) {
    && m.db.currentRecon <= m'.db.currentRecon
    && (forall r: uint32 :: Waits(m', r) ==> Waits(m, r))
    && (forall r: uint32 :: Waits(m, r) && r >= m'.db.currentRecon ==> Waits(m', r))
    && (forall r: uint32 :: m.db.currentRecon <= r < m'.db.currentRecon ==> Waits(m, r))
  }

  /** No waiting block is a repeat of an integrated one. */
  ghost predicate NoRepeats(m: Machine) {
    forall r: uint32 :: Waits(m, r) ==> r >= m.db.currentRecon
  }

  /** The next block is not waiting, unless its number can no longer be stored. */
  ghost predicate Settled(m: Machine) {
    Waits(m, m.db.currentRecon) ==> m.db.currentRecon == LIMIT
  }

  lemma PrefixLinked(c: Codec, chain: seq<Block>, n: uint32)
    requires Linked(c, chain) && n < |chain|
    ensures Fits(c, chain[..n], chain[n], Place(n))
  {
    if n > 0 {
      assert Follows(c, chain[n - 1], chain[n], n);
    }
  }

  /** The r-th block, the least waiting, was offered with the given outcome. */
  ghost predicate Outcome(c: Codec, chain: seq<Block>, n: uint32, r: uint32, db: DbState, res: Result, quiet: bool) {
    if res == Success then
      r == n && n < |chain| && db.currentRecon == n + 1 && Holds(c, db, chain[..n + 1])
    else
      && db.currentRecon == n && n <= |chain| && Holds(c, db, chain[..n])
      && (IsFinal(res) ==> r < n)
      && (quiet && r == n ==> n == LIMIT)
      && (quiet && r < n ==> IsFinal(res))
  }

  lemma OfferNext(c: Codec, chain: seq<Block>, f: Faults, db: DbState)
    requires Linked(c, chain) && db.currentRecon < |chain| && Holds(c, db, chain[..db.currentRecon])
    ensures CanInitialize(db)
    ensures var n := db.currentRecon;
            var (db', res) := Integrated(c, f, db, chain[n], Place(n));
            Outcome(c, chain, n, n, db', res, Undisturbed(f))
  {
    var n := db.currentRecon;
    PrefixLinked(c, chain, n);
    Attempt(c, f, db, chain[n], Place(n), chain[..n]);
    FittingNotRejected(c, f, db, chain[n], Place(n), chain[..n]);
    assert chain[..n + 1] == chain[..n] + [chain[n]];
  }

  /** A block with another number than the next is put off or, if it is a repeat, dropped. */
  lemma OfferOther(c: Codec, chain: seq<Block>, f: Faults, db: DbState, b: Block, r: uint32)
    requires db.currentRecon <= |chain| && Holds(c, db, chain[..db.currentRecon]) && r != db.currentRecon
    ensures CanInitialize(db)
    ensures var (db', res) := Integrated(c, f, db, b, Place(r));
            Outcome(c, chain, db.currentRecon, r, db', res, Undisturbed(f))
  {
  }

  /** What an offer does when the least waiting block is the r-th of the chain. */
  lemma Offer(c: Codec, chain: seq<Block>, f: Faults, db: DbState, r: uint32)
    requires GoodChain(c, chain) && r < |chain| && db.currentRecon <= |chain| && Holds(c, db, chain[..db.currentRecon])
    ensures CanInitialize(db)
    ensures var (db', res) := Integrated(c, f, db, c.copy(chain[r]), Place(r));
            Outcome(c, chain, db.currentRecon, r, db', res, Undisturbed(f))
  {
    if r == db.currentRecon {
      OfferNext(c, chain, f, db);
    } else {
      OfferOther(c, chain, f, db, chain[r], r);
    }
  }

  lemma StageAfterOffer(c: Codec, chain: seq<Block>, m: Machine, m': Machine, r: uint32, res: Result, quiet: bool)
    requires Stage(c, chain, m) && Waits(m, r) && forall q: uint32 :: Waits(m, q) ==> r <= q
    requires Outcome(c, chain, m.db.currentRecon, r, m'.db, res, quiet)
    requires m'.pending == if IsFinal(res) then m.pending - {Place(r)} else m.pending
    ensures Stage(c, chain, m') && Progress(m, m')
    ensures NoRepeats(m) ==> NoRepeats(m')
    ensures NoRepeats(m) && quiet && res != Success ==> Settled(m')
  {
    assert forall q: uint32 :: Waits(m', q) <==> Waits(m, q) && !(IsFinal(res) && q == r);
  }

  lemma TryNextStage(c: Codec, chain: seq<Block>, f: Faults, m: Machine)
    requires GoodChain(c, chain) && Stage(c, chain, m) && CanInitialize(m.db)
    ensures var (m', again) := TryNext(c, f, m);
            && Stage(c, chain, m') && Progress(m, m')
            && (NoRepeats(m) ==> NoRepeats(m'))
            && (NoRepeats(m) && Undisturbed(f) && !again ==> Settled(m'))
  {
    if m.pending != map[] {
      var k := Least(m.pending.Keys);
      LeastWaits(c, chain, m);
      Offer(c, chain, f, m.db, k.recon);
      var res := Integrated(c, f, m.db, c.copy(m.pending[k]), k).1;
      StageAfterOffer(c, chain, m, TryNext(c, f, m).0, k.recon, res, Undisturbed(f));
    }
  }

  lemma LeastWaits(c: Codec, chain: seq<Block>, m: Machine)
    requires Stage(c, chain, m) && m.pending != map[]
    ensures var k := Least(m.pending.Keys);
            && k == Place(k.recon) && k.recon < |chain| && m.pending[k] == chain[k.recon]
            && forall q: uint32 :: Waits(m, q) ==> k.recon <= q
  {
  }

  lemma ProgressTrans(m: Machine, m': Machine, m'': Machine)
    requires Progress(m, m') && Progress(m', m'')
    ensures Progress(m, m'')
  {
  }

  /** Integration stops with a longer prefix; undisturbed, with the longest one possible. */
  lemma {:induction false} TryIntegrateStage(c: Codec, chain: seq<Block>, faults: nat -> Faults, i: nat, m: Machine)
    requires GoodChain(c, chain) && Stage(c, chain, m) && CanInitialize(m.db)
    ensures var m' := TryIntegrate(c, faults, i, m);
            && Stage(c, chain, m') && Progress(m, m')
            && (NoRepeats(m) ==> NoRepeats(m'))
            && (NoRepeats(m) && Calm(faults) ==> Settled(m'))
    decreases |m.pending|
  {
    TryNextStage(c, chain, faults(i), m);
    var (m', again) := TryNext(c, faults(i), m);
    if again {
      TryIntegrateStage(c, chain, faults, i + 1, m');
      ProgressTrans(m, m', TryIntegrate(c, faults, i + 1, m'));
    }
  }

  // ----- runs -----

  /** The delivery carries the block of the chain that its number names. */
  predicate FromChain(c: Codec, chain: seq<Block>, e: Delivery) {
    e.key == Place(e.key.recon) && e.key.recon < |chain| && c.decode(e.data) == Some(chain[e.key.recon])
  }

  ghost predicate AllFromChain(c: Codec, chain: seq<Block>, events: seq<Delivery>) {
    forall i :: 0 <= i < |events| ==> FromChain(c, chain, events[i])
  }

  ghost predicate NeverDisturbed(events: seq<Delivery>) {
    forall i :: 0 <= i < |events| ==> Calm(events[i].faults)
  }

  /** The numbers that have arrived. */
  function Delivered(events: seq<Delivery>): (d: set<uint32>) {
    if events == [] then {}
    else Delivered(events[..|events| - 1]) + {events[|events| - 1].key.recon}
  }

  /** All below the cursor arrived, what waits arrived, and what arrived and is not integrated waits. */
  ghost predicate Accounted(m: Machine, d: set<uint32>) {
    && (forall r: uint32 :: r < m.db.currentRecon ==> r in d)
    && (forall r: uint32 :: Waits(m, r) ==> r in d)
    && (forall r: uint32 :: r in d && r >= m.db.currentRecon ==> Waits(m, r))
  }

  lemma StoreStage(c: Codec, chain: seq<Block>, m: Machine, r: uint32)
    requires Stage(c, chain, m) && r < |chain|
    ensures var m' := Store(m, Place(r), chain[r]);
            && Stage(c, chain, m') && m'.db == m.db
            && (forall q: uint32 :: Waits(m', q) <==> Waits(m, q) || q == r)
  {
  }

  lemma ProgressAccounted(m: Machine, m': Machine, d: set<uint32>)
    requires Accounted(m, d) && Progress(m, m')
    ensures Accounted(m', d)
  {
  }

  lemma AddBlockStage(c: Codec, chain: seq<Block>, e: Delivery, m: Machine, d: set<uint32>)
    requires GoodChain(c, chain) && Stage(c, chain, m) && Accounted(m, d) && FromChain(c, chain, e)
    requires CanInitialize(m.db)
    ensures var m' := AddBlock(c, e, m);
            Stage(c, chain, m') && Accounted(m', d + {e.key.recon})
  {
    var r := e.key.recon;
    var stored := Store(m, e.key, chain[r]);
    StoreStage(c, chain, m, r);
    assert Accounted(stored, d + {r});
    TryIntegrateStage(c, chain, e.faults, 0, stored);
    ProgressAccounted(stored, AddBlock(c, e, m), d + {r});
  }

  /** Whatever fails meanwhile, no block of the chain is lost and only a prefix is integrated. */
  lemma {:induction false} RunStage(c: Codec, chain: seq<Block>, events: seq<Delivery>)
    requires GoodChain(c, chain) && AllFromChain(c, chain, events)
    ensures Stage(c, chain, Run(c, events)) && Accounted(Run(c, events), Delivered(events))
  {
    if events != [] {
      var init, e := events[..|events| - 1], events[|events| - 1];
      RunStage(c, chain, init);
      AddBlockStage(c, chain, e, Run(c, init), Delivered(init));
    }
  }

  lemma RepeatIsLeast(c: Codec, chain: seq<Block>, m: Machine, r: uint32)
    requires Stage(c, chain, m) && NoRepeats(m) && r < m.db.currentRecon
    ensures r < |chain|
    ensures var stored := Store(m, Place(r), chain[r]);
            && Place(r) in stored.pending && stored.pending[Place(r)] == chain[r]
            && Least(stored.pending.Keys) == Place(r)
            && stored.pending - {Place(r)} == m.pending
  {
    assert !Waits(m, r);
    var stored := Store(m, Place(r), chain[r]);
    StoreStage(c, chain, m, r);
    forall j | j in stored.pending.Keys
      ensures KeyLe(Place(r), j)
    {
      assert Waits(stored, j.recon);
    }
    LeastIs(stored.pending.Keys, Place(r));
  }

  /** A repeat of an integrated block is taken out again and changes nothing. */
  lemma RepeatIgnored(c: Codec, chain: seq<Block>, e: Delivery, m: Machine)
    requires GoodChain(c, chain) && Stage(c, chain, m) && NoRepeats(m) && FromChain(c, chain, e)
    requires CanInitialize(m.db) && e.key.recon < m.db.currentRecon && Undisturbed(e.faults(0))
    ensures var m' := AddBlock(c, e, m);
            m'.pending == m.pending && m'.db.currentRecon == m.db.currentRecon
  {
    RepeatIsLeast(c, chain, m, e.key.recon);
    Offer(c, chain, e.faults(0), m.db, e.key.recon);
  }

  lemma SameStays(m: Machine, m': Machine)
    requires m'.pending == m.pending && m'.db.currentRecon == m.db.currentRecon && NoRepeats(m) && Settled(m)
    ensures NoRepeats(m') && Settled(m')
  {
    assert forall r: uint32 :: Waits(m', r) <==> Waits(m, r);
  }

  lemma NewBlockSettled(c: Codec, chain: seq<Block>, e: Delivery, m: Machine)
    requires GoodChain(c, chain) && Stage(c, chain, m) && NoRepeats(m) && FromChain(c, chain, e)
    requires CanInitialize(m.db) && e.key.recon >= m.db.currentRecon && Calm(e.faults)
    ensures NoRepeats(AddBlock(c, e, m)) && Settled(AddBlock(c, e, m))
  {
    var stored := Store(m, e.key, chain[e.key.recon]);
    assert Stage(c, chain, stored) && NoRepeats(stored) && stored.db == m.db by {
      StoreStage(c, chain, m, e.key.recon);
    }
    TryIntegrateStage(c, chain, e.faults, 0, stored);
  }

  lemma AddBlockSettled(c: Codec, chain: seq<Block>, e: Delivery, m: Machine)
    requires GoodChain(c, chain) && Stage(c, chain, m) && NoRepeats(m) && Settled(m) && FromChain(c, chain, e)
    requires CanInitialize(m.db) && Calm(e.faults)
    ensures NoRepeats(AddBlock(c, e, m)) && Settled(AddBlock(c, e, m))
  {
    if e.key.recon < m.db.currentRecon {
      RepeatIgnored(c, chain, e, m);
      SameStays(m, AddBlock(c, e, m));
    } else {
      NewBlockSettled(c, chain, e, m);
    }
  }

  lemma {:induction false} RunSettled(c: Codec, chain: seq<Block>, events: seq<Delivery>)
    requires GoodChain(c, chain) && AllFromChain(c, chain, events) && NeverDisturbed(events)
    ensures NoRepeats(Run(c, events)) && Settled(Run(c, events))
  {
    if events != [] {
      var init, e := events[..|events| - 1], events[|events| - 1];
      RunSettled(c, chain, init);
      RunStage(c, chain, init);
      AddBlockSettled(c, chain, e, Run(c, init));
    }
  }

  // ----- theorems -----

  lemma {:induction false} DeliveredBelow(c: Codec, chain: seq<Block>, events: seq<Delivery>)
    requires AllFromChain(c, chain, events)
    ensures forall r :: r in Delivered(events) ==> r < |chain|
  {
    if events != [] {
      DeliveredBelow(c, chain, events[..|events| - 1]);
    }
  }

  /** The blocks with the given numbers, from n on, at their places. */
  ghost function WaitingFrom(chain: seq<Block>, d: set<uint32>, n: uint32): (pending: map<Key, Block>)
    requires forall r :: r in d ==> r < |chain|
  {
    map r | r in d && n <= r :: Place(r) := chain[r]
  }

  /**
    The state after the deliveries d: the integrated prefix ends at the least
    number that has not arrived (or that can no longer be stored), and exactly
    the later arrivals wait.
   */
  ghost predicate Determined(c: Codec, chain: seq<Block>, d: set<uint32>, m: Machine)
    requires forall r :: r in d ==> r < |chain|
  {
    var n := m.db.currentRecon;
    && n <= |chain| && Holds(c, m.db, chain[..n])
    && (forall r: uint32 :: r < n ==> r in d)
    && (n in d ==> n == LIMIT)
    && m.pending == WaitingFrom(chain, d, n)
  }

  lemma StageDetermined(c: Codec, chain: seq<Block>, d: set<uint32>, m: Machine)
    requires (forall r :: r in d ==> r < |chain|) && Stage(c, chain, m) && Accounted(m, d)
    requires NoRepeats(m) && Settled(m)
    ensures Determined(c, chain, d, m)
  {
    var n := m.db.currentRecon;
    var w := WaitingFrom(chain, d, n);
    forall k | k in m.pending
      ensures k in w && w[k] == m.pending[k]
    {
      assert Waits(m, k.recon);
    }
    forall k | k in w
      ensures k in m.pending
    {
      var r :| r in d && n <= r && k == Place(r);
      assert Waits(m, r);
    }
  }

  /** Order independence: after any undisturbed run, the set of arrivals alone determines the state. */
  lemma {:induction false} OrderIndependent(c: Codec, chain: seq<Block>, events: seq<Delivery>)
    requires GoodChain(c, chain) && AllFromChain(c, chain, events) && NeverDisturbed(events)
    ensures forall r :: r in Delivered(events) ==> r < |chain|
    ensures Determined(c, chain, Delivered(events), Run(c, events))
  {
    DeliveredBelow(c, chain, events);
    RunStage(c, chain, events);
    RunSettled(c, chain, events);
    StageDetermined(c, chain, Delivered(events), Run(c, events));
  }

  lemma SameState(c: Codec, chain: seq<Block>, d: set<uint32>, m: Machine, m': Machine)
    requires forall r :: r in d ==> r < |chain|
    requires Determined(c, chain, d, m) && Determined(c, chain, d, m')
    ensures m.pending == m'.pending && m.db.(initialized := true) == m'.db.(initialized := true)
  {
    assert m.db.currentRecon == m'.db.currentRecon;
  }

  /** Two runs that deliver the same blocks end in the same state. */
  lemma {:induction false} Confluent(c: Codec, chain: seq<Block>, events: seq<Delivery>, events': seq<Delivery>)
    requires GoodChain(c, chain) && Delivered(events) == Delivered(events')
    requires AllFromChain(c, chain, events) && NeverDisturbed(events)
    requires AllFromChain(c, chain, events') && NeverDisturbed(events')
    ensures var m, m' := Run(c, events), Run(c, events');
            m.pending == m'.pending && m.db.(initialized := true) == m'.db.(initialized := true)
  {
    OrderIndependent(c, chain, events);
    OrderIndependent(c, chain, events');
    SameState(c, chain, Delivered(events), Run(c, events), Run(c, events'));
  }

  /** Once every block of the chain has arrived, all are integrated and none waits. */
  lemma {:induction false} AllArrived(c: Codec, chain: seq<Block>, events: seq<Delivery>)
    requires GoodChain(c, chain) && |chain| <= LIMIT
    requires AllFromChain(c, chain, events) && NeverDisturbed(events)
    requires forall r: uint32 :: r < |chain| ==> r in Delivered(events)
    ensures var m := Run(c, events);
            m.pending == map[] && m.db.currentRecon == |chain| && Holds(c, m.db, chain)
  {
    OrderIndependent(c, chain, events);
    var n := Run(c, events).db.currentRecon;
    assert n == |chain|;
    assert chain[..n] == chain;
  }

  // ----- recovery -----

  /** The repeats of integrated blocks that failures left waiting. */
  ghost function Repeats(m: Machine): (keys: set<Key>) {
    set k | k in m.pending && k.recon < m.db.currentRecon
  }

  lemma RepeatsEmpty(c: Codec, chain: seq<Block>, m: Machine)
    requires Stage(c, chain, m)
    ensures NoRepeats(m) <==> Repeats(m) == {}
  {
    if NoRepeats(m) {
      forall k | k in m.pending
        ensures k.recon >= m.db.currentRecon
      {
        assert Waits(m, k.recon);
      }
    } else {
      var r: uint32 :| Waits(m, r) && r < m.db.currentRecon;
      assert Place(r) in Repeats(m);
    }
  }

  lemma RepeatOffered(c: Codec, chain: seq<Block>, f: Faults, m: Machine)
    requires GoodChain(c, chain) && Stage(c, chain, m) && CanInitialize(m.db) && Repeats(m) != {} && Undisturbed(f)
    ensures var (m', again) := TryNext(c, f, m);
            !again && m'.db.currentRecon == m.db.currentRecon && |Repeats(m')| == |Repeats(m)| - 1
  {
    var k := Least(m.pending.Keys);
    LeastWaits(c, chain, m);
    var repeat :| repeat in Repeats(m);
    assert KeyLe(k, repeat);
    Offer(c, chain, f, m.db, k.recon);
    RepeatsWithout(m, TryNext(c, f, m).0, k);
  }

  lemma RepeatsWithout(m: Machine, m': Machine, k: Key)
    requires m'.pending == m.pending - {k} && m'.db.currentRecon == m.db.currentRecon && k in Repeats(m)
    ensures |Repeats(m')| == |Repeats(m)| - 1
  {
    assert Repeats(m') == Repeats(m) - {k};
  }

  /** An undisturbed delivery of a new block drops one of the repeats. */
  lemma RepeatDropped(c: Codec, chain: seq<Block>, e: Delivery, m: Machine)
    requires GoodChain(c, chain) && Stage(c, chain, m) && CanInitialize(m.db) && FromChain(c, chain, e)
    requires Repeats(m) != {} && e.key.recon >= m.db.currentRecon && Undisturbed(e.faults(0))
    ensures |Repeats(AddBlock(c, e, m))| == |Repeats(m)| - 1
  {
    var stored := Store(m, e.key, chain[e.key.recon]);
    StoreStage(c, chain, m, e.key.recon);
    assert Repeats(stored) == Repeats(m);
    RepeatOffered(c, chain, e.faults(0), stored);
  }

  /** The later deliveries are undisturbed and each brings a block that is not integrated yet. */
  ghost predicate BringsNew(c: Codec, events: seq<Delivery>, later: seq<Delivery>) {
    forall i :: 0 <= i < |later| ==>
      && later[i].key.recon >= Run(c, events + later[..i]).db.currentRecon
      && Calm(later[i].faults)
  }

  lemma SplitLast(events: seq<Delivery>, later: seq<Delivery>)
    requires later != []
    ensures var all, n := events + later, |later| - 1;
            all[..|all| - 1] == events + later[..n] && all[|all| - 1] == later[n]
  {
  }

  lemma {:induction false} Heals(c: Codec, chain: seq<Block>, events: seq<Delivery>, later: seq<Delivery>)
    requires GoodChain(c, chain) && AllFromChain(c, chain, events + later) && BringsNew(c, events, later)
    ensures var m := Run(c, events + later);
            || (later != [] && NoRepeats(m) && Settled(m))
            || |Repeats(m)| + |later| <= |Repeats(Run(c, events))|
  {
    if later == [] {
      assert events + later == events;
    } else {
      var init, e := later[..|later| - 1], later[|later| - 1];
      SplitLast(events, later);
      AllButLast(c, chain, events + later);
      BringsNewBefore(c, events, later);
      Heals(c, chain, events, init);
      RunStage(c, chain, events + init);
      HealsStep(c, chain, e, Run(c, events + init));
    }
  }

  lemma AllButLast(c: Codec, chain: seq<Block>, events: seq<Delivery>)
    requires AllFromChain(c, chain, events) && events != []
    ensures AllFromChain(c, chain, events[..|events| - 1]) && FromChain(c, chain, events[|events| - 1])
  {
  }

  lemma {:induction false} BringsNewBefore(c: Codec, events: seq<Delivery>, later: seq<Delivery>)
    requires BringsNew(c, events, later) && later != []
    ensures var n := |later| - 1;
            && BringsNew(c, events, later[..n])
            && later[n].key.recon >= Run(c, events + later[..n]).db.currentRecon
            && Calm(later[n].faults)
  {
    var n := |later| - 1;
    forall i | 0 <= i < n
      ensures later[..n][i] == later[i] && later[..n][..i] == later[..i]
    {
    }
  }

  lemma HealsStep(c: Codec, chain: seq<Block>, e: Delivery, m: Machine)
    requires GoodChain(c, chain) && Stage(c, chain, m) && CanInitialize(m.db) && FromChain(c, chain, e)
    requires e.key.recon >= m.db.currentRecon && Calm(e.faults)
    ensures var m' := AddBlock(c, e, m);
            if NoRepeats(m) then NoRepeats(m') && Settled(m') else |Repeats(m')| == |Repeats(m)| - 1
  {
    RepeatsEmpty(c, chain, m);
    if NoRepeats(m) {
      NewBlockSettled(c, chain, e, m);
    } else {
      RepeatDropped(c, chain, e, m);
    }
  }

  /**
    After any failures, enough undisturbed deliveries of blocks not yet integrated
    make up for all of them: one, and one more for every repeat left waiting.
   */
  lemma {:induction false} Recovers(c: Codec, chain: seq<Block>, events: seq<Delivery>, later: seq<Delivery>)
    requires GoodChain(c, chain) && AllFromChain(c, chain, events + later) && BringsNew(c, events, later)
    requires |later| > |Repeats(Run(c, events))|
    ensures var d := Delivered(events + later);
            (forall r :: r in d ==> r < |chain|) && Determined(c, chain, d, Run(c, events + later))
  {
    Heals(c, chain, events, later);
    DeliveredBelow(c, chain, events + later);
    RunStage(c, chain, events + later);
    StageDetermined(c, chain, Delivered(events + later), Run(c, events + later));
  }
}
