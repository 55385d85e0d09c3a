/**
  A socket that others read from: a readiness that comes while nobody waits is
  kept for the next read. The steps are those taken under the lock, in any
  interleaving; a callback is run once the lock is released.
 */
module UncontrolledSocket {
  import opened Base

  /** A callback, by the read it was passed to. */
  type Id = nat

  /** The flags, the stored callback, and how many waits are pending on the descriptor. */
  datatype Latch = Latch(wantRead: bool, queued: bool, callback: Option<Id>, waits: nat)

  const START := Latch(true, false, None, 0)

  function Queued(s: Latch): (r: Latch) {
    s.(queued := true, waits := s.waits + 1)
  }

  /** A read on an open or closed socket; the result has the callback to run now, if any. */
  function Reading(s: Latch, id: Id, open: bool): (r: (Latch, Option<Id>)) {
    if s.queued && s.wantRead then (s.(wantRead := false), Some(id))
    else if !s.queued && s.wantRead && open then (Queued(s.(wantRead := false)), Some(id))
    else if !open then (s, Some(id))
    else (s.(callback := Some(id)), None)
  }

  /** The descriptor becomes readable. With no wait pending, nobody notices. */
  function Completing(s: Latch, ok: bool, open: bool): (r: (Latch, Option<Id>)) {
    if s.waits == 0 then (s, None)
    else
      var done := s.(queued := false, waits := s.waits - 1);
      var again := if ok && open then Queued(done) else done;
      (again.(callback := None, wantRead := s.callback.None?), s.callback)
  }

  /** A wait that ends in an error is used up, and its handler is never called. */
  function Failing(s: Latch): (r: Latch) {
    if s.waits == 0 then s else s.(waits := s.waits - 1)
  }

  // ----- the object -----

  class Socket {
    var wantRead: bool
    var queued: bool
    var callback: Option<Id>
    var waits: nat

    ghost function State(): (s: Latch)
      reads this
    {
      Latch(wantRead, queued, callback, waits)
    }

    constructor ()
      ensures State() == START
    {
      wantRead := true;
      queued := false;
      callback := None;
      waits := 0;
    }

    method QueueRead()
      modifies this
      ensures State() == Queued(old(State()))
    {
      queued := true;
      waits := waits + 1;
    }

    method Read(id: Id, open: bool) returns (run: Option<Id>)
      modifies this
      ensures (State(), run) == Reading(old(State()), id, open)
    {
      if queued && wantRead {
        wantRead := false;
        return Some(id);
      }
      if !queued && wantRead && open {
        wantRead := false;
        QueueRead();
        return Some(id);
      }
      if !open {
        return Some(id);
      }
      callback := Some(id);
      return None;
    }

    /** The completion of a wait. */
    method Complete(ok: bool, open: bool) returns (run: Option<Id>)
      requires waits > 0
      modifies this
      ensures (State(), run) == Completing(old(State()), ok, open)
    {
      waits := waits - 1;
      queued := false;
      if ok && open {
        QueueRead();
      }
      var localCB := callback;
      callback := None;
      if localCB.Some? {
        wantRead := false;
      } else {
        wantRead := true;
      }
      return localCB;
    }

    /** A wait ends in an error: the mark that one is queued stays. */
    method Fail()
      requires waits > 0
      modifies this
      ensures State() == Failing(old(State()))
    {
      waits := waits - 1;
    }
  }

  // ----- runs -----

  datatype Event = Read(id: Id, open: bool) | Ready(ok: bool, open: bool) | Failed

  /** The socket with all reads issued and all callbacks released so far. */
  datatype History = History(latch: Latch, issued: seq<Id>, released: seq<Id>)

  function Listed(id: Option<Id>): (ids: seq<Id>) {
    if id.Some? then [id.value] else []
  }

  function Next(h: History, e: Event): (r: History) {
    match e
    case Read(id, open) =>
      var (s, run) := Reading(h.latch, id, open);
      History(s, h.issued + [id], h.released + Listed(run))
    case Ready(ok, open) =>
      var (s, run) := Completing(h.latch, ok, open);
      History(s, h.issued, h.released + Listed(run))
    case Failed => h.(latch := Failing(h.latch))
  }

  function Run(events: seq<Event>): (h: History) {
    if events == [] then History(START, [], [])
    else Next(Run(events[..|events| - 1]), events[|events| - 1])
  }

  /** A read is only issued when no callback is stored. */
  predicate Orderly(events: seq<Event>) {
    events != [] ==>
      var init, e := events[..|events| - 1], events[|events| - 1];
      Orderly(init) && (e.Read? ==> Run(init).latch.callback.None?)
  }

  /** Nothing fails, except perhaps a wait. */
  predicate IsOpen(e: Event) {
    e.Failed? || (e.open && (e.Ready? ==> e.ok))
  }

  ghost predicate Open(events: seq<Event>) {
    forall i :: 0 <= i < |events| ==> IsOpen(events[i])
  }

  ghost predicate Healthy(events: seq<Event>) {
    Open(events) && forall i :: 0 <= i < |events| ==> !events[i].Failed?
  }

  lemma {:induction false} RunSnoc(events: seq<Event>, e: Event)
    ensures Run(events + [e]) == Next(Run(events), e)
  {
    assert (events + [e])[..|events|] == events;
  }

  // ----- callbacks -----

  /** Every read issued was released exactly once or is the one waiting. */
  ghost predicate Conserved(h: History) {
    multiset(h.issued) == multiset(h.released) + multiset(Listed(h.latch.callback))
  }

  /** No callback is dropped or run twice, whatever fails; it may wait for ever, though. */
  lemma {:induction false} RunConserves(events: seq<Event>)
    requires Orderly(events)
    ensures Conserved(Run(events))
  {
    if events != [] {
      var h := Run(events[..|events| - 1]);
      RunConserves(events[..|events| - 1]);
      NextConserves(h, events[|events| - 1]);
    }
  }

  lemma NextConserves(h: History, e: Event)
    requires Conserved(h) && (e.Read? ==> h.latch.callback.None?)
    ensures Conserved(Next(h, e))
  {
    match e
    case Read(id, open) =>
      var (s, run) := Reading(h.latch, id, open);
      ReadingLists(h.latch, id, open);
      StepConserves(h.issued, h.released, [], [id], Listed(run), Listed(s.callback));
    case Ready(ok, open) =>
      var (s, run) := Completing(h.latch, ok, open);
      CompletingLists(h.latch, ok, open);
      StepConserves(h.issued, h.released, Listed(h.latch.callback), [], Listed(run), Listed(s.callback));
      assert h.issued + [] == h.issued;
    case Failed =>
  }

  lemma ReadingLists(s: Latch, id: Id, open: bool)
    requires s.callback.None?
    ensures var (s', run) := Reading(s, id, open); Listed(run) + Listed(s'.callback) == [] + [id]
  {
  }

  lemma CompletingLists(s: Latch, ok: bool, open: bool)
    ensures var (s', run) := Completing(s, ok, open); Listed(run) + Listed(s'.callback) == Listed(s.callback) + []
  {
  }

  lemma StepConserves(issued: seq<Id>, released: seq<Id>, was: seq<Id>, id: seq<Id>, run: seq<Id>, now: seq<Id>)
    requires multiset(issued) == multiset(released) + multiset(was) && run + now == was + id
    ensures multiset(issued + id) == multiset(released + run) + multiset(now)
  {
    Associative(multiset(released), multiset(was), multiset(id));
    Associative(multiset(released), multiset(run), multiset(now));
    assert multiset(was + id) == multiset(was) + multiset(id);
    assert multiset(run + now) == multiset(run) + multiset(now);
  }

  lemma Associative(a: multiset<Id>, b: multiset<Id>, c: multiset<Id>)
    ensures (a + b) + c == a + (b + c)
  {
  }

  ghost predicate Distinct(ids: seq<Id>) {
    forall i, j :: 0 <= i < j < |ids| ==> ids[i] != ids[j]
  }

  lemma {:induction false} DuplicateCounted(ids: seq<Id>, i: nat, j: nat)
    requires i < j < |ids| && ids[i] == ids[j]
    ensures multiset(ids)[ids[i]] >= 2
  {
    assert ids == ids[..j] + ids[j..];
    assert ids[..j][i] == ids[i] && ids[j..][0] == ids[j];
  }

  lemma {:induction false} DistinctCounted(ids: seq<Id>, x: Id)
    requires Distinct(ids)
    ensures multiset(ids)[x] <= 1
  {
    if ids != [] {
      var init, last := ids[..|ids| - 1], ids[|ids| - 1];
      assert ids == init + [last];
      DistinctCounted(init, x);
      if last == x {
        assert x !in init;
      }
    }
  }

  /** Reads with different callbacks: each callback runs at most once. */
  lemma {:induction false} AtMostOnce(events: seq<Event>)
    requires Orderly(events) && Distinct(Run(events).issued)
    ensures Distinct(Run(events).released)
  {
    RunConserves(events);
    DistinctPart(Run(events).released, Run(events).issued);
  }

  lemma DistinctPart(part: seq<Id>, ids: seq<Id>)
    requires multiset(part) <= multiset(ids) && Distinct(ids)
    ensures Distinct(part)
  {
    forall i, j | 0 <= i < j < |part|
      ensures part[i] != part[j]
    {
      if part[i] == part[j] {
        DuplicateCounted(part, i, j);
        DistinctCounted(ids, part[i]);
      }
    }
  }

  // ----- the event it implements -----

  /** An auto-reset event with room for one waiter. */
  datatype AutoReset = AutoReset(signalled: bool, waiter: Option<Id>)

  function Await(a: AutoReset, id: Id): (r: (AutoReset, Option<Id>)) {
    if a.signalled then (a.(signalled := false), Some(id)) else (a.(waiter := Some(id)), None)
  }

  function Signal(a: AutoReset): (r: (AutoReset, Option<Id>)) {
    if a.waiter.Some? then (a.(waiter := None), a.waiter) else (a.(signalled := true), None)
  }

  function Specified(events: seq<Event>): (r: (AutoReset, seq<Id>)) {
    if events == [] then (AutoReset(true, None), [])
    else
      var (a, released) := Specified(events[..|events| - 1]);
      var (a', run) := match events[|events| - 1] {
        case Read(id, _) => Await(a, id)
        case Ready(_, _) => Signal(a)
        case Failed => (a, None)
      };
      (a', released + Listed(run))
  }

  /** One wait is pending if and only if it is marked; none is only before the first read. */
  predicate Armed(h: History) {
    && h.latch.waits == (if h.latch.queued then 1 else 0)
    && (h.latch.queued <==> h.issued != [])
    && (!h.latch.queued ==> h.latch.wantRead && h.latch.callback.None?)
    && (h.latch.callback.Some? ==> !h.latch.wantRead)
  }

  /** A healthy socket is an auto-reset event that starts signalled. */
  lemma {:induction false} Refines(events: seq<Event>)
    requires Orderly(events) && Healthy(events)
    ensures var h, (a, released) := Run(events), Specified(events);
            Armed(h) && a == AutoReset(h.latch.wantRead, h.latch.callback) && released == h.released
  {
    if events != [] {
      Refines(events[..|events| - 1]);
    }
  }

  lemma {:induction false} ReadsIssued(events: seq<Event>, i: nat)
    requires i < |events| && events[i].Read?
    ensures Run(events).issued != []
  {
    if i < |events| - 1 {
      ReadsIssued(events[..|events| - 1], i);
    }
  }

  /** From the first read on, exactly one wait is always pending, so every readiness is noticed. */
  lemma {:induction false} AlwaysArmed(events: seq<Event>, i: nat)
    requires Orderly(events) && Healthy(events) && i < |events| && events[i].Read?
    ensures Run(events).latch.waits == 1 && Run(events).latch.queued
  {
    Refines(events);
    ReadsIssued(events, i);
  }

  // ----- waits that fail -----

  /** A pending wait has ended in an error. */
  predicate WaitFailed(events: seq<Event>) {
    events != [] &&
      var init, e := events[..|events| - 1], events[|events| - 1];
      WaitFailed(init) || (e.Failed? && Run(init).latch.waits > 0)
  }

  /** After a failed wait the socket is marked as queued for ever, with no wait pending. */
  lemma {:induction false} ArmedUnlessFailed(events: seq<Event>)
    requires Orderly(events) && Open(events)
    ensures var h := Run(events);
            if WaitFailed(events) then h.latch.queued && h.latch.waits == 0 else Armed(h)
  {
    if events != [] {
      ArmedUnlessFailed(events[..|events| - 1]);
      assert IsOpen(events[|events| - 1]);
    }
  }

  // ----- closed sockets -----

  /** A read on a closed socket runs its own callback at once, and disturbs no stored one. */
  lemma {:induction false} ClosedReadRuns(events: seq<Event>, id: Id)
    ensures var h, h' := Run(events), Run(events + [Read(id, false)]);
            h'.released == h.released + [id] && h'.latch.callback == h.latch.callback && h'.latch.waits == h.latch.waits
  {
    RunSnoc(events, Read(id, false));
  }

  /**
    A wait that completes with an error, or after the socket was closed, hands out
    the stored callback but is not renewed.
   */
  lemma {:induction false} NotRenewed(events: seq<Event>, ok: bool, open: bool)
    requires Orderly(events) && Healthy(events) && Run(events).issued != [] && !(ok && open)
    ensures var h, h' := Run(events), Run(events + [Ready(ok, open)]);
            && h'.latch.waits == 0 && !h'.latch.queued && h'.latch.callback.None?
            && h'.released == h.released + Listed(h.latch.callback)
  {
    Refines(events);
    RunSnoc(events, Ready(ok, open));
  }

  /** A stored callback runs at the next readiness exactly when no wait has failed. */
  lemma {:induction false} StoredRunsNext(events: seq<Event>, id: Id)
    requires Orderly(events) && Open(events) && Run(events).latch.callback == Some(id)
    ensures Run(events + [Ready(true, true)]).released == Run(events).released + [id] <==> !WaitFailed(events)
  {
    ArmedUnlessFailed(events);
    RunSnoc(events, Ready(true, true));
  }

  /** After a failed wait a stored callback is never run. */
  lemma {:induction false} StoredForEver(events: seq<Event>, later: seq<Event>, id: Id)
    requires Orderly(events) && Open(events) && WaitFailed(events) && Run(events).latch.callback == Some(id)
    requires forall i :: 0 <= i < |later| ==> !later[i].Read?
    ensures Run(events + later) == Run(events)
  {
    if later == [] {
      assert events + later == events;
    } else {
      var all, n := events + later, |later| - 1;
      assert all[..|all| - 1] == events + later[..n] && all[|all| - 1] == later[n];
      StoredForEver(events, later[..n], id);
      ArmedUnlessFailed(events);
    }
  }

  lemma HealthyPrefix(events: seq<Event>, n: nat)
    requires Healthy(events) && n <= |events|
    ensures Healthy(events[..n])
  {
  }

  lemma {:induction false} OrderlyPrefix(events: seq<Event>, n: nat)
    requires Orderly(events) && n <= |events|
    ensures Orderly(events[..n])
  {
    if n == |events| {
      assert events[..n] == events;
    } else {
      var init := events[..|events| - 1];
      assert init[..n] == events[..n];
      OrderlyPrefix(init, n);
    }
  }

  lemma {:induction false} StaysSignalled(events: seq<Event>, mid: seq<Event>)
    requires Orderly(events + mid) && Healthy(events + mid) && forall i :: 0 <= i < |mid| ==> mid[i].Ready?
    requires Specified(events).0 == AutoReset(true, None)
    ensures Specified(events + mid).0 == AutoReset(true, None)
  {
    if mid == [] {
      assert events + mid == events;
    } else {
      var all, fewer := events + mid, mid[..|mid| - 1];
      assert all[..|all| - 1] == events + fewer;
      StaysSignalled(events, fewer);
    }
  }

  /**
    No readiness is lost: it releases the callback that waits or, if none does,
    the next read is released at once, however long it takes to come.
   */
  lemma {:induction false} NoReadinessLost(before: seq<Event>, mid: seq<Event>, id: Id)
    requires forall i :: 0 <= i < |mid| ==> mid[i].Ready?
    requires var all := before + [Ready(true, true)] + mid; Orderly(all) && Healthy(all)
    ensures var h, h', all := Run(before), Run(before + [Ready(true, true)]), before + [Ready(true, true)] + mid;
            if h.latch.callback.Some? then h'.released == h.released + [h.latch.callback.value]
            else Run(all + [Read(id, true)]).released == Run(all).released + [id]
  {
    var now := before + [Ready(true, true)];
    var all := now + mid;
    assert now == all[..|now|] && before == all[..|before|];
    HealthyPrefix(all, |now|);
    HealthyPrefix(all, |before|);
    OrderlyPrefix(all, |now|);
    OrderlyPrefix(all, |before|);
    RunSnoc(before, Ready(true, true));
    Refines(before);
    Refines(now);
    if Run(before).latch.callback.None? {
      StaysSignalled(now, mid);
      Refines(all);
      RunSnoc(all, Read(id, true));
    }
  }

  /** A read loses a callback exactly when one is still stored. */
  lemma {:induction false} OverlapLoses(events: seq<Event>, id: Id)
    requires Orderly(events) && Healthy(events)
    ensures Conserved(Run(events + [Read(id, true)])) <==> Run(events).latch.callback.None?
  {
    var h, e := Run(events), Read(id, true);
    Refines(events);
    RunConserves(events);
    RunSnoc(events, e);
    if h.latch.callback.None? {
      NextConserves(h, e);
    } else {
      SizesConserved(h);
      if Conserved(Next(h, e)) {
        SizesConserved(Next(h, e));
      }
    }
  }

  lemma SizesConserved(h: History)
    requires Conserved(h)
    ensures |h.issued| == |h.released| + |Listed(h.latch.callback)|
  {
    assert |multiset(h.issued)| == |h.issued| && |multiset(h.released)| == |h.released|;
    assert |multiset(Listed(h.latch.callback))| == |Listed(h.latch.callback)|;
  }
}
