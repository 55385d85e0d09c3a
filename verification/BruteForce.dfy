/**
  Counting offences per address and locking out addresses for a while. The
  clock is read by the caller and handed in with every call.
 */
module BruteForce {
  /** Clock ticks, in nanoseconds. */
  type Time = int

  const SECOND := 1000000000
  const MAX_OFFENSES := 3
  const LOCKOUT := 60 * SECOND
  const CLEANUP_INTERVAL := 20 * SECOND

  datatype Offender = Offender(offenses: nat, lastOffense: Time)

  datatype Record = Record(offenders: map<string, Offender>, blocked: map<string, Time>, nextCleanup: Time)

  const START := Record(map[], map[], 0)

  function StillBlocked(blocked: map<string, Time>, now: Time): (r: map<string, Time>) {
    map a | a in blocked && blocked[a] >= now :: blocked[a]
  }

  function StillOffending(offenders: map<string, Offender>, now: Time): (r: map<string, Offender>) {
    map a | a in offenders && offenders[a].lastOffense + LOCKOUT >= now :: offenders[a]
  }

  function Cleaned(s: Record, now: Time): (r: Record) {
    if s.nextCleanup < now then s
    else Record(StillOffending(s.offenders, now), StillBlocked(s.blocked, now), now + CLEANUP_INTERVAL)
  }

  function Offended(s: Record, a: string, now: Time): (r: Record) {
    if a in s.blocked then s
    else if a !in s.offenders then s.(offenders := s.offenders[a := Offender(1, now)])
    else
      var n := s.offenders[a].offenses + 1;
      if n >= MAX_OFFENSES then s.(blocked := s.blocked[a := now + LOCKOUT], offenders := s.offenders - {a})
      else s.(offenders := s.offenders[a := Offender(n, now)])
  }

  // ----- the object -----

  class BruteForce {
    var offenders: map<string, Offender>
    var mapAddressToForgiveness: map<string, Time>
    var nextCleanup: Time

    ghost function State(): (s: Record)
      reads this
    {
      Record(offenders, mapAddressToForgiveness, nextCleanup)
    }

    constructor ()
      ensures State() == START
    {
      offenders := map[];
      mapAddressToForgiveness := map[];
      nextCleanup := 0;
    }

    method CheckAddress(address: string, now: Time) returns (ok: bool)
      modifies this
      ensures State() == Cleaned(old(State()), now) && (ok <==> address !in State().blocked)
    {
      Cleanup(now);
      return address !in mapAddressToForgiveness;
    }

    method AddOffense(address: string, now: Time)
      modifies this
      ensures State() == Offended(old(State()), address, now)
    {
      if address in mapAddressToForgiveness {
        return;
      }
      if address !in offenders {
        offenders := offenders[address := Offender(1, now)];
      } else {
        var offender := Offender(offenders[address].offenses + 1, now);
        offenders := offenders[address := offender];
        if offender.offenses >= MAX_OFFENSES {
          mapAddressToForgiveness := mapAddressToForgiveness[address := offender.lastOffense + LOCKOUT];
          offenders := offenders - {address};
        }
      }
    }

    /** Goes through both maps and erases what has expired. */
    method Cleanup(now: Time)
      modifies this
      ensures State() == Cleaned(old(State()), now)
    {
      if nextCleanup < now {
        return;
      }
      nextCleanup := now + CLEANUP_INTERVAL;
      Forgive(now);
      ResetPending(now);
    }

    method Forgive(now: Time)
      modifies this`mapAddressToForgiveness
      ensures mapAddressToForgiveness == StillBlocked(old(mapAddressToForgiveness), now)
    {
      ghost var was := mapAddressToForgiveness;
      var left := mapAddressToForgiveness.Keys;
      while left != {}
        invariant left <= mapAddressToForgiveness.Keys <= was.Keys
        invariant forall a :: a in was ==> (a in mapAddressToForgiveness <==> a in left || was[a] >= now)
        invariant forall a :: a in mapAddressToForgiveness ==> mapAddressToForgiveness[a] == was[a]
        decreases |left|
      {
        var a :| a in left;
        left := left - {a};
        if mapAddressToForgiveness[a] < now {
          mapAddressToForgiveness := mapAddressToForgiveness - {a};
        }
      }
    }

    method ResetPending(now: Time)
      modifies this`offenders
      ensures offenders == StillOffending(old(offenders), now)
    {
      ghost var was := offenders;
      var left := offenders.Keys;
      while left != {}
        invariant left <= offenders.Keys <= was.Keys
        invariant forall a :: a in was ==> (a in offenders <==> a in left || was[a].lastOffense + LOCKOUT >= now)
        invariant forall a :: a in offenders ==> offenders[a] == was[a]
        decreases |left|
      {
        var a :| a in left;
        left := left - {a};
        if offenders[a].lastOffense + LOCKOUT < now {
          offenders := offenders - {a};
        }
      }
    }
  }

  // ----- runs -----

  datatype Event = Check(address: string, now: Time) | Offense(address: string, now: Time)

  function Next(s: Record, e: Event): (r: Record) {
    match e
    case Check(_, now) => Cleaned(s, now)
    case Offense(a, now) => Offended(s, a, now)
  }

  function RunFrom(s: Record, events: seq<Event>): (r: Record) {
    if events == [] then s else Next(RunFrom(s, events[..|events| - 1]), events[|events| - 1])
  }

  /** What a check made now would answer. */
  predicate Refused(s: Record, a: string, now: Time) {
    a in Cleaned(s, now).blocked
  }

  ghost predicate NotAfter(events: seq<Event>, t: Time) {
    forall i :: 0 <= i < |events| ==> events[i].now <= t
  }

  ghost predicate NotBefore(events: seq<Event>, t: Time) {
    forall i :: 0 <= i < |events| ==> events[i].now >= t
  }

  function Offenses(events: seq<Event>, a: string): (n: nat) {
    if events == [] then 0
    else
      var e := events[|events| - 1];
      Offenses(events[..|events| - 1], a) + if e.Offense? && e.address == a then 1 else 0
  }

  lemma {:induction false} OffensesSnoc(events: seq<Event>, e: Event, a: string)
    ensures Offenses(events + [e], a) == Offenses(events, a) + if e.Offense? && e.address == a then 1 else 0
  {
    assert (events + [e])[..|events|] == events;
  }

  /** Pending counts are below the limit, no address is in both maps, and all counts are backed by offences. */
  ghost predicate Sound(s: Record, events: seq<Event>) {
    && s.offenders.Keys !! s.blocked.Keys
    && (forall a :: a in s.offenders ==> 1 <= s.offenders[a].offenses < 3)
    && (forall a :: a in s.offenders ==> s.offenders[a].offenses <= Offenses(events, a))
    && (forall a :: a in s.blocked ==> 3 <= Offenses(events, a))
  }

  /** In every run, a refused address has at least three offences. */
  lemma {:induction false} RunSound(events: seq<Event>)
    ensures Sound(RunFrom(START, events), events)
  {
    if events != [] {
      var init, e := events[..|events| - 1], events[|events| - 1];
      RunSound(init);
      StepSound(RunFrom(START, init), init, e);
      assert init + [e] == events;
    }
  }

  lemma StepSound(s: Record, events: seq<Event>, e: Event)
    requires Sound(s, events)
    ensures Sound(Next(s, e), events + [e])
  {
    forall a: string
      ensures Offenses(events + [e], a) == Offenses(events, a) + if e.Offense? && e.address == a then 1 else 0
    {
      OffensesSnoc(events, e, a);
    }
  }

  lemma {:induction false} RefusedOffended(events: seq<Event>, a: string, now: Time)
    requires Refused(RunFrom(START, events), a, now)
    ensures Offenses(events, a) >= 3
  {
    RunSound(events);
  }

  lemma {:induction false} BlockedStays(s: Record, events: seq<Event>, a: string)
    requires a in s.blocked && NotAfter(events, s.blocked[a])
    ensures var r := RunFrom(s, events); a in r.blocked && r.blocked[a] == s.blocked[a]
  {
    if events != [] {
      BlockedStays(s, events[..|events| - 1], a);
    }
  }

  /**
    The offence that gets an address blocked keeps it refused for the whole
    lockout, whatever happens meanwhile and however often the maps are cleaned.
   */
  lemma {:induction false} LockedOut(s: Record, a: string, t: Time, later: seq<Event>, now: Time)
    requires a !in s.blocked && a in Offended(s, a, t).blocked
    requires NotAfter(later, now) && now <= t + 60000000000
    ensures Refused(RunFrom(Offended(s, a, t), later), a, now)
  {
    BlockedStays(Offended(s, a, t), later, a);
  }

  /** While the maps are still cleaned, an address is refused for 60 seconds from the blocking offence, no longer. */
  lemma LockoutExactly(s: Record, a: string, t: Time, now: Time)
    requires a !in s.blocked && a in Offended(s, a, t).blocked && now <= s.nextCleanup
    ensures Refused(Offended(s, a, t), a, now) <==> now <= t + 60000000000
  {
  }

  /**
    A check that cleans up lets the next one do so for 20 seconds: an address is
    let in then exactly by a check within that time and after its lockout.
   */
  lemma NextCheckForgives(s: Record, a: string, t: Time, now: Time)
    requires t <= s.nextCleanup && a in Cleaned(s, t).blocked
    ensures !Refused(Cleaned(s, t), a, now) <==> s.blocked[a] < now <= t + 20000000000
  {
  }

  /** While the maps are still cleaned, a pending offence is forgotten exactly when it is older than 60 seconds. */
  lemma PendingForgotten(s: Record, a: string, now: Time)
    requires a in s.offenders && now <= s.nextCleanup
    ensures a !in Cleaned(s, now).offenders <==> s.offenders[a].lastOffense + 60000000000 < now
  {
  }

  // ----- when offences lead to a lockout -----

  /** The address is blocked, or has n pending offences, that do not expire before t. */
  predicate Level(s: Record, a: string, n: nat, t: Time) {
    || (a in s.blocked && s.blocked[a] >= t)
    || (a in s.offenders && a !in s.blocked
        && s.offenders[a].offenses >= n && s.offenders[a].lastOffense + LOCKOUT >= t)
  }

  lemma {:induction false} LevelStays(s: Record, events: seq<Event>, a: string, n: nat, t: Time)
    requires Level(s, a, n, t) && NotAfter(events, t) && NotBefore(events, t - LOCKOUT)
    ensures Level(RunFrom(s, events), a, n, t)
  {
    if events != [] {
      var init, e := events[..|events| - 1], events[|events| - 1];
      LevelStays(s, init, a, n, t);
    }
  }

  lemma LevelRises(s: Record, a: string, n: nat, t: Time, now: Time)
    requires Level(s, a, n, t) && now <= t <= now + LOCKOUT
    ensures Level(Offended(s, a, now), a, n + 1, t)
    ensures n + 1 >= 3 ==> a in Offended(s, a, now).blocked
  {
  }

  /**
    Three offences within the lockout period, the first of them by an address
    that is not blocked, get the address refused, whatever else happens in between.
   */
  lemma {:induction false} ThreeOffensesBlock(s: Record, a: string, t1: Time, first: seq<Event>, t2: Time,
                                              second: seq<Event>, t3: Time)
    requires a !in s.blocked && t1 <= t2 <= t3 <= t1 + 60000000000
    requires NotBefore(first, t1) && NotAfter(first, t2) && NotBefore(second, t2) && NotAfter(second, t3)
    ensures var s1 := RunFrom(Offended(s, a, t1), first);
            var s2 := RunFrom(Offended(s1, a, t2), second);
            Refused(Offended(s2, a, t3), a, t3)
  {
    var s1 := RunFrom(Offended(s, a, t1), first);
    var s2 := RunFrom(Offended(s1, a, t2), second);
    assert Level(Offended(s, a, t1), a, 1, t3);
    LevelStays(Offended(s, a, t1), first, a, 1, t3);
    LevelRises(s1, a, 1, t3, t2);
    LevelStays(Offended(s1, a, t2), second, a, 2, t3);
    LevelRises(s2, a, 2, t3, t3);
  }

  // ----- forgiveness -----

  /** The maps hold all offences ever made: nothing was cleaned up. */
  ghost predicate NeverCleaned(s: Record, events: seq<Event>) {
    && s.nextCleanup == 0
    && (forall a :: a in s.blocked <==> Offenses(events, a) >= 3)
    && (forall a :: a in s.offenders <==> 1 <= Offenses(events, a) < 3)
    && (forall a :: a in s.offenders ==> s.offenders[a].offenses == Offenses(events, a))
  }

  /** The first cleanup is due when the clock starts, and a cleanup that is overdue is skipped. */
  lemma {:induction false} RunNeverCleans(events: seq<Event>)
    requires NotBefore(events, 1)
    ensures NeverCleaned(RunFrom(START, events), events)
  {
    if events != [] {
      var init, e := events[..|events| - 1], events[|events| - 1];
      RunNeverCleans(init);
      assert e.now >= 1;
      StepNeverCleans(RunFrom(START, init), init, e);
      assert init + [e] == events;
    }
  }

  lemma StepNeverCleans(s: Record, events: seq<Event>, e: Event)
    requires NeverCleaned(s, events) && e.now >= 1
    ensures NeverCleaned(Next(s, e), events + [e])
  {
    forall a: string
      ensures Offenses(events + [e], a) == Offenses(events, a) + if e.Offense? && e.address == a then 1 else 0
    {
      OffensesSnoc(events, e, a);
    }
  }

  /**
    On every clock that has started, an address is refused exactly when it ever
    made three offences, however long ago: offences never expire and lockouts
    never end.
   */
  lemma {:induction false} RefusedExactly(events: seq<Event>, a: string, now: Time)
    requires NotBefore(events, 1) && now >= 1
    ensures Refused(RunFrom(START, events), a, now) <==> Offenses(events, a) >= 3
  {
    RunNeverCleans(events);
  }

  /** Three offences, a thousand days apart, are never forgiven. */
  lemma NeverForgiven(a: string, now: Time)
    requires now >= 1
    ensures var day := 24 * 60 * 60 * SECOND;
            Refused(RunFrom(START, [Offense(a, SECOND), Offense(a, 1000 * day), Offense(a, 2000 * day)]), a, now)
  {
    var day := 24 * 60 * 60 * SECOND;
    var e1, e2, e3 := Offense(a, SECOND), Offense(a, 1000 * day), Offense(a, 2000 * day);
    OffensesSnoc([], e1, a);
    OffensesSnoc([e1], e2, a);
    OffensesSnoc([e1, e2], e3, a);
    assert [] + [e1] == [e1] && [e1] + [e2] == [e1, e2] && [e1, e2] + [e3] == [e1, e2, e3];
    RefusedExactly([e1, e2, e3], a, now);
  }
}
