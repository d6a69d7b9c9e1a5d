/**
 Coalescing of concurrent walks: a bounded map from (name, type) to a shared lock, swept of unused
 locks when full.  Callers interleave: one enters and gets its lock, waits for it, runs the guarded
 section, and leaves.
 */
module InFlight {
  import opened Basics

  const CAP := 4096

  datatype Key = Key(name: string, rtype: nat)

  function KeyOf(name: string, rtype: nat): Key { Key(Lower(name), rtype) }

  datatype Phase = Waiting | InSection | Gone

  /** A caller of the guarded path: what it asked for, the lock it was given, and where it is. */
  datatype Caller = Caller(key: Key, lock: nat, phase: Phase)

  datatype World = World(locks: map<Key, nat>, made: nat, callers: seq<Caller>)

  // ---- steps ----

  predicate Held(callers: seq<Caller>, lock: nat) {
    exists c :: 0 <= c < |callers| && !callers[c].phase.Gone? && callers[c].lock == lock
  }

  /** Drop every lock that only the map refers to. */
  function Sweep(locks: map<Key, nat>, callers: seq<Caller>): map<Key, nat> {
    map k | k in locks && Held(callers, locks[k]) :: locks[k]
  }

  /** Remove one entry; `victim` is the one the hash order happens to yield. */
  ghost function EvictOne(locks: map<Key, nat>, victim: Key): map<Key, nat> requires locks != map[] {
    if victim in locks then locks - {victim} else var k :| k in locks; locks - {k}
  }

  ghost function MakeRoom(w: World, victim: Key): map<Key, nat> {
    if |w.locks| < CAP then w.locks
    else
      var swept := Sweep(w.locks, w.callers);
      if |swept| >= CAP then EvictOne(swept, victim) else swept
  }

  datatype Event = Enter(name: string, rtype: nat, victim: Key) | Acquire(c: nat) | Leave(c: nat)

  predicate Locked(w: World, lock: nat) {
    exists c :: 0 <= c < |w.callers| && w.callers[c].phase.InSection? && w.callers[c].lock == lock
  }

  ghost function Step(w: World, e: Event): World {
    match e
    case Enter(name, rtype, victim) =>
      var key, locks := KeyOf(name, rtype), MakeRoom(w, victim);
      if key in locks then World(locks, w.made, w.callers + [Caller(key, locks[key], Waiting)])
      else World(locks[key := w.made], w.made + 1, w.callers + [Caller(key, w.made, Waiting)])
    case Acquire(c) =>
      if c < |w.callers| && w.callers[c].phase.Waiting? && !Locked(w, w.callers[c].lock)
      then w.(callers := w.callers[c := w.callers[c].(phase := InSection)]) else w
    case Leave(c) =>
      if c < |w.callers| then w.(callers := w.callers[c := w.callers[c].(phase := Gone)]) else w
  }

  // ---- what always holds ----

  /** The map is bounded, its locks are distinct, and a lock is inside the section at most once. */
  ghost predicate Inv(w: World) { MapOk(w.locks, w.made) && CallersOk(w.callers, w.made) }

  ghost predicate MapOk(locks: map<Key, nat>, made: nat) {
    && |locks| <= CAP
    && (forall k :: k in locks ==> locks[k] < made)
    && (forall k, l :: k in locks && l in locks && locks[k] == locks[l] ==> k == l)
  }

  ghost predicate CallersOk(callers: seq<Caller>, made: nat) {
    && (forall c :: 0 <= c < |callers| ==> callers[c].lock < made)
    && (forall c, d :: 0 <= c < d < |callers| && callers[c].phase.InSection? && callers[d].phase.InSection?
          ==> callers[c].lock != callers[d].lock)
  }

  lemma SubmapSize(small: map<Key, nat>, big: map<Key, nat>)
    requires forall k :: k in small ==> k in big
    ensures |small| <= |big|
  {
    assert small.Keys <= big.Keys;
    SubsetSize(small.Keys, big.Keys);
  }

  /** Making room leaves a part of the map, with at least one slot free. */
  lemma RoomIsMade(w: World, victim: Key)
    requires |w.locks| <= CAP
    ensures var locks := MakeRoom(w, victim);
            |locks| < CAP && forall k :: k in locks ==> k in w.locks && locks[k] == w.locks[k]
  {
    if |w.locks| >= CAP {
      var swept := Sweep(w.locks, w.callers);
      SubmapSize(swept, w.locks);
      if |swept| >= CAP {
        assert swept != map[];
        var out := EvictOne(swept, victim);
        var k :| k in swept && out == swept - {k};
        assert swept.Keys == out.Keys + {k};
      }
    }
  }

  lemma EnterKeeps(w: World, name: string, rtype: nat, victim: Key)
    requires Inv(w)
    ensures Inv(Step(w, Enter(name, rtype, victim)))
  {
    var locks := MakeRoom(w, victim);
    RoomIsMade(w, victim);
    EnterKeepsMap(w.locks, locks, w.made, KeyOf(name, rtype));
    EnterKeepsCallers(w.callers, w.made, KeyOf(name, rtype));
  }

  /** A waiting caller whose lock is free goes in. */
  lemma AcquireKeeps(w: World, c: nat)
    requires Inv(w)
    ensures Inv(Step(w, Acquire(c)))
  {}

  lemma LeaveKeeps(w: World, c: nat)
    requires Inv(w)
    ensures Inv(Step(w, Leave(c)))
  {}

  /** A lock is never lost: when its holder leaves, any caller waiting for it can go in, and it alone. */
  lemma NextGoesIn(w: World, c: nat, d: nat)
    requires Inv(w) && c < |w.callers| && d < |w.callers| && w.callers[c].lock == w.callers[d].lock
    requires w.callers[c].phase.InSection? && w.callers[d].phase.Waiting?
    ensures Step(w, Acquire(d)) == w
    ensures var after := Step(Step(w, Leave(c)), Acquire(d));
            && after.callers == w.callers[c := w.callers[c].(phase := Gone)][d := w.callers[d].(phase := InSection)]
            && after.locks == w.locks
  {
    var left := Step(w, Leave(c));
    assert !Locked(left, w.callers[d].lock);
  }

  lemma StepKeeps(w: World, e: Event)
    requires Inv(w)
    ensures Inv(Step(w, e))
  {
    match e
    case Enter(name, rtype, victim) => EnterKeeps(w, name, rtype, victim);
    case Acquire(c) => AcquireKeeps(w, c);
    case Leave(c) => LeaveKeeps(w, c);
  }

  lemma EnterKeepsCallers(callers: seq<Caller>, made: nat, key: Key)
    requires CallersOk(callers, made)
    ensures CallersOk(callers + [Caller(key, made, Waiting)], made + 1)
    ensures forall l: nat :: l < made ==> CallersOk(callers + [Caller(key, l, Waiting)], made)
  {}

  lemma EnterKeepsMap(before: map<Key, nat>, locks: map<Key, nat>, made: nat, key: Key)
    requires MapOk(before, made) && |locks| < CAP && forall k :: k in locks ==> k in before && locks[k] == before[k]
    ensures MapOk(locks, made) && MapOk(locks[key := made], made + 1)
  {
    assert MapOk(locks, made) by {
      forall k, l | k in locks && l in locks && locks[k] == locks[l] ensures k == l { assert before[k] == before[l]; }
    }
    InsertKeepsMap(locks, made, key);
  }

  lemma InsertKeepsMap(locks: map<Key, nat>, made: nat, key: Key)
    requires MapOk(locks, made) && |locks| < CAP
    ensures MapOk(locks[key := made], made + 1)
  {
    InsertSize(locks, key, made);
  }

  lemma InsertSize(locks: map<Key, nat>, key: Key, lock: nat)
    ensures |locks[key := lock]| <= |locks| + 1
  {
    var after := locks[key := lock];
    assert after.Keys == locks.Keys + {key};
    assert |after| == |after.Keys| && |locks| == |locks.Keys|;
  }

  // ---- what holds while the map is not crowded ----

  function HeldKeys(w: World): set<Key> {
    set c | 0 <= c < |w.callers| && !w.callers[c].phase.Gone? :: w.callers[c].key
  }

  /** Every caller still around has the lock the map holds for its key. */
  ghost predicate Shared(w: World) {
    forall c :: 0 <= c < |w.callers| && !w.callers[c].phase.Gone? ==>
      w.callers[c].key in w.locks && w.locks[w.callers[c].key] == w.callers[c].lock
  }

  /** A sweep leaves at most one entry per held key, and keeps all of those. */
  lemma SweepIsHeldKeys(w: World)
    requires Inv(w) && Shared(w)
    ensures Sweep(w.locks, w.callers).Keys == HeldKeys(w)
  {
    var swept := Sweep(w.locks, w.callers);
    forall k | k in swept ensures k in HeldKeys(w) {
      var c :| 0 <= c < |w.callers| && !w.callers[c].phase.Gone? && w.callers[c].lock == w.locks[k];
      assert w.locks[w.callers[c].key] == w.locks[k];
    }
    forall k | k in HeldKeys(w) ensures k in swept {
      var c :| 0 <= c < |w.callers| && !w.callers[c].phase.Gone? && w.callers[c].key == k;
      assert Held(w.callers, w.locks[k]);
    }
  }

  lemma RoomKeepsHeld(w: World, victim: Key)
    requires Inv(w) && Shared(w) && |HeldKeys(w)| < CAP
    ensures forall k :: k in HeldKeys(w) ==> k in MakeRoom(w, victim) && MakeRoom(w, victim)[k] == w.locks[k]
  {
    SweepIsHeldKeys(w);
    forall k | k in HeldKeys(w) ensures k in w.locks {
      var c :| 0 <= c < |w.callers| && !w.callers[c].phase.Gone? && w.callers[c].key == k;
    }
  }

  lemma StepKeepsShared(w: World, e: Event)
    requires Inv(w) && Shared(w) && (e.Enter? ==> |HeldKeys(w)| < CAP)
    ensures Shared(Step(w, e))
  {
    if e.Enter? {
      RoomKeepsHeld(w, e.victim);
      forall c | 0 <= c < |w.callers| && !w.callers[c].phase.Gone? ensures w.callers[c].key in HeldKeys(w) {}
    }
  }

  // ---- runs ----

  const EMPTY := World(map[], 0, [])

  ghost function Run(events: seq<Event>): World {
    if events == [] then EMPTY else Step(Run(events[..|events| - 1]), events[|events| - 1])
  }

  /** No caller ever entered while as many distinct keys were held as the map has room for. */
  ghost predicate Uncrowded(events: seq<Event>) {
    forall n :: 0 <= n < |events| && events[n].Enter? ==> |HeldKeys(Run(events[..n]))| < CAP
  }

  lemma {:induction false} RunKeeps(events: seq<Event>)
    ensures Inv(Run(events))
  {
    if events != [] {
      RunKeeps(events[..|events| - 1]);
      StepKeeps(Run(events[..|events| - 1]), events[|events| - 1]);
    }
  }

  lemma {:induction false} RunShares(events: seq<Event>)
    requires Uncrowded(events)
    ensures Shared(Run(events))
  {
    if events != [] {
      var before := events[..|events| - 1];
      assert forall n :: 0 <= n <= |before| ==> before[..n] == events[..n];
      assert Uncrowded(before);
      RunShares(before);
      RunKeeps(before);
      StepKeepsShared(Run(before), events[|events| - 1]);
    }
  }

  lemma {:induction false} RunAppend(events: seq<Event>, e: Event)
    ensures Run(events + [e]) == Step(Run(events), e)
  {
    assert (events + [e])[..|events|] == events;
  }

  /** With as many keys held as the map has room for, making room costs somebody still around its entry. */
  lemma CrowdedRoom(w: World, victim: Key) returns (c: nat)
    requires Inv(w) && Shared(w) && |HeldKeys(w)| >= CAP
    ensures c < |w.callers| && !w.callers[c].phase.Gone? && w.callers[c].key !in MakeRoom(w, victim)
  {
    var swept := Sweep(w.locks, w.callers);
    SweepIsHeldKeys(w);
    SubmapSize(swept, w.locks);
    assert |swept| == |HeldKeys(w)|;
    var out := EvictOne(swept, victim);
    var k :| k in swept && out == swept - {k};
    c :| 0 <= c < |w.callers| && !w.callers[c].phase.Gone? && w.callers[c].key == k;
  }

  lemma CrowdedEnterUnshares(w: World, name: string, rtype: nat, victim: Key)
    requires Inv(w) && Shared(w) && |HeldKeys(w)| >= CAP
    ensures !Shared(Step(w, Enter(name, rtype, victim)))
  {
    var c := CrowdedRoom(w, victim);
    var w' := Step(w, Enter(name, rtype, victim));
    assert w'.callers[c] == w.callers[c];
    assert w.callers[c].key in w'.locks ==> w'.locks[w.callers[c].key] == w.made;
  }

  /** Every caller always has the lock the map holds for its key, at every point of the run. */
  ghost predicate AlwaysShared(events: seq<Event>) { forall n :: 0 <= n <= |events| ==> Shared(Run(events[..n])) }

  /** That is so exactly when nobody entered while as many keys were held as the map has room for. */
  lemma SharedIffUncrowded(events: seq<Event>)
    ensures AlwaysShared(events) <==> Uncrowded(events)
  {
    if Uncrowded(events) {
      forall n | 0 <= n <= |events| ensures Shared(Run(events[..n])) {
        PrefixUncrowded(events, n);
        RunShares(events[..n]);
      }
    } else {
      var n :| 0 <= n < |events| && events[n].Enter? && |HeldKeys(Run(events[..n]))| >= CAP;
      var e := events[n];
      RunKeeps(events[..n]);
      assert events[..n + 1] == events[..n] + [e];
      RunAppend(events[..n], e);
      if Shared(Run(events[..n])) { CrowdedEnterUnshares(Run(events[..n]), e.name, e.rtype, e.victim); }
    }
  }

  lemma PrefixUncrowded(events: seq<Event>, n: nat)
    requires Uncrowded(events) && n <= |events|
    ensures Uncrowded(events[..n])
  {
    var before := events[..n];
    forall m | 0 <= m < |before| && before[m].Enter? ensures |HeldKeys(Run(before[..m]))| < CAP {
      assert before[..m] == events[..m] && before[m] == events[m];
    }
  }

  /** From then on, another caller for the key of one who lost its lock gets a different lock, whatever is evicted. */
  lemma UnsharedSplitsNext(w: World, c: nat, name: string, rtype: nat, victim: Key)
    requires Inv(w) && c < |w.callers| && !w.callers[c].phase.Gone? && w.callers[c].key == KeyOf(name, rtype)
    requires w.callers[c].key in w.locks ==> w.locks[w.callers[c].key] != w.callers[c].lock
    ensures var w' := Step(w, Enter(name, rtype, victim));
            && |w'.callers| == |w.callers| + 1 && Overlap(w'.callers[c], w'.callers[|w.callers|])
            && w'.callers[c].lock != w'.callers[|w.callers|].lock
  {
    RoomIsMade(w, victim);
  }

  /** Both present, for the same name and type. */
  predicate Overlap(a: Caller, b: Caller) { a.key == b.key && !a.phase.Gone? && !b.phase.Gone? }

  /**
   Over every interleaving the map stays within its cap; and while it is not crowded, callers present
   at the same time for the same name and type have the same lock, so only one is in the section.
   */
  lemma Coalesces(events: seq<Event>)
    ensures |Run(events).locks| <= CAP
    ensures Uncrowded(events) ==>
              var w := Run(events);
              forall c, d :: 0 <= c < d < |w.callers| && Overlap(w.callers[c], w.callers[d]) ==>
                && w.callers[c].lock == w.callers[d].lock
                && !(w.callers[c].phase.InSection? && w.callers[d].phase.InSection?)
  {
    RunKeeps(events);
    if Uncrowded(events) { RunShares(events); }
  }

  /** Crowded, the promise can fail: a full map of held locks may evict the very key being asked for. */
  lemma SplitWhenCrowded(w: World, name: string, rtype: nat, c: nat)
    requires Inv(w) && Shared(w) && |HeldKeys(w)| >= CAP
    requires c < |w.callers| && !w.callers[c].phase.Gone? && w.callers[c].key == KeyOf(name, rtype)
    ensures var w' := Step(w, Enter(name, rtype, KeyOf(name, rtype)));
            w'.callers[|w.callers|].key == w.callers[c].key && w'.callers[|w.callers|].lock != w'.callers[c].lock
  {
    SweepIsHeldKeys(w);
    var swept := Sweep(w.locks, w.callers);
    SubmapSize(swept, w.locks);
    assert w.callers[c].key in HeldKeys(w);
  }

  // ---- a run that gets there ----

  /** Callers for different types at one name, one after the other. */
  function Enters(n: nat): seq<Event> { seq(n, i requires 0 <= i < n => Enter("a", i, Key("", 0))) }

  /** All of them are still waiting, each for its own key. */
  ghost predicate AllWait(w: World, n: nat) {
    |w.callers| == n && forall i :: 0 <= i < n ==> w.callers[i].key == KeyOf("a", i) && w.callers[i].phase.Waiting?
  }

  lemma EnterWaits(w: World, n: nat)
    requires AllWait(w, n)
    ensures AllWait(Step(w, Enter("a", n, Key("", 0))), n + 1)
  {}

  lemma {:induction false} EntersWait(n: nat)
    ensures AllWait(Run(Enters(n)), n)
  {
    if n > 0 {
      EntersWait(n - 1);
      assert Enters(n)[..n - 1] == Enters(n - 1);
      EnterWaits(Run(Enters(n - 1)), n - 1);
    }
  }

  function FirstKeys(n: nat): set<Key> { set i | 0 <= i < n :: KeyOf("a", i) }

  lemma {:induction false} FirstKeysSize(n: nat)
    ensures |FirstKeys(n)| == n
  {
    if n > 0 {
      FirstKeysSize(n - 1);
      var k := KeyOf("a", n - 1);
      assert FirstKeys(n) == FirstKeys(n - 1) + {k};
    }
  }

  lemma EntersHold(n: nat)
    ensures |HeldKeys(Run(Enters(n)))| == n
  {
    EntersWait(n);
    FirstKeysSize(n);
    var w := Run(Enters(n));
    forall k | k in FirstKeys(n) ensures k in HeldKeys(w) {
      var i :| 0 <= i < n && KeyOf("a", i) == k;
      assert w.callers[i].key == k;
    }
    assert HeldKeys(w) == FirstKeys(n);
  }

  lemma EntersUncrowded()
    ensures Uncrowded(Enters(CAP))
  {
    var events := Enters(CAP);
    forall n: nat | n < |events| ensures |HeldKeys(Run(events[..n]))| < CAP {
      assert events[..n] == Enters(n);
      EntersHold(n);
    }
  }

  /** As many callers as the map has room for, and then another for the first one's name: both get into the section. */
  function SplitEvents(): seq<Event> { Enters(CAP) + [Enter("a", 0, KeyOf("a", 0)), Acquire(0), Acquire(CAP)] }

  lemma RunSplitEvents()
    ensures Run(SplitEvents()) ==
            Step(Step(Step(Run(Enters(CAP)), Enter("a", 0, KeyOf("a", 0))), Acquire(0)), Acquire(CAP))
  {
    var start, e := Enters(CAP), Enter("a", 0, KeyOf("a", 0));
    RunAppend(start, e);
    RunAppend(start + [e], Acquire(0));
    RunAppend(start + [e] + [Acquire(0)], Acquire(CAP));
    assert SplitEvents() == start + [e] + [Acquire(0)] + [Acquire(CAP)];
  }

  /** Two waiting callers with different locks, and nobody in the section: both go in. */
  lemma BothAcquire(w: World, c: nat, d: nat)
    requires c < d < |w.callers| && w.callers[c].lock != w.callers[d].lock
    requires forall i :: 0 <= i < |w.callers| ==> w.callers[i].phase.Waiting?
    ensures var w' := Step(Step(w, Acquire(c)), Acquire(d));
            && |w'.callers| == |w.callers|
            && w'.callers[c] == w.callers[c].(phase := InSection) && w'.callers[d] == w.callers[d].(phase := InSection)
  {
    assert !Locked(w, w.callers[c].lock);
    var w1 := Step(w, Acquire(c));
    assert !Locked(w1, w.callers[d].lock);
  }

  lemma CrowdedEnter(w: World)
    requires Inv(w) && Shared(w) && |HeldKeys(w)| >= CAP && AllWait(w, CAP)
    ensures var w' := Step(w, Enter("a", 0, KeyOf("a", 0)));
            && |w'.callers| == CAP + 1 && (forall i :: 0 <= i <= CAP ==> w'.callers[i].phase.Waiting?)
            && w'.callers[0].key == w'.callers[CAP].key && w'.callers[0].lock != w'.callers[CAP].lock
  {
    SplitWhenCrowded(w, "a", 0, 0);
  }

  /** There is a run after which two callers are in the section for the same name and type. */
  lemma SplitIsReached()
    ensures var w := Run(SplitEvents());
            && |w.callers| == CAP + 1 && w.callers[0].key == w.callers[CAP].key
            && w.callers[0].phase.InSection? && w.callers[CAP].phase.InSection?
  {
    EntersWait(CAP);
    EntersHold(CAP);
    EntersUncrowded();
    RunShares(Enters(CAP));
    RunKeeps(Enters(CAP));
    var w := Run(Enters(CAP));
    CrowdedEnter(w);
    BothAcquire(Step(w, Enter("a", 0, KeyOf("a", 0))), 0, CAP);
    RunSplitEvents();
  }

  // ---- the code ----

  class InFlightMap {
    var locks: map<Key, nat>
    var made: nat

    constructor ()
      ensures locks == map[] && made == 0
    {
      locks, made := map[], 0;
    }

    /** `lock_for`; `callers` stands for the reference counts the sweep reads. */
    method LockFor(name: string, rtype: nat, callers: seq<Caller>) returns (lock: nat)
      modifies this
      ensures exists victim: Key ::
                var w' := Step(World(old(locks), old(made), callers), Enter(name, rtype, victim));
                && World(locks, made, w'.callers) == w'
                && w'.callers == callers + [Caller(KeyOf(name, rtype), lock, Waiting)]
    {
      var key := KeyOf(name, rtype);
      ghost var victim := key;
      ghost var w := World(locks, made, callers);
      if |locks| >= CAP {
        locks := Sweep(locks, callers);
        if |locks| >= CAP {
          assert locks.Keys != {};
          var k :| k in locks;
          victim := k;
          locks := locks - {k};
        }
      }
      assert locks == MakeRoom(w, victim);
      if key in locks {
        lock := locks[key];
      } else {
        lock := made;
        locks, made := locks[key := made], made + 1;
      }
      assert World(locks, made, callers + [Caller(key, lock, Waiting)]) == Step(w, Enter(name, rtype, victim));
    }
  }
}
