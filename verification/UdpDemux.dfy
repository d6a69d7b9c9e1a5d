/**
 The upstream UDP demultiplexer: one socket shared by many queries, a map from (peer address,
 transaction id) to the waiting query, a receive loop that routes datagrams through the map, and a
 drop guard that removes the map entry when a query ends early.  Steps are the sections between
 awaits; a run is any interleaving of them.
 */
module UdpDemux {
  import opened Basics

  datatype Key = Key(ip: int, txid: int)
  datatype Datagram = Datagram(bytes: seq<Byte>, from: Addr)

  /** Where a query stands; `Answered` and `Failed` are its two ways to end. */
  datatype Phase =
    | Waiting                 // its sender sits in the map
    | Delivered(d: nat)       // datagram number d was sent to it, not yet picked up
    | Orphaned                // its sender was dropped by another query's guard
    | Answered(d: nat)
    | Failed
  {
    predicate Ended() { Answered? || Failed? }
    predicate Served() { Delivered? || Answered? }
  }

  datatype Query = Query(key: Key, phase: Phase)

  /** The map, every query ever started and every datagram ever received. */
  datatype Chan = Chan(pending: map<Key, nat>, queries: seq<Query>, arrived: seq<Datagram>)

  const EMPTY := Chan(map[], [], [])

  // ---- steps ----

  function KeyOf(d: Datagram): Key requires |d.bytes| >= 2 {
    var hi: int, lo: int := d.bytes[0], d.bytes[1];
    Key(d.from.ip, 256 * hi + lo)
  }

  datatype Event =
    | Start(key: Key)         // a query enters its slot, or fails on a collision
    | Receive(d: Datagram)    // the receive loop handles one datagram
    | PickUp(q: nat)          // a query finds its answer, disarms the guard and returns it
    | Abandon(q: nat)         // a query times out, fails or is cancelled: the guard runs

  function SetPhase(c: Chan, q: nat, p: Phase): Chan requires q < |c.queries| {
    c.(queries := c.queries[q := c.queries[q].(phase := p)])
  }

  function Step(c: Chan, e: Event): Chan {
    match e
    case Start(key) =>
      if key in c.pending then c.(queries := c.queries + [Query(key, Failed)])
      else c.(pending := c.pending[key := |c.queries|], queries := c.queries + [Query(key, Waiting)])
    case Receive(d) =>
      var c1 := c.(arrived := c.arrived + [d]);
      if |d.bytes| < 12 || KeyOf(d) !in c.pending then c1
      else
        var q := c.pending[KeyOf(d)];
        var c2 := c1.(pending := c.pending - {KeyOf(d)});
        if q < |c.queries| then SetPhase(c2, q, Delivered(|c.arrived|)) else c2
    case PickUp(q) =>
      if q < |c.queries| && c.queries[q].phase.Delivered? then SetPhase(c, q, Answered(c.queries[q].phase.d)) else c
    case Abandon(q) =>
      if q >= |c.queries| || c.queries[q].phase.Ended() then c
      else
        var key := c.queries[q].key;
        var c1 := if key in c.pending && c.pending[key] < |c.queries| then SetPhase(c, c.pending[key], Orphaned) else c;
        SetPhase(c1.(pending := c.pending - {key}), q, Failed)
  }

  // ---- the invariant ----

  /** The slot and the waiting query belong to each other. */
  ghost predicate Slots(c: Chan) {
    && (forall k :: k in c.pending ==>
          c.pending[k] < |c.queries| && c.queries[c.pending[k]] == Query(k, Waiting))
    && (forall q :: 0 <= q < |c.queries| && c.queries[q].phase.Waiting? ==>
          c.queries[q].key in c.pending && c.pending[c.queries[q].key] == q)
  }

  /** The datagram a query was sent came from its peer and carries its transaction id. */
  predicate Fits(c: Chan, q: nat) requires q < |c.queries| && c.queries[q].phase.Served() {
    var d := c.queries[q].phase.d;
    d < |c.arrived| && |c.arrived[d].bytes| >= 12 && KeyOf(c.arrived[d]) == c.queries[q].key
  }

  ghost predicate Genuine(c: Chan) {
    forall q :: 0 <= q < |c.queries| && c.queries[q].phase.Served() ==> Fits(c, q)
  }

  /** No datagram reaches two queries. */
  ghost predicate OncePerDatagram(c: Chan) {
    forall p, q :: 0 <= p < q < |c.queries| && c.queries[p].phase.Served() && c.queries[q].phase.Served()
      ==> c.queries[p].phase.d != c.queries[q].phase.d
  }

  /** While a query waits, later queries of its key have failed. */
  ghost predicate FirstComeFirstServed(c: Chan) {
    forall p, q :: 0 <= q < p < |c.queries| && c.queries[q].phase.Waiting? && c.queries[p].key == c.queries[q].key
      ==> c.queries[p].phase.Failed?
  }

  ghost predicate Inv(c: Chan) { Slots(c) && Genuine(c) && OncePerDatagram(c) && FirstComeFirstServed(c) }

  lemma StepKeepsSlots(c: Chan, e: Event)
    requires Slots(c)
    ensures Slots(Step(c, e))
  {
    match e
    case Start(_) =>
    case Receive(_) =>
    case PickUp(_) =>
    case Abandon(q) => AbandonKeepsSlots(c, q);
  }

  lemma AbandonKeepsSlots(c: Chan, q: nat)
    requires Slots(c)
    ensures Slots(Step(c, Abandon(q)))
  {}

  lemma StepKeepsGenuine(c: Chan, e: Event)
    requires Slots(c) && Genuine(c)
    ensures Genuine(Step(c, e))
  {
    var c' := Step(c, e);
    forall q | 0 <= q < |c'.queries| && c'.queries[q].phase.Served() ensures Fits(c', q) {
      if q < |c.queries| && c.queries[q].phase.Served() { assert Fits(c, q); }
    }
  }

  lemma StepKeepsOnce(c: Chan, e: Event)
    requires Slots(c) && Genuine(c) && OncePerDatagram(c)
    ensures OncePerDatagram(Step(c, e))
  {
    match e
    case Start(_) =>
    case Receive(_) => assert forall q :: 0 <= q < |c.queries| && c.queries[q].phase.Served() ==> Fits(c, q);
    case PickUp(_) =>
    case Abandon(_) =>
  }

  lemma StepKeepsOrder(c: Chan, e: Event)
    requires Slots(c) && FirstComeFirstServed(c)
    ensures FirstComeFirstServed(Step(c, e))
  {}

  lemma StepKeeps(c: Chan, e: Event)
    requires Inv(c)
    ensures Inv(Step(c, e))
  {
    StepKeepsSlots(c, e);
    StepKeepsGenuine(c, e);
    StepKeepsOnce(c, e);
    StepKeepsOrder(c, e);
  }

  /** Keys never change, and a query that has ended keeps its outcome. */
  lemma StepPreservesHistory(c: Chan, e: Event)
    requires Inv(c)
    ensures var c' := Step(c, e);
            && |c.queries| <= |c'.queries| && c.arrived <= c'.arrived
            && forall q :: 0 <= q < |c.queries| ==>
                 && c'.queries[q].key == c.queries[q].key
                 && (c.queries[q].phase.Ended() ==> c'.queries[q].phase == c.queries[q].phase)
  {}

  // ---- runs ----

  function Run(events: seq<Event>): Chan {
    if events == [] then EMPTY else Step(Run(events[..|events| - 1]), events[|events| - 1])
  }

  lemma {:induction false} RunKeeps(events: seq<Event>)
    ensures Inv(Run(events))
  {
    if events != [] {
      RunKeeps(events[..|events| - 1]);
      StepKeeps(Run(events[..|events| - 1]), events[|events| - 1]);
    }
  }

  /**
   Over every interleaving: an answered query holds a datagram from its peer's address with its
   transaction id, no two queries hold the same datagram, every map entry belongs to a waiting query of
   that key, and when all queries have ended the map is empty.
   */
  lemma DemuxIsSafe(events: seq<Event>)
    ensures var c := Run(events);
            && (forall q :: 0 <= q < |c.queries| && c.queries[q].phase.Answered? ==> Fits(c, q))
            && (forall p, q :: 0 <= p < q < |c.queries| && c.queries[p].phase.Answered? ==>
                  c.queries[q].phase != c.queries[p].phase)
            && (forall k :: k in c.pending ==>
                  c.pending[k] < |c.queries| && c.queries[c.pending[k]] == Query(k, Waiting))
            && ((forall q :: 0 <= q < |c.queries| ==> c.queries[q].phase.Ended()) ==> c.pending == map[])
  {
    RunKeeps(events);
    var c := Run(events);
    if forall q :: 0 <= q < |c.queries| ==> c.queries[q].phase.Ended() {
      forall k ensures k !in c.pending {}
      assert c.pending == map[];
    }
  }

  /**
   A waiting query loses its slot without an answer only to the guard of an older query of the same
   key that had itself already lost its slot.
   */
  lemma OrphanedOnlyByOlderQuery(c: Chan, e: Event, q: nat)
    requires Inv(c) && q < |c.queries| && c.queries[q].phase.Waiting?
    requires Step(c, e).queries[q].phase.Orphaned?
    ensures e.Abandon? && e.q < q && c.queries[e.q].key == c.queries[q].key
    ensures c.queries[e.q].phase.Delivered? || c.queries[e.q].phase.Orphaned?
  {
    assert e.Abandon? && e.q < |c.queries| && c.queries[e.q].key == c.queries[q].key;
  }

  /** It does happen: an answer arrives, a second query takes the slot, the first is then cancelled. */
  lemma OrphanReachable(d: Datagram)
    requires |d.bytes| >= 12
    ensures Run([Start(KeyOf(d)), Receive(d), Start(KeyOf(d)), Abandon(0)]).queries
            == [Query(KeyOf(d), Failed), Query(KeyOf(d), Orphaned)]
  {
    var k := KeyOf(d);
    var e := [Start(k), Receive(d), Start(k), Abandon(0)];
    assert e[..3][..2][..1][..0] == [];
    assert e[..3][..2][..1] == [Start(k)] && e[..3][..2] == [Start(k), Receive(d)];
    assert e[..3] == [Start(k), Receive(d), Start(k)];
    var c1 := Step(EMPTY, Start(k));
    assert Run([Start(k)]) == c1;
    var c2 := Step(c1, Receive(d));
    assert c2.queries == [Query(k, Delivered(0))] && c2.pending == map[];
    assert Run([Start(k), Receive(d)]) == c2;
    var c3 := Step(c2, Start(k));
    assert c3.queries == [Query(k, Delivered(0)), Query(k, Waiting)] && c3.pending == map[k := 1];
    assert Run([Start(k), Receive(d), Start(k)]) == c3;
  }

  // ---- what a query gets ----

  /** A query fails at once exactly if another of its key is waiting; otherwise it waits. */
  lemma CollidesIff(c: Chan, key: Key)
    requires Inv(c)
    ensures var c' := Step(c, Start(key)); |c'.queries| == |c.queries| + 1 && c'.queries[|c.queries|].key == key
    ensures var phase := Step(c, Start(key)).queries[|c.queries|].phase;
            phase == (if exists q :: 0 <= q < |c.queries| && c.queries[q] == Query(key, Waiting) then Failed
              else Waiting)
  {
    if key in c.pending { assert c.queries[c.pending[key]] == Query(key, Waiting); }
  }

  ghost predicate Moves(cs: seq<Chan>, events: seq<Event>, i: nat) {
    i + 1 < |cs| && i < |events| && cs[i + 1] == Step(cs[i], events[i])
  }

  /** Part of a run, state by state. */
  ghost predicate Trace(cs: seq<Chan>, events: seq<Event>) {
    |cs| == |events| + 1 && Inv(cs[0]) && forall i: nat :: i < |events| ==> Moves(cs, events, i)
  }

  lemma {:induction false} TraceKeeps(cs: seq<Chan>, events: seq<Event>, i: nat)
    requires Trace(cs, events) && i < |cs|
    ensures Inv(cs[i])
  {
    if i > 0 {
      TraceKeeps(cs, events, i - 1);
      assert Moves(cs, events, i - 1);
      StepKeeps(cs[i - 1], events[i - 1]);
    }
  }

  predicate Matches(e: Event, key: Key) { e.Receive? && |e.d.bytes| >= 12 && KeyOf(e.d) == key }

  /** The guard of a query of that key. */
  predicate Guards(c: Chan, e: Event, key: Key) {
    e.Abandon? && e.q < |c.queries| && c.queries[e.q].key == key
  }

  predicate Ends(e: Event, q: nat) { e == PickUp(q) || e == Abandon(q) }

  predicate At(c: Chan, q: nat, key: Key, phase: Phase) { q < |c.queries| && c.queries[q] == Query(key, phase) }

  lemma {:induction false} StaysWaiting(cs: seq<Chan>, events: seq<Event>, q: nat, key: Key, a: nat, i: nat)
    requires Trace(cs, events) && a <= i < |cs| && At(cs[a], q, key, Waiting)
    requires forall j :: a <= j < i ==> !Matches(events[j], key) && !Guards(cs[j], events[j], key)
    ensures At(cs[i], q, key, Waiting)
    decreases i
  {
    if a < i {
      StaysWaiting(cs, events, q, key, a, i - 1);
      TraceKeeps(cs, events, i - 1);
      assert Moves(cs, events, i - 1);
    }
  }

  lemma {:induction false} StaysDelivered(cs: seq<Chan>, events: seq<Event>, q: nat, key: Key, n: nat, a: nat, i: nat)
    requires Trace(cs, events) && a <= i < |cs| && At(cs[a], q, key, Delivered(n)) && n < |cs[a].arrived|
    requires forall j :: a <= j < i ==> !Ends(events[j], q)
    ensures At(cs[i], q, key, Delivered(n)) && n < |cs[i].arrived| && cs[i].arrived[n] == cs[a].arrived[n]
    decreases i
  {
    if a < i {
      StaysDelivered(cs, events, q, key, n, a, i - 1);
      TraceKeeps(cs, events, i - 1);
      assert Moves(cs, events, i - 1);
    }
  }

  /**
   A query that waits is answered with the first datagram for its key that arrives, unless a guard of that
   key ran before, if it then picks it up.
   */
  lemma FirstMatchAnswers(cs: seq<Chan>, events: seq<Event>, q: nat, key: Key, i: nat, j: nat)
    requires Trace(cs, events) && At(cs[0], q, key, Waiting) && i < j < |events|
    requires forall k :: 0 <= k < i ==> !Matches(events[k], key) && !Guards(cs[k], events[k], key)
    requires Matches(events[i], key) && (forall k :: i < k < j ==> !Ends(events[k], q)) && events[j] == PickUp(q)
    ensures var n := |cs[i].arrived|;
            && At(cs[j + 1], q, key, Answered(n))
            && n < |cs[j + 1].arrived| && cs[j + 1].arrived[n] == events[i].d
  {
    StaysWaiting(cs, events, q, key, 0, i);
    TraceKeeps(cs, events, i);
    assert Moves(cs, events, i);
    StaysDelivered(cs, events, q, key, |cs[i].arrived|, i + 1, j);
    assert Moves(cs, events, j);
  }

  // ---- the code ----

  class UpstreamUdpChannel {
    var pending: map<Key, nat>
    var queries: seq<Query>
    var arrived: seq<Datagram>

    function View(): Chan reads this { Chan(pending, queries, arrived) }

    constructor ()
      ensures View() == EMPTY && Inv(View())
    {
      pending, queries, arrived := map[], [], [];
    }

    /** The head of `query`, up to the send: claim the slot or report a collision. */
    method Begin(key: Key) returns (q: Option<nat>)
      modifies this
      ensures View() == Step(old(View()), Start(key))
      ensures q == if key in old(pending) then None else Some(old(|queries|))
    {
      if key in pending {
        queries := queries + [Query(key, Failed)];
        return None;
      }
      pending := pending[key := |queries|];
      q := Some(|queries|);
      queries := queries + [Query(key, Waiting)];
    }

    /** One datagram in `recv_demux_loop`. */
    method OnDatagram(d: Datagram)
      requires Inv(View())
      modifies this
      ensures View() == Step(old(View()), Receive(d)) && Inv(View())
    {
      StepKeeps(View(), Receive(d));
      arrived := arrived + [d];
      if |d.bytes| < 12 { return; }
      var key := KeyOf(d);
      if key in pending {
        var waiter := pending[key];
        pending := pending - {key};
        queries := queries[waiter := queries[waiter].(phase := Delivered(|arrived| - 1))];
      }
    }

    /** The successful tail of `query`: the answer is taken and the guard disarmed. */
    method Return(q: nat) returns (d: Datagram)
      requires Inv(View()) && q < |queries| && queries[q].phase.Delivered?
      modifies this`queries
      ensures View() == Step(old(View()), PickUp(q)) && Inv(View())
      ensures d.from.ip == queries[q].key.ip && |d.bytes| >= 12 && KeyOf(d) == queries[q].key
    {
      StepKeeps(View(), PickUp(q));
      var n := queries[q].phase.d;
      assert Fits(View(), q);
      d := arrived[n];
      queries := queries[q := queries[q].(phase := Answered(n))];
    }

    /** The drop guard of a query that ends any other way: it removes the slot by key, whoever holds it. */
    method DropGuard(q: nat)
      requires Inv(View()) && q < |queries| && !queries[q].phase.Ended()
      modifies this`queries, this`pending
      ensures View() == Step(old(View()), Abandon(q)) && Inv(View())
    {
      StepKeeps(View(), Abandon(q));
      var key := queries[q].key;
      if key in pending {
        var owner := pending[key];
        queries := queries[owner := queries[owner].(phase := Orphaned)];
      }
      pending := pending - {key};
      queries := queries[q := queries[q].(phase := Failed)];
    }
  }
}
