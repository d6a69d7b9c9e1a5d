/**
 What becomes of a forwarder query over every interleaving: its servers are tried in list order, each
 until it works or fails; the query ends well where one works, and in failure only after every one has
 failed or when it is cancelled.
 */
module ForwarderRun {
  import opened Basics
  import opened ForwarderConfig
  import opened DotPool

  /** The event is the failure of the server the task is at. */
  ghost predicate FailsNow(w: World, e: Event, t: nat) {
    && t < |w.tasks| && w.tasks[t].idx < |w.tasks[t].servers|
    && var task := w.tasks[t];
    var srv := task.servers[task.idx];
    match e
    case TryServer(u, udpOk, _) =>
      && u == t && task.phase.Next?
      && (if srv.transport.Dot? then KeyFor(w.torSocks, srv, task.domain).None?
          else !(srv.transport.Udp? && srv.via.Direct? && udpOk))
    case Built(u, connected) => u == t && task.phase.Building? && !connected
    case Exchanged(u, fine, _, _) => u == t && task.phase.Fresh? && !fine
    case _ => false
  }

  /** The event is the reply of the server the task is at. */
  ghost predicate WorksNow(w: World, e: Event, t: nat) {
    && t < |w.tasks| && w.tasks[t].idx < |w.tasks[t].servers|
    && var task := w.tasks[t];
    var srv := task.servers[task.idx];
    match e
    case TryServer(u, udpOk, _) => u == t && task.phase.Next? && srv.transport.Udp? && srv.via.Direct? && udpOk
    case Exchanged(u, fine, _, _) => u == t && task.phase.Holding() && fine
    case _ => false
  }

  /** The event ends the task from outside. */
  ghost predicate CancelledNow(w: World, e: Event, t: nat) {
    t < |w.tasks| && e == Cancel(t) && !w.tasks[t].phase.Finished?
  }

  /** A task that has not ended is at one of its servers. */
  ghost predicate Placed(task: Task) { task.phase.Finished? || task.idx < |task.servers| }

  ghost predicate AllPlaced(w: World) { forall t :: 0 <= t < |w.tasks| ==> Placed(w.tasks[t]) }

  /** What one event does to a task. */
  ghost predicate Moves(w: World, e: Event, t: nat, before: Task, after: Task) {
    && after.servers == before.servers && after.idx == before.idx + (if FailsNow(w, e, t) then 1 else 0)
    && (FailsNow(w, e, t) ==> after.phase == if after.idx < |after.servers| then Next else Finished(false))
    && (WorksNow(w, e, t) ==> after.phase == Finished(true))
    && (CancelledNow(w, e, t) ==> after.phase == Finished(false))
    && (after.phase.Finished? && !before.phase.Finished? ==>
      FailsNow(w, e, t) || WorksNow(w, e, t) || CancelledNow(w, e, t))
    && (before.phase.Finished? ==> after == before)
  }

  lemma TryMoves(w: World, t: nat, udpOk: bool, now: int)
    requires t < |w.tasks| && w.tasks[t].phase.Next? && Placed(w.tasks[t])
    ensures Moves(w, TryServer(t, udpOk, now), t, w.tasks[t], Try(w, t, udpOk, now).tasks[t])
    ensures forall u :: 0 <= u < |w.tasks| && u != t ==> Try(w, t, udpOk, now).tasks[u] == w.tasks[u]
    ensures |Try(w, t, udpOk, now).tasks| == |w.tasks|
  {}

  lemma StepMoves(w: World, e: Event, t: nat)
    requires AllPlaced(w) && t < |w.tasks|
    ensures |w.tasks| <= |Step(w, e).tasks| && Moves(w, e, t, w.tasks[t], Step(w, e).tasks[t])
  {
    match e
    case TryServer(u, udpOk, now) => if u < |w.tasks| && w.tasks[u].phase.Next? { TryMoves(w, u, udpOk, now); }
    case _ =>
  }

  lemma StepPlaces(w: World, e: Event)
    requires AllPlaced(w)
    ensures AllPlaced(Step(w, e))
  {
    var w' := Step(w, e);
    forall t | 0 <= t < |w'.tasks| ensures Placed(w'.tasks[t]) {
      if t < |w.tasks| { StepMoves(w, e, t); }
    }
  }

  // ---- over runs ----

  /** The worlds of a run, one more than its events. */
  ghost predicate Trace(ws: seq<World>, events: seq<Event>) {
    && |ws| == |events| + 1 && ws[0].tasks == []
    && (forall n: nat {:trigger StepsTo(ws, events, n)} :: n < |events| ==> StepsTo(ws, events, n))
    && (forall n: nat {:trigger PlacedAt(ws, n)} :: n < |ws| ==> PlacedAt(ws, n))
  }

  ghost predicate StepsTo(ws: seq<World>, events: seq<Event>, n: nat) requires n < |events| && n + 1 < |ws| {
    ws[n + 1] == Step(ws[n], events[n])
  }

  ghost predicate PlacedAt(ws: seq<World>, n: nat) requires n < |ws| { AllPlaced(ws[n]) }

  /** Every run has its worlds, the last of which is where it leads. */
  lemma {:induction false} TraceOf(torSocks: Option<Addr>, events: seq<Event>) returns (ws: seq<World>)
    ensures Trace(ws, events) && ws[|events|] == Run(torSocks, events)
  {
    if events == [] {
      ws := [Start(torSocks)];
    } else {
      var n := |events| - 1;
      var before := TraceOf(torSocks, events[..n]);
      var last := Step(before[n], events[n]);
      ws := before + [last];
      assert PlacedAt(before, n);
      StepPlaces(before[n], events[n]);
      forall m: nat | m < |events| ensures StepsTo(ws, events, m) {
        if m < n { assert StepsTo(before, events[..n], m); }
      }
      forall m: nat | m < |ws| ensures PlacedAt(ws, m) {
        if m <= n { assert PlacedAt(before, m); }
      }
    }
  }

  /** What an event of the run does to a task that is there. */
  lemma EventMoves(ws: seq<World>, events: seq<Event>, t: nat, n: nat)
    requires Trace(ws, events) && n < |events| && t < |ws[n].tasks|
    ensures t < |ws[n + 1].tasks| && Moves(ws[n], events[n], t, ws[n].tasks[t], ws[n + 1].tasks[t])
  {
    assert StepsTo(ws, events, n) && PlacedAt(ws, n);
    StepMoves(ws[n], events[n], t);
  }

  /** A task that is new after an event starts at its first server, or has none. */
  lemma EventAdds(ws: seq<World>, events: seq<Event>, t: nat, n: nat)
    requires Trace(ws, events) && n < |events| && |ws[n].tasks| <= t < |ws[n + 1].tasks|
    ensures var task := ws[n + 1].tasks[t]; task.idx == 0 && (task.phase.Finished? <==> task.servers == [])
    ensures ws[n + 1].tasks[t].phase != Finished(true)
  {
    assert StepsTo(ws, events, n);
  }

  lemma {:induction false} Stays(ws: seq<World>, events: seq<Event>, t: nat, m: nat, n: nat)
    requires Trace(ws, events) && m <= n < |ws| && t < |ws[m].tasks|
    ensures t < |ws[n].tasks|
    ensures ws[m].tasks[t].idx <= ws[n].tasks[t].idx && ws[m].tasks[t].servers == ws[n].tasks[t].servers
    decreases n
  {
    if m < n {
      Stays(ws, events, t, m, n - 1);
      EventMoves(ws, events, t, n - 1);
    }
  }

  /** Task `t` is there, at server `i`, before event `n`. */
  ghost predicate AtServer(ws: seq<World>, t: nat, n: nat, i: nat) {
    n < |ws| && t < |ws[n].tasks| && ws[n].tasks[t].idx == i
  }

  /** Event `k` is the failure of the task's server `i`. */
  ghost predicate FailsAt(ws: seq<World>, events: seq<Event>, t: nat, i: nat, k: nat) {
    k < |events| && AtServer(ws, t, k, i) && FailsNow(ws[k], events[k], t)
  }

  ghost predicate HasFailed(ws: seq<World>, events: seq<Event>, t: nat, i: nat) {
    exists k :: FailsAt(ws, events, t, i, k)
  }

  /** Event `k` is the reply of the task's server `i`. */
  ghost predicate WorksAt(ws: seq<World>, events: seq<Event>, t: nat, i: nat, k: nat) {
    k < |events| && AtServer(ws, t, k, i) && WorksNow(ws[k], events[k], t)
  }

  ghost predicate CancelledAt(ws: seq<World>, events: seq<Event>, t: nat, k: nat) {
    k < |events| && k < |ws| && CancelledNow(ws[k], events[k], t)
  }

  /** A task at a later server has failed at each one before it. */
  lemma {:induction false} FailedBefore(ws: seq<World>, events: seq<Event>, t: nat, n: nat, i: nat) returns (k: nat)
    requires Trace(ws, events) && n < |ws| && t < |ws[n].tasks| && i < ws[n].tasks[t].idx
    ensures k < n && FailsAt(ws, events, t, i, k)
    decreases n
  {
    k := n - 1;
    if t < |ws[k].tasks| {
      EventMoves(ws, events, t, k);
      if i < ws[k].tasks[t].idx { k := FailedBefore(ws, events, t, k, i); }
    } else {
      EventAdds(ws, events, t, k);
    }
  }

  /** Failures at different servers come in list order. */
  lemma FailuresInOrder(ws: seq<World>, events: seq<Event>, t: nat, k: nat, l: nat, i: nat, j: nat)
    requires Trace(ws, events) && FailsAt(ws, events, t, i, k) && FailsAt(ws, events, t, j, l) && i < j
    ensures k < l
  {
    if l <= k { Stays(ws, events, t, l, k); }
  }

  /** Event `k` ended the task, as it was before event `n`. */
  ghost predicate EndedAt(ws: seq<World>, events: seq<Event>, t: nat, k: nat, n: nat) {
    && k < n < |ws| && n <= |events| && t < |ws[k].tasks| && !ws[k].tasks[t].phase.Finished?
    && t < |ws[k + 1].tasks| && t < |ws[n].tasks| && ws[k + 1].tasks[t] == ws[n].tasks[t]
  }

  /** When a task has ended, the event that ended it. */
  lemma {:induction false} EndedBy(ws: seq<World>, events: seq<Event>, t: nat, n: nat) returns (k: nat)
    requires Trace(ws, events) && n < |ws| && t < |ws[n].tasks|
    requires ws[n].tasks[t].phase.Finished? && ws[n].tasks[t].servers != []
    ensures EndedAt(ws, events, t, k, n)
    decreases n
  {
    k := n - 1;
    if t < |ws[k].tasks| {
      EventMoves(ws, events, t, k);
      if ws[k].tasks[t].phase.Finished? { k := EndedBy(ws, events, t, k); }
    } else {
      EventAdds(ws, events, t, k);
    }
  }

  lemma {:induction false} NoServerNoReply(ws: seq<World>, events: seq<Event>, t: nat, n: nat)
    requires Trace(ws, events) && n < |ws| && t < |ws[n].tasks| && ws[n].tasks[t].servers == []
    ensures ws[n].tasks[t].phase == Finished(false)
    decreases n
  {
    if t < |ws[n - 1].tasks| {
      EventMoves(ws, events, t, n - 1);
      NoServerNoReply(ws, events, t, n - 1);
    } else {
      EventAdds(ws, events, t, n - 1);
    }
  }

  /** How a task with servers ended. */
  lemma EndsAtServer(ws: seq<World>, events: seq<Event>, t: nat, n: nat)
    requires Trace(ws, events) && n < |ws| && t < |ws[n].tasks|
    requires ws[n].tasks[t].phase.Finished? && ws[n].tasks[t].servers != []
    ensures var task := ws[n].tasks[t];
            if task.phase.ok then task.idx < |task.servers| && exists k :: WorksAt(ws, events, t, task.idx, k)
            else task.idx == |task.servers| || exists k :: CancelledAt(ws, events, t, k)
  {
    var k := EndedBy(ws, events, t, n);
    EventMoves(ws, events, t, k);
    assert PlacedAt(ws, k);
    var w, e := ws[k], events[k];
    assert FailsNow(w, e, t) || WorksNow(w, e, t) || CancelledNow(w, e, t);
    if WorksNow(w, e, t) { assert WorksAt(ws, events, t, w.tasks[t].idx, k); }
    if CancelledNow(w, e, t) { assert CancelledAt(ws, events, t, k); }
  }

  /**
   Over every interleaving: a task has failed at every server before the one it is at; if it ended well, that
   one replied; if it ended in failure without being cancelled, every one of its servers has failed it.
   */
  lemma TriesInOrder(ws: seq<World>, events: seq<Event>, t: nat, n: nat)
    requires Trace(ws, events) && n < |ws| && t < |ws[n].tasks|
    ensures forall i: nat :: i < ws[n].tasks[t].idx ==> HasFailed(ws, events, t, i)
    ensures ws[n].tasks[t].phase == Finished(true) ==> exists k :: WorksAt(ws, events, t, ws[n].tasks[t].idx, k)
    ensures ws[n].tasks[t].phase == Finished(false) && (forall k :: !CancelledAt(ws, events, t, k)) ==>
              forall i: nat :: i < |ws[n].tasks[t].servers| ==> HasFailed(ws, events, t, i)
  {
    var task := ws[n].tasks[t];
    forall i: nat | i < task.idx ensures HasFailed(ws, events, t, i) {
      var k := FailedBefore(ws, events, t, n, i);
    }
    if task.servers == [] { NoServerNoReply(ws, events, t, n); }
    else if task.phase.Finished? { EndsAtServer(ws, events, t, n); }
  }

  /** And of every run, in particular of where it leads. */
  lemma RunTriesInOrder(torSocks: Option<Addr>, events: seq<Event>, t: nat) returns (ws: seq<World>)
    requires t < |Run(torSocks, events).tasks|
    ensures Trace(ws, events) && ws[|events|] == Run(torSocks, events)
    ensures var task := Run(torSocks, events).tasks[t];
            && (task.phase == Finished(true) ==>
                  && (exists k :: WorksAt(ws, events, t, task.idx, k))
                  && forall i: nat :: i < task.idx ==> HasFailed(ws, events, t, i))
            && (task.phase == Finished(false) && (forall k :: !CancelledAt(ws, events, t, k)) ==>
                  forall i: nat :: i < |task.servers| ==> HasFailed(ws, events, t, i))
  {
    ws := TraceOf(torSocks, events);
    TriesInOrder(ws, events, t, |events|);
  }

  // ---- a failed reuse ----

  /** The task, at server `i` and in that phase, before event `n`. */
  ghost predicate InPhase(ws: seq<World>, t: nat, n: nat, i: nat, p: Phase) {
    AtServer(ws, t, n, i) && ws[n].tasks[t].phase == p
  }

  /** A build under way for a key is left only by its own end or a cancel; built, the stream is for that key. */
  lemma BuildingLeaves(w: World, e: Event, t: nat, key: ConnKey)
    requires AllPlaced(w) && t < |w.tasks| && w.tasks[t].phase == Building(key) && e != Cancel(t)
    ensures t < |Step(w, e).tasks|
    ensures var task := Step(w, e).tasks[t];
            if e == Built(t, true) then
              && task.phase == Fresh(key, |w.streams|) && task.idx == w.tasks[t].idx
              && |Step(w, e).streams| == |w.streams| + 1 && Step(w, e).streams[|w.streams|].builtFor == key
            else if e == Built(t, false) then FailsNow(w, e, t)
            else task == w.tasks[t]
  {
    if e.TryServer? && e.t < |w.tasks| && w.tasks[e.t].phase.Next? { TryMoves(w, e.t, e.udpOk, e.now); }
  }

  /** A reuse that fails makes the task build for the same key at the same server. */
  lemma FailedReuseBuilds(w: World, e: Event, t: nat)
    requires t < |w.tasks| && w.tasks[t].phase.Reusing? && e.Exchanged? && e.t == t && !e.fine
    ensures t < |Step(w, e).tasks|
    ensures Step(w, e).tasks[t] == w.tasks[t].(phase := Building(w.tasks[t].phase.key))
  {}

  lemma FreshLeaves(w: World, e: Event, t: nat)
    requires AllPlaced(w) && t < |w.tasks| && (w.tasks[t].phase.Fresh? || w.tasks[t].phase.Finished?)
    ensures t < |Step(w, e).tasks|
    ensures var p := Step(w, e).tasks[t].phase; p.Fresh? || p.Finished? || FailsNow(w, e, t)
  {
    StepMoves(w, e, t);
    if e.TryServer? && e.t < |w.tasks| && w.tasks[e.t].phase.Next? { TryMoves(w, e.t, e.udpOk, e.now); }
  }

  /** No cancel of the task among events `m` to `n`. */
  ghost predicate Uncancelled(events: seq<Event>, t: nat, m: nat, n: nat) {
    forall j :: m <= j < n && j < |events| ==> events[j] != Cancel(t)
  }

  lemma StillBuilding(ws: seq<World>, events: seq<Event>, t: nat, m: nat, i: nat, key: ConnKey)
    requires Trace(ws, events) && m < |events| && InPhase(ws, t, m, i, Building(key)) && events[m] != Cancel(t)
    ensures if events[m] == Built(t, true) then AtServer(ws, t, m + 1, i) && ws[m + 1].tasks[t].phase.Fresh?
            else events[m] == Built(t, false) || InPhase(ws, t, m + 1, i, Building(key))
  {
    assert StepsTo(ws, events, m) && PlacedAt(ws, m);
    BuildingLeaves(ws[m], events[m], t, key);
  }

  /** From a build under way on: it is under way until one event ends it. */
  lemma {:induction false} BuildEnds(ws: seq<World>, events: seq<Event>, t: nat, m: nat, n: nat, i: nat, key: ConnKey)
    returns (k: nat)
    requires Trace(ws, events) && m <= n <= |events| && InPhase(ws, t, m, i, Building(key)) &&
             Uncancelled(events, t, m, n)
    ensures m <= k <= n && forall j :: m <= j <= k ==> InPhase(ws, t, j, i, Building(key))
    ensures k < n ==> events[k].Built? && events[k].t == t
    decreases n - m
  {
    k := m;
    if m < n && !(events[m].Built? && events[m].t == t) {
      StillBuilding(ws, events, t, m, i, key);
      k := BuildEnds(ws, events, t, m + 1, n, i, key);
    }
  }

  /** Once built for, a server is not built for again while the task is at it. */
  lemma {:induction false} NoSecondBuild(ws: seq<World>, events: seq<Event>, t: nat, m: nat, n: nat)
    requires Trace(ws, events) && m <= n < |ws| && t < |ws[m].tasks| && t < |ws[n].tasks|
    requires ws[m].tasks[t].phase.Fresh? && ws[n].tasks[t].idx == ws[m].tasks[t].idx
    ensures ws[n].tasks[t].phase.Fresh? || ws[n].tasks[t].phase.Finished?
    decreases n
  {
    if m < n {
      Stays(ws, events, t, m, n - 1);
      EventMoves(ws, events, t, n - 1);
      NoSecondBuild(ws, events, t, m, n - 1);
      assert StepsTo(ws, events, n - 1) && PlacedAt(ws, n - 1);
      FreshLeaves(ws[n - 1], events[n - 1], t);
    }
  }

  /**
   A failed reuse, uncancelled, is followed by building for the same key at the same server until the build
   ends; a build that succeeds is the only one at that server.
   */
  lemma FailedReuseBuildsOnce(ws: seq<World>, events: seq<Event>, t: nat, m: nat, n: nat, i: nat, p: Phase)
    returns (k: nat)
    requires Trace(ws, events) && m < n <= |events| && InPhase(ws, t, m, i, p) && p.Reusing?
    requires events[m].Exchanged? && events[m].t == t && !events[m].fine && Uncancelled(events, t, m, n)
    ensures m < k <= n && forall j :: m < j <= k ==> InPhase(ws, t, j, i, Building(p.key))
    ensures k < n ==> events[k].Built? && events[k].t == t
    ensures k < n && events[k].connected ==>
              forall j: nat :: k < j <= n && AtServer(ws, t, j, i) ==> !ws[j].tasks[t].phase.Building?
  {
    assert StepsTo(ws, events, m);
    FailedReuseBuilds(ws[m], events[m], t);
    k := BuildEnds(ws, events, t, m + 1, n, i, p.key);
    if k < n && events[k].connected {
      StillBuilding(ws, events, t, k, i, p.key);
      forall j: nat | k < j <= n && AtServer(ws, t, j, i) ensures !ws[j].tasks[t].phase.Building? {
        NoSecondBuild(ws, events, t, k + 1, j);
      }
    }
  }
}
