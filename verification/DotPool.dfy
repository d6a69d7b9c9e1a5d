/**
 Pooled DNS-over-TLS connections and the forwarder query that uses them.  Tasks interleave at every
 await (a build, an exchange); the pool is shared.  The main results: a stream is never in two
 hands, and a Tor forwarder's queries only ever travel over streams opened to the SOCKS endpoint
 for that same forwarder.
 */
module DotPool {
  import opened Basics
  import opened ForwarderConfig

  const DOT_PORT := 853
  const IDLE_CAP := 30
  const MAX_LIFETIME := 300
  const MAX_PER_KEY := 4

  datatype ConnKey = ConnKey(resolver: Addr, tlsName: string, via: Via, torSocks: Option<Addr>, isoUser: Option<string>)

  /** A pooled connection: its stream number and time stamps. */
  datatype Conn = Conn(stream: nat, createdAt: int, lastUsed: int)

  predicate Stale(c: Conn, now: int) { now - c.lastUsed >= IDLE_CAP || now - c.createdAt >= MAX_LIFETIME }

  type Idle = map<ConnKey, seq<Conn>>

  // ---- pool operations ----

  /** Length of the bucket once the stale connections at its end are popped. */
  function FreshLength(b: seq<Conn>, now: int): (n: nat)
    ensures n <= |b| && (n > 0 ==> !Stale(b[n - 1], now))
    ensures forall i :: n <= i < |b| ==> Stale(b[i], now)
  {
    if b == [] then 0 else if !Stale(b[|b| - 1], now) then |b| else FreshLength(b[..|b| - 1], now)
  }

  function TakeConn(idle: Idle, key: ConnKey, now: int): Option<Conn> {
    if key !in idle then None
    else
      var n := FreshLength(idle[key], now);
      if n > 0 then Some(idle[key][n - 1]) else None
  }

  function TakeIdle(idle: Idle, key: ConnKey, now: int): Idle {
    if key !in idle then idle
    else
      var n := FreshLength(idle[key], now);
      if n > 0 then idle[key := idle[key][..n - 1]] else idle - {key}
  }

  function Bucket(idle: Idle, key: ConnKey): seq<Conn> { if key in idle then idle[key] else [] }

  function ReleaseIdle(idle: Idle, key: ConnKey, conn: Conn, now: int): Idle {
    var c := conn.(lastUsed := now);
    if Stale(c, now) then idle
    else if |Bucket(idle, key)| >= MAX_PER_KEY then idle[key := Bucket(idle, key)]
    else idle[key := Bucket(idle, key) + [c]]
  }

  function Kept(b: seq<Conn>, now: int): (r: seq<Conn>)
    ensures |r| <= |b| && forall i :: 0 <= i < |r| ==> r[i] in b && !Stale(r[i], now)
  {
    if b == [] then [] else Kept(b[..|b| - 1], now) + if Stale(b[|b| - 1], now) then [] else [b[|b| - 1]]
  }

  /** The elements of `r` occur in `b` in the same order. */
  predicate InOrder(r: seq<Conn>, b: seq<Conn>) {
    if r == [] then true
    else if b == [] then false
    else InOrder(r, b[..|b| - 1]) || (r[|r| - 1] == b[|b| - 1] && InOrder(r[..|r| - 1], b[..|b| - 1]))
  }

  /** Exactly the connections that are not stale, as often as before and in the same order. */
  ghost predicate SweptOf(b: seq<Conn>, r: seq<Conn>, now: int) {
    InOrder(r, b) && forall c {:trigger Count(r, c)} :: Count(r, c) == if Stale(c, now) then 0 else Count(b, c)
  }

  function Count(b: seq<Conn>, c: Conn): nat { multiset(b)[c] }

  lemma {:induction false} KeptInOrder(b: seq<Conn>, now: int)
    ensures InOrder(Kept(b, now), b)
  {
    if b != [] {
      var rest, last := b[..|b| - 1], b[|b| - 1];
      KeptInOrder(rest, now);
      if Stale(last, now) {
        assert Kept(b, now) == Kept(rest, now);
      } else {
        var r := Kept(rest, now) + [last];
        assert r[..|r| - 1] == Kept(rest, now);
      }
    }
  }

  lemma CountAppend(b: seq<Conn>, last: Conn, c: Conn)
    ensures Count(b + [last], c) == Count(b, c) + if last == c then 1 else 0
  {}

  lemma {:induction false} KeptAppend(b: seq<Conn>, now: int)
    requires b != []
    ensures var rest, last := Kept(b[..|b| - 1], now), b[|b| - 1];
            Kept(b, now) == if Stale(last, now) then rest else rest + [last]
  {}

  lemma {:induction false} KeptCount(b: seq<Conn>, now: int, c: Conn)
    ensures Count(Kept(b, now), c) == if Stale(c, now) then 0 else Count(b, c)
  {
    if b != [] {
      var rest, last := b[..|b| - 1], b[|b| - 1];
      KeptCount(rest, now, c);
      assert b == rest + [last];
      CountAppend(rest, last, c);
      KeptAppend(b, now);
      if !Stale(last, now) { CountAppend(Kept(rest, now), last, c); }
    }
  }

  lemma KeptExactly(b: seq<Conn>, now: int)
    ensures SweptOf(b, Kept(b, now), now)
  {
    KeptInOrder(b, now);
    forall c ensures Count(Kept(b, now), c) == if Stale(c, now) then 0 else Count(b, c) { KeptCount(b, now, c); }
  }

  function SweepIdle(idle: Idle, now: int): Idle {
    map k | k in idle && Kept(idle[k], now) != [] :: Kept(idle[k], now)
  }

  /** There is a connection to take exactly if one in the bucket is not stale; all after the one taken are. */
  lemma TakenIffFresh(idle: Idle, key: ConnKey, now: int)
    ensures TakeConn(idle, key, now).Some? <==> exists c :: c in Bucket(idle, key) && !Stale(c, now)
    ensures TakeConn(idle, key, now).Some? ==>
              var b, n := Bucket(idle, key), |Bucket(TakeIdle(idle, key, now), key)|;
              && n < |b| && b[n] == TakeConn(idle, key, now).value && Bucket(TakeIdle(idle, key, now), key) == b[..n]
              && forall i :: n < i < |b| ==> Stale(b[i], now)
  {
    if key in idle {
      var b, n := idle[key], FreshLength(idle[key], now);
      if n > 0 { assert b == Bucket(idle, key) && !Stale(b[n - 1], now) && |b[..n - 1]| == n - 1; }
    }
  }

  lemma LastIsFresh(b: seq<Conn>, c: Conn, now: int)
    requires !Stale(c, now)
    ensures FreshLength(b + [c], now) == |b| + 1
  {}

  /**
   A connection released into a bucket with room is the next one taken, as long as it is not stale, and
   leaves no trace.
   */
  lemma ReleasedIsTaken(idle: Idle, key: ConnKey, conn: Conn, at: int, now: int)
    requires at <= now && |Bucket(idle, key)| < MAX_PER_KEY && !Stale(conn.(lastUsed := at), now)
    ensures var after := ReleaseIdle(idle, key, conn, at);
            && TakeConn(after, key, now) == Some(conn.(lastUsed := at))
            && TakeIdle(after, key, now) == idle[key := Bucket(idle, key)]
  {
    var c, b := conn.(lastUsed := at), Bucket(idle, key);
    assert !Stale(c, at);
    LastIsFresh(b, c, now);
    assert (b + [c])[..|b|] == b;
    assert TakeIdle(idle[key := b + [c]], key, now) == idle[key := b];
  }

  class Pool {
    var idle: Idle

    constructor ()
      ensures idle == map[]
    {
      idle := map[];
    }

    /** `DotPool::take`: pops from the back, dropping stale connections on the way. */
    method Take(key: ConnKey, now: int) returns (c: Option<Conn>)
      modifies this
      ensures c == TakeConn(old(idle), key, now) && idle == TakeIdle(old(idle), key, now)
      ensures c.Some? ==> !Stale(c.value, now)
    {
      if key !in idle { return None; }
      var bucket := idle[key];
      while bucket != []
        invariant FreshLength(bucket, now) == FreshLength(old(idle)[key], now)
        invariant bucket <= old(idle)[key] && idle == old(idle)
        decreases |bucket|
      {
        var conn := bucket[|bucket| - 1];
        bucket := bucket[..|bucket| - 1];
        if !Stale(conn, now) {
          assert bucket == old(idle)[key][..|bucket|];
          idle := idle[key := bucket];
          return Some(conn);
        }
      }
      idle := idle - {key};
      return None;
    }

    /** `DotPool::release`. */
    method Release(key: ConnKey, conn: Conn, now: int)
      modifies this
      ensures idle == ReleaseIdle(old(idle), key, conn, now)
    {
      var c := conn.(lastUsed := now);
      if Stale(c, now) { return; }
      var bucket := Bucket(idle, key);
      idle := idle[key := bucket];
      if |bucket| >= MAX_PER_KEY { return; }
      idle := idle[key := bucket + [c]];
    }

    /** `DotPool::sweep`. */
    method Sweep(now: int)
      modifies this
      ensures idle == SweepIdle(old(idle), now)
      ensures forall k :: SweptOf(Bucket(old(idle), k), Bucket(idle, k), now)
      ensures forall k :: k in idle ==> idle[k] != []
    {
      ghost var before := idle;
      forall k ensures SweptOf(Bucket(before, k), Bucket(SweepIdle(before, now), k), now) {
        KeptExactly(Bucket(before, k), now);
      }
      idle := map k | k in idle && Kept(idle[k], now) != [] :: Kept(idle[k], now);
    }
  }

  // ---- tasks ----

  /** A stream as it was opened: for which key, to which address, and with which SOCKS username if any. */
  datatype Stream = Stream(builtFor: ConnKey, target: Addr, socks: bool, user: Option<string>)

  datatype Phase =
    | Next                                      // about to try the current server
    | Reusing(key: ConnKey, stream: nat)        // exchanging over a pooled stream
    | Building(key: ConnKey)                    // opening a stream, after a miss or a failed reuse
    | Fresh(key: ConnKey, stream: nat)          // exchanging over the stream just opened
    | Finished(ok: bool)
  {
    predicate Holding() { Reusing? || Fresh? }
  }

  /** One forwarder query: its server list and domain, the server being tried, builds spent on it. */
  datatype Task = Task(servers: seq<Server>, domain: string, idx: nat, phase: Phase, builds: nat)

  datatype World = World(torSocks: Option<Addr>, idle: Idle, streams: seq<Stream>, tasks: seq<Task>,
                         udpSends: set<nat>, used: set<(nat, nat)>)

  datatype Event =
    | Ask(servers: seq<Server>, domain: string)
    | TryServer(t: nat, udpOk: bool, now: int)
    | Built(t: nat, connected: bool)
    | Exchanged(t: nat, fine: bool, wrapped: int, now: int)
    | Cancel(t: nat)
    | SweepPool(now: int)

  /** `query_one_dot`: the key of a server, or nothing when the query must fail. */
  function KeyFor(torSocks: Option<Addr>, srv: Server, domain: string): Option<ConnKey> {
    if srv.tlsName.None? || (srv.via.Tor? && torSocks.None?) then None
    else Some(ConnKey(Addr(srv.address, DOT_PORT), srv.tlsName.value, srv.via,
                      if srv.via.Tor? then torSocks else None, if srv.via.Tor? then Some(domain) else None))
  }

  /** The connection factory of `dot_exchange`. */
  function BuildFor(key: ConnKey): Stream {
    var target := if key.torSocks.Some? then key.torSocks.value else key.resolver;
    Stream(key, target, key.via.Tor?, if key.via.Tor? then key.isoUser else None)
  }

  function Put(w: World, t: nat, task: Task): World requires t < |w.tasks| { w.(tasks := w.tasks[t := task]) }

  function SetPhase(w: World, t: nat, p: Phase): World requires t < |w.tasks| { Put(w, t, w.tasks[t].(phase := p)) }

  /** On to the next server, or fail when the list is exhausted. */
  function Failover(w: World, t: nat): World requires t < |w.tasks| {
    var task := w.tasks[t];
    var n := task.idx + 1;
    Put(w, t, task.(idx := n, builds := 0, phase := if n < |task.servers| then Next else Finished(false)))
  }

  function Try(w: World, t: nat, udpOk: bool, now: int): World requires t < |w.tasks| {
    var task := w.tasks[t];
    if task.idx >= |task.servers| then SetPhase(w, t, Finished(false))
    else
      var srv := task.servers[task.idx];
      match (srv.transport, srv.via)
      case (Udp, Direct) =>
        var w1 := w.(udpSends := w.udpSends + {t});
        if udpOk then SetPhase(w1, t, Finished(true)) else Failover(w1, t)
      case (Dot, _) =>
        var key := KeyFor(w.torSocks, srv, task.domain);
        if key.None? then Failover(w, t)
        else
          var conn, w1 := TakeConn(w.idle, key.value, now), w.(idle := TakeIdle(w.idle, key.value, now));
          if conn.Some? then SetPhase(w1.(used := w.used + {(t, conn.value.stream)}), t,
            Reusing(key.value, conn.value.stream))
          else SetPhase(w1, t, Building(key.value))
      case (_, _) => Failover(w, t)
  }

  function Step(w: World, e: Event): World {
    match e
    case Ask(servers, domain) =>
      w.(tasks := w.tasks + [Task(servers, domain, 0, if servers == [] then Finished(false) else Next, 0)])
    case TryServer(t, udpOk, now) => if t < |w.tasks| && w.tasks[t].phase.Next? then Try(w, t, udpOk, now) else w
    case Built(t, connected) =>
      if t >= |w.tasks| || !w.tasks[t].phase.Building? then w
      else if !connected then Failover(w, t)
      else
        var key, s := w.tasks[t].phase.key, |w.streams|;
        var w1 := w.(streams := w.streams + [BuildFor(key)], used := w.used + {(t, s)});
        Put(w1, t, w.tasks[t].(phase := Fresh(key, s), builds := w.tasks[t].builds + 1))
    case Exchanged(t, fine, wrapped, now) =>
      if t >= |w.tasks| || !w.tasks[t].phase.Holding() then w
      else
        var p := w.tasks[t].phase;
        if fine then
          SetPhase(w.(idle := ReleaseIdle(w.idle, p.key, Conn(p.stream, wrapped, wrapped), now)), t, Finished(true))
        else if p.Reusing? then SetPhase(w, t, Building(p.key))
        else Failover(w, t)
    case Cancel(t) => if t < |w.tasks| && !w.tasks[t].phase.Finished? then SetPhase(w, t, Finished(false)) else w
    case SweepPool(now) => w.(idle := SweepIdle(w.idle, now))
  }

  // ---- invariants ----

  ghost predicate Distinct(b: seq<Conn>) { forall i, j :: 0 <= i < j < |b| ==> b[i].stream != b[j].stream }

  predicate InBucket(b: seq<Conn>, s: nat) { exists i :: 0 <= i < |b| && b[i].stream == s }

  /** A bucket: at most four distinct streams, all opened for its key. */
  ghost predicate GoodBucket(streams: seq<Stream>, key: ConnKey, b: seq<Conn>) {
    && |b| <= MAX_PER_KEY && Distinct(b)
    && forall i :: 0 <= i < |b| ==> b[i].stream < |streams| && streams[b[i].stream].builtFor == key
  }

  ghost predicate Pooled(streams: seq<Stream>, idle: Idle) {
    forall k :: k in idle ==> GoodBucket(streams, k, idle[k])
  }

  /** A holder has a stream opened for its key that no bucket and no other holder has. */
  ghost predicate Exclusive(w: World) {
    && (forall t :: 0 <= t < |w.tasks| && w.tasks[t].phase.Holding() ==>
          var p := w.tasks[t].phase;
          && p.stream < |w.streams| && w.streams[p.stream].builtFor == p.key
          && !InBucket(Bucket(w.idle, p.key), p.stream))
    && (forall t, u :: 0 <= t < u < |w.tasks| && w.tasks[t].phase.Holding() && w.tasks[u].phase.Holding() ==>
          w.tasks[t].phase.stream != w.tasks[u].phase.stream)
  }

  ghost predicate Honest(w: World) {
    forall s :: 0 <= s < |w.streams| ==> w.streams[s] == BuildFor(w.streams[s].builtFor)
  }

  /** A build happens at most once per server tried. */
  predicate Frugal(task: Task) {
    task.builds == if task.phase.Fresh? || (task.phase.Finished? && task.builds > 0) then 1 else 0
  }

  ghost predicate Inv(w: World) {
    && Pooled(w.streams, w.idle) && Exclusive(w) && Honest(w)
    && forall t :: 0 <= t < |w.tasks| ==> Frugal(w.tasks[t])
  }

  // bucket facts

  lemma {:induction false} KeptKeeps(streams: seq<Stream>, key: ConnKey, b: seq<Conn>, now: int)
    requires GoodBucket(streams, key, b)
    ensures GoodBucket(streams, key, Kept(b, now))
    ensures forall s: nat :: InBucket(Kept(b, now), s) ==> InBucket(b, s)
  {
    if b != [] {
      var rest := b[..|b| - 1];
      KeptKeeps(streams, key, rest, now);
      forall s: nat | InBucket(Kept(rest, now), s) ensures InBucket(rest, s) && s != b[|b| - 1].stream {}
      forall s: nat | InBucket(Kept(b, now), s) ensures InBucket(b, s) {
        if InBucket(Kept(rest, now), s) { assert InBucket(rest, s); }
      }
    }
  }

  /** What a pool operation may do to a bucket, besides dropping connections: add `extra` under `key`. */
  ghost predicate Shrinks(before: Idle, after: Idle, key: ConnKey, extra: Option<nat>) {
    forall k, s: nat :: InBucket(Bucket(after, k), s) ==>
      InBucket(Bucket(before, k), s) || (k == key && extra == Some(s))
  }

  lemma TakeKeeps(streams: seq<Stream>, idle: Idle, key: ConnKey, now: int)
    requires Pooled(streams, idle)
    ensures Pooled(streams, TakeIdle(idle, key, now)) && Shrinks(idle, TakeIdle(idle, key, now), key, None)
    ensures var c := TakeConn(idle, key, now);
            c.Some? ==>
              && c.value.stream < |streams| && streams[c.value.stream].builtFor == key
              && InBucket(Bucket(idle, key), c.value.stream)
              && !InBucket(Bucket(TakeIdle(idle, key, now), key), c.value.stream)
  {
    var after := TakeIdle(idle, key, now);
    if key in idle {
      assert GoodBucket(streams, key, idle[key]);
      var n := FreshLength(idle[key], now);
      forall k, s: nat | InBucket(Bucket(after, k), s) ensures InBucket(Bucket(idle, k), s) {
        if k == key && n > 0 {
          var i :| 0 <= i < n - 1 && idle[key][..n - 1][i].stream == s;
          assert idle[key][i].stream == s;
        } else {
          assert k != key && Bucket(after, k) == Bucket(idle, k);
        }
      }
    }
  }

  lemma ReleaseKeeps(streams: seq<Stream>, idle: Idle, key: ConnKey, conn: Conn, now: int)
    requires Pooled(streams, idle) && conn.stream < |streams| && streams[conn.stream].builtFor == key
    requires !InBucket(Bucket(idle, key), conn.stream)
    ensures Pooled(streams, ReleaseIdle(idle, key, conn, now))
    ensures Shrinks(idle, ReleaseIdle(idle, key, conn, now), key, Some(conn.stream))
  {
    var b := Bucket(idle, key);
    assert GoodBucket(streams, key, b);
    var c, after := conn.(lastUsed := now), ReleaseIdle(idle, key, conn, now);
    assert |b| < MAX_PER_KEY ==> GoodBucket(streams, key, b + [c]);
    forall k, s: nat | InBucket(Bucket(after, k), s)
      ensures InBucket(Bucket(idle, k), s) || (k == key && s == conn.stream)
    {
      if k == key {
        var i :| 0 <= i < |Bucket(after, k)| && Bucket(after, k)[i].stream == s;
        if i < |b| { assert b[i].stream == s; }
      } else {
        assert Bucket(after, k) == Bucket(idle, k);
      }
    }
  }

  lemma SweepKeeps(streams: seq<Stream>, idle: Idle, key: ConnKey, now: int)
    requires Pooled(streams, idle)
    ensures Pooled(streams, SweepIdle(idle, now)) && Shrinks(idle, SweepIdle(idle, now), key, None)
  {
    forall k | k in idle
      ensures GoodBucket(streams, k, Kept(idle[k], now)) && forall s: nat :: InBucket(Kept(idle[k], now), s) ==>
              InBucket(idle[k], s)
    {
      KeptKeeps(streams, k, idle[k], now);
    }
    var after := SweepIdle(idle, now);
    forall k, s: nat | InBucket(Bucket(after, k), s) ensures InBucket(Bucket(idle, k), s) {
      assert k in idle && Bucket(after, k) == Kept(idle[k], now);
    }
  }

  lemma GrowKeeps(streams: seq<Stream>, idle: Idle, s: Stream)
    requires Pooled(streams, idle)
    ensures Pooled(streams + [s], idle)
  {
    forall k | k in idle ensures GoodBucket(streams + [s], k, idle[k]) { assert GoodBucket(streams, k, idle[k]); }
  }

  lemma StepKeepsPooled(w: World, e: Event)
    requires Inv(w)
    ensures Pooled(Step(w, e).streams, Step(w, e).idle)
  {
    match e
    case Ask(_, _) =>
    case TryServer(t, udpOk, now) =>
      if t < |w.tasks| && w.tasks[t].phase.Next? && w.tasks[t].idx < |w.tasks[t].servers| {
        var key := KeyFor(w.torSocks, w.tasks[t].servers[w.tasks[t].idx], w.tasks[t].domain);
        if key.Some? { TakeKeeps(w.streams, w.idle, key.value, now); }
      }
    case Built(t, _) =>
      if t < |w.tasks| && w.tasks[t].phase.Building? { GrowKeeps(w.streams, w.idle, BuildFor(w.tasks[t].phase.key)); }
    case Exchanged(t, fine, wrapped, now) =>
      if t < |w.tasks| && w.tasks[t].phase.Holding() {
        var p := w.tasks[t].phase;
        ReleaseKeeps(w.streams, w.idle, p.key, Conn(p.stream, wrapped, wrapped), now);
      }
    case Cancel(_) =>
    case SweepPool(now) => SweepKeeps(w.streams, w.idle, ConnKey(Addr(0, 0), "", Direct, None, None), now);
  }

  /** Changing only one task to a phase without a stream, and buckets only by dropping, keeps exclusivity. */
  lemma LetGoKeeps(w: World, w': World, t: nat)
    requires Exclusive(w) && t < |w.tasks| && |w'.tasks| == |w.tasks| && w.streams <= w'.streams
    requires !w'.tasks[t].phase.Holding() && forall u :: 0 <= u < |w.tasks| && u != t ==> w'.tasks[u] == w.tasks[u]
    requires forall k, s: nat :: InBucket(Bucket(w'.idle, k), s) ==>
               InBucket(Bucket(w.idle, k), s) || (w.tasks[t].phase.Holding() && s == w.tasks[t].phase.stream)
    ensures Exclusive(w')
  {}

  lemma StepKeepsExclusive(w: World, e: Event)
    requires Inv(w)
    ensures Exclusive(Step(w, e))
  {
    var w' := Step(w, e);
    match e
    case Ask(_, _) =>
    case TryServer(t, udpOk, now) =>
      if t < |w.tasks| && w.tasks[t].phase.Next? { TryKeepsExclusive(w, t, udpOk, now); }
    case Built(t, connected) =>
      if t < |w.tasks| && w.tasks[t].phase.Building? && !connected { LetGoKeeps(w, w', t); }
      else if t < |w.tasks| && w.tasks[t].phase.Building? { BuiltKeepsExclusive(w, t); }
    case Exchanged(t, fine, wrapped, now) =>
      if t < |w.tasks| && w.tasks[t].phase.Holding() { ExchangeKeepsExclusive(w, t, fine, wrapped, now); }
    case Cancel(t) => if t < |w.tasks| { LetGoKeeps(w, w', t); }
    case SweepPool(now) => SweepKeepsExclusive(w, now);
  }

  lemma ExchangeKeepsExclusive(w: World, t: nat, fine: bool, wrapped: int, now: int)
    requires Inv(w) && t < |w.tasks| && w.tasks[t].phase.Holding()
    ensures Exclusive(Step(w, Exchanged(t, fine, wrapped, now)))
  {
    var p := w.tasks[t].phase;
    ReleaseKeeps(w.streams, w.idle, p.key, Conn(p.stream, wrapped, wrapped), now);
    LetGoKeeps(w, Step(w, Exchanged(t, fine, wrapped, now)), t);
  }

  lemma SweepKeepsExclusive(w: World, now: int)
    requires Inv(w)
    ensures Exclusive(Step(w, SweepPool(now)))
  {
    SweepKeeps(w.streams, w.idle, ConnKey(Addr(0, 0), "", Direct, None, None), now);
  }

  lemma BuiltKeepsExclusive(w: World, t: nat)
    requires Inv(w) && t < |w.tasks| && w.tasks[t].phase.Building?
    ensures Exclusive(Step(w, Built(t, true)))
  {
    var s, key := |w.streams|, w.tasks[t].phase.key;
    assert !InBucket(Bucket(w.idle, key), s) by {
      if key in w.idle { assert GoodBucket(w.streams, key, w.idle[key]); }
    }
  }

  /** What trying a server does: at most one take from the pool, under the key the task then works with. */
  ghost predicate TakesOnce(w: World, w': World, t: nat, now: int) requires t < |w.tasks| {
    && |w'.tasks| == |w.tasks| && w'.streams == w.streams
    && (forall u :: 0 <= u < |w.tasks| && u != t ==> w'.tasks[u] == w.tasks[u])
    && var p := w'.tasks[t].phase;
       if p.Reusing? then w'.idle == TakeIdle(w.idle, p.key, now) && TakeConn(w.idle, p.key, now).Some?
                          && TakeConn(w.idle, p.key, now).value.stream == p.stream
       else !p.Holding() && w'.idle == if p.Building? then TakeIdle(w.idle, p.key, now) else w.idle
  }

  lemma TryTakesOnce(w: World, t: nat, udpOk: bool, now: int)
    requires t < |w.tasks| && w.tasks[t].phase.Next?
    ensures TakesOnce(w, Try(w, t, udpOk, now), t, now)
  {}

  lemma TakingKeepsExclusive(w: World, w': World, t: nat, now: int)
    requires Pooled(w.streams, w.idle) && Exclusive(w) && t < |w.tasks| && !w.tasks[t].phase.Holding()
    requires TakesOnce(w, w', t, now)
    ensures Exclusive(w')
  {
    var p := w'.tasks[t].phase;
    if p.Reusing? {
      TakeKeeps(w.streams, w.idle, p.key, now);
      ReuseKeepsExclusive(w, w', t);
    } else {
      if p.Building? { TakeKeeps(w.streams, w.idle, p.key, now); }
      LetGoKeeps(w, w', t);
    }
  }

  lemma TryKeepsExclusive(w: World, t: nat, udpOk: bool, now: int)
    requires Inv(w) && t < |w.tasks| && w.tasks[t].phase.Next?
    ensures Exclusive(Step(w, TryServer(t, udpOk, now)))
  {
    TryTakesOnce(w, t, udpOk, now);
    TakingKeepsExclusive(w, Step(w, TryServer(t, udpOk, now)), t, now);
  }

  lemma ReuseKeepsExclusive(w: World, w': World, t: nat)
    requires Exclusive(w) && t < |w.tasks| && |w'.tasks| == |w.tasks| && w.streams == w'.streams
    requires w'.tasks[t].phase.Reusing? && forall u :: 0 <= u < |w.tasks| && u != t ==> w'.tasks[u] == w.tasks[u]
    requires forall k, s: nat :: InBucket(Bucket(w'.idle, k), s) ==> InBucket(Bucket(w.idle, k), s)
    requires var p := w'.tasks[t].phase;
             && p.stream < |w.streams| && w.streams[p.stream].builtFor == p.key
             && InBucket(Bucket(w.idle, p.key), p.stream) && !InBucket(Bucket(w'.idle, p.key), p.stream)
    ensures Exclusive(w')
  {}

  lemma StepKeepsRest(w: World, e: Event)
    requires Inv(w)
    ensures Honest(Step(w, e)) && forall t :: 0 <= t < |Step(w, e).tasks| ==> Frugal(Step(w, e).tasks[t])
  {
    StepKeepsHonest(w, e);
    StepKeepsFrugal(w, e);
  }

  lemma StepKeepsHonest(w: World, e: Event)
    requires Inv(w)
    ensures Honest(Step(w, e))
  {}

  lemma StepKeepsFrugal(w: World, e: Event)
    requires Inv(w)
    ensures forall t :: 0 <= t < |Step(w, e).tasks| ==> Frugal(Step(w, e).tasks[t])
  {}

  lemma StepKeeps(w: World, e: Event)
    requires Inv(w)
    ensures Inv(Step(w, e))
  {
    StepKeepsPooled(w, e);
    StepKeepsExclusive(w, e);
    StepKeepsRest(w, e);
  }

  // ---- runs ----

  function Start(torSocks: Option<Addr>): World { World(torSocks, map[], [], [], {}, {}) }

  function Run(torSocks: Option<Addr>, events: seq<Event>): World {
    if events == [] then Start(torSocks) else Step(Run(torSocks, events[..|events| - 1]), events[|events| - 1])
  }

  /** The key is that of one of the task's DoT servers. */
  ghost predicate Serves(torSocks: Option<Addr>, task: Task, key: ConnKey) {
    exists i :: 0 <= i < |task.servers| && task.servers[i].transport.Dot?
           && KeyFor(torSocks, task.servers[i], task.domain) == Some(key)
  }

  ghost predicate HasUdpServer(task: Task) {
    exists i :: 0 <= i < |task.servers| && task.servers[i].transport.Udp? && task.servers[i].via.Direct?
  }

  /** A task past its choice of server works under a key of one of its own servers. */
  ghost predicate Keyed(w: World) {
    forall t :: 0 <= t < |w.tasks| && (w.tasks[t].phase.Holding() || w.tasks[t].phase.Building?) ==>
      Serves(w.torSocks, w.tasks[t], w.tasks[t].phase.key)
  }

  /** Everything a task did was for one of its own servers, as `query_forwarder` branches on them. */
  ghost predicate ByItsServers(w: World) {
    && (forall t: nat, s: nat :: (t, s) in w.used ==>
          t < |w.tasks| && s < |w.streams| && Serves(w.torSocks, w.tasks[t], w.streams[s].builtFor))
    && (forall t :: t in w.udpSends ==> t < |w.tasks| && HasUdpServer(w.tasks[t]))
  }

  lemma SameAsking(torSocks: Option<Addr>, a: Task, b: Task, key: ConnKey)
    requires a.servers == b.servers && a.domain == b.domain
    ensures Serves(torSocks, a, key) <==> Serves(torSocks, b, key)
    ensures HasUdpServer(a) <==> HasUdpServer(b)
  {}

  /** The record has only been added to, and what each task was asked is the same. */
  ghost predicate Extends(w: World, w': World) {
    && |w.tasks| <= |w'.tasks| && w.streams <= w'.streams && w'.torSocks == w.torSocks
    && forall t :: 0 <= t < |w.tasks| ==>
         w'.tasks[t].servers == w.tasks[t].servers && w'.tasks[t].domain == w.tasks[t].domain
  }

  lemma TryExtends(w: World, t: nat, udpOk: bool, now: int)
    requires t < |w.tasks| && w.tasks[t].phase.Next?
    ensures Extends(w, Try(w, t, udpOk, now))
  {}

  lemma ExchangeExtends(w: World, t: nat, fine: bool, wrapped: int, now: int)
    ensures Extends(w, Step(w, Exchanged(t, fine, wrapped, now)))
  {}

  lemma StepExtends(w: World, e: Event)
    ensures Extends(w, Step(w, e))
  {
    match e
    case TryServer(t, udpOk, now) => if t < |w.tasks| && w.tasks[t].phase.Next? { TryExtends(w, t, udpOk, now); }
    case Exchanged(t, fine, wrapped, now) => ExchangeExtends(w, t, fine, wrapped, now);
    case _ =>
  }

  lemma StepKeepsKeyed(w: World, e: Event)
    requires Keyed(w)
    ensures Keyed(Step(w, e))
  {
    var w' := Step(w, e);
    StepExtends(w, e);
    forall t | 0 <= t < |w'.tasks| && (w'.tasks[t].phase.Holding() || w'.tasks[t].phase.Building?)
      ensures Serves(w'.torSocks, w'.tasks[t], w'.tasks[t].phase.key)
    {
      if t < |w.tasks| {
        SameAsking(w.torSocks, w.tasks[t], w'.tasks[t], w'.tasks[t].phase.key);
        ChosenKey(w, e, t);
      }
    }
  }

  lemma TriedKey(w: World, t: nat, udpOk: bool, now: int)
    requires t < |w.tasks| && w.tasks[t].phase.Next?
    requires var p := Try(w, t, udpOk, now).tasks[t].phase; p.Holding() || p.Building?
    ensures Serves(w.torSocks, w.tasks[t], Try(w, t, udpOk, now).tasks[t].phase.key)
  {
    var task := w.tasks[t];
    assert task.servers[task.idx].transport.Dot?;
    assert KeyFor(w.torSocks, task.servers[task.idx], task.domain) == Some(Try(w, t, udpOk, now).tasks[t].phase.key);
  }

  /** A step that does not choose a server for a task leaves its key. */
  lemma SameKey(w: World, e: Event, t: nat)
    requires t < |w.tasks| && !w.tasks[t].phase.Next?
    requires var p := Step(w, e).tasks[t].phase; p.Holding() || p.Building?
    ensures var p := w.tasks[t].phase; (p.Holding() || p.Building?) && p.key == Step(w, e).tasks[t].phase.key
  {}

  /** A task's key is the one it had, or that of the server it is trying now. */
  lemma ChosenKey(w: World, e: Event, t: nat)
    requires Keyed(w) && t < |w.tasks|
    requires var p := Step(w, e).tasks[t].phase; p.Holding() || p.Building?
    ensures Serves(w.torSocks, w.tasks[t], Step(w, e).tasks[t].phase.key)
  {
    if !w.tasks[t].phase.Next? {
      SameKey(w, e, t);
    } else {
      assert e.TryServer? && e.t == t;
      TriedKey(w, t, e.udpOk, e.now);
    }
  }

  /** What a step newly records: a stream of the task's key, or a UDP send to a UDP server. */
  lemma StepRecords(w: World, e: Event, t: nat, s: nat)
    requires Inv(w)
    ensures var w' := Step(w, e);
            && ((t, s) in w'.used && (t, s) !in w.used ==>
                  && t < |w.tasks| && s < |w'.streams|
                  && w'.tasks[t].phase.Holding() && w'.streams[s].builtFor == w'.tasks[t].phase.key)
            && (t in w'.udpSends && t !in w.udpSends ==> t < |w.tasks| && HasUdpServer(w.tasks[t]))
  {
    var w' := Step(w, e);
    if (t, s) in w'.used && (t, s) !in w.used && e.TryServer? {
      var key := KeyFor(w.torSocks, w.tasks[t].servers[w.tasks[t].idx], w.tasks[t].domain).value;
      TakeKeeps(w.streams, w.idle, key, e.now);
    }
    if t in w'.udpSends && t !in w.udpSends {
      var srv := w.tasks[t].servers[w.tasks[t].idx];
      assert srv.transport.Udp? && srv.via.Direct?;
    }
  }

  lemma StepKeepsByItsServers(w: World, e: Event)
    requires Inv(w) && Keyed(w) && ByItsServers(w)
    ensures ByItsServers(Step(w, e))
  {
    var w' := Step(w, e);
    StepExtends(w, e);
    StepKeepsKeyed(w, e);
    forall t: nat, s: nat | (t, s) in w'.used
      ensures t < |w'.tasks| && s < |w'.streams| && Serves(w'.torSocks, w'.tasks[t], w'.streams[s].builtFor)
    {
      StepRecords(w, e, t, s);
      if (t, s) in w.used {
        assert w'.streams[s] == w.streams[s];
        SameAsking(w.torSocks, w.tasks[t], w'.tasks[t], w.streams[s].builtFor);
      }
    }
    forall t | t in w'.udpSends ensures t < |w'.tasks| && HasUdpServer(w'.tasks[t]) {
      StepRecords(w, e, t, 0);
      SameAsking(w.torSocks, w.tasks[t], w'.tasks[t], ConnKey(Addr(0, 0), "", Direct, None, None));
    }
  }

  lemma {:induction false} RunKeeps(torSocks: Option<Addr>, events: seq<Event>)
    ensures var w := Run(torSocks, events); Inv(w) && Keyed(w) && ByItsServers(w) && w.torSocks == torSocks
  {
    if events != [] {
      var w, e := Run(torSocks, events[..|events| - 1]), events[|events| - 1];
      RunKeeps(torSocks, events[..|events| - 1]);
      StepKeeps(w, e);
      StepKeepsKeyed(w, e);
      StepKeepsByItsServers(w, e);
      StepExtends(w, e);
    }
  }

  /**
   Over every interleaving: a stream sits in at most one bucket or one task's hands, buckets hold at most
   four streams opened for their key, and no server costs a task more than one build.
   */
  lemma PoolIsSafe(torSocks: Option<Addr>, events: seq<Event>)
    ensures var w := Run(torSocks, events);
            && (forall k :: k in w.idle ==> GoodBucket(w.streams, k, w.idle[k]))
            && (forall k, l, s: nat :: InBucket(Bucket(w.idle, k), s) && InBucket(Bucket(w.idle, l), s) ==> k == l)
            && (forall t, k :: 0 <= t < |w.tasks| && w.tasks[t].phase.Holding() ==>
                  !InBucket(Bucket(w.idle, k), w.tasks[t].phase.stream))
            && (forall t, u :: 0 <= t < u < |w.tasks| && w.tasks[t].phase.Holding() && w.tasks[u].phase.Holding() ==>
                  w.tasks[t].phase.stream != w.tasks[u].phase.stream)
            && (forall t :: 0 <= t < |w.tasks| ==> w.tasks[t].builds <= 1)
  {
    RunKeeps(torSocks, events);
    var w := Run(torSocks, events);
    forall k, s: nat | InBucket(Bucket(w.idle, k), s) ensures s < |w.streams| && w.streams[s].builtFor == k {
      assert GoodBucket(w.streams, k, w.idle[k]);
    }
    assert forall t :: 0 <= t < |w.tasks| ==> Frugal(w.tasks[t]);
  }

  /**
   Fail-closed over every interleaving: a task whose accepted server list has a Tor server never sends
   UDP, and every stream it opened or reused was connected to the SOCKS endpoint under its own domain.
   */
  lemma FailClosed(torSocks: Option<Addr>, events: seq<Event>, t: nat)
    requires t < |Run(torSocks, events).tasks|
    requires var servers := Run(torSocks, events).tasks[t].servers;
             Acceptable(servers) && exists i :: 0 <= i < |servers| && servers[i].via.Tor?
    ensures var w := Run(torSocks, events);
            && t !in w.udpSends
            && forall s: nat :: (t, s) in w.used ==>
                 && s < |w.streams| && torSocks.Some? && w.streams[s].socks
                 && w.streams[s].target == torSocks.value && w.streams[s].user == Some(w.tasks[t].domain)
  {
    var w := Run(torSocks, events);
    RunKeeps(torSocks, events);
    var servers := w.tasks[t].servers;
    assert AllVia(servers, Tor);
    forall s: nat | (t, s) in w.used
      ensures s < |w.streams| && torSocks.Some? && w.streams[s].socks
           && w.streams[s].target == torSocks.value && w.streams[s].user == Some(w.tasks[t].domain)
    {
      assert Serves(torSocks, w.tasks[t], w.streams[s].builtFor);
      assert w.streams[s] == BuildFor(w.streams[s].builtFor);
    }
  }
}
