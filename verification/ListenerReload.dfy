/**
 Reloading the listener set: listeners no longer configured are aborted, kept ones have the contents
 of their access-list and context cells replaced in place, new ones are bound with retries.  The
 protocols of one configured listener share their cells, so a kept listener may share its cells with
 others; tasks are never lost.
 */
module ListenerReload {

  datatype Proto = ProtoUdp | ProtoTcp | ProtoDot | ProtoDoh
  type Acl = seq<string>
  datatype Ctx = Ctx(name: string, dns64: bool, token: string)
  datatype ListenerCfg = ListenerCfg(name: string, addr: int, port: int, protos: set<Proto>, allowFrom: Acl,
                                     dns64: bool, token: string) {
    function ToCtx(): Ctx { Ctx(name, dns64, token) }
  }
  datatype Key = Key(addr: int, port: int, proto: Proto)

  function KeyOf(lc: ListenerCfg, p: Proto): Key { Key(lc.addr, lc.port, p) }

  const PROTOS := [ProtoUdp, ProtoTcp, ProtoDot, ProtoDoh]

  /** A value that running listener tasks read through a shared pointer. */
  class Cell<T> {
    var value: T
    constructor (v: T) ensures value == v { value := v; }
  }

  class Task {
    var aborted: bool
    constructor () ensures !aborted { aborted := false; }
  }

  datatype Live = Live(name: string, acl: Cell<Acl>, ctx: Cell<Ctx>, task: Task)

  predicate SameAddr(a: Key, b: Key) { a.addr == b.addr && a.port == b.port }

  /** Cells are shared only between the protocols of one address and port. */
  ghost predicate SharedByAddr(listeners: map<Key, Live>) {
    forall k, l :: k in listeners && l in listeners && ShareCell(listeners[k], listeners[l]) ==> SameAddr(k, l)
  }

  /** The same listener, up to its cached name. */
  predicate Same(a: Live, b: Live) { a.acl == b.acl && a.ctx == b.ctx && a.task == b.task }

  predicate ShareCell(a: Live, b: Live) { a.acl == b.acl || a.ctx == b.ctx }

  ghost predicate Runs(listeners: map<Key, Live>, t: Task) { exists k :: k in listeners && listeners[k].task == t }

  /** Live tasks are running and distinct, and every task ever spawned is live or aborted. */
  ghost predicate Tracked(listeners: map<Key, Live>, spawned: set<Task>)
    reads spawned
  {
    && (forall k :: k in listeners ==> listeners[k].task in spawned && !listeners[k].task.aborted)
    && (forall k, l :: k in listeners && l in listeners && listeners[k].task == listeners[l].task ==> k == l)
    && (forall t :: t in spawned ==> t.aborted || Runs(listeners, t))
  }

  /** Renaming listeners changes neither what they share nor what they run. */
  lemma RenamedKeeps(before: map<Key, Live>, after: map<Key, Live>, spawned: set<Task>)
    requires SharedByAddr(before) && Tracked(before, spawned)
    requires after.Keys == before.Keys && forall k :: k in after ==> Same(after[k], before[k])
    ensures SharedByAddr(after) && Tracked(after, spawned)
  {
    forall k | k in after ensures Same(after[k], before[k]) {}
    forall t | t in spawned && !t.aborted ensures Runs(after, t) {
      assert Runs(before, t);
    }
  }

  // ---- configurations ----

  /** Each (address, port) belongs to one entry. */
  ghost predicate OnePerAddr(cfg: seq<ListenerCfg>) {
    forall i, j :: 0 <= i < j < |cfg| ==> cfg[i].addr != cfg[j].addr || cfg[i].port != cfg[j].port
  }

  /** Each (address, port, protocol) belongs to one entry, as the sockets need it. */
  ghost predicate OnePerSlot(cfg: seq<ListenerCfg>) {
    forall i, j, p :: 0 <= i < j < |cfg| && p in cfg[i].protos && p in cfg[j].protos ==>
      KeyOf(cfg[i], p) != KeyOf(cfg[j], p)
  }

  ghost predicate Wants(cfg: seq<ListenerCfg>, k: Key, lc: ListenerCfg) {
    lc in cfg && k == KeyOf(lc, k.proto) && k.proto in lc.protos
  }

  ghost predicate Wanted(cfg: seq<ListenerCfg>, k: Key) { exists lc :: Wants(cfg, k, lc) }

  lemma WantedOneMore(a: seq<ListenerCfg>, last: ListenerCfg, k: Key)
    ensures Wanted(a + [last], k) <==> Wanted(a, k) || Wants([last], k, last)
  {
    var b := a + [last];
    if lc :| Wants(b, k, lc) {
      if lc !in a { assert lc == last && Wants([last], k, last); } else { assert Wants(a, k, lc); }
    }
    if lc :| Wants(a, k, lc) { assert lc in b && Wants(b, k, lc); }
    if Wants([last], k, last) { assert b[|a|] == last && Wants(b, k, last); }
  }

  lemma WantsOneSlot(cfg: seq<ListenerCfg>, k: Key, a: ListenerCfg, b: ListenerCfg)
    requires OnePerSlot(cfg) && Wants(cfg, k, a) && Wants(cfg, k, b)
    ensures a == b
  {
    var i :| 0 <= i < |cfg| && cfg[i] == a;
    var j :| 0 <= j < |cfg| && cfg[j] == b;
    if i != j { assert KeyOf(cfg[i], k.proto) != KeyOf(cfg[j], k.proto); }
  }

  lemma WantsOne(cfg: seq<ListenerCfg>, k: Key, l: Key, a: ListenerCfg, b: ListenerCfg)
    requires OnePerAddr(cfg) && Wants(cfg, k, a) && Wants(cfg, l, b) && SameAddr(k, l)
    ensures a == b
  {
    var i :| 0 <= i < |cfg| && cfg[i] == a;
    var j :| 0 <= j < |cfg| && cfg[j] == b;
    if i < j || j < i { assert false; }
  }

  /** The desired set: exactly what the configuration wants. */
  ghost predicate IsDesired(cfg: seq<ListenerCfg>, desired: map<Key, ListenerCfg>) {
    && (forall k :: k in desired ==> Wants(cfg, k, desired[k]))
    && (forall k, lc :: Wants(cfg, k, lc) ==> k in desired)
  }

  /** Listeners that share a cell want the same contents for it. */
  ghost predicate Agree(desired: map<Key, ListenerCfg>, listeners: map<Key, Live>)
    requires listeners.Keys <= desired.Keys
  {
    forall k, l :: k in listeners && l in listeners ==>
      && (listeners[k].acl == listeners[l].acl ==> desired[k].allowFrom == desired[l].allowFrom)
      && (listeners[k].ctx == listeners[l].ctx ==> desired[k].ToCtx() == desired[l].ToCtx())
  }

  lemma SharersAgree(cfg: seq<ListenerCfg>, desired: map<Key, ListenerCfg>, listeners: map<Key, Live>)
    requires SharedByAddr(listeners) && OnePerAddr(cfg) && IsDesired(cfg, desired) && listeners.Keys <= desired.Keys
    ensures Agree(desired, listeners)
  {
    forall k, l | k in listeners && l in listeners && ShareCell(listeners[k], listeners[l])
      ensures desired[k] == desired[l]
    {
      WantsOne(cfg, k, l, desired[k], desired[l]);
    }
  }

  /** The listeners a reload keeps. */
  function Kept(listeners: map<Key, Live>, desired: map<Key, ListenerCfg>): (kept: map<Key, Live>)
    ensures kept.Keys <= desired.Keys && kept.Keys <= listeners.Keys
  {
    map k | k in listeners && k in desired :: listeners[k]
  }

  lemma KeptAgree(cfg: seq<ListenerCfg>, desired: map<Key, ListenerCfg>, listeners: map<Key, Live>)
    requires SharedByAddr(listeners) && OnePerAddr(cfg) && IsDesired(cfg, desired)
    ensures Agree(desired, Kept(listeners, desired))
  {
    SharersAgree(cfg, desired, Kept(listeners, desired));
  }

  /**
   A configuration of two entries on one address, one per protocol, with different access lists: a
   listener set bound under a single entry cannot be made to reflect them both.
   */
  lemma TwoEntriesConflict(udp: Live, tcp: Live, one: ListenerCfg)
    requires udp.acl == tcp.acl
    ensures var a, b := one.(protos := {ProtoUdp}), one.(protos := {ProtoTcp}, allowFrom := one.allowFrom + [""]);
            var listeners := map[KeyOf(one, ProtoUdp) := udp, KeyOf(one, ProtoTcp) := tcp];
            var desired := map[KeyOf(one, ProtoUdp) := a, KeyOf(one, ProtoTcp) := b];
            && OnePerSlot([a, b]) && IsDesired([a, b], desired)
            && SharedByAddr(listeners) && !Agree(desired, Kept(listeners, desired))
  {
    var a, b := one.(protos := {ProtoUdp}), one.(protos := {ProtoTcp}, allowFrom := one.allowFrom + [""]);
    var listeners := map[KeyOf(one, ProtoUdp) := udp, KeyOf(one, ProtoTcp) := tcp];
    var desired := map[KeyOf(one, ProtoUdp) := a, KeyOf(one, ProtoTcp) := b];
    assert [a, b][0] == a && [a, b][1] == b;
    var kept := Kept(listeners, desired);
    assert |b.allowFrom| != |a.allowFrom|;
    assert KeyOf(one, ProtoUdp) in kept && KeyOf(one, ProtoTcp) in kept;
    assert desired[KeyOf(one, ProtoUdp)].allowFrom != desired[KeyOf(one, ProtoTcp)].allowFrom;
  }

  method Desired(cfg: seq<ListenerCfg>) returns (desired: map<Key, ListenerCfg>)
    ensures IsDesired(cfg, desired)
  {
    desired := map[];
    for i := 0 to |cfg|
      invariant forall k :: k in desired ==> Wants(cfg, k, desired[k])
      invariant forall j, p :: 0 <= j < i && p in cfg[j].protos ==> KeyOf(cfg[j], p) in desired
    {
      for n := 0 to |PROTOS|
        invariant forall k :: k in desired ==> Wants(cfg, k, desired[k])
        invariant forall j, p :: 0 <= j < i && p in cfg[j].protos ==> KeyOf(cfg[j], p) in desired
        invariant forall m :: 0 <= m < n && PROTOS[m] in cfg[i].protos ==> KeyOf(cfg[i], PROTOS[m]) in desired
      {
        if PROTOS[n] in cfg[i].protos { desired := desired[KeyOf(cfg[i], PROTOS[n]) := cfg[i]]; }
      }
      forall p | p in cfg[i].protos ensures KeyOf(cfg[i], p) in desired {
        assert p == PROTOS[0] || p == PROTOS[1] || p == PROTOS[2] || p == PROTOS[3];
      }
    }
    forall k, lc | Wants(cfg, k, lc) ensures k in desired {
      var j :| 0 <= j < |cfg| && cfg[j] == lc;
      assert KeyOf(cfg[j], k.proto) in desired;
    }
  }

  datatype BindResult = Bound | Skipped | Refused

  /** A listener still to be bound, with the cells its task will read. */
  datatype Pending = Pending(lc: ListenerCfg, proto: Proto, acl: Cell<Acl>, ctx: Cell<Ctx>) {
    function Slot(): Key { KeyOf(lc, proto) }
    function With(t: Task): Live { Live(lc.name, acl, ctx, t) }
  }

  predicate SharesWith(p: Pending, acl: Cell<Acl>, ctx: Cell<Ctx>) { p.acl == acl || p.ctx == ctx }

  /** Pending listeners share cells only within one address and port. */
  ghost predicate Apart(pending: seq<Pending>) {
    forall i, j :: 0 <= i < j < |pending| ==>
      SharesWith(pending[i], pending[j].acl, pending[j].ctx) ==> SameAddr(pending[i].Slot(), pending[j].Slot())
  }

  lemma ApartWithout(a: seq<Pending>, p: Pending, b: seq<Pending>)
    requires Apart(a + [p] + b)
    ensures Apart(a + b)
    ensures forall i :: 0 <= i < |a + b| ==>
              SharesWith((a + b)[i], p.acl, p.ctx) ==> SameAddr((a + b)[i].Slot(), p.Slot())
  {
    var whole, rest := a + [p] + b, a + b;
    forall i | 0 <= i < |rest| ensures rest[i] == whole[if i < |a| then i else i + 1] {}
    assert whole[|a|] == p;
  }

  lemma InsertShared(m: map<Key, Live>, p: Pending, t: Task)
    requires SharedByAddr(m) && p.Slot() !in m
    requires forall k :: k in m && SharesWith(p, m[k].acl, m[k].ctx) ==> SameAddr(p.Slot(), k)
    ensures SharedByAddr(m[p.Slot() := p.With(t)])
  {
    var after := m[p.Slot() := p.With(t)];
    forall k, l | k in after && l in after && ShareCell(after[k], after[l]) ensures SameAddr(k, l) {
      if k == p.Slot() && l != k { assert SharesWith(p, m[l].acl, m[l].ctx); }
      if l == p.Slot() && l != k { assert SharesWith(p, m[k].acl, m[k].ctx); }
      if l != p.Slot() && k != p.Slot() { assert ShareCell(m[k], m[l]); }
    }
  }

  lemma InsertTracked(m: map<Key, Live>, spawned: set<Task>, p: Pending, t: Task)
    requires Tracked(m, spawned) && p.Slot() !in m && t !in spawned && !t.aborted
    ensures Tracked(m[p.Slot() := p.With(t)], spawned + {t})
  {
    var after := m[p.Slot() := p.With(t)];
    forall u | u in spawned && !u.aborted ensures Runs(after, u) {
      assert Runs(m, u);
      var k :| k in m && m[k].task == u;
      assert k in after && after[k].task == u;
    }
    assert after[p.Slot()].task == t;
  }

  // ---- how binding goes ----

  ghost predicate HasSlot(pending: seq<Pending>, k: Key) { exists i :: 0 <= i < |pending| && pending[i].Slot() == k }

  lemma AppendSlot(pending: seq<Pending>, p: Pending)
    ensures forall k :: HasSlot(pending + [p], k) <==> HasSlot(pending, k) || k == p.Slot()
  {
    var after := pending + [p];
    assert after[|pending|] == p;
    forall k | HasSlot(pending, k) ensures HasSlot(after, k) {
      var i :| 0 <= i < |pending| && pending[i].Slot() == k;
      assert after[i].Slot() == k;
    }
  }

  /** Every attempt before the given one is refused. */
  ghost predicate RefusedBefore(outcome: nat -> Key -> BindResult, k: Key, n: nat) {
    forall m: nat :: m < n ==> outcome(m)(k) == Refused
  }

  /** Some attempt before the given one succeeds, and those before it are refused, not given up. */
  ghost predicate BindsBefore(outcome: nat -> Key -> BindResult, k: Key, n: nat) {
    exists m: nat :: m < n && outcome(m)(k) == Bound && RefusedBefore(outcome, k, m)
  }

  /** After a pass over `done`: the slots bound are live, and those refused are left. */
  ghost predicate RoundDone(before: set<Key>, done: seq<Pending>, f: Key -> BindResult, now: set<Key>,
                            still: seq<Pending>) {
    && (forall k :: k in now <==> k in before || (HasSlot(done, k) && f(k) == Bound))
    && forall k :: k !in now ==> (HasSlot(still, k) <==> HasSlot(done, k) && f(k) == Refused)
  }

  /** What one attempt does to the live slots and to the pending listeners left. */
  ghost predicate Attempted(before: set<Key>, still: seq<Pending>, p: Pending, r: BindResult, now: set<Key>,
                            after: seq<Pending>) {
    && now == (if p.Slot() !in before && r == Bound then before + {p.Slot()} else before)
    && after == if p.Slot() in before || r == Refused then still + [p] else still
  }

  lemma RoundStep(before: set<Key>, done: seq<Pending>, f: Key -> BindResult, now: set<Key>, still: seq<Pending>,
                  p: Pending, later: set<Key>, left: seq<Pending>)
    requires RoundDone(before, done, f, now, still) && Attempted(now, still, p, f(p.Slot()), later, left)
    ensures RoundDone(before, done + [p], f, later, left)
  {
    AppendSlot(done, p);
    AppendSlot(still, p);
  }

  /** The same after some rounds. */
  ghost predicate RoundsDone(before: set<Key>, first: seq<Pending>, outcome: nat -> Key -> BindResult, n: nat,
                             now: set<Key>, still: seq<Pending>) {
    && LiveAre(before, first, outcome, n, now)
    && forall k :: k !in now ==> (HasSlot(still, k) <==> HasSlot(first, k) && RefusedBefore(outcome, k, n))
  }

  /** The live slots are those from before and the pending ones that some round binds. */
  ghost predicate LiveAre(before: set<Key>, first: seq<Pending>, outcome: nat -> Key -> BindResult, n: nat,
                          now: set<Key>) {
    forall k :: k in now <==> k in before || (HasSlot(first, k) && BindsBefore(outcome, k, n))
  }

  lemma BindsOneMore(outcome: nat -> Key -> BindResult, k: Key, n: nat)
    ensures BindsBefore(outcome, k, n + 1) <==>
              BindsBefore(outcome, k, n) || (RefusedBefore(outcome, k, n) && outcome(n)(k) == Bound)
    ensures RefusedBefore(outcome, k, n + 1) <==> RefusedBefore(outcome, k, n) && outcome(n)(k) == Refused
  {}

  lemma BindsLater(outcome: nat -> Key -> BindResult, k: Key, n: nat, all: nat)
    requires n <= all
    ensures BindsBefore(outcome, k, n) ==> BindsBefore(outcome, k, all)
    ensures BindsBefore(outcome, k, all) ==> BindsBefore(outcome, k, n) || (RefusedBefore(outcome, k, n) && n < all)
  {}

  lemma RoundsStep(before: set<Key>, first: seq<Pending>, outcome: nat -> Key -> BindResult, n: nat, now: set<Key>,
                   still: seq<Pending>, later: set<Key>, left: seq<Pending>)
    requires RoundsDone(before, first, outcome, n, now, still) && RoundDone(now, still, outcome(n), later, left)
    ensures RoundsDone(before, first, outcome, n + 1, later, left)
  {
    forall k ensures k in later <==> k in before || (HasSlot(first, k) && BindsBefore(outcome, k, n + 1)) {
      BindsOneMore(outcome, k, n);
    }
    forall k | k !in later ensures HasSlot(left, k) <==> HasSlot(first, k) && RefusedBefore(outcome, k, n + 1) {
      BindsOneMore(outcome, k, n);
    }
  }

  /** With nothing left to bind, more rounds would bind no more. */
  lemma RoundsEnd(before: set<Key>, first: seq<Pending>, outcome: nat -> Key -> BindResult, n: nat, now: set<Key>,
                  still: seq<Pending>, all: nat)
    requires RoundsDone(before, first, outcome, n, now, still) && n <= all && (still == [] || n == all)
    ensures LiveAre(before, first, outcome, all, now)
  {
    forall k ensures k in now <==> k in before || (HasSlot(first, k) && BindsBefore(outcome, k, all)) {
      BindsLater(outcome, k, n, all);
    }
  }

  class Daemon {
    var listeners: map<Key, Live>
    ghost var spawned: set<Task>

    /** Cells are shared only within one address and port; live tasks are running and distinct; no task is lost. */
    ghost predicate Valid()
      reads this, spawned
    {
      SharedByAddr(listeners) && Tracked(listeners, spawned)
    }

    ghost function AclCells(): set<Cell<Acl>> reads this { set k | k in listeners :: listeners[k].acl }
    ghost function CtxCells(): set<Cell<Ctx>> reads this { set k | k in listeners :: listeners[k].ctx }

    /** The listener is wanted, and its name and the contents of its cells are what the configuration says. */
    ghost predicate RightAt(desired: map<Key, ListenerCfg>, k: Key)
      requires k in listeners
      reads this, listeners[k].acl, listeners[k].ctx
    {
      && k in desired
      && listeners[k].name == desired[k].name
      && listeners[k].acl.value == desired[k].allowFrom
      && listeners[k].ctx.value == desired[k].ToCtx()
    }

    /** So it is with every live listener. */
    ghost predicate Reflects(desired: map<Key, ListenerCfg>)
      reads this, AclCells(), CtxCells()
    {
      forall k :: k in listeners ==> RightAt(desired, k)
    }

    /** The listener's name and the contents of its cells are those of an entry that wants its slot. */
    ghost predicate Holds(cfg: seq<ListenerCfg>, k: Key, lc: ListenerCfg)
      requires k in listeners
      reads this, listeners[k].acl, listeners[k].ctx
    {
      && Wants(cfg, k, lc) && listeners[k].name == lc.name
      && listeners[k].acl.value == lc.allowFrom && listeners[k].ctx.value == lc.ToCtx()
    }

    /** So it is with every live listener that was not there before. */
    ghost predicate NewHold(cfg: seq<ListenerCfg>, before: set<Key>)
      reads this, AclCells(), CtxCells()
    {
      forall k :: k in listeners && k !in before ==> exists lc :: Holds(cfg, k, lc)
    }

    constructor ()
      ensures Valid() && listeners == map[] && spawned == {}
    {
      listeners, spawned := map[], {};
    }

    /** Abort the tasks of the given listeners. */
    method AbortTasks(gone: set<Key>)
      requires Valid() && gone <= listeners.Keys
      modifies spawned
      ensures forall k :: k in listeners ==> (listeners[k].task.aborted <==> k in gone)
      ensures forall t :: t in spawned ==>
              t.aborted || (Runs(listeners, t) && forall k :: k in gone ==> listeners[k].task != t)
    {
      var todo := gone;
      while todo != {}
        invariant todo <= gone
        invariant forall k :: k in listeners ==> (listeners[k].task.aborted <==> k in gone && k !in todo)
        invariant forall t :: t in spawned && old(t.aborted) ==> t.aborted
        decreases todo
      {
        var k :| k in todo;
        listeners[k].task.aborted := true;
        todo := todo - {k};
      }
    }

    /** Abort the listeners whose key is no longer desired, and forget them. */
    method AbortUndesired(desired: map<Key, ListenerCfg>)
      requires Valid()
      modifies this`listeners, spawned
      ensures Valid()
      ensures listeners == Kept(old(listeners), desired)
    {
      AbortTasks(listeners.Keys - desired.Keys);
      ghost var before := listeners;
      listeners := map k | k in listeners && k in desired :: listeners[k];
      forall t | t in spawned && !t.aborted ensures Runs(listeners, t) {
        var k :| k in before && before[k].task == t;
        assert k in listeners;
      }
    }

    ghost predicate Stored(desired: map<Key, ListenerCfg>, k: Key)
      requires k in listeners && k in desired
      reads this, listeners[k].acl, listeners[k].ctx
    {
      listeners[k].acl.value == desired[k].allowFrom && listeners[k].ctx.value == desired[k].ToCtx()
    }

    ghost predicate AllStored(desired: map<Key, ListenerCfg>, done: set<Key>)
      requires done <= listeners.Keys <= desired.Keys
      reads this, AclCells(), CtxCells()
    {
      forall k :: k in done ==> Stored(desired, k)
    }

    /** Store the desired values of one listener; where sharers agree, the listeners done before keep theirs. */
    method StoreOne(desired: map<Key, ListenerCfg>, k: Key, ghost done: set<Key>)
      requires k in listeners && done <= listeners.Keys <= desired.Keys
      requires Agree(desired, listeners) ==> AllStored(desired, done)
      modifies listeners[k].acl, listeners[k].ctx
      ensures Agree(desired, listeners) ==> AllStored(desired, done + {k})
    {
      listeners[k].acl.value := desired[k].allowFrom;
      listeners[k].ctx.value := desired[k].ToCtx();
    }

    /**
     Store the desired values into the cells of every live listener, in any order: all of them hold exactly
     if sharers agree.
     */
    method StoreEach(desired: map<Key, ListenerCfg>)
      requires listeners.Keys <= desired.Keys
      modifies AclCells(), CtxCells()
      ensures AllStored(desired, listeners.Keys) <==> Agree(desired, listeners)
    {
      var todo := listeners.Keys;
      ghost var done: set<Key> := {};
      while todo != {}
        invariant done + todo == listeners.Keys
        invariant Agree(desired, listeners) ==> AllStored(desired, done)
        decreases todo
      {
        var k :| k in todo;
        assert listeners[k].acl in AclCells() && listeners[k].ctx in CtxCells();
        StoreOne(desired, k, done);
        todo, done := todo - {k}, done + {k};
      }
      assert done == listeners.Keys;
    }

    method StoreCells(desired: map<Key, ListenerCfg>)
      requires Valid() && listeners.Keys <= desired.Keys
      modifies AclCells(), CtxCells()
      ensures Valid() && (AllStored(desired, listeners.Keys) <==> Agree(desired, listeners))
    {
      StoreEach(desired);
    }

    /** Bring the cached names up to date. */
    method Rename(desired: map<Key, ListenerCfg>)
      requires Valid() && listeners.Keys <= desired.Keys
      modifies this`listeners
      ensures Valid() && listeners == map k | k in old(listeners) :: old(listeners)[k].(name := desired[k].name)
      ensures Reflects(desired) <==> old(AllStored(desired, listeners.Keys))
    {
      ghost var stored := AllStored(desired, listeners.Keys);
      ghost var before := listeners;
      listeners := map k | k in listeners :: listeners[k].(name := desired[k].name);
      RenamedKeeps(before, listeners, spawned);
      assert listeners.Keys == before.Keys;
    }

    /** Hot-swap of kept listeners: cells in place, then the cached names. */
    method HotSwap(desired: map<Key, ListenerCfg>)
      requires Valid() && listeners.Keys <= desired.Keys
      modifies this`listeners, AclCells(), CtxCells()
      ensures Valid() && (Reflects(desired) <==> Agree(desired, old(listeners)))
      ensures listeners == map k | k in old(listeners) :: old(listeners)[k].(name := desired[k].name)
    {
      StoreCells(desired);
      Rename(desired);
    }

    /** The pending listener is wanted, and its cells hold the values of its entry. */
    ghost predicate Ready(cfg: seq<ListenerCfg>, p: Pending)
      reads this, p.acl, p.ctx
    {
      && Wants(cfg, p.Slot(), p.lc)
      && p.acl.value == p.lc.allowFrom && p.ctx.value == p.lc.ToCtx()
      && forall k :: k in listeners && SharesWith(p, listeners[k].acl, listeners[k].ctx) ==> SameAddr(p.Slot(), k)
    }

    ghost predicate AllReady(cfg: seq<ListenerCfg>, pending: seq<Pending>)
      reads this, set p | p in pending :: p.acl, set p | p in pending :: p.ctx
    {
      Apart(pending) && forall i :: 0 <= i < |pending| ==> Ready(cfg, pending[i])
    }

    /** A successful bind: the task is spawned and the listener enters the map. */
    method Insert(cfg: seq<ListenerCfg>, ghost before: set<Key>, p: Pending)
      requires Valid() && NewHold(cfg, before) && Ready(cfg, p) && p.Slot() !in listeners
      modifies this
      ensures Valid() && NewHold(cfg, before)
      ensures exists t ::
                fresh(t) && spawned == old(spawned) + {t} && listeners == old(listeners)[p.Slot() := p.With(t)]
    {
      var t := new Task();
      InsertShared(listeners, p, t);
      InsertTracked(listeners, spawned, p, t);
      listeners := listeners[p.Slot() := p.With(t)];
      spawned := spawned + {t};
      assert Holds(cfg, p.Slot(), p.lc);
      forall k | k in listeners && k !in before && k != p.Slot() ensures exists lc :: Holds(cfg, k, lc) {
        var lc :| old(Holds(cfg, k, lc));
        assert Holds(cfg, k, lc);
      }
    }

    /**
     One bind attempt, which fails if the slot's socket is taken, with `still` refused before it and `later`
     to come.
     */
    method BindOne(cfg: seq<ListenerCfg>, ghost before: set<Key>, still: seq<Pending>, p: Pending,
                   later: seq<Pending>, r: BindResult, ghost pool: set<object>)
      returns (still': seq<Pending>)
      requires Valid() && NewHold(cfg, before)
      requires AllReady(cfg, still + [p] + later) && Within(still + [p] + later, pool)
      modifies this
      ensures Valid() && NewHold(cfg, before)
      ensures AllReady(cfg, still' + later) && Within(still' + later, pool)
      ensures old(spawned) <= spawned && fresh(spawned - old(spawned)) && Grows(listeners, old(listeners), pool)
      ensures Attempted(old(listeners.Keys), still, p, r, listeners.Keys, still')
    {
      ReadyWithout(cfg, still, p, later);
      WithinParts(still, p, later, pool);
      match if p.Slot() in listeners then Refused else r {
        case Bound =>
          Insert(cfg, before, p);
          still' := still;
        case Skipped =>
          still' := still;
        case Refused =>
          still' := still + [p];
      }
    }

    /** One pass over the pending listeners; those refused come back for the next pass. */
    method BindRound(cfg: seq<ListenerCfg>, ghost before: set<Key>, pending: seq<Pending>,
                     outcome: Key -> BindResult, ghost pool: set<object>)
      returns (still: seq<Pending>)
      requires Valid() && NewHold(cfg, before) && AllReady(cfg, pending) && Within(pending, pool)
      modifies this
      ensures Valid() && NewHold(cfg, before)
      ensures AllReady(cfg, still) && Within(still, pool)
      ensures old(spawned) <= spawned && fresh(spawned - old(spawned)) && Grows(listeners, old(listeners), pool)
      ensures RoundDone(old(listeners.Keys), pending, outcome, listeners.Keys, still)
    {
      still := [];
      assert still + pending[0..] == pending;
      for i := 0 to |pending|
        invariant Valid() == true && NewHold(cfg, before) == true
        invariant AllReady(cfg, still + pending[i..]) == true && Within(still + pending[i..], pool) == true
        invariant old(spawned) <= spawned && fresh(spawned - old(spawned))
        invariant Grows(listeners, old(listeners), pool) == true
        invariant RoundDone(old(listeners.Keys), pending[..i], outcome, listeners.Keys, still) == true
      {
        NextInLine(still, pending, i);
        ghost var live, left, was := listeners.Keys, still, listeners;
        still := BindOne(cfg, before, still, pending[i], pending[i + 1..], outcome(pending[i].Slot()), pool);
        RoundStep(old(listeners.Keys), pending[..i], outcome, live, left, pending[i], listeners.Keys, still);
        GrowsMore(old(listeners), was, listeners, pool);
      }
      assert still + pending[|pending|..] == still && pending[..|pending|] == pending;
    }

    /** Dropping one pending listener leaves the rest ready, whether or not that one is then bound. */
    lemma ReadyWithout(cfg: seq<ListenerCfg>, a: seq<Pending>, p: Pending, b: seq<Pending>)
      requires AllReady(cfg, a + [p] + b)
      ensures Ready(cfg, p) && AllReady(cfg, a + b)
      ensures forall i :: 0 <= i < |a + b| ==>
                SharesWith((a + b)[i], p.acl, p.ctx) ==> SameAddr((a + b)[i].Slot(), p.Slot())
    {
      ApartWithout(a, p, b);
      var whole, rest := a + [p] + b, a + b;
      assert whole[|a|] == p;
      forall i | 0 <= i < |rest| ensures Ready(cfg, rest[i]) {
        assert rest[i] == whole[if i < |a| then i else i + 1];
      }
    }

    /** The pending listeners of one configured entry: its wanted protocols that are not already live. */
    method PendEntry(cfg: seq<ListenerCfg>, lc: ListenerCfg, done: seq<Pending>) returns (pending: seq<Pending>)
      requires Valid() && lc in cfg && AllReady(cfg, done)
      ensures AllReady(cfg, pending)
      ensures forall p :: p in pending ==> p in done || (fresh(p.acl) && fresh(p.ctx))
      ensures forall k :: HasSlot(pending, k) <==> HasSlot(done, k) || (k !in listeners && Wants([lc], k, lc))
    {
      var acl := new Cell(lc.allowFrom);
      var ctx := new Cell(lc.ToCtx());
      pending := done;
      for n := 0 to |PROTOS|
        invariant AllReady(cfg, pending) == true && acl.value == lc.allowFrom && ctx.value == lc.ToCtx()
        invariant forall p :: p in pending ==> p in done || (p.lc == lc && p.acl == acl && p.ctx == ctx)
        invariant forall k :: HasSlot(pending, k) <==>
                    HasSlot(done, k) || (k !in listeners && Wants([lc], k, lc) && k.proto in PROTOS[..n])
      {
        var key := KeyOf(lc, PROTOS[n]);
        if PROTOS[n] in lc.protos && key !in listeners {
          var p := Pending(lc, PROTOS[n], acl, ctx);
          assert Wants(cfg, key, lc);
          AppendReady(cfg, pending, p);
          AppendSlot(pending, p);
          pending := pending + [p];
        }
      }
      forall p: Proto ensures p in PROTOS {
        assert p == PROTOS[0] || p == PROTOS[1] || p == PROTOS[2] || p == PROTOS[3];
      }
      assert PROTOS[..|PROTOS|] == PROTOS;
    }

    lemma AppendReady(cfg: seq<ListenerCfg>, pending: seq<Pending>, p: Pending)
      requires AllReady(cfg, pending) && Ready(cfg, p)
      requires forall q :: q in pending ==> !SharesWith(q, p.acl, p.ctx) || q.lc == p.lc
      ensures AllReady(cfg, pending + [p])
    {
      forall i | 0 <= i < |pending| && SharesWith(pending[i], p.acl, p.ctx)
        ensures SameAddr(pending[i].Slot(), p.Slot())
      {
        assert pending[i] in pending;
      }
    }

    /** Every pending listener of a configuration, on new cells. */
    method PendAll(cfg: seq<ListenerCfg>) returns (pending: seq<Pending>)
      requires Valid()
      ensures AllReady(cfg, pending) && forall p :: p in pending ==> fresh(p.acl) && fresh(p.ctx)
      ensures forall k :: HasSlot(pending, k) <==> k !in listeners && Wanted(cfg, k)
    {
      pending := [];
      for i := 0 to |cfg|
        invariant AllReady(cfg, pending) && forall p :: p in pending ==> fresh(p.acl) && fresh(p.ctx)
        invariant forall k :: HasSlot(pending, k) <==> k !in listeners && Wanted(cfg[..i], k)
      {
        assert cfg[..i + 1] == cfg[..i] + [cfg[i]];
        forall k ensures Wanted(cfg[..i + 1], k) <==> Wanted(cfg[..i], k) || Wants([cfg[i]], k, cfg[i]) {
          WantedOneMore(cfg[..i], cfg[i], k);
        }
        pending := PendEntry(cfg, cfg[i], pending);
      }
      assert cfg[..|cfg|] == cfg;
    }

    /**
     `bind_listener_set_with_retry`; `outcome(n, k)` is how attempt `n` on slot `k` goes, `rounds` what the
     deadline allows.
     */
    method BindAll(cfg: seq<ListenerCfg>, outcome: nat -> Key -> BindResult, rounds: nat)
      requires Valid()
      modifies this
      ensures Valid() && NewHold(cfg, old(listeners.Keys))
      ensures old(spawned) <= spawned && fresh(spawned - old(spawned)) && Includes(listeners, old(listeners))
      ensures forall k :: k in listeners && k !in old(listeners) ==> fresh(listeners[k].acl) && fresh(listeners[k].ctx)
      ensures forall k :: k in listeners <==>
              k in old(listeners) || (Wanted(cfg, k) && BindsBefore(outcome, k, rounds + 1))
    {
      var pending := PendAll(cfg);
      ghost var pool: set<object> := (set p | p in pending :: p.acl) + (set p | p in pending :: p.ctx);
      assert Within(pending, pool) && fresh(pool);
      BindRounds(cfg, listeners.Keys, pending, outcome, rounds, pool);
    }

    method BindRounds(cfg: seq<ListenerCfg>, ghost before: set<Key>, first: seq<Pending>,
                      outcome: nat -> Key -> BindResult, rounds: nat, ghost pool: set<object>)
      requires Valid() && NewHold(cfg, before) && AllReady(cfg, first) && Within(first, pool)
      modifies this
      ensures Valid() && NewHold(cfg, before)
      ensures old(spawned) <= spawned && fresh(spawned - old(spawned)) && Grows(listeners, old(listeners), pool)
      ensures LiveAre(old(listeners.Keys), first, outcome, rounds + 1, listeners.Keys)
    {
      var pending, attempt := first, 0;
      while pending != [] && attempt < rounds + 1
        invariant Valid() && NewHold(cfg, before)
        invariant AllReady(cfg, pending) && Within(pending, pool)
        invariant old(spawned) <= spawned && fresh(spawned - old(spawned)) && Grows(listeners, old(listeners), pool)
        invariant attempt <= rounds + 1
        invariant RoundsDone(old(listeners.Keys), first, outcome, attempt, listeners.Keys, pending) == true
        decreases rounds + 1 - attempt
      {
        ghost var live, left := listeners.Keys, pending;
        pending := BindRound(cfg, before, pending, outcome(attempt), pool);
        RoundsStep(old(listeners.Keys), first, outcome, attempt, live, left, listeners.Keys, pending);
        attempt := attempt + 1;
      }
      RoundsEnd(old(listeners.Keys), first, outcome, attempt, listeners.Keys, pending, rounds + 1);
    }

    /** What new listeners hold is wanted, and right if no slot has two entries. */
    lemma HeldIsRight(cfg: seq<ListenerCfg>, desired: map<Key, ListenerCfg>, before: set<Key>)
      requires NewHold(cfg, before) && IsDesired(cfg, desired)
      ensures forall k :: k in listeners && k !in before ==> k in desired && (OnePerSlot(cfg) ==> RightAt(desired, k))
    {
      forall k | k in listeners && k !in before ensures k in desired && (OnePerSlot(cfg) ==> RightAt(desired, k)) {
        var lc :| Holds(cfg, k, lc);
        if OnePerSlot(cfg) { WantsOneSlot(cfg, k, lc, desired[k]); }
      }
    }

    /** Binding changes nothing for the listeners already running, so only they decide. */
    method Bind(cfg: seq<ListenerCfg>, desired: map<Key, ListenerCfg>, outcome: nat -> Key -> BindResult, rounds: nat)
      requires Valid() && IsDesired(cfg, desired)
      modifies this
      ensures Valid() && NewHold(cfg, old(listeners.Keys))
      ensures OnePerSlot(cfg) ==> (Reflects(desired) <==> old(Reflects(desired)))
      ensures old(spawned) <= spawned && fresh(spawned - old(spawned)) && Includes(listeners, old(listeners))
      ensures forall k :: k in listeners && k !in old(listeners) ==> fresh(listeners[k].acl) && fresh(listeners[k].ctx)
      ensures forall k :: k in listeners <==>
              k in old(listeners) || (k in desired && BindsBefore(outcome, k, rounds + 1))
    {
      BindAll(cfg, outcome, rounds);
      assert forall k :: Wanted(cfg, k) <==> k in desired;
      assert forall k :: k in old(listeners) ==> RightAt(desired, k) == old(RightAt(desired, k));
      HeldIsRight(cfg, desired, old(listeners.Keys));
    }

    /** What becomes of the listeners already running: kept up to their names if still wanted, else aborted. */
    method Keep(desired: map<Key, ListenerCfg>)
      requires Valid()
      modifies this`listeners, spawned, AclCells(), CtxCells()
      ensures Valid() && (Reflects(desired) <==> Agree(desired, Kept(old(listeners), desired)))
      ensures forall k :: k in listeners <==> k in old(listeners) && k in desired
      ensures forall k :: k in listeners ==> Same(listeners[k], old(listeners)[k])
    {
      AbortUndesired(desired);
      HotSwap(desired);
    }

    /**
     The listener part of `reload`.  No task is lost, and new listeners hold what an entry for their slot
     says.  With one entry per slot the live set reflects the configuration exactly if the kept listeners
     that share a cell agree on it, which one entry per address and port ensures.
     */
    method Reload(cfg: seq<ListenerCfg>, outcome: nat -> Key -> BindResult, rounds: nat)
      returns (desired: map<Key, ListenerCfg>)
      requires Valid()
      modifies this, spawned, AclCells(), CtxCells()
      ensures Valid() && IsDesired(cfg, desired) && NewHold(cfg, old(listeners.Keys))
      ensures OnePerSlot(cfg) ==> (Reflects(desired) <==> Agree(desired, Kept(old(listeners), desired)))
      ensures OnePerAddr(cfg) ==> Reflects(desired)
      ensures old(spawned) <= spawned && fresh(spawned - old(spawned))
      ensures forall k :: k in listeners && k !in old(listeners) ==> fresh(listeners[k].acl) && fresh(listeners[k].ctx)
      ensures forall k :: k in old(listeners) && k in desired ==>
                k in listeners && Same(listeners[k], old(listeners)[k])
      ensures forall k :: k in listeners <==>
              k in desired && (k in old(listeners) || BindsBefore(outcome, k, rounds + 1))
      ensures fresh(AclCells() - old(AclCells())) && fresh(CtxCells() - old(CtxCells()))
    {
      desired := Desired(cfg);
      if OnePerAddr(cfg) { KeptAgree(cfg, desired, listeners); }
      Keep(desired);
      Bind(cfg, desired, outcome, rounds);
    }

    method ReloadOnce(cfg: seq<ListenerCfg>, outcome: nat -> Key -> BindResult, rounds: nat)
      returns (desired: map<Key, ListenerCfg>)
      requires Valid()
      modifies this, spawned, AclCells(), CtxCells()
      ensures Valid() && IsDesired(cfg, desired) && listeners.Keys <= desired.Keys
      ensures OnePerAddr(cfg) ==> Reflects(desired)
      ensures old(spawned) <= spawned && fresh(spawned - old(spawned))
      ensures fresh(AclCells() - old(AclCells())) && fresh(CtxCells() - old(CtxCells()))
    {
      desired := Reload(cfg, outcome, rounds);
    }

    /**
     Any sequence of configurations: no task is lost, and the live set reflects the last one if that has one
     entry per address and port.
     */
    method ReloadEach(cfgs: seq<seq<ListenerCfg>>, outcome: nat -> nat -> Key -> BindResult, rounds: nat)
      returns (desired: map<Key, ListenerCfg>)
      requires Valid() && cfgs != []
      modifies this, spawned, AclCells(), CtxCells()
      ensures Valid() && IsDesired(cfgs[|cfgs| - 1], desired) && old(spawned) <= spawned &&
              listeners.Keys <= desired.Keys
      ensures OnePerAddr(cfgs[|cfgs| - 1]) ==> Reflects(desired)
      decreases |cfgs|
    {
      desired := ReloadOnce(cfgs[0], outcome(0), rounds);
      if |cfgs| > 1 { desired := ReloadEach(cfgs[1..], n => outcome(n + 1), rounds); }
    }
  }

  ghost predicate Within(pending: seq<Pending>, pool: set<object>) {
    forall p :: p in pending ==> p.acl in pool && p.ctx in pool
  }

  lemma WithinParts(a: seq<Pending>, p: Pending, b: seq<Pending>, pool: set<object>)
    requires Within(a + [p] + b, pool)
    ensures p.acl in pool && p.ctx in pool && Within(a + b, pool)
  {
    var whole := a + [p] + b;
    assert whole[|a|] == p;
    forall q | q in a + b ensures q in whole {
      if q in a {
        var i :| 0 <= i < |a| && a[i] == q;
        assert whole[i] == q;
      } else {
        var i :| 0 <= i < |b| && b[i] == q;
        assert whole[|a| + 1 + i] == q;
      }
    }
  }

  /** The old listeners are all there, and new ones use cells of the pool. */
  ghost predicate Grows(after: map<Key, Live>, before: map<Key, Live>, pool: set<object>) {
    Includes(after, before) && forall k :: k in after && k !in before ==> after[k].acl in pool && after[k].ctx in pool
  }

  lemma GrowsMore(first: map<Key, Live>, before: map<Key, Live>, after: map<Key, Live>, pool: set<object>)
    requires Grows(before, first, pool) && Grows(after, before, pool)
    ensures Grows(after, first, pool)
  {}

  lemma NextInLine(still: seq<Pending>, pending: seq<Pending>, i: nat)
    requires i < |pending|
    ensures still + pending[i..] == still + [pending[i]] + pending[i + 1..]
    ensures pending[..i + 1] == pending[..i] + [pending[i]]
  {}

  ghost predicate Includes(after: map<Key, Live>, before: map<Key, Live>) {
    forall k :: k in before ==> k in after && after[k] == before[k]
  }
}
