/**
 The iterative walk: name servers raced two at a time, referrals followed downwards, aliases chased by
 nested walks, everything charged to one shared budget.  Replies, completion order, server shuffling,
 addresses and the clock are arbitrary; a name-server address lookup counts as an arbitrary answer.
 The walk ends whatever comes back, the budget accounts for every query, and the recorded chain goes
 strictly down as long as no server refers to the root.
 */
module Walk {
  import opened Basics
  import opened Names
  import opened Trust
  import opened KeyChain
  import opened AnswerCheck
  import opened Validator
  import opened Delegations
  import Denial = NsecDenial

  const DEFAULT_MAX_DEPTH := 32
  const DEFAULT_MAX_QUERIES := 384
  const DEFAULT_MAX_CNAME := 8
  const MAX_NS_ATTEMPTS := 4
  const NS_PARALLEL := 2

  // ---- replies ----

  datatype Rcode = NoErrorCode | NxDomainCode | ServFailCode | RefusedCode | OtherCode
  datatype Message = Message(rcode: Rcode, answers: seq<Record>, authorities: seq<Record>)
  datatype Class = Answer | NxDomain | Empty | Alias(target: Name) | Referral(zone: Name) | ServFail

  /** Target of the first alias record at the name. */
  function FirstAlias(answers: seq<Record>, q: Name): (target: Option<Name>)
    ensures target.Some? ==> exists r :: r in answers && r.owner == q && r.data == CnameData(target.value)
    ensures target.None? ==> forall r :: r in answers && r.owner == q ==> !r.data.CnameData?
  {
    if answers == [] then None
    else if answers[0].owner == q && answers[0].data.CnameData? then Some(answers[0].data.alias)
    else FirstAlias(answers[1..], q)
  }

  /** Owner of the first name-server record. */
  function FirstNs(authorities: seq<Record>): (zone: Option<Name>)
    ensures zone.Some? ==> exists r :: r in authorities && r.Type() == NS && r.owner == zone.value
    ensures zone.None? ==> forall r :: r in authorities ==> r.Type() != NS
  {
    if authorities == [] then None
    else if authorities[0].Type() == NS then Some(authorities[0].owner)
    else FirstNs(authorities[1..])
  }

  /** `classify`; a direct answer and any other non-empty answer section are treated alike. */
  function Classify(m: Message, q: Name, qtype: RType): Class {
    if m.rcode == NxDomainCode then NxDomain
    else if m.rcode == ServFailCode || m.rcode == RefusedCode then ServFail
    else if qtype != CNAME && FirstAlias(m.answers, q).Some? then Alias(FirstAlias(m.answers, q).value)
    else if m.answers != [] then Answer
    else if FirstNs(m.authorities).Some? then Referral(FirstNs(m.authorities).value)
    else Empty
  }

  /** The signatures over DS among the zone's own records, in order. */
  function DsSigs(zone: Name, records: seq<Record>): (sigs: seq<Rrsig>) {
    if records == [] then []
    else
      var r, before := records[|records| - 1], DsSigs(zone, records[..|records| - 1]);
      if r.owner == zone && r.data.SigData? && r.data.sig.covered == DS then before + [r.data.sig] else before
  }

  /** The message is an answer to give: it has records of the type or none at all, but no alias to follow. */
  ghost predicate Final(m: Message, q: Name, qtype: RType) {
    var c := Classify(m, q, qtype);
    c.Answer? || c.NxDomain? || c.Empty?
  }

  ghost predicate HasAlias(m: Message, q: Name) { exists r :: r in m.answers && r.owner == q && r.data.CnameData? }

  ghost predicate HasReferral(m: Message) { exists r :: r in m.authorities && r.Type() == NS }

  /** Each class, from the message alone. */
  lemma ClassLaws(m: Message, q: Name, qtype: RType)
    ensures var c := Classify(m, q, qtype);
            var failed := m.rcode == ServFailCode || m.rcode == RefusedCode;
            var chase := qtype != CNAME && HasAlias(m, q);
            && (c.NxDomain? <==> m.rcode == NxDomainCode)
            && (c.ServFail? <==> failed)
            && (c.Alias? <==> m.rcode != NxDomainCode && !failed && chase)
            && (c.Answer? <==> m.rcode != NxDomainCode && !failed && !chase && m.answers != [])
            && (c.Referral? <==> m.rcode != NxDomainCode && !failed && m.answers == [] && HasReferral(m))
            && (c.Empty? <==> m.rcode != NxDomainCode && !failed && m.answers == [] && !HasReferral(m))
    ensures var c := Classify(m, q, qtype);
            && (c.Alias? ==> exists r :: r in m.answers && r.owner == q && r.data == CnameData(c.target))
            && (c.Referral? ==> exists r :: r in m.authorities && r.Type() == NS && r.owner == c.zone)
  {}

  /** `extract_ds_and_rrsig`. */
  method ExtractDs(m: Message, zone: Name) returns (ds: seq<Record>, sigs: seq<Rrsig>)
    ensures ds == DsRecords(zone, m.authorities) && sigs == DsSigs(zone, m.authorities)
  {
    ds, sigs := [], [];
    for i := 0 to |m.authorities|
      invariant ds == DsRecords(zone, m.authorities[..i]) && sigs == DsSigs(zone, m.authorities[..i])
    {
      assert m.authorities[..i + 1][..i] == m.authorities[..i];
      var r := m.authorities[i];
      if r.owner == zone {
        match r.data {
          case DsData(_) => ds := ds + [r];
          case SigData(s) => if s.covered == DS { sigs := sigs + [s]; }
          case _ =>
        }
      }
    }
    assert m.authorities[..|m.authorities|] == m.authorities;
  }

  // ---- budget ----

  datatype Fault = DepthExceeded | QueriesExceeded | AliasesExceeded | NoReply | NotProgressive | NoAddresses
    | UpstreamFailed
  datatype Result<+T> = Ok(value: T) | Err(fault: Fault)

  class Budget {
    var depth: nat
    var queries: nat
    var aliases: nat

    constructor (depth: nat, queries: nat, aliases: nat)
      ensures this.depth == depth && this.queries == queries && this.aliases == aliases
    {
      this.depth, this.queries, this.aliases := depth, queries, aliases;
    }

    method Descend() returns (ok: bool)
      modifies this`depth
      ensures if ok then depth + 1 == old(depth) else depth == old(depth) == 0
    {
      if depth == 0 { return false; }
      depth := depth - 1;
      return true;
    }

    method Query() returns (ok: bool)
      modifies this`queries
      ensures if ok then queries + 1 == old(queries) else queries == old(queries) == 0
    {
      if queries == 0 { return false; }
      queries := queries - 1;
      return true;
    }

    method Chase() returns (ok: bool)
      modifies this`aliases
      ensures if ok then aliases + 1 == old(aliases) else aliases == old(aliases) == 0
    {
      if aliases == 0 { return false; }
      aliases := aliases - 1;
      return true;
    }
  }

  // ---- the chain ----

  /** A referral target the walk accepts after `from`: more labels, or the root. */
  predicate Accepts(from: Name, to: Name) { to == [] || NumLabels(from) < NumLabels(to) }

  ghost predicate AcceptedAt(base: Name, steps: seq<Step>, low: nat, i: nat) requires low <= i < |steps| {
    Accepts(if i == low then base else steps[i - 1].zone, steps[i].zone)
  }

  /** The steps from index `low` on were each accepted after the one before, the first after `base`. */
  ghost predicate Descends(base: Name, steps: seq<Step>, low: nat) {
    forall i: nat {:trigger AcceptedAt(base, steps, low, i)} :: low <= i < |steps| ==> AcceptedAt(base, steps, low, i)
  }

  ghost predicate NoRoot(steps: seq<Step>) { forall i :: 0 <= i < |steps| ==> steps[i].zone != [] }

  lemma DescendOne(base: Name, steps: seq<Step>, low: nat, step: Step)
    requires low <= |steps| && Descends(base, steps, low)
    requires Accepts(if |steps| == low then base else steps[|steps| - 1].zone, step.zone)
    ensures Descends(base, steps + [step], low)
  {
    var after := steps + [step];
    forall i: nat | low <= i < |after| ensures AcceptedAt(base, after, low, i) {
      if i < |steps| { assert AcceptedAt(base, steps, low, i); }
    }
  }

  /** What a walk spent: queries sent, walks entered, aliases followed. */
  datatype Tally = Tally(asked: nat, walks: nat, hops: nat)

  datatype Hop = Finished(result: Result<Message>) | Chasing(m: Message, target: Name) | Descended(step: Step)

  /** What the walk does with a message of the given class, received while at `zone`. */
  ghost predicate Follows(cls: Class, m: Message, zone: Name, h: Hop) {
    match cls
    case Answer => h == Finished(Ok(m))
    case NxDomain => h == Finished(Ok(m))
    case Empty => h == Finished(Ok(m))
    case ServFail => h == Finished(Err(UpstreamFailed))
    case Alias(target) => h == Chasing(m, target)
    case Referral(to) =>
      if !Accepts(zone, to) then h == Finished(Err(NotProgressive))
      else if h.Descended? then
        h.step == Step(to, DsRecords(to, m.authorities), DsSigs(to, m.authorities), h.step.ips) && h.step.ips != []
      else h == Finished(Err(NoAddresses))
  }

  /** Replies, choices, addresses, clock readings and other resolutions' stores, by position in the walk. */
  datatype Env = Env(reply: nat -> Option<Message>, pick: nat -> nat, addresses: nat -> seq<Ip>, clock: nat -> int,
                     closest: nat -> (Name, seq<Ip>), others: nat -> seq<Write>, roots: seq<Ip>) {
    ghost predicate Legal(t: Trust) { forall n :: LegalWrites(t, others(n)) }
  }

  // ---- what a walk was told ----

  ghost predicate Received(env: Env, m: Message) { exists n: nat :: env.reply(n) == Some(m) }

  /** The answer sections one after the other. */
  function AnswersOf(ms: seq<Message>): seq<Record> { if ms == [] then [] else ms[0].answers + AnswersOf(ms[1..]) }

  /** Messages received: each but the last leads by an alias at its name to the name of the next, the last is final. */
  ghost predicate Told(env: Env, q: Name, qtype: RType, ms: seq<Message>)
    decreases |ms|
  {
    && ms != [] && Received(env, ms[0])
    && (if |ms| == 1 then Final(ms[0], q, qtype)
        else Classify(ms[0], q, qtype).Alias? && Told(env, Classify(ms[0], q, qtype).target, qtype, ms[1..]))
  }

  ghost predicate SomeLookupFails(env: Env) { exists n: nat :: env.addresses(n) == [] }

  /** The list is empty only if the roots are or a cached zone without addresses is where a walk starts. */
  ghost predicate Listed(env: Env, ips: seq<Ip>) {
    ips != [] || env.roots == [] || exists n: nat :: env.closest(n).1 == []
  }

  /** As many waits as servers of a list are tried ended without a reply. */
  ghost predicate Unheard(env: Env, ips: seq<Ip>, waits: seq<nat>) {
    Listed(env, ips) && Silent(env, waits) && |waits| == Min(MAX_NS_ATTEMPTS, |ips|)
  }

  ghost predicate NobodyHeard(env: Env) { exists ips, waits :: Unheard(env, ips, waits) }

  /** The message is why the walk failed with this fault. */
  ghost predicate Blames(env: Env, m: Message, q: Name, qtype: RType, fault: Fault) {
    match Classify(m, q, qtype)
    case ServFail => fault == UpstreamFailed
    case Referral(to) => (fault == NotProgressive && to != []) || (fault == NoAddresses && SomeLookupFails(env))
    case Alias(_) => fault == AliasesExceeded
    case _ => false
  }

  /** Messages received, each leading by an alias to the next, up to where the walk failed. */
  ghost predicate Faulted(env: Env, q: Name, qtype: RType, ms: seq<Message>, fault: Fault)
    decreases |ms|
  {
    if ms == [] then fault == DepthExceeded || fault == QueriesExceeded || (fault == NoReply && NobodyHeard(env))
    else
      && Received(env, ms[0])
      && (|| (|ms| == 1 && Blames(env, ms[0], q, qtype, fault))
          || (&& Classify(ms[0], q, qtype).Alias?
              && Faulted(env, Classify(ms[0], q, qtype).target, qtype, ms[1..], fault)))
  }

  /** What a walk that received these messages gives back. */
  ghost predicate Explained(env: Env, q: Name, qtype: RType, ms: seq<Message>, r: Result<Message>) {
    match r
    case Ok(m) => Told(env, q, qtype, ms) && m == Message(ms[|ms| - 1].rcode, AnswersOf(ms), ms[0].authorities)
    case Err(fault) => Faulted(env, q, qtype, ms, fault)
  }

  lemma {:induction false} FinalExplained(env: Env, q: Name, qtype: RType, m: Message)
    requires Received(env, m) && Final(m, q, qtype)
    ensures Explained(env, q, qtype, [m], Ok(m))
  {
    assert AnswersOf([m]) == m.answers + AnswersOf([m][1..]) && [m][1..] == [];
    assert m.answers + [] == m.answers;
  }

  lemma {:induction false} BlamedExplained(env: Env, q: Name, qtype: RType, m: Message, fault: Fault)
    requires Received(env, m) && Blames(env, m, q, qtype, fault)
    ensures Explained(env, q, qtype, [m], Err(fault))
  {}

  /** The result of following an alias. */
  function Joined(m: Message, r: Result<Message>): Result<Message> {
    if r.Err? then r else Ok(m.(answers := m.answers + r.value.answers, rcode := r.value.rcode))
  }

  lemma {:induction false} AliasExplained(env: Env, q: Name, qtype: RType, m: Message, target: Name, ms: seq<Message>,
                                          r: Result<Message>)
    requires Received(env, m) && Classify(m, q, qtype) == Alias(target) && Explained(env, target, qtype, ms, r)
    ensures Explained(env, q, qtype, [m] + ms, Joined(m, r))
  {
    var all := [m] + ms;
    assert all[0] == m && all[1..] == ms;
    if r.Ok? { assert all[|all| - 1] == ms[|ms| - 1]; }
  }

  /** What the last hop of a walk's loop was told. */
  ghost predicate HopTold(env: Env, q: Name, qtype: RType, h: Hop) {
    match h
    case Finished(Ok(m)) => Received(env, m) && Final(m, q, qtype)
    case Finished(Err(fault)) =>
      || fault == QueriesExceeded || (fault == NoReply && NobodyHeard(env))
      || exists m :: Received(env, m) && Blames(env, m, q, qtype, fault)
    case Chasing(m, target) => Received(env, m) && Classify(m, q, qtype) == Alias(target)
    case Descended(_) => true
  }

  /** The messages behind the end of a walk that follows no alias. */
  lemma {:induction false} FinishedExplained(env: Env, q: Name, qtype: RType, r: Result<Message>)
    returns (ms: seq<Message>)
    requires HopTold(env, q, qtype, Finished(r))
    ensures Explained(env, q, qtype, ms, r)
  {
    match r
    case Ok(m) =>
      FinalExplained(env, q, qtype, m);
      ms := [m];
    case Err(fault) =>
      ms := [];
      if fault != QueriesExceeded && fault != NoReply {
        var m :| Received(env, m) && Blames(env, m, q, qtype, fault);
        BlamedExplained(env, q, qtype, m, fault);
        ms := [m];
      }
  }

  /** The chain of a walk: a resumed prefix of the ancestors cached at its start, then accepted referrals. */
  ghost predicate Recorded(dnssec: bool, seen: map<Name, Delegation>, q: Name, steps: seq<Step>, base: Name, low: nat,
                           now: int) {
    && low <= |steps| && Descends(base, steps, low)
    && (dnssec ==> if low == 0 then base == []
      else ResumesFrom(seen, q, now, steps[..low]) && base == steps[low - 1].zone)
  }

  lemma RecordOne(dnssec: bool, seen: map<Name, Delegation>, q: Name, steps: seq<Step>, base: Name, low: nat, now: int,
                  step: Step)
    requires Recorded(dnssec, seen, q, steps, base, low, now)
    requires Accepts(if |steps| == low then base else steps[|steps| - 1].zone, step.zone)
    ensures Recorded(dnssec, seen, q, steps + [step], base, low, now)
  {
    DescendOne(base, steps, low, step);
    assert (steps + [step])[..low] == steps[..low];
  }

  class Resolver {
    const env: Env
    const delegations: DelegationCache
    const dnssec: bool
    var tick: nat

    constructor (env: Env, delegations: DelegationCache, dnssec: bool)
      ensures this.delegations == delegations && this.dnssec == dnssec
    {
      this.env, this.delegations, this.dnssec, tick := env, delegations, dnssec, 0;
    }

    /** A delegation cache of proven steps stays one, as long as others store only proven steps. */
    twostate predicate StaysProven()
      reads delegations
    {
      forall t :: old(delegations.Valid(t)) && env.Legal(t) ==> delegations.Valid(t)
    }

    /** Remove an arbitrary element. */
    method Take(xs: seq<Ip>) returns (x: Ip, rest: seq<Ip>)
      requires xs != []
      modifies this`tick
      ensures multiset(xs) == multiset(rest) + multiset{x} && |rest| + 1 == |xs| && tick == old(tick) + 1
    {
      var i := env.pick(tick) % |xs|;
      tick := tick + 1;
      x, rest := xs[i], xs[..i] + xs[i + 1..];
      assert xs == xs[..i] + [xs[i]] + xs[i + 1..];
    }

    /** The servers to try, in random order, at most four. */
    method Shuffle(ips: seq<Ip>) returns (order: seq<Ip>)
      modifies this`tick
      ensures |order| == Min(MAX_NS_ATTEMPTS, |ips|) && multiset(order) <= multiset(ips)
    {
      order := [];
      var rest := ips;
      while |order| < MAX_NS_ATTEMPTS && rest != []
        invariant |order| <= MAX_NS_ATTEMPTS && |order| + |rest| == |ips|
        invariant multiset(order) + multiset(rest) == multiset(ips)
        decreases |rest|
      {
        var x;
        x, rest := Take(rest);
        order := order + [x];
      }
    }

    /**
     `query_ns_set`: at most two queries in flight, at most four sent, to different entries of the server
     list; without running out of budget it gives up only after every one of the first four failed.
     */
    method QueryNsSet(b: Budget, ips: seq<Ip>)
      returns (r: Result<Message>, asked: seq<Ip>, ghost failed: seq<Ip>, ghost peak: nat, ghost waits: seq<nat>)
      modifies this`tick, b`queries, delegations
      ensures b.queries + |asked| == old(b.queries) && StaysProven()
      ensures |asked| <= Min(MAX_NS_ATTEMPTS, |ips|) && multiset(asked) <= multiset(ips) && peak <= NS_PARALLEL
      ensures (r.Ok? ==> asked != [] && Received(env, r.value)) && Silent(env, waits) && |waits| == |failed|
      ensures r.Err? ==>
                || (r.fault == QueriesExceeded && b.queries == 0)
                || (r.fault == NoReply && |asked| == Min(MAX_NS_ATTEMPTS, |ips|) && multiset(failed) == multiset(asked))
    {
      var order := Shuffle(ips);
      asked, failed, peak, waits := [], [], 0, [];
      var inFlight: seq<Ip> := [];
      while |asked| < NS_PARALLEL && |asked| < |order|
        invariant |asked| <= |order| && asked == order[..|asked|] && |asked| <= NS_PARALLEL
        invariant inFlight == asked && peak == |inFlight| && b.queries + |asked| == old(b.queries)
        invariant unchanged(delegations)
        decreases |order| - |asked|
      {
        var ok := b.Query();
        if !ok {
          PrefixSubset(order, asked);
          return Err(QueriesExceeded), asked, failed, peak, waits;
        }
        inFlight, asked := inFlight + [order[|asked|]], asked + [order[|asked|]];
        peak := |inFlight|;
      }
      r, asked, failed, peak, waits := Race(b, order, inFlight);
      PrefixSubset(order, asked);
    }

    /** Waiting for the next reply; other resolutions run meanwhile. */
    method Await() returns (reply: Option<Message>)
      modifies this`tick, delegations
      ensures StaysProven() && reply == env.reply(old(tick)) && tick == old(tick) + 1
    {
      delegations.Interfere(env.others(tick));
      reply := env.reply(tick);
      tick := tick + 1;
    }

    /** One of the servers asked replies or fails, any of them. */
    method NextReply(inFlight: seq<Ip>) returns (ip: Ip, rest: seq<Ip>, reply: Option<Message>, ghost at: nat)
      requires inFlight != []
      modifies this`tick, delegations
      ensures multiset(inFlight) == multiset(rest) + multiset{ip} && |rest| + 1 == |inFlight| && StaysProven()
      ensures old(tick) <= at < tick && reply == env.reply(at)
    {
      ip, rest := Take(inFlight);
      at := tick;
      reply := Await();
    }

    /** The race once the first queries are out; a failure makes room for the next server. */
    method Race(b: Budget, order: seq<Ip>, first: seq<Ip>)
      returns (r: Result<Message>, asked: seq<Ip>, ghost failed: seq<Ip>, ghost peak: nat, ghost waits: seq<nat>)
      requires |first| == Min(NS_PARALLEL, |order|) && first == order[..|first|]
      modifies this`tick, b`queries, delegations
      ensures StaysProven()
      ensures |first| <= |asked| <= |order| && asked == order[..|asked|] &&
              b.queries + |asked| == old(b.queries) + |first|
      ensures (r.Ok? ==> asked != [] && Received(env, r.value)) && peak <= NS_PARALLEL
      ensures Silent(env, waits) && |waits| == |failed|
      ensures r.Err? ==>
                || (r.fault == QueriesExceeded && b.queries == 0)
                || (r.fault == NoReply && |asked| == |order| && multiset(failed) == multiset(asked))
    {
      failed, peak, waits := [], |first|, [];
      var inFlight, sent := first, |first|;
      while inFlight != []
        invariant |first| <= sent <= |order| && b.queries + sent == old(b.queries) + |first|
        invariant StaysProven() == true && Waited(waits, failed) == true
        invariant |inFlight| <= peak <= NS_PARALLEL && Accounts(order, sent, inFlight, failed) == true
        invariant inFlight == [] ==> sent == |order|
        decreases |order| - sent + |inFlight|
      {
        var reply;
        reply, inFlight, failed, waits := Settle(order, sent, inFlight, failed, waits);
        if reply.Some? { return Ok(reply.value), order[..sent], failed, peak, waits; }
        if sent < |order| {
          var ok := b.Query();
          if !ok { return Err(QueriesExceeded), order[..sent], failed, peak, waits; }
          SendOne(order, sent, inFlight, failed);
          inFlight, sent := inFlight + [order[sent]], sent + 1;
          peak := Max(peak, |inFlight|);
        }
      }
      return Err(NoReply), order[..sent], failed, peak, waits;
    }

    /** As many waits as failures, all of them over. */
    ghost predicate Waited(waits: seq<nat>, failed: seq<Ip>)
      reads this
    {
      Silent(env, waits) && |waits| == |failed| && (waits != [] ==> waits[|waits| - 1] < tick)
    }

    /** The next query in flight to end, with the failures and waits so far. */
    method Settle(order: seq<Ip>, sent: nat, inFlight: seq<Ip>, ghost failed: seq<Ip>, ghost waits: seq<nat>)
      returns (reply: Option<Message>, rest: seq<Ip>, ghost failedNow: seq<Ip>, ghost waitsNow: seq<nat>)
      requires inFlight != [] && Accounts(order, sent, inFlight, failed) && Waited(waits, failed)
      modifies this`tick, delegations
      ensures StaysProven() == true && Waited(waitsNow, failedNow) == true && |rest| + 1 == |inFlight|
      ensures if reply.Some? then Received(env, reply.value) else Accounts(order, sent, rest, failedNow)
    {
      ghost var ip, at;
      ip, rest, reply, at := NextReply(inFlight);
      FailOne(order, sent, inFlight, failed, ip, rest);
      failedNow, waitsNow := failed, waits;
      if reply.None? { failedNow, waitsNow := failed + [ip], waits + [at]; }
    }

    /** Where a walk begins: below the cached delegations, or at the root. */
    method Begin(q: Name) returns (zone: Name, ips: seq<Ip>, steps: seq<Step>, ghost now: int)
      modifies this`tick
      ensures dnssec && steps != [] ==>
                ResumesFrom(delegations.entries, q, now, steps) && zone == steps[|steps| - 1].zone &&
                  ips == steps[|steps| - 1].ips != []
      ensures (steps == [] && dnssec ==> zone == []) && Listed(env, ips)
      ensures !dnssec ==> steps == []
    {
      var t := tick;
      tick := tick + 1;
      now := env.clock(t);
      if dnssec {
        steps := delegations.Start(q, env.clock(t));
        if steps != [] {
          zone, ips := steps[|steps| - 1].zone, steps[|steps| - 1].ips;
        } else {
          zone, ips := [], env.roots;
        }
      } else {
        var start := env.closest(t);
        zone, ips, steps := start.0, start.1, [];
      }
    }

    /** One round of the walk's loop: the query, and what the class of its answer leads to. */
    method TakeHop(q: Name, qtype: RType, b: Budget, zone: Name, ips: seq<Ip>)
      returns (h: Hop, asked: nat, ghost got: Option<Message>)
      requires Listed(env, ips)
      modifies this`tick, b`queries, delegations
      ensures b.queries + asked == old(b.queries) && (got.Some? ==> asked > 0) && StaysProven()
      ensures h == Finished(Err(QueriesExceeded)) ==> b.queries == 0
      ensures got.None? ==> h == Finished(Err(QueriesExceeded)) || h == Finished(Err(NoReply))
      ensures got.Some? ==> Received(env, got.value) && Follows(Classify(got.value, q, qtype), got.value, zone, h)
      ensures HopTold(env, q, qtype, h) && (h.Descended? ==> h.step.ips != [])
    {
      var reply, sent, failed, peak, waits := QueryNsSet(b, ips);
      asked, got := |sent|, None;
      if reply == Err(NoReply) {
        SameSize(failed, sent);
        assert Unheard(env, ips, waits);
      }
      if reply.Err? { return Finished(Err(reply.fault)), asked, got; }
      var m := reply.value;
      got := Some(m);
      match Classify(m, q, qtype) {
        case Answer => return Finished(Ok(m)), asked, got;
        case NxDomain => return Finished(Ok(m)), asked, got;
        case Empty => return Finished(Ok(m)), asked, got;
        case ServFail =>
          assert Received(env, m) && Blames(env, m, q, qtype, UpstreamFailed);
          return Finished(Err(UpstreamFailed)), asked, got;
        case Alias(target) => return Chasing(m, target), asked, got;
        case Referral(to) =>
          if !Accepts(zone, to) {
            assert Received(env, m) && Blames(env, m, q, qtype, NotProgressive);
            return Finished(Err(NotProgressive)), asked, got;
          }
          var ds, sigs := ExtractDs(m, to);
          var found := env.addresses(tick);
          if found == [] {
            assert SomeLookupFails(env);
            assert Received(env, m) && Blames(env, m, q, qtype, NoAddresses);
            return Finished(Err(NoAddresses)), asked, got;
          }
          tick := tick + 1;
          return Descended(Step(to, ds, sigs, found)), asked, got;
      }
    }

    /** The loop of `walk`: referrals are followed until there is an answer, a fault or an alias. */
    method Follow(q: Name, qtype: RType, b: Budget, base: Name, first: seq<Ip>, resumed: seq<Step>,
                  ghost seen: map<Name, Delegation>, ghost now: int)
      returns (h: Hop, steps: seq<Step>, asked: nat)
      requires Recorded(dnssec, seen, q, resumed, base, |resumed|, now) && Listed(env, first)
      modifies this`tick, b`queries, delegations
      ensures b.queries + asked == old(b.queries) && !h.Descended? && StaysProven()
      ensures Recorded(dnssec, seen, q, steps, base, |resumed|, now)
      ensures h != Finished(Err(DepthExceeded)) && h != Finished(Err(AliasesExceeded))
      ensures h == Finished(Err(QueriesExceeded)) ==> b.queries == 0
      ensures HopTold(env, q, qtype, h)
    {
      var zone, ips := base, first;
      steps, asked := resumed, 0;
      while true
        invariant b.queries + asked == old(b.queries) && StaysProven() && Listed(env, ips)
        invariant Recorded(dnssec, seen, q, steps, base, |resumed|, now)
        invariant zone == if |steps| == |resumed| then base else steps[|steps| - 1].zone
        decreases b.queries
      {
        var sent;
        ghost var got;
        h, sent, got := TakeHop(q, qtype, b, zone, ips);
        asked := asked + sent;
        if !h.Descended? { return; }
        RecordOne(dnssec, seen, q, steps, base, |resumed|, now, h.step);
        zone, ips, steps := h.step.zone, h.step.ips, steps + [h.step];
      }
    }

    /**
     `walk`.  It ends for every environment; the tally accounts for the whole budget difference, nested
     walks included, and an exhaustion fault means that resource is used up.  The result is explained by a
     chain of messages received, linked by aliases.
     */
    method Walk(q: Name, qtype: RType, b: Budget)
      returns (r: Result<Message>, steps: seq<Step>, tally: Tally, ghost base: Name, ghost low: nat, ghost now: int,
               ghost ms: seq<Message>)
      modifies this`tick, b, delegations
      ensures b.queries + tally.asked == old(b.queries) && StaysProven()
      ensures b.depth + tally.walks == old(b.depth)
      ensures b.aliases + tally.hops == old(b.aliases) && tally.walks <= tally.hops + 1
      ensures r == Err(DepthExceeded) ==> b.depth == 0
      ensures r == Err(QueriesExceeded) ==> b.queries == 0
      ensures r == Err(AliasesExceeded) ==> b.aliases == 0
      ensures Recorded(dnssec, old(delegations.entries), q, steps, base, low, now)
      ensures Explained(env, q, qtype, ms, r)
      decreases b.depth, 0
    {
      steps, tally, base, low, now, ms := [], Tally(0, 0, 0), [], 0, 0, [];
      var ok := b.Descend();
      if !ok { return Err(DepthExceeded), steps, tally, base, low, now, ms; }
      var zone, ips, h, asked;
      zone, ips, steps, now := Begin(q);
      base, low := zone, |steps|;
      assert steps[..low] == steps;
      h, steps, asked := Follow(q, qtype, b, zone, ips, steps, old(delegations.entries), now);
      match h {
        case Finished(result) =>
          r, tally := result, Tally(asked, 1, 0);
          ms := FinishedExplained(env, q, qtype, result);
        case Chasing(m, target) =>
          var rest;
          r, rest, ms := Chase(q, m, target, qtype, b);
          tally := Tally(asked + rest.asked, 1 + rest.walks, rest.hops);
      }
    }

    /** Following an alias: a nested walk for the target, whose chain is dropped and whose answers are added. */
    method Chase(ghost q: Name, m: Message, target: Name, qtype: RType, b: Budget)
      returns (r: Result<Message>, tally: Tally, ghost ms: seq<Message>)
      requires Received(env, m) && Classify(m, q, qtype) == Alias(target)
      modifies this`tick, b, delegations
      ensures b.queries + tally.asked == old(b.queries) && StaysProven()
      ensures b.depth + tally.walks == old(b.depth)
      ensures b.aliases + tally.hops == old(b.aliases) && tally.walks <= tally.hops
      ensures r == Err(DepthExceeded) ==> b.depth == 0
      ensures r == Err(QueriesExceeded) ==> b.queries == 0
      ensures r == Err(AliasesExceeded) ==> b.aliases == 0
      ensures Explained(env, q, qtype, ms, r)
      decreases b.depth, 1
    {
      var ok := b.Chase();
      if !ok {
        BlamedExplained(env, q, qtype, m, AliasesExceeded);
        return Err(AliasesExceeded), Tally(0, 0, 0), [m];
      }
      var steps;
      ghost var base, low, now;
      r, steps, tally, base, low, now, ms := Walk(target, qtype, b);
      tally := tally.(hops := tally.hops + 1);
      AliasExplained(env, q, qtype, m, target, ms, r);
      ms := [m] + ms;
      if r.Ok? { r := Ok(m.(answers := m.answers + r.value.answers, rcode := r.value.rcode)); }
    }
  }

  /** Waits, one after the other, that each ended without a reply. */
  ghost predicate Silent(env: Env, waits: seq<nat>) {
    && (forall i :: 0 <= i < |waits| ==> env.reply(waits[i]).None?)
    && forall i, j :: 0 <= i < j < |waits| ==> waits[i] < waits[j]
  }

  /** Every server asked so far is still in flight or has failed. */
  ghost predicate Accounts(order: seq<Ip>, sent: nat, inFlight: seq<Ip>, failed: seq<Ip>) {
    sent <= |order| && multiset(inFlight) + multiset(failed) == multiset(order[..sent])
  }

  lemma FailOne(order: seq<Ip>, sent: nat, inFlight: seq<Ip>, failed: seq<Ip>, ip: Ip, rest: seq<Ip>)
    requires Accounts(order, sent, inFlight, failed) && multiset(inFlight) == multiset(rest) + multiset{ip}
    ensures Accounts(order, sent, rest, failed + [ip])
  {}

  lemma SendOne(order: seq<Ip>, sent: nat, inFlight: seq<Ip>, failed: seq<Ip>)
    requires Accounts(order, sent, inFlight, failed) && sent < |order|
    ensures Accounts(order, sent + 1, inFlight + [order[sent]], failed)
  {
    assert order[..sent + 1] == order[..sent] + [order[sent]];
  }

  lemma SameSize(a: seq<Ip>, b: seq<Ip>)
    requires multiset(a) == multiset(b)
    ensures |a| == |b|
  {
    assert |multiset(a)| == |a| && |multiset(b)| == |b|;
  }

  lemma PrefixSubset(order: seq<Ip>, asked: seq<Ip>)
    requires |asked| <= |order| && asked == order[..|asked|]
    ensures multiset(asked) <= multiset(order)
  {
    assert order == order[..|asked|] + order[|asked|..];
  }

  // ---- chains and the root ----

  /** None of the steps after index `i`, up to `j`, is for the root. */
  ghost predicate Rootless(steps: seq<Step>, i: int, j: int) {
    forall k :: 0 <= k < |steps| && i < k <= j ==> steps[k].zone != []
  }

  /** Without a referral to the root, label counts strictly increase. */
  lemma {:induction false} CountsRise(base: Name, steps: seq<Step>, low: nat, i: nat, j: nat)
    requires low <= i < j < |steps| && Descends(base, steps, low) && Rootless(steps, i, j)
    ensures NumLabels(steps[i].zone) < NumLabels(steps[j].zone)
    decreases j
  {
    assert AcceptedAt(base, steps, low, j);
    if i < j - 1 { CountsRise(base, steps, low, i, j - 1); }
  }

  /** A resumed prefix of ancestors of the query name, then accepted referrals. */
  ghost predicate Chained(q: Name, steps: seq<Step>, base: Name, low: nat) {
    && low <= |steps| && Descends(base, steps, low) && low <= Depths(q)
    && (forall k :: 0 <= k < low ==> steps[k].zone == Suffix(q, Shallowest(q) + k))
    && (low > 0 ==> base == steps[low - 1].zone)
  }

  /** Two steps of a chain, with no referral to the root after the first, are for different zones. */
  lemma ZonesOnce(q: Name, steps: seq<Step>, base: Name, low: nat, i: nat, j: nat)
    requires Chained(q, steps, base, low) && i < j < |steps| && Rootless(steps, i, j)
    ensures steps[i].zone != steps[j].zone
  {
    if j < low {
      assert |steps[i].zone| < |steps[j].zone|;
    } else if i >= low {
      CountsRise(base, steps, low, i, j);
    } else {
      assert AcceptedAt(base, steps, low, low);
      if j > low { CountsRise(base, steps, low, low, j); }
      assert NumLabels(base) < NumLabels(steps[j].zone);
      assert i < low - 1 ==> |steps[i].zone| < |base|;
    }
  }

  /** A zone named twice means a referral to the root in between. */
  lemma RepeatNeedsRoot(q: Name, steps: seq<Step>, base: Name, low: nat, i: nat, j: nat) returns (k: nat)
    requires Chained(q, steps, base, low) && i < j < |steps| && steps[i].zone == steps[j].zone
    ensures i < k <= j && steps[k].zone == []
  {
    if Rootless(steps, i, j) { ZonesOnce(q, steps, base, low, i, j); }
    k :| 0 <= k < |steps| && i < k <= j && steps[k].zone == [];
  }

  lemma NoRootNamesOnce(q: Name, steps: seq<Step>, base: Name, low: nat)
    requires Chained(q, steps, base, low) && NoRoot(steps)
    ensures NamesOnce(steps)
  {
    forall i, j | 0 <= i < j < |steps| ensures steps[i].zone != steps[j].zone {
      ZonesOnce(q, steps, base, low, i, j);
    }
  }

  // ---- referrals that do not go down ----

  /** A name with one label more than the zone's, under another top label. */
  function Elsewhere(zone: Name): Name requires zone != [] { seq(|zone| + 1, i => zone[|zone| - 1] + "x") }

  lemma ElsewhereIsNotBelow(zone: Name)
    requires zone != []
    ensures Accepts(zone, Elsewhere(zone)) && !IsSuffix(zone, Elsewhere(zone))
  {
    var to := Elsewhere(zone);
    assert to[0][|to[0]| - 1] == 'x';
    assert Suffix(to, |zone|)[|zone| - 1] == zone[|zone| - 1] + "x";
    assert |zone[|zone| - 1] + "x"| != |zone[|zone| - 1]|;
  }

  /** Apart from the root, everything accepted lies below the current zone only while that is the root. */
  lemma AcceptsOnlyBelowIff(zone: Name)
    ensures (forall to :: to != [] && Accepts(zone, to) ==> IsSuffix(zone, to)) <==> zone == []
  {
    if zone == [] {
      forall to: Name ensures IsSuffix([], to) { assert Suffix(to, 0) == []; }
    } else {
      ElsewhereIsNotBelow(zone);
    }
  }

  lemma {:induction false} NothingExtracted(zone: Name, records: seq<Record>)
    requires forall r :: r in records ==> !r.data.DsData? && !r.data.SigData?
    ensures DsRecords(zone, records) == [] && DsSigs(zone, records) == []
  {
    if records != [] { NothingExtracted(zone, records[..|records| - 1]); }
  }

  /** Any zone's server can send the walk to a zone elsewhere that has more labels. */
  lemma SidewaysReferralFollowed(zone: Name, q: Name, qtype: RType, ip: Ip)
    requires zone != []
    ensures var to := Elsewhere(zone);
            var m := Message(NoErrorCode, [], [Record(to, 1, 60, NsData(to))]);
            && Classify(m, q, qtype) == Referral(to) &&
              Follows(Referral(to), m, zone, Descended(Step(to, [], [], [ip])))
            && !IsSuffix(zone, to)
  {
    ElsewhereIsNotBelow(zone);
    var to := Elsewhere(zone);
    var records := [Record(to, 1, 60, NsData(to))];
    NothingExtracted(to, records);
  }

  // ---- a walk that does return to the root ----

  /** A root key `r` that signed one DS set, and a key `k` that matches it and signed its own set. */
  function OneZoneTrust(ds: Record, key: Record): Trust {
    Trust({([], "r")},
          (rrset, sig, k) => (rrset == [ds] && k == "r") || (rrset == [key] && k == "k"),
          (d, zone, k) => k == "k")
  }

  const DS_SIG := Rrsig(DS, [], 0, 0, "")

  /** The zone's own key set, signed by its key. */
  function OneZoneKeys(zone: Name): Fetched {
    Fetched([Record(zone, 1, 1, DnskeyData("k"))], ["k"], Some(Rrsig(DNSKEY, zone, 0, 0, "")))
  }

  function OneZoneTrustOf(zone: Name, ds: Record): Trust { OneZoneTrust(ds, OneZoneKeys(zone).records[0]) }

  /** The zone with its signed DS set, the root without any, and the zone again with another DS set. */
  function ReturningChain(zone: Name, ds: Record, other: Record, ip: Ip): seq<Step> {
    [Step(zone, [ds], [DS_SIG], [ip]), Step([], [], [], [ip]), Step(zone, [other], [], [ip])]
  }

  /** The first step meets every check of the validator, under the root's key. */
  lemma FirstZonePasses(zone: Name, ds: Record, other: Record, ip: Ip)
    requires ds.data.DsData?
    ensures var t, step := OneZoneTrustOf(zone, ds), ReturningChain(zone, ds, other, ip)[0];
            && DsPasses(t, [Entry([], ["r"])], step, 0) && KnowsSigner([Entry([], ["r"])], step)
            && KeysPass(t, zone, [ds], OneZoneKeys(zone), 0)
  {
    var t, chain := OneZoneTrustOf(zone, ds), [Entry([], ["r"])];
    var key := OneZoneKeys(zone).records[0];
    assert "r" in chain[0].keys && t.Verifies([ds], DS_SIG, "r");
    assert Suffix(zone, 0) == [] && IsClosest(chain, zone, 0);
    assert SignedByEntry(t, chain, zone, [ds], DS_SIG, 0);
    assert Has(chain, []) by { assert chain[0] in chain; }
    assert "k" in ["k"] && t.Verifies([key], OneZoneKeys(zone).sig.value, "k");
    assert ds in [ds] && t.digest(ds.data.ds, zone, "k");
  }

  lemma FirstZoneProven(zone: Name, ds: Record, other: Record, ip: Ip)
    requires ds.data.DsData?
    ensures Proven(OneZoneTrustOf(zone, ds), ReturningChain(zone, ds, other, ip)[0])
  {
    var t, step, f := OneZoneTrustOf(zone, ds), ReturningChain(zone, ds, other, ip)[0], OneZoneKeys(zone);
    FirstZonePasses(zone, ds, other, ip);
    DeriveAnchored(t, [], ["r"]);
    assert Suffix(zone, 0) == [];
    assert t.Signed([ds], DS_SIG, ["r"]) by { assert "r" in ["r"] && t.Verifies([ds], DS_SIG, "r"); }
    TrustDs(t, [], ["r"], zone, [ds], DS_SIG, 0);
    DeriveDelegated(t, zone, [ds], f.keys, f.records, f.sig.value, 0);
    var parent, sig, at :| DsSigned(t, zone, [ds], parent, sig, at);
    var child :| Derives(t, child, zone, f.keys);
    assert Supports(t, step, Evidence(parent, sig, at, child));
  }

  lemma OtherUnsigned(zone: Name, ds: Record, other: Record, ip: Ip)
    requires ds.data.DsData? && other.data.DsData? && ds != other
    ensures var t, steps := OneZoneTrustOf(zone, ds), ReturningChain(zone, ds, other, ip);
            !Proven(t, steps[1]) && !Proven(t, steps[2])
  {
    var t := OneZoneTrustOf(zone, ds);
    assert forall sig, k :: !t.Verifies([other], sig, k) by { assert [other][0] == other && [ds][0] == ds; }
  }

  /**
   A referral to the root lets a walk meet a zone again.  Every referral below is accepted, the first
   step meets every check of the validator and is proven, and the second, having no DS records, ends
   validation as insecure.  The third, which nothing supports, is what the cache then holds for the zone.
   */
  lemma RootReferralRepeats(zone: Name, ds: Record, other: Record, ip: Ip, now: int)
    requires NumLabels(zone) > 0 && ds.data.DsData? && other.data.DsData? && ds != other && other.ttl > 0
    ensures var t, steps := OneZoneTrustOf(zone, ds), ReturningChain(zone, ds, other, ip);
            var after := StoreUpTo(map[], steps, [zone], |steps|, now);
            && Chained(zone, steps, [], 0) && ZonesOf(t, steps, [zone]) && !Proven(t, steps[2])
            && StepPasses(t, n => 0, [Entry([], ["r"])], steps[0], Fresh(OneZoneKeys(zone)), 0)
            && zone in after && after[zone].step == steps[2] && !AllProven(t, after)
  {
    var t, steps := OneZoneTrustOf(zone, ds), ReturningChain(zone, ds, other, ip);
    forall i: nat | i < |steps| ensures AcceptedAt([], steps, 0, i) {}
    FirstZonePasses(zone, ds, other, ip);
    FirstZoneProven(zone, ds, other, ip);
    OtherUnsigned(zone, ds, other, ip);
    assert ZonesUpTo(steps, 1) == [zone] && ProvenUpTo(t, steps, 1);
    ReturnStores(map[], zone, ds, other, ip, now);
  }

  /** Storing after the first step was validated files the third under the zone. */
  lemma ReturnStores(before: map<Name, Delegation>, zone: Name, ds: Record, other: Record, ip: Ip, now: int)
    requires zone != [] && other.ttl > 0
    ensures var steps := ReturningChain(zone, ds, other, ip);
            var after := StoreUpTo(before, steps, [zone], |steps|, now); zone in after && after[zone].step == steps[2]
  {
    assert MinDsTtl([other]) == other.ttl;
  }

  lemma StopsAtUnproven(t: Trust, steps: seq<Step>, n: nat, j: nat)
    requires n <= |steps| && j < |steps| && ProvenUpTo(t, steps, n) && !Proven(t, steps[j])
    ensures n <= j
  {
    if j < n { ProvenAt(t, steps, n, j); }
  }

  /**
   The same through the validator itself, with both key sets in its cache and a clock that stands still:
   exactly the first zone is validated, and the delegation cache ends with the step nothing supports.
   */
  method RootReferralCached(v: Validator, d: DelegationCache, zone: Name, ds: Record, other: Record, ip: Ip,
                            lib: HashLib, resp: Response, qtype: RType, rootServers: nat, now: int)
    returns (s: Status, validated: seq<Name>)
    requires v.Valid() && v.trust == OneZoneTrustOf(zone, ds) && (forall n :: v.env.clock(n) == 0)
    requires v.cache.GetPositive([], 0) == Some(["r"]) && v.cache.GetPositive(zone, 0) == Some(["k"])
    requires NumLabels(zone) > 0 && ds.data.DsData? && other.data.DsData? && ds != other && other.ttl > 0
    modifies v`tick, v.cache, d
    ensures s == Denial.Insecure && validated == [zone]
    ensures zone in d.entries && d.entries[zone].step == ReturningChain(zone, ds, other, ip)[2] && !d.Valid(v.trust)
  {
    var steps := ReturningChain(zone, ds, other, ip);
    FirstZonePasses(zone, ds, other, ip);
    OtherUnsigned(zone, ds, other, ip);
    assert v.FirstStepPasses([([], "r")], steps);
    s, validated := v.ValidateWalk([([], "r")], steps, lib, resp, zone, qtype, rootServers);
    StopsAtUnproven(v.trust, steps, |validated|, 1);
    assert validated == ZonesUpTo(steps, 1) == [zone];
    ReturnStores(d.entries, zone, ds, other, ip, now);
    d.CacheValidated(steps, validated, now);
  }
}
