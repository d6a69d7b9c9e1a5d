/**
 The chain-of-trust walk: seeding from the anchors, learning the root's keys, verifying each delegation
 step, and filling in zones that servers skipped.  Replies, the clock and everything other validations
 do to the shared cache while this one is suspended are arbitrary.  Whatever happens, every key set
 the walk or the cache holds has a derivation, and the zones reported as validated are a prefix of
 the walk's steps.
 */
module Validator {
  import opened Basics
  import opened Names
  import opened Trust
  import opened DnskeyCache
  import opened KeyChain
  import opened AnswerCheck
  import Denial = NsecDenial

  ghost predicate IsSigner(records: seq<Record>, z: Name) {
    exists r :: r in records && r.data.SigData? && r.data.sig.signer == z
  }

  /** Signers of the response's RRSIGs that the chain does not know, each once. */
  method UnknownSigners(chain: Chain, records: seq<Record>) returns (needed: seq<Name>)
    ensures forall r :: r in records && r.data.SigData? ==> Has(chain, r.data.sig.signer) || r.data.sig.signer in needed
    ensures forall z :: z in needed ==> !Has(chain, z) && IsSigner(records, z)
    ensures forall i, j :: 0 <= i < j < |needed| ==> needed[i] != needed[j]
  {
    needed := [];
    for i := 0 to |records|
      invariant forall r :: r in records[..i] && r.data.SigData? ==>
                Has(chain, r.data.sig.signer) || r.data.sig.signer in needed
      invariant forall z :: z in needed ==> !Has(chain, z) && IsSigner(records, z)
      invariant forall i, j :: 0 <= i < j < |needed| ==> needed[i] != needed[j]
    {
      var d := records[i].data;
      assert records[i] in records;
      if d.SigData? && !Has(chain, d.sig.signer) && d.sig.signer !in needed { needed := needed + [d.sig.signer]; }
    }
    assert records[..|records|] == records;
  }

  ghost predicate HasAll(chain: Chain, zones: seq<Name>, n: nat) requires n <= |zones| {
    forall i :: 0 <= i < n ==> Has(chain, zones[i])
  }

  lemma HasOneMore(before: Chain, after: Chain, zones: seq<Name>, n: nat)
    requires n < |zones| && HasAll(before, zones, n) && KeepsZones(before, after) && Has(after, zones[n])
    ensures HasAll(after, zones, n + 1)
  {
    forall i | 0 <= i < n ensures Has(after, zones[i]) {
      assert Has(before, zones[i]);
    }
  }

  // ---- replies ----

  datatype Reply = Failed | Garbled | Reply(answers: seq<Record>, authorities: seq<Record>)

  /** The DNSKEY records of a zone, in order. */
  function KeyRecords(zone: Name, records: seq<Record>): seq<Record> {
    if records == [] then []
    else
      var last, rest := records[|records| - 1], KeyRecords(zone, records[..|records| - 1]);
      if last.owner == zone && last.data.DnskeyData? then rest + [last] else rest
  }

  /** The DS records of a zone, in order. */
  function DsRecords(zone: Name, records: seq<Record>): seq<Record> {
    if records == [] then []
    else
      var last, rest := records[|records| - 1], DsRecords(zone, records[..|records| - 1]);
      if last.owner == zone && last.data.DsData? then rest + [last] else rest
  }

  lemma {:induction false} DsRecordsHas(zone: Name, records: seq<Record>)
    ensures forall r :: r in DsRecords(zone, records) <==> r in records && r.owner == zone && r.data.DsData?
  {
    if records != [] { DsRecordsHas(zone, records[..|records| - 1]); }
  }

  /** The last signature at the zone covering the type, or else the one found before. */
  function LastSig(zone: Name, covered: RType, records: seq<Record>, before: Option<Rrsig>): (s: Option<Rrsig>)
    ensures s != before ==> s.Some? && s.value.covered == covered
  {
    if records == [] then before
    else
      var last := records[|records| - 1];
      if last.owner == zone && last.data.SigData? && last.data.sig.covered == covered then Some(last.data.sig)
      else LastSig(zone, covered, records[..|records| - 1], before)
  }

  datatype Fetched = Fetched(records: seq<Record>, keys: seq<Key>, sig: Option<Rrsig>) {
    ghost predicate For(zone: Name) {
      KeySet(records, zone, keys) && (sig.Some? ==> sig.value.covered == DNSKEY)
    }
  }

  /** The key set a reply gives for the zone: its DNSKEY records in order and the last signature over them. */
  ghost predicate GatheredFrom(f: Fetched, zone: Name, answers: seq<Record>) {
    f.For(zone) && f.records == KeyRecords(zone, answers) && f.sig == LastSig(zone, DNSKEY, answers, None)
  }

  lemma SameKeys(records: seq<Record>, zone: Name, a: seq<Key>, b: seq<Key>)
    requires KeySet(records, zone, a) && KeySet(records, zone, b)
    ensures a == b
  {
    forall i | 0 <= i < |a| ensures a[i] == b[i] { assert records[i].data == DnskeyData(a[i]); }
  }

  /** Asking from position `from` on, `n` servers fail and then one is heard or none is left. */
  ghost predicate HeardAfter(reply: nat -> Reply, from: nat, servers: nat, n: nat) {
    && n <= servers && (forall p :: from <= p < from + n ==> reply(p).Failed?)
    && (n < servers ==> !reply(from + n).Failed?)
  }

  /** How many servers fail before one is heard. */
  ghost function FirstHeard(reply: nat -> Reply, from: nat, servers: nat): (n: nat)
    ensures HeardAfter(reply, from, servers, n)
  {
    SomeHeard(reply, from, servers);
    var n: nat :| HeardAfter(reply, from, servers, n);
    n
  }

  lemma {:induction false} SomeHeard(reply: nat -> Reply, from: nat, servers: nat)
    ensures exists n: nat :: HeardAfter(reply, from, servers, n)
  {
    for n := 0 to servers
      invariant forall p :: from <= p < from + n ==> reply(p).Failed?
    {
      if !reply(from + n).Failed? {
        assert HeardAfter(reply, from, servers, n);
        return;
      }
    }
    assert HeardAfter(reply, from, servers, servers);
  }

  lemma {:induction false} HeardAt(reply: nat -> Reply, from: nat, servers: nat, n: nat)
    requires HeardAfter(reply, from, servers, n)
    ensures FirstHeard(reply, from, servers) == n
  {
    var m := FirstHeard(reply, from, servers);
    assert from <= from + m && from <= from + n;
  }

  /** The first server heard gave this key set for the zone. */
  ghost predicate Heard(reply: nat -> Reply, from: nat, servers: nat, zone: Name, f: Fetched) {
    var n := FirstHeard(reply, from, servers);
    n < servers && reply(from + n).Reply? && GatheredFrom(f, zone, reply(from + n).answers)
  }

  /** The first server heard gave something readable. */
  ghost predicate HeardReadable(reply: nat -> Reply, from: nat, servers: nat) {
    var n := FirstHeard(reply, from, servers);
    n < servers && reply(from + n).Reply?
  }

  /** DS records and their signature, gathered from replies. */
  datatype DsSet = DsSet(ds: seq<Record>, sig: Option<Rrsig>) {
    predicate Complete() { ds != [] && sig.Some? }
  }

  /** What the first `n` servers asked give: each readable reply adds to it, until it is complete. */
  function DsUpTo(reply: nat -> Reply, from: nat, zone: Name, n: nat): DsSet {
    if n == 0 then DsSet([], None)
    else
      var d := DsUpTo(reply, from, zone, n - 1);
      if d.Complete() then d else Added(zone, d, reply(from + n - 1))
  }

  /** The DS set with what a reply adds to it. */
  function Added(zone: Name, d: DsSet, r: Reply): DsSet {
    if !r.Reply? then d
    else DsSet(d.ds + DsRecords(zone, r.answers + r.authorities), LastSig(zone, DS, r.answers + r.authorities, d.sig))
  }

  /** Only DS records of the zone, and a signature over DS. */
  ghost predicate DsOf(zone: Name, d: DsSet) {
    (forall r :: r in d.ds ==> r.owner == zone && r.data.DsData?) && (d.sig.Some? ==> d.sig.value.covered == DS)
  }

  lemma AddedIsOf(zone: Name, d: DsSet, r: Reply)
    requires DsOf(zone, d)
    ensures DsOf(zone, Added(zone, d, r))
  {
    if r.Reply? { DsRecordsHas(zone, r.answers + r.authorities); }
  }

  lemma {:induction false} CompleteStays(reply: nat -> Reply, from: nat, zone: Name, n: nat, m: nat)
    requires n <= m && DsUpTo(reply, from, zone, n).Complete()
    ensures DsUpTo(reply, from, zone, m) == DsUpTo(reply, from, zone, n)
    decreases m
  {
    if n < m { CompleteStays(reply, from, zone, n, m - 1); }
  }

  /** How many servers are asked for the DS set. */
  function DsAsked(reply: nat -> Reply, from: nat, zone: Name, servers: nat): (n: nat)
    ensures n <= servers
  {
    if servers == 0 then 0
    else
      var n := DsAsked(reply, from, zone, servers - 1);
      if n < servers - 1 || DsUpTo(reply, from, zone, n).Complete() then n else servers
  }

  lemma {:induction false} AskedAt(reply: nat -> Reply, from: nat, zone: Name, servers: nat, n: nat)
    requires n <= servers && (forall i :: 0 <= i < n ==> !DsUpTo(reply, from, zone, i).Complete())
    requires n < servers ==> DsUpTo(reply, from, zone, n).Complete()
    ensures DsAsked(reply, from, zone, servers) == n
    decreases servers
  {
    if servers > 0 { AskedAt(reply, from, zone, servers - 1, Min(n, servers - 1)); }
  }

  method CollectDnskeys(zone: Name, answers: seq<Record>) returns (f: Fetched)
    ensures f.For(zone) && f.records == KeyRecords(zone, answers) && f.sig == LastSig(zone, DNSKEY, answers, None)
  {
    var records, keys: seq<Key>, sig := [], [], None;
    for i := 0 to |answers|
      invariant records == KeyRecords(zone, answers[..i]) && KeySet(records, zone, keys)
      invariant sig == LastSig(zone, DNSKEY, answers[..i], None)
    {
      assert answers[..i + 1][..i] == answers[..i];
      var r := answers[i];
      if r.owner == zone {
        match r.data {
          case DnskeyData(k) =>
            records, keys := records + [r], keys + [k];
          case SigData(s) =>
            if s.covered == DNSKEY { sig := Some(s); }
          case _ =>
        }
      }
    }
    assert answers[..|answers|] == answers;
    return Fetched(records, keys, sig);
  }

  method CollectDs(zone: Name, records: seq<Record>, ds0: seq<Record>, sig0: Option<Rrsig>)
    returns (ds: seq<Record>, sig: Option<Rrsig>)
    ensures ds == ds0 + DsRecords(zone, records) && sig == LastSig(zone, DS, records, sig0)
  {
    ds, sig := ds0, sig0;
    for i := 0 to |records|
      invariant ds == ds0 + DsRecords(zone, records[..i]) && sig == LastSig(zone, DS, records[..i], sig0)
    {
      assert records[..i + 1][..i] == records[..i];
      var r := records[i];
      if r.owner == zone {
        match r.data {
          case DsData(_) => ds := ds + [r];
          case SigData(s) => if s.covered == DS { sig := Some(s); }
          case _ =>
        }
      }
    }
    assert records[..|records|] == records;
  }

  /** Smallest TTL of the set, or the minimum cache time for an empty set. */
  function MinTtl(records: seq<Record>): (ttl: nat)
    ensures forall r :: r in records ==> ttl <= r.ttl
    ensures records != [] ==> exists r :: r in records && r.ttl == ttl
  {
    if records == [] then MIN_POSITIVE_TTL
    else if |records| == 1 then records[0].ttl
    else
      var rest := MinTtl(records[1..]);
      if records[0].ttl < rest then records[0].ttl else rest
  }

  function FirstSig(sigs: seq<Rrsig>, covered: RType): (s: Option<Rrsig>)
    ensures s.Some? ==> s.value in sigs && s.value.covered == covered
    ensures s.None? ==> forall x :: x in sigs ==> x.covered != covered
  {
    if sigs == [] then None else if sigs[0].covered == covered then Some(sigs[0]) else FirstSig(sigs[1..], covered)
  }

  // ---- the walk's steps ----

  type Ip = string
  datatype Step = Step(zone: Name, ds: seq<Record>, dsSigs: seq<Rrsig>, ips: seq<Ip>)

  datatype StepKeys = Unknown | Cached(keys: seq<Key>) | Negative | FetchFailed | Fresh(fetched: Fetched)

  /** Why a step is believed: who signed its DS set, when, and the derivation of the zone's key set. */
  datatype Evidence = Evidence(parent: Derivation, sig: Rrsig, now: int, child: Derivation)

  /** The step's DS set is signed by a derived key above it and matches a derived key set of the zone. */
  ghost predicate Supports(t: Trust, step: Step, e: Evidence) {
    && DsSigned(t, step.zone, step.ds, e.parent, e.sig, e.now)
    && Holds(t, e.child) && e.child.zone == step.zone && t.Matches(step.zone, step.ds, e.child.keys)
  }

  ghost predicate Proven(t: Trust, step: Step) { exists e :: Supports(t, step, e) }

  ghost predicate Usable(t: Trust, step: Step, s: StepKeys) {
    match s
    case Cached(keys) => Derivable(t, step.zone, keys) && t.Matches(step.zone, step.ds, keys)
    case Fresh(f) => f.For(step.zone)
    case _ => true
  }

  ghost predicate AllUsable(t: Trust, steps: seq<Step>, states: seq<StepKeys>) {
    |states| <= |steps| && forall i :: 0 <= i < |states| ==> Usable(t, steps[i], states[i])
  }

  lemma AppendUsable(t: Trust, steps: seq<Step>, states: seq<StepKeys>, s: StepKeys)
    requires AllUsable(t, steps, states) && |states| < |steps| && Usable(t, steps[|states|], s)
    ensures AllUsable(t, steps, states + [s])
  {}

  lemma Promote(t: Trust, chain: Chain, step: Step, keys: seq<Key>)
    requires Sound(t, chain) && DsTrusted(t, step.zone, step.ds)
    requires Derivable(t, step.zone, keys) && t.Matches(step.zone, step.ds, keys)
    ensures var after := chain + [Entry(step.zone, keys)];
            Sound(t, after) && Has(after, step.zone) && Proven(t, step)
  {
    AppendedKeeps(t, chain, step.zone, keys);
    var parent, sig, now :| DsSigned(t, step.zone, step.ds, parent, sig, now);
    var child :| Derives(t, child, step.zone, keys);
    assert Supports(t, step, Evidence(parent, sig, now, child));
  }

  ghost predicate ProvenUpTo(t: Trust, steps: seq<Step>, n: nat) requires n <= |steps| {
    n == 0 || (Proven(t, steps[n - 1]) && ProvenUpTo(t, steps, n - 1))
  }

  function ZonesUpTo(steps: seq<Step>, n: nat): (zones: seq<Name>)
    requires n <= |steps|
    ensures |zones| == n && forall i :: 0 <= i < n ==> zones[i] == steps[i].zone
  {
    if n == 0 then [] else ZonesUpTo(steps, n - 1) + [steps[n - 1].zone]
  }

  /** The zones are those of the first `n` steps, and each of these steps is proven. */
  ghost predicate FirstZones(t: Trust, steps: seq<Step>, zones: seq<Name>, n: nat) {
    n <= |steps| && zones == ZonesUpTo(steps, n) && ProvenUpTo(t, steps, n)
  }

  ghost predicate ZonesOf(t: Trust, steps: seq<Step>, zones: seq<Name>) { FirstZones(t, steps, zones, |zones|) }

  /**
   Every RRset of the answer is attested, by a zone at or above its owner if the signers are, and an
   answer without RRsets is a proven absence.
   */
  ghost predicate Answered(t: Trust, lib: HashLib, resp: Response, q: Name, qtype: RType) {
    && AllAttested(t, resp.answers) && (SignersAbove(resp.answers) ==> AllAttestedAbove(t, resp.answers))
    && (NoSets(resp.answers) ==> ProvenAbsent(t, lib, resp, q, qtype))
  }

  /** What the DS set of a step must meet: a signature over it, in time, by one of the closest trusted keys. */
  ghost predicate DsPasses(t: Trust, chain: Chain, step: Step, now: int) {
    var sig := FirstSig(step.dsSigs, DS);
    step.ds != [] && sig.Some? && Timely(sig.value, now) && ClosestSigned(t, chain, step.zone, step.ds, sig.value)
  }

  /** What a fetched key set must meet: signed in time by one of its own keys, one of them matching the DS set. */
  ghost predicate KeysPass(t: Trust, zone: Name, ds: seq<Record>, f: Fetched, now: int) {
    f.sig.Some? && Timely(f.sig.value, now) && t.Signed(f.records, f.sig.value, f.keys) && t.Matches(zone, ds, f.keys)
  }

  /** What a step must meet, its DS set checked at reading `n` of the clock. */
  ghost predicate StepPasses(t: Trust, clock: nat -> int, chain: Chain, step: Step, state: StepKeys, n: nat) {
    && DsPasses(t, chain, step, clock(n))
    && (state.Cached? || (state.Fresh? && KeysPass(t, step.zone, step.ds, state.fetched, clock(n + 1))))
  }

  /** The keys a step brings into the chain. */
  function KeysOf(s: StepKeys): seq<Key> {
    match s
    case Cached(keys) => keys
    case Fresh(f) => f.keys
    case _ => []
  }

  /** The chain once the first `i` steps are promoted. */
  function ChainUpTo(chain: Chain, steps: seq<Step>, states: seq<StepKeys>, i: nat): Chain
    requires i <= |steps| == |states|
  {
    if i == 0 then chain
    else ChainUpTo(chain, steps, states, i - 1) + [Entry(steps[i - 1].zone, KeysOf(states[i - 1]))]
  }

  /** Step `i` meets every check under the keys of those before it, whenever the clock is read. */
  ghost predicate PassesAt(t: Trust, clock: nat -> int, chain: Chain, steps: seq<Step>, states: seq<StepKeys>, i: nat)
    requires i < |steps| == |states|
  {
    && KnowsSigner(ChainUpTo(chain, steps, states, i), steps[i])
    && forall n: nat :: StepPasses(t, clock, ChainUpTo(chain, steps, states, i), steps[i], states[i], n)
  }

  /** So do all of them. */
  ghost predicate StepsPass(t: Trust, clock: nat -> int, chain: Chain, steps: seq<Step>, states: seq<StepKeys>) {
    |steps| == |states| &&
    forall i: nat {:trigger PassesAt(t, clock, chain, steps, states, i)} ::
      i < |steps| ==> PassesAt(t, clock, chain, steps, states, i)
  }

  lemma PassesNow(t: Trust, clock: nat -> int, chain: Chain, steps: seq<Step>, states: seq<StepKeys>, i: nat, n: nat)
    requires StepsPass(t, clock, chain, steps, states) && i < |steps|
    ensures var before := ChainUpTo(chain, steps, states, i);
            KnowsSigner(before, steps[i]) == true && StepPasses(t, clock, before, steps[i], states[i], n) == true
  {
    assert PassesAt(t, clock, chain, steps, states, i);
  }

  /** The chain has an entry for every signer of the records. */
  ghost predicate KnowsAll(chain: Chain, records: seq<Record>) {
    forall r :: r in records && r.data.SigData? ==> Has(chain, r.data.sig.signer)
  }

  lemma SomethingNeeded(chain: Chain, records: seq<Record>, needed: seq<Name>)
    requires needed != [] && forall z :: z in needed ==> !Has(chain, z) && IsSigner(records, z)
    ensures !KnowsAll(chain, records)
  {
    assert !Has(chain, needed[0]) && IsSigner(records, needed[0]);
  }

  /** What a response comes to under a chain that has all its signers' keys. */
  ghost predicate Decided(t: Trust, lib: HashLib, chain: Chain, resp: Response, q: Name, qtype: RType,
                          clock: nat -> int,
                          s: Status) {
    if NoSets(resp.answers) then
      DenialsPass(t, chain, resp.authorities, NSEC, clock) && DenialsPass(t, chain, resp.authorities, NSEC3, clock) ==>
        if HasDenials(resp, NSEC) || HasDenials(resp, NSEC3) then DenialGives(t, lib, resp, q, qtype, s)
        else s == Denial.Insecure
    else AnswersPass(t, chain, resp.answers, clock) ==> s == Denial.Secure
  }

  lemma SecureAnswered(t: Trust, lib: HashLib, resp: Response, q: Name, qtype: RType)
    requires AllAttested(t, resp.answers) == true
    requires NoSets(resp.answers) ==> ProvenAbsent(t, lib, resp, q, qtype) == true
    ensures Answered(t, lib, resp, q, qtype)
  {
    if SignersAbove(resp.answers) { AttestedFromAbove(t, resp.answers); }
  }

  /** The readings of the clock from one on. */
  function From(clock: nat -> int, from: nat): nat -> int { (n: nat) => clock(from + n) }

  /** What passes at every reading of the clock passes at every later one. */
  lemma DecidedLater(t: Trust, lib: HashLib, chain: Chain, resp: Response, q: Name, qtype: RType, clock: nat -> int,
                     from: nat, s: Status)
    requires Judged(t, lib, chain, resp, q, qtype, From(clock, from), s) == true
    ensures Decided(t, lib, chain, resp, q, qtype, clock, s)
  {
    var later := From(clock, from);
    assert forall n: nat :: later(n) == clock(from + n);
    if AnswersPass(t, chain, resp.answers, clock) { assert AnswersPass(t, chain, resp.answers, later); }
    forall rtype | DenialsPass(t, chain, resp.authorities, rtype, clock)
      ensures DenialsPass(t, chain, resp.authorities, rtype, later) {}
  }

  /** A key set that one of the zone's current keys signed, in time. */
  ghost predicate Resigns(t: Trust, chain: Chain, zone: Name, f: Fetched, now: int) {
    f.sig.Some? && Timely(f.sig.value, now) && t.Signed(f.records, f.sig.value, KeysFor(chain, zone))
  }

  /** The DS set is complete and one of the closest trusted keys signed it, in time. */
  ghost predicate DsSetPasses(t: Trust, chain: Chain, zone: Name, d: DsSet, now: int) {
    d.Complete() && Timely(d.sig.value, now) && ClosestSigned(t, chain, zone, d.ds, d.sig.value)
  }

  lemma DsPassesIff(t: Trust, chain: Chain, zone: Name, keys: seq<Key>, d: DsSet, now: int)
    requires ClosestKeys(chain, zone, keys)
    ensures DsSetPasses(t, chain, zone, d, now) <==>
              d.Complete() && Timely(d.sig.value, now) && t.Signed(d.ds, d.sig.value, keys)
  {
    if d.sig.Some? { ClosestSignedIff(t, chain, zone, keys, d.ds, d.sig.value); }
  }

  /** The signer of the step's DS set needs no filling in. */
  predicate KnowsSigner(chain: Chain, step: Step) {
    var sig := FirstSig(step.dsSigs, DS);
    sig.Some? ==> Has(chain, sig.value.signer)
  }

  /** No signature over the step's DS set, or one out of time or made by none of the closest keys. */
  ghost predicate DsUnsigned(t: Trust, chain: Chain, step: Step, now: int) {
    var sig := FirstSig(step.dsSigs, DS);
    || sig.None? || !Timely(sig.value, now)
    || exists keys :: ClosestKeys(chain, step.zone, keys) && !t.Signed(step.ds, sig.value, keys)
  }

  datatype StepResult = Promoted | Stopped(status: Status)

  /** Replies, clock readings and other validations' cache writes, by position in the run. */
  datatype Env = Env(reply: nat -> Reply, clock: nat -> int, others: nat -> seq<CacheOp>)

  class Validator {
    const trust: Trust
    const env: Env
    const cache: Cache
    var tick: nat

    ghost predicate Valid()
      reads this, cache
    {
      cache.Valid(trust) && forall n :: Legal(trust, env.others(n))
    }

    constructor (trust: Trust, env: Env, cache: Cache)
      requires cache.Valid(trust) && forall n :: Legal(trust, env.others(n))
      ensures Valid() && this.trust == trust && this.cache == cache
    {
      this.trust, this.env, this.cache, tick := trust, env, cache, 0;
    }

    method Now() returns (now: int)
      modifies this`tick
      ensures tick == old(tick) + 1 && now == env.clock(old(tick))
    {
      now := env.clock(tick);
      tick := tick + 1;
    }

    /** One upstream query; other validations run meanwhile. */
    method Ask() returns (r: Reply)
      requires Valid()
      modifies this`tick, cache
      ensures Valid() && r == env.reply(old(tick)) && tick == old(tick) + 1
    {
      cache.Interfere(trust, env.others(tick));
      r := env.reply(tick);
      tick := tick + 1;
    }

    /** `fetch_dnskey_rrset`: the first server that answers at all decides. */
    method FetchDnskeys(zone: Name, servers: nat) returns (f: Option<Fetched>)
      requires Valid()
      modifies this`tick, cache
      ensures Valid() && (f.Some? ==> f.value.For(zone))
      ensures f.Some? <==> HeardReadable(env.reply, old(tick), servers)
      ensures f.Some? ==>
                && Heard(env.reply, old(tick), servers, zone, f.value)
                && tick == old(tick) + FirstHeard(env.reply, old(tick), servers) + 1
    {
      for i := 0 to servers
        invariant Valid() == true && tick == old(tick) + i
        invariant forall p :: old(tick) <= p < tick ==> env.reply(p).Failed?
      {
        var r := Ask();
        if !r.Failed? { HeardAt(env.reply, old(tick), servers, i); }
        match r {
          case Failed =>
          case Garbled => return None;
          case Reply(answers, _) =>
            var got := CollectDnskeys(zone, answers);
            return Some(got);
        }
      }
      HeardAt(env.reply, old(tick), servers, servers);
      return None;
    }

    /** DS records and their signature, gathered over the servers until both have been seen. */
    method FetchDs(zone: Name, servers: nat) returns (ds: seq<Record>, sig: Option<Rrsig>)
      requires Valid()
      modifies this`tick, cache
      ensures Valid() && DsOf(zone, DsSet(ds, sig))
      ensures DsSet(ds, sig) == DsUpTo(env.reply, old(tick), zone, servers)
      ensures tick == old(tick) + DsAsked(env.reply, old(tick), zone, servers)
    {
      var d := DsSet([], None);
      var i := 0;
      while i < servers && !d.Complete()
        invariant 0 <= i <= servers && Valid() && DsOf(zone, d)
        invariant tick == old(tick) + i && d == DsUpTo(env.reply, old(tick), zone, i)
        invariant forall j :: 0 <= j < i ==> !DsUpTo(env.reply, old(tick), zone, j).Complete()
        decreases servers - i
      {
        d := AskDs(zone, d);
        i := i + 1;
      }
      if i < servers { CompleteStays(env.reply, old(tick), zone, i, servers); }
      AskedAt(env.reply, old(tick), zone, servers, i);
      return d.ds, d.sig;
    }

    /** One server asked for the DS set. */
    method AskDs(zone: Name, d: DsSet) returns (after: DsSet)
      requires Valid() && DsOf(zone, d)
      modifies this`tick, cache
      ensures Valid() && DsOf(zone, after) && after == Added(zone, d, env.reply(old(tick))) && tick == old(tick) + 1
    {
      AddedIsOf(zone, d, env.reply(tick));
      after := d;
      var r := Ask();
      if r.Reply? {
        var ds, sig := CollectDs(zone, r.answers + r.authorities, d.ds, d.sig);
        after := DsSet(ds, sig);
      }
    }

    /** `splice_in_zone_dnskey`. */
    method Splice(chain: Chain, zone: Name, servers: nat) returns (ok: bool, after: Chain)
      requires Valid() && Sound(trust, chain)
      modifies this`tick, cache
      ensures Valid() && Sound(trust, after) && KeepsZones(chain, after)
      ensures if ok then Has(after, zone) else after == chain
      ensures var cached := old(cache.GetPositive(zone, env.clock(tick)));
              cached.Some? ==>
                ok && after == Replaced(chain, zone, cached.value) && unchanged(cache) && tick == old(tick) + 1
      ensures old(cache.GetPositive(zone, env.clock(tick))).None? ==>
                && (ok <==> Spliceable(chain, zone, old(tick) + 1, servers))
                && (ok ==> Spliced(chain, zone, old(tick) + 1, servers, after))
    {
      var now := Now();
      var cached := cache.GetPositive(zone, now);
      if cached.Some? {
        ReplacedKeeps(trust, chain, zone, cached.value);
        return true, Replaced(chain, zone, cached.value);
      }
      ok, after := SpliceFetched(chain, zone, servers);
    }

    /** The cache-miss half: the key set is asked for and checked. */
    method SpliceFetched(chain: Chain, zone: Name, servers: nat) returns (ok: bool, after: Chain)
      requires Valid() && Sound(trust, chain)
      modifies this`tick, cache
      ensures Valid() == true && Sound(trust, after) == true && KeepsZones(chain, after) == true
      ensures if ok then Has(after, zone) else after == chain
      ensures ok == Spliceable(chain, zone, old(tick), servers)
      ensures ok ==> Spliced(chain, zone, old(tick), servers, after) == true
    {
      ghost var from := tick;
      var f := FetchDnskeys(zone, servers);
      if f.None? {
        NotHeard(chain, zone, from, servers);
        return false, chain;
      }
      ok, after := SpliceHeard(chain, zone, from, servers, f.value);
    }

    /** The key set heard is checked and takes the place of the zone's entry. */
    method SpliceHeard(chain: Chain, zone: Name, ghost from: nat, ghost servers: nat, f: Fetched)
      returns (ok: bool, after: Chain)
      requires Valid() && Sound(trust, chain) && Heard(env.reply, from, servers, zone, f)
      requires tick == from + FirstHeard(env.reply, from, servers) + 1
      modifies this`tick, cache
      ensures Valid() == true && Sound(trust, after) == true && KeepsZones(chain, after) == true
      ensures if ok then Has(after, zone) else after == chain
      ensures ok == Spliceable(chain, zone, from, servers)
      ensures ok ==> Spliced(chain, zone, from, servers, after) == true
    {
      HeardOnce(chain, zone, from, servers, f, tick);
      ok, after := Resign(chain, zone, f);
      if ok { SplicedNow(chain, zone, from, servers, f, after, tick); }
    }

    lemma NotHeard(chain: Chain, zone: Name, from: nat, servers: nat)
      requires !HeardReadable(env.reply, from, servers)
      ensures !Spliceable(chain, zone, from, servers)
    {
      forall f ensures !HearsResigned(chain, zone, from, servers, f) {}
    }

    lemma SplicedNow(chain: Chain, zone: Name, from: nat, servers: nat, f: Fetched, after: Chain, now: nat)
      requires Heard(env.reply, from, servers, zone, f) == true && after == Replaced(chain, zone, f.keys)
      requires now == from + FirstHeard(env.reply, from, servers) + 3
      requires Resigns(trust, chain, zone, f, env.clock(now - 2)) == true && Stored(zone, f, env.clock(now - 1)) == true
      ensures Spliced(chain, zone, from, servers, after)
    {
      assert SplicedWith(chain, zone, from, servers, f, after);
    }

    ghost predicate Spliceable(chain: Chain, zone: Name, from: nat, servers: nat) {
      exists f :: HearsResigned(chain, zone, from, servers, f)
    }

    ghost predicate Spliced(chain: Chain, zone: Name, from: nat, servers: nat, after: Chain)
      reads cache
    {
      exists f :: SplicedWith(chain, zone, from, servers, f, after)
    }

    /** The set heard is the zone's entry now, and is cached. */
    ghost predicate SplicedWith(chain: Chain, zone: Name, from: nat, servers: nat, f: Fetched, after: Chain)
      reads cache
    {
      && HearsResigned(chain, zone, from, servers, f) && after == Replaced(chain, zone, f.keys)
      && Stored(zone, f, env.clock(from + FirstHeard(env.reply, from, servers) + 2))
    }

    /** The cache holds the key set for the zone with its clamped lifetime. */
    ghost predicate Stored(zone: Name, f: Fetched, now: int)
      reads cache
    {
      zone in cache.positive && cache.positive[zone] == Positive(f.keys, now + Clamp(MinTtl(f.records)))
    }

    /** The first server heard, asked from reading `from` on, gives a set that a current key of the zone signed. */
    ghost predicate HearsResigned(chain: Chain, zone: Name, from: nat, servers: nat, f: Fetched) {
      && Heard(env.reply, from, servers, zone, f)
      && Resigns(trust, chain, zone, f, env.clock(from + FirstHeard(env.reply, from, servers) + 1))
    }

    /** What was heard is one key set. */
    lemma HeardOnce(chain: Chain, zone: Name, from: nat, servers: nat, f: Fetched, at: nat)
      requires Heard(env.reply, from, servers, zone, f) && at == from + FirstHeard(env.reply, from, servers) + 1
      ensures Spliceable(chain, zone, from, servers) == Resigns(trust, chain, zone, f, env.clock(at))
    {
      assert HearsResigned(chain, zone, from, servers, f) <==> Resigns(trust, chain, zone, f, env.clock(at));
      forall g | HearsResigned(chain, zone, from, servers, g) ensures g == f {
        SameKeys(f.records, zone, f.keys, g.keys);
      }
    }

    /** The key set heard against the zone's current keys; the accepted set replaces them. */
    method Resign(chain: Chain, zone: Name, f: Fetched) returns (ok: bool, after: Chain)
      requires Valid() && Sound(trust, chain) && f.For(zone)
      modifies this`tick, cache
      ensures Valid() && Sound(trust, after) && KeepsZones(chain, after)
      ensures if ok then Has(after, zone) else after == chain
      ensures ok <==> Resigns(trust, chain, zone, f, env.clock(old(tick)))
      ensures ok ==> after == Replaced(chain, zone, f.keys) && tick == old(tick) + 2
      ensures ok ==> Stored(zone, f, env.clock(old(tick) + 1))
    {
      if f.sig.None? { return false, chain; }
      var now := Now();
      var records, keys, sig := f.records, f.keys, f.sig.value;
      if !Timely(sig, now) || !trust.Signed(records, sig, KeysFor(chain, zone)) { return false, chain; }
      DeriveResigned(trust, zone, KeysFor(chain, zone), keys, records, sig, now);
      now := Now();
      cache.PutPositive(trust, zone, keys, MinTtl(records), now);
      ReplacedKeeps(trust, chain, zone, keys);
      return true, Replaced(chain, zone, keys);
    }

    /** Fetch and check the DS set of a zone under the closest trusted keys. */
    method CheckedDs(chain: Chain, zone: Name, servers: nat) returns (ok: bool, ds: seq<Record>)
      requires Valid() && Sound(trust, chain)
      modifies this`tick, cache
      ensures Valid() == true && (ok ==> DsTrusted(trust, zone, ds))
      ensures ok <==> HearsDs(chain, zone, old(tick), servers)
      ensures ok ==> ds == DsUpTo(env.reply, old(tick), zone, servers).ds && tick == AfterDs(zone, old(tick), servers)
    {
      var keys := ClosestTrustedKeys(chain, zone);
      if keys == [] {
        NoKeysNoDs(chain, zone, tick, servers);
        return false, [];
      }
      var sig;
      ghost var from := tick;
      ds, sig := FetchDs(zone, servers);
      assert HearsDs(chain, zone, from, servers) == DsSetPasses(trust, chain, zone, DsSet(ds, sig), env.clock(tick));
      ok := SignedDs(chain, zone, keys, DsSet(ds, sig));
    }

    lemma NoKeysNoDs(chain: Chain, zone: Name, from: nat, servers: nat)
      requires ClosestKeys(chain, zone, [])
      ensures !HearsDs(chain, zone, from, servers)
    {
      var now := env.clock(from + DsAsked(env.reply, from, zone, servers));
      DsPassesIff(trust, chain, zone, [], DsUpTo(env.reply, from, zone, servers), now);
    }

    /** Whether the set is complete and, by the clock now, signed by the closest trusted keys. */
    method SignedDs(chain: Chain, zone: Name, keys: seq<Key>, d: DsSet) returns (ok: bool)
      requires Sound(trust, chain) && ClosestKeys(chain, zone, keys) && DsOf(zone, d)
      modifies this`tick
      ensures ok ==> DsTrusted(trust, zone, d.ds) && tick == old(tick) + 1
      ensures ok <==> DsSetPasses(trust, chain, zone, d, env.clock(old(tick)))
    {
      DsPassesIff(trust, chain, zone, keys, d, env.clock(tick));
      if d.ds == [] || d.sig.None? { return false; }
      var now := Now();
      ok := Timely(d.sig.value, now) && trust.Signed(d.ds, d.sig.value, keys);
      if ok { ClosestTrustDs(trust, chain, zone, keys, d.ds, d.sig.value, now); }
    }

    /** The reading of the clock after the DS set was gathered and checked. */
    ghost function AfterDs(zone: Name, from: nat,
                           servers: nat): nat { from + DsAsked(env.reply, from, zone, servers) + 1 }

    /** What the servers give, asked for the DS set from `from` on, passes under the closest trusted keys. */
    ghost predicate HearsDs(chain: Chain, zone: Name, from: nat, servers: nat) {
      DsSetPasses(trust, chain, zone, DsUpTo(env.reply, from, zone, servers),
                  env.clock(from + DsAsked(env.reply, from, zone, servers)))
    }

    /** And then the first server heard gives a key set that passes under that DS set. */
    ghost predicate HearsKeys(zone: Name, ds: seq<Record>, from: nat, servers: nat, f: Fetched) {
      && Heard(env.reply, from, servers, zone, f)
      && KeysPass(trust, zone, ds, f, env.clock(from + FirstHeard(env.reply, from, servers) + 1))
    }

    /** What it takes to fill in a zone that is not cached. */
    ghost predicate FillsIn(chain: Chain, zone: Name, from: nat, servers: nat) {
      && HearsDs(chain, zone, from, servers)
      && HeardPasses(zone, DsUpTo(env.reply, from, zone, servers).ds, AfterDs(zone, from, servers), servers)
    }

    ghost predicate HeardPasses(zone: Name, ds: seq<Record>, from: nat, servers: nat) {
      exists f :: HearsKeys(zone, ds, from, servers, f)
    }

    /** The key set of a zone whose DS set is trusted, asked for and checked. */
    method FetchAdmitted(chain: Chain, zone: Name, ds: seq<Record>, servers: nat) returns (ok: bool, after: Chain)
      requires Valid() && Sound(trust, chain) && DsTrusted(trust, zone, ds)
      modifies this`tick, cache
      ensures Valid() && Sound(trust, after) && KeepsZones(chain, after)
      ensures if ok then Has(after, zone) else after == chain
      ensures ok <==> HeardPasses(zone, ds, old(tick), servers)
    {
      ghost var from := tick;
      var f := FetchDnskeys(zone, servers);
      if f.None? { return false, chain; }
      AdmittedOnce(zone, ds, from, servers, f.value, tick);
      ok := Admit(zone, ds, f.value);
      if !ok { return false, chain; }
      ReplacedKeeps(trust, chain, zone, f.value.keys);
      return true, Replaced(chain, zone, f.value.keys);
    }

    lemma AdmittedOnce(zone: Name, ds: seq<Record>, from: nat, servers: nat, f: Fetched, at: nat)
      requires Heard(env.reply, from, servers, zone, f) && at == from + FirstHeard(env.reply, from, servers) + 1
      ensures HeardPasses(zone, ds, from, servers) <==> KeysPass(trust, zone, ds, f, env.clock(at))
    {
      assert HearsKeys(zone, ds, from, servers, f) <==> KeysPass(trust, zone, ds, f, env.clock(at));
      forall g | HearsKeys(zone, ds, from, servers, g) ensures g == f {
        SameKeys(f.records, zone, f.keys, g.keys);
      }
    }

    /** Check a key set under a trusted DS set, and cache it. */
    method Admit(zone: Name, ds: seq<Record>, f: Fetched) returns (ok: bool)
      requires Valid() && f.For(zone) && DsTrusted(trust, zone, ds)
      modifies this`tick, cache
      ensures Valid() && (ok ==> Derivable(trust, zone, f.keys) && trust.Matches(zone, ds, f.keys))
      ensures ok <==> KeysPass(trust, zone, ds, f, env.clock(old(tick)))
    {
      if f.sig.None? { return false; }
      var now := Now();
      ok := Timely(f.sig.value, now) && trust.Signed(f.records, f.sig.value, f.keys) && trust.Matches(zone, ds, f.keys);
      if ok {
        DeriveDelegated(trust, zone, ds, f.keys, f.records, f.sig.value, now);
        now := Now();
        cache.PutPositive(trust, zone, f.keys, MinTtl(f.records), now);
      }
    }

    /** One zone of `bootstrap_intermediate_zone`. */
    method BootstrapOne(chain: Chain, zone: Name, servers: nat) returns (ok: bool, after: Chain)
      requires Valid() && Sound(trust, chain)
      modifies this`tick, cache
      ensures Valid() && Sound(trust, after) && KeepsZones(chain, after)
      ensures if ok then Has(after, zone) else after == chain
      ensures var cached := old(cache.GetPositive(zone, env.clock(tick)));
              if cached.Some? then ok && after == Replaced(chain, zone, cached.value) && unchanged(cache) &&
                tick == old(tick) + 1
              else ok <==> FillsIn(chain, zone, old(tick) + 1, servers)
    {
      var now := Now();
      var cached := cache.GetPositive(zone, now);
      if cached.Some? {
        ReplacedKeeps(trust, chain, zone, cached.value);
        return true, Replaced(chain, zone, cached.value);
      }
      var ds;
      ok, ds := CheckedDs(chain, zone, servers);
      if !ok { return false, chain; }
      ok, after := FetchAdmitted(chain, zone, ds, servers);
    }

    /** Every ancestor-or-self of the name has a cached key set, whenever the clock is read. */
    ghost predicate AllCached(target: Name)
      reads cache
    {
      forall k, n: nat :: 0 <= k <= |target| ==> CachedAt(Suffix(target, k), n)
    }

    ghost predicate CachedAt(zone: Name, n: nat)
      reads cache
    {
      cache.GetPositive(zone, env.clock(n)).Some?
    }

    /** `bootstrap_intermediate_zone`: from the deepest known ancestor down to the target. */
    method Bootstrap(chain: Chain, target: Name, servers: nat) returns (ok: bool, after: Chain)
      requires Valid() && Sound(trust, chain)
      modifies this`tick, cache
      ensures Valid() && Sound(trust, after) && KeepsZones(chain, after)
      ensures ok ==> Has(after, target)
      ensures old(AllCached(target)) && (exists k :: 0 <= k <= |target| && Has(chain, Suffix(target, k))) ==> ok
    {
      after := chain;
      var depth := |target|;
      while !Has(chain, Suffix(target, depth))
        invariant 0 <= depth <= |target|
        invariant forall k :: depth < k <= |target| ==> !Has(chain, Suffix(target, k))
        decreases depth
      {
        if depth == 0 { return false, chain; }
        depth := depth - 1;
      }
      for k := depth to |target|
        invariant Valid() == true && Sound(trust, after) && KeepsZones(chain, after)
        invariant Has(after, Suffix(target, k))
        invariant old(AllCached(target)) ==> unchanged(cache)
      {
        ghost var before, n := after, tick;
        assert old(AllCached(target)) ==> old(CachedAt(Suffix(target, k + 1), n));
        ok, after := BootstrapOne(after, Suffix(target, k + 1), servers);
        KeepsTrans(chain, before, after);
        if !ok { return; }
      }
      assert Suffix(target, |target|) == target;
      ok := true;
    }

    /** The cache, read now, has a key set for the step's zone that matches its DS set. */
    ghost predicate Hit(step: Step)
      reads this, cache
    {
      var cached := cache.GetPositive(step.zone, env.clock(tick));
      cached.Some? && trust.Matches(step.zone, step.ds, cached.value)
    }

    /** The keys cached for a zone. */
    ghost function CachedKeys(zone: Name): seq<Key>
      reads cache
    {
      if zone in cache.positive then cache.positive[zone].keys else []
    }

    /** The steps' states as the cache has them. */
    ghost function CachedStates(steps: seq<Step>): (states: seq<StepKeys>)
      reads cache
      ensures |states| == |steps| && forall i :: 0 <= i < |steps| ==> states[i] == Cached(CachedKeys(steps[i].zone))
    {
      seq(|steps|, i requires 0 <= i < |steps| reads cache => Cached(CachedKeys(steps[i].zone)))
    }

    /** The cache has a key set for every step's zone that matches its DS set, whenever the clock is read. */
    ghost predicate AllHit(steps: seq<Step>)
      reads cache
    {
      forall i, n: nat :: 0 <= i < |steps| ==> HitAt(steps[i], n)
    }

    ghost predicate HitAt(step: Step, n: nat)
      reads cache
    {
      cache.GetPositive(step.zone, env.clock(n)).Some? && trust.Matches(step.zone, step.ds, CachedKeys(step.zone))
    }

    /** The cache half of prefetching one step; `Unknown` if the cache does not decide. */
    method Lookup(step: Step) returns (s: StepKeys)
      requires Valid()
      modifies this`tick, cache
      ensures Valid() && Usable(trust, step, s)
      ensures old(Hit(step)) ==> s == Cached(old(cache.GetPositive(step.zone, env.clock(tick))).value)
      ensures old(Hit(step)) ==> unchanged(cache)
      ensures !old(Hit(step)) ==> s == if old(cache.HasNegative(step.zone, env.clock(tick + 1))) then Negative
              else Unknown
    {
      var now := Now();
      var cached := cache.GetPositive(step.zone, now);
      if cached.Some? {
        if trust.Matches(step.zone, step.ds, cached.value) { return Cached(cached.value); }
        cache.InvalidatePositive(trust, step.zone);
      }
      now := Now();
      return if cache.HasNegative(step.zone, now) then Negative else Unknown;
    }

    method FetchStep(step: Step) returns (s: StepKeys)
      requires Valid()
      modifies this`tick, cache
      ensures Valid() && Usable(trust, step, s) && !s.Unknown?
      ensures if HeardReadable(env.reply, old(tick), |step.ips|)
              then s.Fresh? && Heard(env.reply, old(tick), |step.ips|, step.zone, s.fetched) else s == FetchFailed
    {
      var f := FetchDnskeys(step.zone, |step.ips|);
      if f.Some? { return Fresh(f.value); }
      var now := Now();
      cache.PutNegative(trust, step.zone, now);
      return FetchFailed;
    }

    /** The lookup for one of the steps. */
    method LookupAt(steps: seq<Step>, i: nat) returns (s: StepKeys)
      requires Valid() && i < |steps|
      modifies this`tick, cache
      ensures Valid() && Usable(trust, steps[i], s) && (old(Hit(steps[i])) ==> s.Cached?)
      ensures old(AllHit(steps)) ==> s == old(CachedStates(steps))[i] && unchanged(cache)
    {
      assert AllHit(steps) ==> HitAt(steps[i], tick);
      s := Lookup(steps[i]);
    }

    method LookupAll(steps: seq<Step>) returns (known: seq<StepKeys>)
      requires Valid()
      modifies this`tick, cache
      ensures Valid() == true && |known| == |steps| && AllUsable(trust, steps, known) == true
      ensures steps != [] && old(Hit(steps[0])) ==> known[0].Cached?
      ensures old(AllHit(steps)) ==> known == old(CachedStates(steps)) && unchanged(cache)
    {
      known := [];
      for i := 0 to |steps|
        invariant Valid() == true && |known| == i && AllUsable(trust, steps, known) == true
        invariant i == 0 ==> unchanged(cache) && tick == old(tick)
        invariant i > 0 && old(Hit(steps[0])) ==> known[0].Cached?
        invariant old(AllHit(steps)) ==> unchanged(cache)
        invariant old(AllHit(steps)) ==> forall j :: 0 <= j < i ==> known[j] == old(CachedStates(steps))[j]
      {
        var s := LookupAt(steps, i);
        AppendUsable(trust, steps, known, s);
        known := known + [s];
      }
    }

    /** `prefetch_step_dnskeys`: all cache lookups come before the first reply; the fetches end in any order. */
    method Prefetch(steps: seq<Step>) returns (states: seq<StepKeys>)
      requires Valid()
      modifies this`tick, cache
      ensures Valid() && |states| == |steps| && AllUsable(trust, steps, states)
      ensures forall i :: 0 <= i < |states| ==> !states[i].Unknown?
      ensures steps != [] && old(Hit(steps[0])) ==> states[0].Cached?
      ensures old(AllHit(steps)) ==> states == old(CachedStates(steps))
    {
      var known := LookupAll(steps);
      states := FetchUnknown(steps, known);
    }

    method FetchUnknown(steps: seq<Step>, known: seq<StepKeys>) returns (states: seq<StepKeys>)
      requires Valid() && |known| == |steps| && AllUsable(trust, steps, known)
      modifies this`tick, cache
      ensures Valid() && |states| == |steps| && AllUsable(trust, steps, states)
      ensures forall i :: 0 <= i < |states| ==> if known[i].Unknown? then !states[i].Unknown? else states[i] == known[i]
      ensures (forall i :: 0 <= i < |known| ==> !known[i].Unknown?) ==> states == known
    {
      states := known;
      var todo := set i | 0 <= i < |steps| && known[i].Unknown?;
      while todo != {}
        invariant Valid() && |states| == |steps| && AllUsable(trust, steps, states)
        invariant forall i :: i in todo ==> 0 <= i < |steps| && known[i].Unknown?
        invariant forall i :: 0 <= i < |steps| && i !in todo ==>
                    if known[i].Unknown? then !states[i].Unknown? else states[i] == known[i]
        decreases todo
      {
        var i :| i in todo;
        var s := FetchStep(steps[i]);
        states := states[i := s];
        todo := todo - {i};
      }
    }

    /** The zone that signed the step's DS set gets its keys before they are needed. */
    method EnsureSigner(chain: Chain, step: Step, rootServers: nat) returns (ok: bool, after: Chain)
      requires Valid() && Sound(trust, chain)
      modifies this`tick, cache
      ensures Valid() && Sound(trust, after)
      ensures KnowsSigner(chain, step) ==> ok && after == chain && tick == old(tick)
    {
      var sig := FirstSig(step.dsSigs, DS);
      if sig.Some? && !Has(chain, sig.value.signer) {
        ok, after := Bootstrap(chain, sig.value.signer, rootServers);
      } else {
        ok, after := true, chain;
      }
    }

    /** The DS checks of one step, before its keys are looked at. */
    method CheckStepDs(chain: Chain, step: Step) returns (r: StepResult)
      requires Valid() && Sound(trust, chain)
      modifies this`tick
      ensures Valid() && (r.Promoted? ==> DsTrusted(trust, step.zone, step.ds)) &&
              (r.Stopped? ==> r.status != Denial.Secure)
      ensures r == Stopped(Denial.Insecure) ==> step.ds == [] || OutOfReach(chain, step.zone)
      ensures r == Stopped(Denial.Bogus) ==> step.ds != [] && DsUnsigned(trust, chain, step, env.clock(old(tick)))
      ensures step.ds == [] ==> r == Stopped(Denial.Insecure)
      ensures (r.Promoted? <==> DsPasses(trust, chain, step, env.clock(old(tick)))) &&
              (r.Promoted? ==> tick == old(tick) + 1)
    {
      var keys := ClosestTrustedKeys(chain, step.zone);
      if FirstSig(step.dsSigs, DS).Some? {
        ClosestSignedIff(trust, chain, step.zone, keys, step.ds, FirstSig(step.dsSigs, DS).value);
      }
      if keys == [] {
        NoKeysOutOfReach(trust, chain, step.zone);
        return Stopped(Denial.Insecure);
      }
      if step.ds == [] { return Stopped(Denial.Insecure); }
      var sig := FirstSig(step.dsSigs, DS);
      if sig.None? { return Stopped(Denial.Bogus); }
      var now := Now();
      if !Timely(sig.value, now) || !trust.Signed(step.ds, sig.value, keys) { return Stopped(Denial.Bogus); }
      ClosestTrustDs(trust, chain, step.zone, keys, step.ds, sig.value, now);
      return Promoted;
    }

    /** The step's key set, cached or fresh, once its DS set is trusted. */
    method StepKeySet(step: Step, state: StepKeys) returns (r: StepResult, keys: seq<Key>)
      requires Valid() && DsTrusted(trust, step.zone, step.ds) && Usable(trust, step, state)
      modifies this`tick, cache
      ensures Valid() && (r.Stopped? ==> r.status != Denial.Secure)
      ensures r.Promoted? ==> Derivable(trust, step.zone, keys) && trust.Matches(step.zone, step.ds, keys)
      ensures r.Promoted? ==> (state.Cached? || state.Fresh?) && keys == KeysOf(state)
      ensures state.Cached? ==> r == Promoted && keys == state.keys
      ensures state.Fresh? ==> (r == Promoted <==>
              KeysPass(trust, step.zone, step.ds, state.fetched, env.clock(old(tick))))
      ensures r == Stopped(Denial.Bogus) ==> state.Fresh?
      ensures r == Stopped(Denial.Insecure) ==> state.Negative? || state.FetchFailed? || state.Unknown?
    {
      match state {
        case Unknown => return Stopped(Denial.Insecure), [];
        case Negative => return Stopped(Denial.Insecure), [];
        case FetchFailed => return Stopped(Denial.Insecure), [];
        case Cached(cached) => return Promoted, cached;
        case Fresh(f) =>
          if f.keys == [] { return Stopped(Denial.Bogus), []; }
          var ok := Admit(step.zone, step.ds, f);
          return if ok then Promoted else Stopped(Denial.Bogus), f.keys;
      }
    }

    /** All checks of one step, the signer of its DS set being known or filled in. */
    method CheckStep(chain: Chain, step: Step, state: StepKeys) returns (r: StepResult, keys: seq<Key>)
      requires Valid() && Sound(trust, chain) && Usable(trust, step, state)
      modifies this`tick, cache
      ensures Valid() && (r.Stopped? ==> r.status != Denial.Secure) && (step.ds == [] ==> r == Stopped(Denial.Insecure))
      ensures r.Promoted? ==> DsTrusted(trust, step.zone, step.ds)
      ensures r.Promoted? ==> Derivable(trust, step.zone, keys) && trust.Matches(step.zone, step.ds, keys)
      ensures r.Promoted? ==> keys == KeysOf(state)
      ensures r.Promoted? <==> StepPasses(trust, env.clock, chain, step, state, old(tick))
    {
      keys := [];
      r := CheckStepDs(chain, step);
      if r.Stopped? { return; }
      r, keys := StepKeySet(step, state);
    }

    /** One round of the loop over the walk's steps. */
    method VerifyStep(chain: Chain, step: Step, state: StepKeys, rootServers: nat) returns (r: StepResult, after: Chain)
      requires Valid() && Sound(trust, chain) && Usable(trust, step, state)
      modifies this`tick, cache
      ensures Valid() && Sound(trust, after)
      ensures r.Promoted? ==> Proven(trust, step) && Has(after, step.zone)
      ensures r.Stopped? ==> r.status != Denial.Secure
      ensures step.ds == [] ==> r == Stopped(Denial.Insecure)
      ensures KnowsSigner(chain, step) && r.Promoted? ==> after == chain + [Entry(step.zone, KeysOf(state))]
      ensures KnowsSigner(chain, step) ==>
              (r.Promoted? <==> StepPasses(trust, env.clock, chain, step, state, old(tick)))
    {
      var ok;
      ok, after := EnsureSigner(chain, step, rootServers);
      if !ok { return Stopped(Denial.Insecure), after; }
      var keys;
      r, keys := CheckStep(after, step, state);
      if r.Stopped? { return; }
      Promote(trust, after, step, keys);
      after := after + [Entry(step.zone, keys)];
    }

    /** The loop over the walk's steps: how many were promoted, and why it stopped if it did. */
    method VerifySteps(chain: Chain, steps: seq<Step>, states: seq<StepKeys>, rootServers: nat)
      returns (r: StepResult, after: Chain, validated: seq<Name>)
      requires Valid() && Sound(trust, chain) && |states| == |steps| && AllUsable(trust, steps, states)
      modifies this`tick, cache
      ensures Valid() == true && Sound(trust, after) == true && ZonesOf(trust, steps, validated) == true
      ensures if r.Promoted? then |validated| == |steps| else |validated| < |steps| && r.status != Denial.Secure
      ensures r.Stopped? && steps[|validated|].ds == [] ==> r.status == Denial.Insecure
      ensures steps != [] && KnowsSigner(chain, steps[0]) ==>
                (validated != [] <==> StepPasses(trust, env.clock, chain, steps[0], states[0], old(tick)))
      ensures StepsPass(trust, env.clock, chain, steps, states) ==>
                r.Promoted? && after == ChainUpTo(chain, steps, states, |steps|)
    {
      after, validated := chain, [];
      for i := 0 to |steps|
        invariant Valid() == true && Sound(trust, after) == true && FirstZones(trust, steps, validated, i)
        invariant i == 0 ==> tick == old(tick) && after == chain
        invariant StepsPass(trust, env.clock, chain, steps, states) ==> after == ChainUpTo(chain, steps, states, i)
        invariant i > 0 && KnowsSigner(chain, steps[0]) ==>
                    StepPasses(trust, env.clock, chain, steps[0], states[0], old(tick)) == true
      {
        if StepsPass(trust, env.clock, chain, steps, states) {
          PassesNow(trust, env.clock, chain, steps, states, i, tick);
        }
        r, after := VerifyStep(after, steps[i], states[i], rootServers);
        if r.Stopped? { return; }
        validated := validated + [steps[i].zone];
      }
      r := Promoted;
    }

    method BootstrapAll(chain: Chain, needed: seq<Name>, rootServers: nat) returns (ok: bool, after: Chain)
      requires Valid() && Sound(trust, chain)
      modifies this`tick, cache
      ensures Valid() && Sound(trust, after) && (ok ==> HasAll(after, needed, |needed|))
      ensures needed == [] ==> ok && after == chain
    {
      after := chain;
      for i := 0 to |needed|
        invariant Valid() && Sound(trust, after) && HasAll(after, needed, i) && (i == 0 ==> after == chain)
      {
        ghost var before := after;
        ok, after := Bootstrap(after, needed[i], rootServers);
        if !ok { return; }
        HasOneMore(before, after, needed, i);
      }
      ok := true;
    }

    /** The answer stage: every signer gets its keys, then the response is checked. */
    method CheckAnswer(chain: Chain, lib: HashLib, resp: Response, q: Name, qtype: RType, rootServers: nat)
      returns (s: Status)
      requires Valid() && Sound(trust, chain)
      modifies this`tick, cache
      ensures Valid() && (s == Denial.Secure ==> Answered(trust, lib, resp, q, qtype))
      ensures KnowsAll(chain, resp.answers + resp.authorities) ==>
              Decided(trust, lib, chain, resp, q, qtype, env.clock, s)
    {
      var needed := UnknownSigners(chain, resp.answers + resp.authorities);
      if needed != [] { SomethingNeeded(chain, resp.answers + resp.authorities, needed); }
      var ok, after := BootstrapAll(chain, needed, rootServers);
      if !ok { return Denial.Insecure; }
      s := CheckKnown(after, lib, resp, q, qtype);
    }

    /** The response under the chain, the clock read from here on. */
    method CheckKnown(chain: Chain, lib: HashLib, resp: Response, q: Name, qtype: RType) returns (s: Status)
      requires Sound(trust, chain)
      ensures s == Denial.Secure ==> Answered(trust, lib, resp, q, qtype) == true
      ensures Decided(trust, lib, chain, resp, q, qtype, env.clock, s) == true
    {
      s := CheckResponse(trust, lib, chain, resp, q, qtype, From(env.clock, tick));
      DecidedLater(trust, lib, chain, resp, q, qtype, env.clock, tick, s);
      if s == Denial.Secure { SecureAnswered(trust, lib, resp, q, qtype); }
    }

    /** The chain a validation starts with: the anchors, the root's entry replaced by its checked key set. */
    method StartChain(anchors: seq<(Name, Key)>, rootServers: nat) returns (stop: Option<Status>, chain: Chain)
      requires Valid() && forall a :: a in anchors ==> a in trust.anchors
      modifies this`tick, cache
      ensures Valid() && Sound(trust, chain)
      ensures if stop.Some? then stop.value != Denial.Secure else anchors != []
      ensures var root := old(cache.GetPositive([], env.clock(tick)));
              root.Some? && anchors != [] && (forall a :: a in anchors ==> a.0 == []) ==>
                stop.None? && chain == [Entry([], root.value)] && unchanged(cache) && tick == old(tick) + 1
    {
      chain := Seed(trust, anchors);
      if chain == [] { return Some(Denial.Insecure), []; }
      OnlyRoot(chain, anchors);
      var ok;
      ok, chain := Splice(chain, [], rootServers);
      stop := if ok then None else Some(Denial.Bogus);
    }

    /** The key sets of all steps, then the steps one by one. */
    method CheckSteps(chain: Chain, steps: seq<Step>, rootServers: nat)
      returns (r: StepResult, after: Chain, validated: seq<Name>)
      requires Valid() && Sound(trust, chain)
      modifies this`tick, cache
      ensures Valid() && Sound(trust, after) && ZonesOf(trust, steps, validated)
      ensures if r.Promoted? then |validated| == |steps| else |validated| < |steps| && r.status != Denial.Secure
      ensures r.Stopped? && steps[|validated|].ds == [] ==> r.status == Denial.Insecure
      ensures (&& steps != [] && old(Hit(steps[0])) && KnowsSigner(chain, steps[0])
               && (forall n :: env.clock(n) == env.clock(0)) && DsPasses(trust, chain, steps[0], env.clock(0)))
              ==> validated != []
      ensures old(AllHit(steps)) && StepsPass(trust, env.clock, chain, steps, old(CachedStates(steps))) ==>
                r.Promoted? && after == ChainUpTo(chain, steps, old(CachedStates(steps)), |steps|)
    {
      var states := Prefetch(steps);
      ghost var from := tick;
      assert (forall n :: env.clock(n) == env.clock(0)) ==> env.clock(from) == env.clock(0);
      r, after, validated := VerifySteps(chain, steps, states, rootServers);
    }

    /**
     Enough for the first step to be promoted: the clock stands still, all anchors are the root's, the
     cache has the root's keys and a set that matches the step, and the step's DS set passes under them.
     */
    ghost predicate FirstStepPasses(anchors: seq<(Name, Key)>, steps: seq<Step>)
      reads this, cache
    {
      && (forall n :: env.clock(n) == env.clock(0)) && anchors != [] && (forall a :: a in anchors ==> a.0 == [])
      && steps != [] && Hit(steps[0])
      && var root := cache.GetPositive([], env.clock(0));
      && root.Some? && KnowsSigner([Entry([], root.value)], steps[0])
      && DsPasses(trust, [Entry([], root.value)], steps[0], env.clock(0))
    }

    /** The steps and then the answer, from the chain a validation starts with. */
    method JudgeWalk(chain: Chain, steps: seq<Step>, lib: HashLib, resp: Response, q: Name, qtype: RType,
                     rootServers: nat)
      returns (s: Status, validated: seq<Name>)
      requires Valid() && Sound(trust, chain)
      modifies this`tick, cache
      ensures Valid() && ZonesOf(trust, steps, validated)
      ensures s == Denial.Secure ==> |validated| == |steps| && Answered(trust, lib, resp, q, qtype)
      ensures |validated| < |steps| && steps[|validated|].ds == [] ==> s == Denial.Insecure
      ensures (&& steps != [] && old(Hit(steps[0])) && KnowsSigner(chain, steps[0])
               && (forall n :: env.clock(n) == env.clock(0)) && DsPasses(trust, chain, steps[0], env.clock(0)))
              ==> validated != []
      ensures old(StepsWarm(chain, steps, resp)) ==>
                && |validated| == |steps|
                && Decided(trust, lib, ChainUpTo(chain, steps, old(CachedStates(steps)), |steps|), resp, q, qtype,
                  env.clock, s)
    {
      var r, after;
      r, after, validated := CheckSteps(chain, steps, rootServers);
      if r.Stopped? { return r.status, validated; }
      s := CheckAnswer(after, lib, resp, q, qtype, rootServers);
    }

    /**
     Enough for all steps to be promoted and the answer to be judged: the cache has a matching key set for
     every step, every step passes under those before it, and every signer of the response is then known.
     */
    ghost predicate StepsWarm(chain: Chain, steps: seq<Step>, resp: Response)
      reads cache
    {
      && AllHit(steps) && StepsPass(trust, env.clock, chain, steps, CachedStates(steps))
      && KnowsAll(ChainUpTo(chain, steps, CachedStates(steps), |steps|), resp.answers + resp.authorities)
    }

    /** The chain of a validation that finds everything in the cache. */
    ghost function WarmChain(steps: seq<Step>): Chain
      reads cache
    {
      ChainUpTo([Entry([], CachedKeys([]))], steps, CachedStates(steps), |steps|)
    }

    /** The same from the anchors on: all of them are the root's, and the cache has the root's keys. */
    ghost predicate Warm(anchors: seq<(Name, Key)>, steps: seq<Step>, resp: Response)
      reads cache
    {
      && anchors != [] && (forall a :: a in anchors ==> a.0 == [])
      && (forall n: nat :: cache.GetPositive([], env.clock(n)).Some?)
      && StepsWarm([Entry([], CachedKeys([]))], steps, resp)
    }

    /**
     `validate_walk`.  On every return the cache is valid and the validated zones are those of the first
     steps, each proven; a Secure verdict means all of them, and a response whose records a derived key
     vouches for.
     */
    method ValidateWalk(anchors: seq<(Name, Key)>, steps: seq<Step>, lib: HashLib, resp: Response, q: Name,
                        qtype: RType, rootServers: nat)
      returns (s: Status, validated: seq<Name>)
      requires Valid() && forall a :: a in anchors ==> a in trust.anchors
      modifies this`tick, cache
      ensures Valid() == true && ZonesOf(trust, steps, validated) == true
      ensures s == Denial.Secure ==>
                anchors != [] && |validated| == |steps| && Answered(trust, lib, resp, q, qtype) == true
      ensures 0 < |validated| < |steps| && steps[|validated|].ds == [] ==> s == Denial.Insecure
      ensures old(FirstStepPasses(anchors, steps)) ==> validated != []
      ensures old(Warm(anchors, steps, resp)) ==>
                |validated| == |steps| && Decided(trust, lib, old(WarmChain(steps)), resp, q, qtype, env.clock, s)
    {
      assert Warm(anchors, steps, resp) ==> cache.GetPositive([], env.clock(tick)).Some?;
      var stop, chain := StartChain(anchors, rootServers);
      if stop.Some? { return stop.value, []; }
      s, validated := JudgeWalk(chain, steps, lib, resp, q, qtype, rootServers);
    }
  }

  /** One validation of a run: its anchor snapshot, its walk, its response, and its surroundings. */
  datatype Job = Job(anchors: seq<(Name, Key)>, steps: seq<Step>, lib: HashLib, resp: Response, q: Name, qtype: RType,
                     rootServers: nat, env: Env) {
    ghost predicate Fits(t: Trust) {
      (forall a :: a in anchors ==> a in t.anchors) && forall n :: Legal(t, env.others(n))
    }
  }

  datatype Outcome = Outcome(status: Status, validated: seq<Name>)

  ghost predicate Justified(t: Trust, job: Job, o: Outcome) {
    && ZonesOf(t, job.steps, o.validated)
    && (o.status == Denial.Secure ==>
          |o.validated| == |job.steps| && Answered(t, job.lib, job.resp, job.q, job.qtype))
  }

  method RunOne(trust: Trust, cache: Cache, job: Job) returns (o: Outcome)
    requires cache.Valid(trust) && job.Fits(trust)
    modifies cache
    ensures cache.Valid(trust) && Justified(trust, job, o)
  {
    var v := new Validator(trust, job.env, cache);
    var s, validated := v.ValidateWalk(job.anchors, job.steps, job.lib, job.resp, job.q, job.qtype, job.rootServers);
    o := Outcome(s, validated);
  }

  ghost predicate AllJustified(t: Trust, jobs: seq<Job>, outcomes: seq<Outcome>) {
    |outcomes| <= |jobs| && forall i :: 0 <= i < |outcomes| ==> Justified(t, jobs[i], outcomes[i])
  }

  lemma {:induction false} OneMoreJustified(t: Trust, jobs: seq<Job>, outcomes: seq<Outcome>, o: Outcome)
    requires AllJustified(t, jobs, outcomes) && |outcomes| < |jobs| && Justified(t, jobs[|outcomes|], o)
    ensures AllJustified(t, jobs, outcomes + [o])
  {
    var after := outcomes + [o];
    forall i | 0 <= i < |after| ensures Justified(t, jobs[i], after[i]) {
      if i < |outcomes| { assert after[i] == outcomes[i]; }
    }
  }

  ghost predicate AllFit(t: Trust, jobs: seq<Job>) { forall i :: 0 <= i < |jobs| ==> jobs[i].Fits(t) }

  /**
   Any run of validations over one cache: the cache stays sound and within its caps, and every outcome is
   justified.
   */
  method Run(trust: Trust, cache: Cache, jobs: seq<Job>) returns (outcomes: seq<Outcome>)
    requires cache.Valid(trust) && AllFit(trust, jobs)
    modifies cache
    ensures cache.Valid(trust) && |outcomes| == |jobs| && AllJustified(trust, jobs, outcomes)
  {
    outcomes := [];
    for i := 0 to |jobs|
      invariant cache.Valid(trust) && |outcomes| == i && AllJustified(trust, jobs, outcomes)
    {
      var o := RunOne(trust, cache, jobs[i]);
      OneMoreJustified(trust, jobs, outcomes, o);
      outcomes := outcomes + [o];
    }
  }
}
