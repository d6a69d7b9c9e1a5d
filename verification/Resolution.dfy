/**
 A resolution from end to end: walk, validate the walk's chain and answer, store the validated steps.
 Over any run of resolutions the DNSKEY cache holds only derived key sets, a Secure answer is one whose
 records derived keys vouch for, and the delegation cache holds only proven steps as long as no walk
 names a zone twice, which takes a server that refers a walk to the root.
 */
module Resolution {
  import opened Basics
  import opened Names
  import opened Trust
  import opened Validator
  import opened Delegations
  import opened Walk
  import opened AnswerCheck
  import Denial = NsecDenial

  function ToResponse(m: Message): Response {
    Response(m.answers, m.authorities,
             match m.rcode case NoErrorCode => Denial.NoError case NxDomainCode => Denial.NXDomain
               case _ => Denial.OtherRcode)
  }

  /** The walk names no zone twice, or at least was not referred to the root, which comes to the same. */
  ghost predicate Clean(steps: seq<Step>) { NamesOnce(steps) || NoRoot(steps) }

  datatype Verdict = WalkFailed(fault: Fault) | Judged(status: Status, message: Message)

  ghost predicate Trustworthy(t: Trust, lib: HashLib, q: Name, qtype: RType, v: Verdict) {
    v.Judged? && v.status == Denial.Secure ==> Answered(t, lib, ToResponse(v.message), q, qtype)
  }

  /** The verdict carries what a chain of received messages says, or the fault that ended the walk. */
  ghost predicate Reports(env: Walk.Env, q: Name, qtype: RType, v: Verdict) {
    exists ms :: Explained(env, q, qtype, ms, WalkResult(v))
  }

  lemma ReportsWalk(env: Walk.Env, q: Name, qtype: RType, ms: seq<Message>, r: Result<Message>)
    requires Explained(env, q, qtype, ms, r)
    ensures if r.Err? then Reports(env, q, qtype, WalkFailed(r.fault))
            else forall status :: Reports(env, q, qtype, Judged(status, r.value))
  {
    forall v | WalkResult(v) == r ensures Reports(env, q, qtype, v) {
      assert Explained(env, q, qtype, ms, WalkResult(v));
    }
  }

  function WalkResult(v: Verdict): Result<Message> {
    match v
    case WalkFailed(f) => Err(f)
    case Judged(_, m) => Ok(m)
  }

  /** A step found in a cache of proven steps under a name is a proven step of that zone. */
  lemma GotProven(t: Trust, seen: map<Name, Delegation>, zone: Name, now: int, step: Step)
    requires AllProven(t, seen) && GetFrom(seen, zone, now) == Some(step)
    ensures step.zone == zone && Proven(t, step)
  {}

  /** A chain resumed from a valid cache starts with proven steps for ancestors of the query name. */
  lemma ResumedZones(t: Trust, seen: map<Name, Delegation>, q: Name, steps: seq<Step>, base: Name, low: nat, now: int)
    requires AllProven(t, seen) && Recorded(true, seen, q, steps, base, low, now)
    ensures Chained(q, steps, base, low) && forall k :: 0 <= k < low ==> Proven(t, steps[k])
  {
    if low > 0 {
      var prefix := steps[..low];
      forall k | 0 <= k < low ensures steps[k].zone == Suffix(q, Shallowest(q) + k) && Proven(t, steps[k]) {
        assert prefix[k] == steps[k];
        GotProven(t, seen, Suffix(q, Shallowest(q) + k), now, prefix[k]);
      }
    }
  }

  /** The steps a walk may hand to the validator without risk of storing an unvalidated one. */
  lemma CleanNamesOnce(t: Trust, seen: map<Name, Delegation>, q: Name, steps: seq<Step>, base: Name, low: nat, now: int)
    requires AllProven(t, seen) && Recorded(true, seen, q, steps, base, low, now)
    ensures Clean(steps) <==> NamesOnce(steps)
  {
    ResumedZones(t, seen, q, steps, base, low, now);
    if NoRoot(steps) { NoRootNamesOnce(q, steps, base, low); }
  }

  /** A client's query, and what other resolutions store in the delegation cache while it is validated. */
  datatype Query = Query(q: Name, qtype: RType, anchors: seq<(Name, Key)>, lib: HashLib, rootServers: nat, now: int,
                         others: seq<Write>)

  method Resolve(rv: Resolver, v: Validator, b: Budget, query: Query) returns (verdict: Verdict, steps: seq<Step>)
    requires v.Valid() && rv.dnssec && forall a :: a in query.anchors ==> a in v.trust.anchors
    modifies rv`tick, b, v`tick, v.cache, rv.delegations
    ensures v.Valid() && Trustworthy(v.trust, query.lib, query.q, query.qtype, verdict)
    ensures Reports(rv.env, query.q, query.qtype, verdict) == true
    ensures (&& old(rv.delegations.Valid(v.trust)) && rv.env.Legal(v.trust) && LegalWrites(v.trust, query.others)
             && Clean(steps)) ==> rv.delegations.Valid(v.trust)
  {
    var r, tally;
    ghost var base, low, at, ms;
    r, steps, tally, base, low, at, ms := rv.Walk(query.q, query.qtype, b);
    ReportsWalk(rv.env, query.q, query.qtype, ms, r);
    if r.Err? { return WalkFailed(r.fault), steps; }
    var status, validated := v.ValidateWalk(query.anchors, steps, query.lib, ToResponse(r.value), query.q,
      query.qtype, query.rootServers);
    rv.delegations.Interfere(query.others);
    if rv.delegations.Valid(v.trust) && old(rv.delegations.Valid(v.trust)) && Clean(steps) {
      CleanNamesOnce(v.trust, old(rv.delegations.entries), query.q, steps, base, low, at);
      OnceOnlyValidated(steps, |validated|);
      StoreKeepsProven(v.trust, rv.delegations.entries, steps, validated, query.now);
    }
    rv.delegations.CacheValidated(steps, validated, query.now);
    return Judged(status, r.value), steps;
  }

  /** Every verdict so far is right about its query. */
  ghost predicate AllTrustworthy(t: Trust, queries: seq<Query>, verdicts: seq<Verdict>)
    requires |verdicts| <= |queries|
  {
    verdicts == [] ||
    var n := |verdicts| - 1;
    AllTrustworthy(t, queries, verdicts[..n]) &&
      Trustworthy(t, queries[n].lib, queries[n].q, queries[n].qtype, verdicts[n])
  }

  lemma {:induction false} TrustworthyAt(t: Trust, queries: seq<Query>, verdicts: seq<Verdict>, i: nat)
    requires i < |verdicts| <= |queries| && AllTrustworthy(t, queries, verdicts)
    ensures Trustworthy(t, queries[i].lib, queries[i].q, queries[i].qtype, verdicts[i])
  {
    if i < |verdicts| - 1 { TrustworthyAt(t, queries, verdicts[..|verdicts| - 1], i); }
  }

  lemma {:induction false} OneMoreVerdict(t: Trust, queries: seq<Query>, verdicts: seq<Verdict>, v: Verdict)
    requires |verdicts| < |queries| && AllTrustworthy(t, queries, verdicts)
    requires var query := queries[|verdicts|]; Trustworthy(t, query.lib, query.q, query.qtype, v)
    ensures AllTrustworthy(t, queries, verdicts + [v])
  {
    assert (verdicts + [v])[..|verdicts|] == verdicts;
  }

  ghost predicate AllClean(walks: seq<seq<Step>>) { forall i :: 0 <= i < |walks| ==> Clean(walks[i]) }

  lemma OneMoreWalk(walks: seq<seq<Step>>, steps: seq<Step>)
    requires AllClean(walks + [steps])
    ensures AllClean(walks) && Clean(steps)
  {
    var after := walks + [steps];
    assert after[|walks|] == steps;
    forall i | 0 <= i < |walks| ensures Clean(walks[i]) {
      assert after[i] == walks[i];
    }
  }

  ghost predicate OthersLegal(t: Trust, queries: seq<Query>) {
    forall i :: 0 <= i < |queries| ==> LegalWrites(t, queries[i].others)
  }

  ghost predicate AnchorsKnown(t: Trust, queries: seq<Query>) {
    forall i, a :: 0 <= i < |queries| && a in queries[i].anchors ==> a in t.anchors
  }

  /** A run of resolutions over shared caches, each with a fresh budget. */
  method ResolveEach(rv: Resolver, v: Validator, queries: seq<Query>)
    returns (verdicts: seq<Verdict>, walks: seq<seq<Step>>)
    requires v.Valid() && rv.dnssec && rv.delegations.Valid(v.trust) && AnchorsKnown(v.trust, queries)
    requires rv.env.Legal(v.trust) && OthersLegal(v.trust, queries)
    modifies rv`tick, v`tick, v.cache, rv.delegations
    ensures v.Valid() && |verdicts| == |walks| == |queries|
    ensures AllTrustworthy(v.trust, queries, verdicts)
    ensures AllClean(walks) ==> rv.delegations.Valid(v.trust)
  {
    verdicts, walks := [], [];
    for n := 0 to |queries|
      invariant v.Valid() && |verdicts| == |walks| == n && AllTrustworthy(v.trust, queries, verdicts)
      invariant AllClean(walks) ==> rv.delegations.Valid(v.trust)
    {
      var b := new Budget(DEFAULT_MAX_DEPTH, DEFAULT_MAX_QUERIES, DEFAULT_MAX_CNAME);
      var verdict, steps := Resolve(rv, v, b, queries[n]);
      OneMoreVerdict(v.trust, queries, verdicts, verdict);
      if AllClean(walks + [steps]) { OneMoreWalk(walks, steps); }
      verdicts, walks := verdicts + [verdict], walks + [steps];
    }
  }
}
