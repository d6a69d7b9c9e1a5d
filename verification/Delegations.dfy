/**
 The cache of validated delegation steps: what a walk may resume from, and what is stored after a
 validation.  A step is stored when its zone is among the validated zones, so a walk that names the
 same zone twice can store a step the validator never saw pass; only such a walk can.
 */
module Delegations {
  import opened Basics
  import opened Names
  import opened Trust
  import opened Validator

  const DELEGATION_CACHE_TTL_CAP := 3600

  datatype Delegation = Delegation(step: Step, expiry: int)

  /** Smallest TTL of the DS set, zero for an empty set. */
  function MinDsTtl(ds: seq<Record>): (ttl: nat)
    ensures forall r :: r in ds ==> ttl <= r.ttl
    ensures if ds == [] then ttl == 0 else exists r :: r in ds && r.ttl == ttl
  {
    if ds == [] then 0
    else if |ds| == 1 then ds[0].ttl
    else
      var rest := MinDsTtl(ds[1..]);
      if ds[0].ttl < rest then ds[0].ttl else rest
  }

  function Lifetime(step: Step): (ttl: nat)
    ensures ttl <= DELEGATION_CACHE_TTL_CAP && (ttl == 0 <==> MinDsTtl(step.ds) == 0)
  {
    var ttl := MinDsTtl(step.ds);
    if ttl < DELEGATION_CACHE_TTL_CAP then ttl else DELEGATION_CACHE_TTL_CAP
  }

  // ---- what is stored ----

  /** The steps, of the first `n`, that are stored for the given validated zones. */
  function Stored(steps: seq<Step>, zones: seq<Name>, n: nat): (kept: seq<Step>)
    requires n <= |steps|
  {
    if n == 0 then []
    else
      var s, rest := steps[n - 1], Stored(steps, zones, n - 1);
      if s.zone in zones && Lifetime(s) > 0 then rest + [s] else rest
  }

  lemma {:induction false} StoredHas(steps: seq<Step>, zones: seq<Name>, n: nat)
    requires n <= |steps|
    ensures forall s :: s in Stored(steps, zones, n) <==> s in steps[..n] && s.zone in zones && Lifetime(s) > 0
  {
    if n > 0 {
      StoredHas(steps, zones, n - 1);
      assert steps[..n] == steps[..n - 1] + [steps[n - 1]];
    }
  }

  /** When the first `n` steps validate, only they are stored. */
  ghost predicate OnlyValidated(steps: seq<Step>, n: nat) requires n <= |steps| {
    forall s :: s in Stored(steps, ZonesUpTo(steps, n), |steps|) ==> s in steps[..n]
  }

  ghost predicate Different(zones: seq<Name>) { forall i, j :: 0 <= i < j < |zones| ==> zones[i] != zones[j] }

  /** The chain names no zone twice. */
  ghost predicate NamesOnce(steps: seq<Step>) { Different(ZonesUpTo(steps, |steps|)) }

  lemma OnceOnlyValidated(steps: seq<Step>, n: nat)
    requires n <= |steps| && NamesOnce(steps)
    ensures OnlyValidated(steps, n)
  {
    var zones, all := ZonesUpTo(steps, n), ZonesUpTo(steps, |steps|);
    StoredHas(steps, zones, |steps|);
    forall s | s in Stored(steps, zones, |steps|) ensures s in steps[..n] {
      var j :| 0 <= j < |steps| && steps[j] == s;
      var i :| 0 <= i < n && zones[i] == s.zone;
      assert all[i] == all[j];
      assert steps[..n][i] == s;
    }
  }

  /** A chain for the given zones whose steps are all different and may all be stored. */
  function Labelled(zones: seq<Name>): (steps: seq<Step>)
    ensures ZonesUpTo(steps, |steps|) == zones
    ensures |steps| == |zones| && forall i, j :: 0 <= i < j < |steps| ==> steps[i] != steps[j] && Lifetime(steps[j]) > 0
  {
    var steps := seq(|zones|, k requires 0 <= k < |zones| =>
      Step(zones[k], [Record(zones[k], 1, 1, DsData(Ds(k, "")))], [], []));
    assert forall k :: 0 <= k < |steps| ==> steps[k].ds[0].data.ds.tag == k;
    steps
  }

  lemma RepeatStoresAnother(zones: seq<Name>, i: nat, j: nat)
    requires i < j < |zones| && zones[i] == zones[j]
    ensures !OnlyValidated(Labelled(zones), i + 1)
  {
    var steps := Labelled(zones);
    var validated := ZonesUpTo(steps, i + 1);
    assert validated[i] == ZonesUpTo(steps, |steps|)[j];
    StoredHas(steps, validated, |steps|);
    assert steps[..|steps|] == steps;
    assert steps[j] in Stored(steps, validated, |steps|);
    assert steps[j] !in steps[..i + 1];
  }

  /**
   A chain through the given zones stores only what validated, whatever its referrals carry and
   wherever validation stops, exactly when no two of the zones are the same.
   */
  lemma StoresOnlyValidatedIff(zones: seq<Name>)
    ensures (forall steps, n: nat :: ZonesUpTo(steps, |steps|) == zones && n <= |steps| ==> OnlyValidated(steps, n))
            <==> Different(zones)
  {
    if Different(zones) {
      forall steps, n: nat | ZonesUpTo(steps, |steps|) == zones && n <= |steps| ensures OnlyValidated(steps, n) {
        OnceOnlyValidated(steps, n);
      }
    } else {
      var i, j :| 0 <= i < j < |zones| && zones[i] == zones[j];
      RepeatStoresAnother(zones, i, j);
    }
  }

  /** The cache after storing the first `n` steps one by one: a later step replaces an earlier one of its zone. */
  function StoreUpTo(before: map<Name, Delegation>, steps: seq<Step>, zones: seq<Name>, n: nat,
                     now: int): map<Name, Delegation>
    requires n <= |steps|
  {
    if n == 0 then before
    else
      var s, m := steps[n - 1], StoreUpTo(before, steps, zones, n - 1, now);
      if s.zone in zones && Lifetime(s) > 0 then m[s.zone := Delegation(s, now + Lifetime(s))] else m
  }

  /** Every entry afterwards is an old one or a kept step filed under its zone. */
  ghost predicate Filed(before: map<Name, Delegation>, after: map<Name, Delegation>, kept: seq<Step>) {
    forall z :: z in after ==>
      (z in before && after[z] == before[z]) || (after[z].step in kept && after[z].step.zone == z)
  }

  lemma FileOne(before: map<Name, Delegation>, m: map<Name, Delegation>, kept: seq<Step>, s: Step, expiry: int)
    requires Filed(before, m, kept)
    ensures Filed(before, m[s.zone := Delegation(s, expiry)], kept + [s])
  {
    var after, more := m[s.zone := Delegation(s, expiry)], kept + [s];
    assert s in more;
    forall z | z in after && z != s.zone
      ensures (z in before && after[z] == before[z]) || (after[z].step in more && after[z].step.zone == z)
    {
      assert after[z] == m[z];
    }
  }

  lemma {:induction false} StoreUpToFrom(before: map<Name, Delegation>, steps: seq<Step>, zones: seq<Name>, n: nat,
                                         now: int)
    requires n <= |steps|
    ensures Filed(before, StoreUpTo(before, steps, zones, n, now), Stored(steps, zones, n))
  {
    if n > 0 {
      StoreUpToFrom(before, steps, zones, n - 1, now);
      var s := steps[n - 1];
      if s.zone in zones && Lifetime(s) > 0 {
        FileOne(before, StoreUpTo(before, steps, zones, n - 1, now), Stored(steps, zones, n - 1), s, now + Lifetime(s));
      }
    }
  }

  /** What a lookup finds after the first `n` steps were stored: the last one stored for the zone, or what was there. */
  lemma {:induction false} LastStored(before: map<Name, Delegation>, steps: seq<Step>, zones: seq<Name>, n: nat,
                                      now: int,
                                      z: Name, i: nat)
    requires i < n <= |steps| && steps[i].zone == z && z in zones && Lifetime(steps[i]) > 0
    requires forall j :: i < j < n ==> steps[j].zone != z || Lifetime(steps[j]) == 0
    ensures var after := StoreUpTo(before, steps, zones, n, now);
            z in after && after[z] == Delegation(steps[i], now + Lifetime(steps[i]))
    decreases n
  {
    if i < n - 1 { LastStored(before, steps, zones, n - 1, now, z, i); }
  }

  lemma {:induction false} NoneStored(before: map<Name, Delegation>, steps: seq<Step>, zones: seq<Name>, n: nat,
                                      now: int,
                                      z: Name)
    requires n <= |steps| && forall j :: 0 <= j < n ==> steps[j].zone != z || z !in zones || Lifetime(steps[j]) == 0
    ensures var after := StoreUpTo(before, steps, zones, n, now);
            (z in after <==> z in before) && (z in before ==> after[z] == before[z])
    decreases n
  {
    if n > 0 { NoneStored(before, steps, zones, n - 1, now, z); }
  }

  /**
   A validated step of a chain that names each zone once is found again for as long as its DS set lives, an
   hour at most, and zones the chain does not store are found as before.
   */
  lemma StoredIsFound(before: map<Name, Delegation>, steps: seq<Step>, zones: seq<Name>, now: int, later: int, z: Name)
    requires NamesOnce(steps)
    ensures var after := StoreUpTo(before, steps, zones, |steps|, now);
            if i :| 0 <= i < |steps| && steps[i].zone == z && z in zones && Lifetime(steps[i]) > 0 then
              GetFrom(after, z, later) == if later < now + Lifetime(steps[i]) then Some(steps[i]) else None
            else GetFrom(after, z, later) == GetFrom(before, z, later)
  {
    if i :| 0 <= i < |steps| && steps[i].zone == z && z in zones && Lifetime(steps[i]) > 0 {
      var all := ZonesUpTo(steps, |steps|);
      forall j | i < j < |steps| ensures steps[j].zone != z { assert all[i] != all[j]; }
      LastStored(before, steps, zones, |steps|, now, z, i);
    } else {
      NoneStored(before, steps, zones, |steps|, now, z);
    }
  }

  /** Every entry is filed under its zone, and its step was proven. */
  ghost predicate AllProven(t: Trust, entries: map<Name, Delegation>) {
    forall z :: z in entries ==> entries[z].step.zone == z && Proven(t, entries[z].step)
  }

  /** After a validation that stores only what validated, every entry is still a proven step. */
  lemma StoreKeepsProven(t: Trust, before: map<Name, Delegation>, steps: seq<Step>, zones: seq<Name>, now: int)
    requires AllProven(t, before) && ZonesOf(t, steps, zones) && OnlyValidated(steps, |zones|)
    ensures AllProven(t, StoreUpTo(before, steps, zones, |steps|, now))
  {
    var after := StoreUpTo(before, steps, zones, |steps|, now);
    StoreUpToFrom(before, steps, zones, |steps|, now);
    forall z | z in after ensures after[z].step.zone == z && Proven(t, after[z].step) {
      if after[z].step in Stored(steps, zones, |steps|) { StoredProven(t, steps, zones, after[z].step); }
    }
  }

  /** What other resolutions may store between two steps of one. */
  datatype Write = Write(step: Step, now: int)

  ghost predicate LegalWrites(t: Trust, writes: seq<Write>) {
    forall i :: 0 <= i < |writes| ==> Proven(t, writes[i].step)
  }

  /** Looking a zone up. */
  function GetFrom(entries: map<Name, Delegation>, zone: Name, now: int): Option<Step> {
    if zone in entries && entries[zone].expiry > now then Some(entries[zone].step) else None
  }

  /**
   The prefix is the longest run of cached steps for the proper ancestors of the query name, from the
   shallowest one that has a label to count.
   */
  ghost predicate ResumesFrom(entries: map<Name, Delegation>, q: Name, now: int, prefix: seq<Step>) {
    && |prefix| <= Depths(q)
    && (forall i :: 0 <= i < |prefix| ==> GetFrom(entries, Suffix(q, Shallowest(q) + i), now) == Some(prefix[i]))
    && (|prefix| < Depths(q) ==> GetFrom(entries, Suffix(q, Shallowest(q) + |prefix|), now).None?)
  }

  class DelegationCache {
    var entries: map<Name, Delegation>

    ghost predicate Valid(t: Trust)
      reads this
    {
      AllProven(t, entries)
    }

    constructor (ghost t: Trust)
      ensures Valid(t) && entries == map[]
    {
      entries := map[];
    }

    function Get(zone: Name, now: int): Option<Step>
      reads this
    {
      GetFrom(entries, zone, now)
    }

    method Insert(step: Step, now: int)
      modifies this
      ensures entries == if Lifetime(step) == 0 then old(entries)
              else old(entries)[step.zone := Delegation(step, now + Lifetime(step))]
    {
      var ttl := MinDsTtl(step.ds);
      if ttl == 0 { return; }
      if ttl > DELEGATION_CACHE_TTL_CAP { ttl := DELEGATION_CACHE_TTL_CAP; }
      entries := entries[step.zone := Delegation(step, now + ttl)];
    }

    /** `cache_validated_delegations`. */
    method CacheValidated(steps: seq<Step>, zones: seq<Name>, now: int)
      modifies this
      ensures entries == StoreUpTo(old(entries), steps, zones, |steps|, now)
    {
      if zones == [] {
        NothingStored(entries, steps, |steps|, now);
        return;
      }
      for n := 0 to |steps|
        invariant entries == StoreUpTo(old(entries), steps, zones, n, now)
      {
        if steps[n].zone in zones { Insert(steps[n], now); }
      }
    }

    /** A suspension point: other resolutions store, in any number and order. */
    method Interfere(writes: seq<Write>)
      modifies this
      ensures forall t :: old(Valid(t)) && LegalWrites(t, writes) ==> Valid(t)
    {
      for i := 0 to |writes|
        invariant forall t :: old(Valid(t)) && LegalWrites(t, writes) ==> Valid(t)
      {
        Insert(writes[i].step, writes[i].now);
      }
    }

    /** `cached_delegation_start`: the run, unless it leads to a zone without addresses. */
    method Start(q: Name, now: int) returns (prefix: seq<Step>)
      ensures exists run :: ResumesFrom(entries, q, now, run) && prefix == Addressed(run)
    {
      var ancestors := Ancestors(q);
      prefix := [];
      var n := 0;
      while n < |ancestors| && Get(ancestors[n], now).Some?
        invariant 0 <= n <= |ancestors| && |prefix| == n
        invariant forall i :: 0 <= i < n ==> Get(ancestors[i], now) == Some(prefix[i])
      {
        prefix := prefix + [Get(ancestors[n], now).value];
        n := n + 1;
      }
      ghost var run := prefix;
      if prefix == [] || prefix[|prefix| - 1].ips == [] { prefix := []; }
      assert ResumesFrom(entries, q, now, run) && prefix == Addressed(run);
    }
  }

  lemma StoredProven(t: Trust, steps: seq<Step>, zones: seq<Name>, s: Step)
    requires ZonesOf(t, steps, zones) && OnlyValidated(steps, |zones|) && s in Stored(steps, zones, |steps|)
    ensures Proven(t, s)
  {
    var n := |zones|;
    assert s in steps[..n];
    var j :| 0 <= j < n && steps[j] == s;
    ProvenAt(t, steps, n, j);
  }

  lemma {:induction false} NothingStored(before: map<Name, Delegation>, steps: seq<Step>, n: nat, now: int)
    requires n <= |steps|
    ensures StoreUpTo(before, steps, [], n, now) == before
  {
    if n > 0 { NothingStored(before, steps, n - 1, now); }
  }

  lemma {:induction false} ProvenAt(t: Trust, steps: seq<Step>, n: nat, j: nat)
    requires j < n <= |steps| && ProvenUpTo(t, steps, n)
    ensures Proven(t, steps[j])
  {
    if j < n - 1 { ProvenAt(t, steps, n - 1, j); }
  }

  /** A run whose last zone has addresses. */
  function Addressed(run: seq<Step>): seq<Step> { if run == [] || run[|run| - 1].ips == [] then [] else run }

  /** Length of the shallowest ancestor that has a label to count: a top label `*` has none. */
  function Shallowest(q: Name): nat { if |q| > 0 && q[|q| - 1] == STAR then 2 else 1 }

  /** How many proper ancestors there are from that one on. */
  function Depths(q: Name): (n: nat)
    ensures n > 0 ==> n + Shallowest(q) == |q|
  {
    if |q| > Shallowest(q) then |q| - Shallowest(q) else 0
  }

  method Ancestors(q: Name) returns (ancestors: seq<Name>)
    ensures |ancestors| == Depths(q)
    ensures forall i :: 0 <= i < |ancestors| ==> ancestors[i] == Suffix(q, Shallowest(q) + i)
  {
    ancestors := [];
    var k: nat := if q == [] then 0 else |q| - 1;
    while NumLabels(Suffix(q, k)) >= 1
      invariant k <= |q| && (q != [] ==> k < |q|) && (q == [] ==> k == 0)
      invariant |ancestors| == if q == [] then 0 else |q| - 1 - k
      invariant forall i :: 0 <= i < |ancestors| ==> ancestors[i] == Suffix(q, k + 1 + i)
      invariant k + 1 >= Shallowest(q) || |ancestors| == 0
      decreases k
    {
      if k == 1 { assert Suffix(q, 1)[0] == q[|q| - 1]; }
      ancestors := [Suffix(q, k)] + ancestors;
      k := k - 1;
    }
    if k == 1 { assert Suffix(q, 1)[0] == q[|q| - 1]; }
  }
}
