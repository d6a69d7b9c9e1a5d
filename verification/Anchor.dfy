/**
 RFC 5011 trust-anchor state: one refresh as the resolver computes it over its key list, the
 per-key automaton that refresh implements, and what holds over whole runs of refreshes.
 */
module Anchor {
  import opened Basics

  type Bytes = string

  datatype Status = Active | PendingAdd(addedAt: nat) | Revoked(revokedAt: nat)

  datatype ManagedKey = ManagedKey(zone: string, keyTag: nat, algorithm: nat, flags: nat, publicKey: string,
                                   status: Status)

  datatype Dnskey = Dnskey(zoneKey: bool, sep: bool, revoke: bool, algorithm: nat, publicKey: Bytes)

  datatype Observed = Observed(zone: string, key: Dnskey)

  /** The validated DNSKEY set one refresh works from, and the time it does so. */
  datatype Refresh = Refresh(obs: seq<Observed>, now: nat)

  /** The configured hold-down and the library functions a refresh uses: base64 and the key-tag checksum. */
  datatype Env = Env(encode: Bytes -> string, decode: string -> Option<Bytes>, keyTag: Dnskey -> nat, holdDown: nat) {
    ghost predicate Lossless() { forall b: Bytes :: decode(encode(b)) == Some(b) }
  }

  // ---- one refresh ----

  predicate Bit(flags: nat, mask: nat) requires mask > 0 { flags / mask % 2 == 1 }

  function WithRevoke(flags: nat): nat { if Bit(flags, 128) then flags else flags + 128 }

  function FromObserved(env: Env, o: Observed, status: Status): ManagedKey {
    var flags := (if o.key.zoneKey then 256 else 0) + (if o.key.sep then 1 else 0) + (if o.key.revoke then 128 else 0);
    ManagedKey(o.zone, env.keyTag(o.key), o.key.algorithm, flags, env.encode(o.key.publicKey), status)
  }

  /** What identifies a key across refreshes: zone, algorithm and key bytes, never the key tag. */
  datatype Id = Id(zone: string, algorithm: nat, publicKey: Bytes)

  function IdOf(env: Env, k: ManagedKey): Id {
    var d := env.decode(k.publicKey);
    Id(k.zone, k.algorithm, if d.Some? then d.value else [])
  }

  function IdSeen(o: Observed): Id { Id(o.zone, o.key.algorithm, o.key.publicKey) }

  /** First observed key with the given identity, or the length of the list. */
  function Position(obs: seq<Observed>, id: Id): (i: nat)
    ensures i <= |obs| && (i < |obs| ==> IdSeen(obs[i]) == id)
    ensures forall k :: 0 <= k < i ==> IdSeen(obs[k]) != id
  {
    if obs == [] || IdSeen(obs[0]) == id then 0 else 1 + Position(obs[1..], id)
  }

  function SaturatingSub(a: nat, b: nat): nat { if a < b then 0 else a - b }

  function Seen(obs: seq<Observed>, id: Id): Option<Dnskey> {
    var i := Position(obs, id);
    if i < |obs| then Some(obs[i].key) else None
  }

  /** The transitions of section 4 of RFC 5011 as the resolver takes them, for one key. */
  function StepKey(status: Option<Status>, seen: Option<Dnskey>, now: nat, holdDown: nat): Option<Status> {
    match status
    case None => if seen.Some? && !seen.value.revoke && seen.value.sep then Some(PendingAdd(now)) else None
    case Some(PendingAdd(t)) =>
      if seen.None? || seen.value.revoke then None
      else if SaturatingSub(now, t) >= holdDown then Some(Active) else status
    case Some(Active) => if seen.Some? && seen.value.revoke then Some(Revoked(now)) else status
    case Some(Revoked(_)) => if seen.None? then None else status
  }

  datatype Diff = Diff(added: seq<nat>, promoted: seq<nat>, revoked: seq<nat>, dropped: seq<nat>, pruned: seq<nat>) {
    predicate IsEmpty() { added == [] && promoted == [] && revoked == [] && dropped == [] && pruned == [] }
  }

  /** The list being built and the report being filled. */
  datatype Outcome = Outcome(next: seq<ManagedKey>, diff: Diff)

  function Updated(k: ManagedKey, status: Status): ManagedKey {
    if k.status.Active? && status.Revoked? then k.(status := status, flags := WithRevoke(k.flags))
    else k.(status := status)
  }

  /** One entry whose key steps to `status`. */
  function Visit(o: Outcome, k: ManagedKey, status: Option<Status>): Outcome {
    match status
    case None =>
      if k.status.Revoked? then o.(diff := o.diff.(pruned := o.diff.pruned + [k.keyTag]))
      else o.(diff := o.diff.(dropped := o.diff.dropped + [k.keyTag]))
    case Some(st) =>
      var next := o.next + [Updated(k, st)];
      if k.status.PendingAdd? && st.Active? then Outcome(next, o.diff.(promoted := o.diff.promoted + [k.keyTag]))
      else if k.status.Active? && st.Revoked? then Outcome(next, o.diff.(revoked := o.diff.revoked + [k.keyTag]))
      else o.(next := next)
  }

  function Stepped(env: Env, k: ManagedKey, r: Refresh): Option<Status> {
    StepKey(Some(k.status), Seen(r.obs, IdOf(env, k)), r.now, env.holdDown)
  }

  /** The outcome after the first `n` entries of the state. */
  function Visited(env: Env, state: seq<ManagedKey>, r: Refresh, n: nat): Outcome
    requires n <= |state|
  {
    if n == 0 then Outcome([], Diff([], [], [], [], []))
    else Visit(Visited(env, state, r, n - 1), state[n - 1], Stepped(env, state[n - 1], r))
  }

  /** One of the first `n` entries claimed the observed key. */
  predicate Matched(env: Env, state: seq<ManagedKey>, r: Refresh, n: nat, i: nat) requires n <= |state| {
    n > 0 && (Matched(env, state, r, n - 1, i) || Position(r.obs, IdOf(env, state[n - 1])) == i)
  }

  predicate Admitted(env: Env, state: seq<ManagedKey>, r: Refresh, i: nat) requires i < |r.obs| {
    !Matched(env, state, r, |state|, i) && !r.obs[i].key.revoke && r.obs[i].key.sep
  }

  function Admit(o: Outcome, k: ManagedKey): Outcome {
    Outcome(o.next + [k], o.diff.(added := o.diff.added + [k.keyTag]))
  }

  /** The outcome after all entries and the first `i` observed keys. */
  function Extended(env: Env, state: seq<ManagedKey>, r: Refresh, i: nat): Outcome
    requires i <= |r.obs|
  {
    if i == 0 then Visited(env, state, r, |state|)
    else
      var o := Extended(env, state, r, i - 1);
      if Admitted(env, state, r, i - 1) then Admit(o, FromObserved(env, r.obs[i - 1], PendingAdd(r.now))) else o
  }

  function Applied(env: Env, state: seq<ManagedKey>, r: Refresh): Outcome { Extended(env, state, r, |r.obs|) }

  /** The body of the first loop of `apply_refresh`: one entry against the observed key at `i`, if any. */
  method VisitEntry(env: Env, k: ManagedKey, i: nat, r: Refresh, o: Outcome) returns (next: seq<ManagedKey>, diff: Diff)
    requires i == Position(r.obs, IdOf(env, k))
    ensures Outcome(next, diff) == Visit(o, k, Stepped(env, k, r))
  {
    next, diff := o.next, o.diff;
    match k.status {
      case PendingAdd(t) =>
        if i == |r.obs| {
          diff := diff.(dropped := diff.dropped + [k.keyTag]);
        } else if r.obs[i].key.revoke {
          diff := diff.(dropped := diff.dropped + [k.keyTag]);
        } else if SaturatingSub(r.now, t) >= env.holdDown {
          diff := diff.(promoted := diff.promoted + [k.keyTag]);
          next := next + [k.(status := Active)];
        } else {
          next := next + [k];
        }
      case Active =>
        if i < |r.obs| && r.obs[i].key.revoke {
          diff := diff.(revoked := diff.revoked + [k.keyTag]);
          next := next + [k.(status := Revoked(r.now), flags := WithRevoke(k.flags))];
        } else {
          next := next + [k];
        }
      case Revoked(_) =>
        if i < |r.obs| { next := next + [k]; } else { diff := diff.(pruned := diff.pruned + [k.keyTag]); }
    }
  }

  /** The first loop of `apply_refresh`: every entry, and which observed keys were claimed. */
  method VisitAll(env: Env, state: seq<ManagedKey>, r: Refresh)
    returns (next: seq<ManagedKey>, diff: Diff, claimed: seq<bool>)
    ensures Outcome(next, diff) == Visited(env, state, r, |state|)
    ensures |claimed| == |r.obs|
    ensures forall i :: 0 <= i < |claimed| ==> claimed[i] == Matched(env, state, r, |state|, i)
  {
    next, diff := [], Diff([], [], [], [], []);
    var matched := new bool[|r.obs|](i => false);
    for n := 0 to |state|
      invariant Outcome(next, diff) == Visited(env, state, r, n)
      invariant forall i :: 0 <= i < matched.Length ==> matched[i] == Matched(env, state, r, n, i)
    {
      var i := Position(r.obs, IdOf(env, state[n]));
      next, diff := VisitEntry(env, state[n], i, r, Outcome(next, diff));
      if i < |r.obs| { matched[i] := true; }
    }
    claimed := matched[..];
  }

  /** `apply_refresh`. */
  method ApplyRefresh(env: Env, state: seq<ManagedKey>, r: Refresh) returns (next: seq<ManagedKey>, diff: Diff)
    ensures Outcome(next, diff) == Applied(env, state, r)
  {
    var matched;
    next, diff, matched := VisitAll(env, state, r);
    for i := 0 to |r.obs|
      invariant Outcome(next, diff) == Extended(env, state, r, i)
    {
      if !matched[i] && !r.obs[i].key.revoke && r.obs[i].key.sep {
        var mk := FromObserved(env, r.obs[i], PendingAdd(r.now));
        diff := diff.(added := diff.added + [mk.keyTag]);
        next := next + [mk];
      }
    }
  }

  // ---- accounting ----

  /** The entries so far are all in the list or reported gone; with nothing reported they are the list. */
  predicate Accounted(o: Outcome, state: seq<ManagedKey>) {
    && |o.next| + |o.diff.dropped| + |o.diff.pruned| == |state| + |o.diff.added|
    && (o.diff.IsEmpty() ==> o.next == state)
  }

  lemma VisitAccounts(env: Env, o: Outcome, state: seq<ManagedKey>, k: ManagedKey, r: Refresh)
    requires Accounted(o, state)
    ensures Accounted(Visit(o, k, Stepped(env, k, r)), state + [k])
  {}

  lemma {:induction false} VisitedAccounts(env: Env, state: seq<ManagedKey>, r: Refresh, n: nat)
    requires n <= |state|
    ensures Accounted(Visited(env, state, r, n), state[..n])
  {
    if n > 0 {
      VisitedAccounts(env, state, r, n - 1);
      assert state[..n] == state[..n - 1] + [state[n - 1]];
      VisitAccounts(env, Visited(env, state, r, n - 1), state[..n - 1], state[n - 1], r);
    }
  }

  lemma {:induction false} ExtendedAccounts(env: Env, state: seq<ManagedKey>, r: Refresh, i: nat)
    requires i <= |r.obs|
    ensures Accounted(Extended(env, state, r, i), state)
  {
    VisitedAccounts(env, state, r, |state|);
    assert state[..|state|] == state;
    if i > 0 { ExtendedAccounts(env, state, r, i - 1); }
  }

  /** No key appears or disappears unreported, and an empty report means an unchanged list. */
  lemma RefreshAccounts(env: Env, state: seq<ManagedKey>, r: Refresh)
    ensures var o := Applied(env, state, r);
            && |o.next| + |o.diff.dropped| + |o.diff.pruned| == |state| + |o.diff.added|
            && (o.diff.IsEmpty() ==> o.next == state)
  {
    ExtendedAccounts(env, state, r, |r.obs|);
  }

  // ---- the automaton of one key ----

  /** Status of the key with identity `id` in a key list. */
  function Lookup(env: Env, ks: seq<ManagedKey>, id: Id): Option<Status> {
    if ks == [] then None
    else if IdOf(env, ks[|ks| - 1]) == id then Some(ks[|ks| - 1].status)
    else Lookup(env, ks[..|ks| - 1], id)
  }

  lemma LookupAppend(env: Env, ks: seq<ManagedKey>, k: ManagedKey, id: Id)
    ensures Lookup(env, ks + [k], id) == if IdOf(env, k) == id then Some(k.status) else Lookup(env, ks, id)
  {
    assert (ks + [k])[..|ks|] == ks;
  }

  /** No two entries have the same identity. */
  ghost predicate Distinct(env: Env, ks: seq<ManagedKey>) {
    ks == [] || (Lookup(env, ks[..|ks| - 1], IdOf(env, ks[|ks| - 1])).None? && Distinct(env, ks[..|ks| - 1]))
  }

  lemma {:induction false} DistinctAppend(env: Env, ks: seq<ManagedKey>, k: ManagedKey)
    requires Distinct(env, ks) && Lookup(env, ks, IdOf(env, k)).None?
    ensures Distinct(env, ks + [k])
  {
    assert (ks + [k])[..|ks|] == ks;
  }

  lemma {:induction false} DistinctAt(env: Env, ks: seq<ManagedKey>, n: nat)
    requires Distinct(env, ks) && n < |ks|
    ensures Lookup(env, ks[..n], IdOf(env, ks[n])).None?
    decreases |ks|
  {
    if n < |ks| - 1 {
      DistinctAt(env, ks[..|ks| - 1], n);
      assert ks[..|ks| - 1][..n] == ks[..n];
    }
  }

  /** An observed key that may be added: a key-signing key that is not revoked. */
  predicate Addable(o: Observed) { !o.key.revoke && o.key.sep }

  /** No key that may be added comes after another observation of the same identity. */
  ghost predicate NoLateDuplicate(obs: seq<Observed>) {
    forall j :: 0 <= j < |obs| && Addable(obs[j]) ==> Position(obs, IdSeen(obs[j])) == j
  }

  /** Visiting an entry changes nothing for other identities, and steps its own. */
  lemma VisitLookup(env: Env, o: Outcome, k: ManagedKey, status: Option<Status>, id: Id)
    requires IdOf(env, k) == id ==> Lookup(env, o.next, id).None?
    ensures Lookup(env, Visit(o, k, status).next, id) == if IdOf(env, k) == id then status else Lookup(env, o.next, id)
  {
    if status.Some? { LookupAppend(env, o.next, Updated(k, status.value), id); }
  }

  predicate NewTo(env: Env, o: Outcome, id: Id) { Lookup(env, o.next, id).None? }

  /** No identity twice in the list; the inductions state it as an equation, which keeps it folded. */
  ghost predicate NoneTwice(env: Env, o: Outcome) { Distinct(env, o.next) }

  lemma VisitDistinct(env: Env, o: Outcome, k: ManagedKey, status: Option<Status>)
    requires NoneTwice(env, o) && NewTo(env, o, IdOf(env, k))
    ensures NoneTwice(env, Visit(o, k, status))
  {
    if status.Some? { DistinctAppend(env, o.next, Updated(k, status.value)); }
  }

  function StepKnown(status: Option<Status>, seen: Option<Dnskey>, now: nat, holdDown: nat): Option<Status> {
    if status.None? then None else StepKey(status, seen, now, holdDown)
  }

  lemma PrefixLookup(env: Env, state: seq<ManagedKey>, n: nat, id: Id)
    requires Distinct(env, state) && n < |state|
    ensures Lookup(env, state[..n], IdOf(env, state[n])).None?
    ensures Lookup(env, state[..n + 1], id)
            == if IdOf(env, state[n]) == id then Some(state[n].status) else Lookup(env, state[..n], id)
  {
    assert state[..n + 1] == state[..n] + [state[n]];
    DistinctAt(env, state, n);
    LookupAppend(env, state[..n], state[n], id);
  }

  /** The list built so far holds for `id` what its known status steps to. */
  predicate FollowsKnown(env: Env, o: Outcome, r: Refresh, id: Id, known: Option<Status>) {
    Lookup(env, o.next, id) == StepKnown(known, Seen(r.obs, id), r.now, env.holdDown)
  }

  /** One more entry. */
  lemma VisitStep(env: Env, o: Outcome, k: ManagedKey, r: Refresh, id: Id, known: Option<Status>)
    requires FollowsKnown(env, o, r, id, known) && (IdOf(env, k) == id ==> known.None?)
    ensures FollowsKnown(env, Visit(o, k, Stepped(env, k, r)), r, id,
                         if IdOf(env, k) == id then Some(k.status) else known)
  {
    VisitLookup(env, o, k, Stepped(env, k, r), id);
  }

  lemma {:induction false} VisitedLookup(env: Env, state: seq<ManagedKey>, r: Refresh, n: nat, id: Id)
    requires Distinct(env, state) && n <= |state|
    ensures FollowsKnown(env, Visited(env, state, r, n), r, id, Lookup(env, state[..n], id))
  {
    for i := 0 to n
      invariant FollowsKnown(env, Visited(env, state, r, i), r, id, Lookup(env, state[..i], id))
    {
      PrefixLookup(env, state, i, id);
      VisitStep(env, Visited(env, state, r, i), state[i], r, id, Lookup(env, state[..i], id));
    }
  }

  lemma {:induction false} VisitedNew(env: Env, state: seq<ManagedKey>, r: Refresh, n: nat)
    requires Distinct(env, state) && n < |state|
    ensures NewTo(env, Visited(env, state, r, n), IdOf(env, state[n]))
  {
    DistinctAt(env, state, n);
    VisitedLookup(env, state, r, n, IdOf(env, state[n]));
  }

  lemma {:induction false} VisitOneMore(env: Env, state: seq<ManagedKey>, r: Refresh, n: nat)
    requires n < |state| && NewTo(env, Visited(env, state, r, n), IdOf(env, state[n]))
    requires NoneTwice(env, Visited(env, state, r, n))
    ensures NoneTwice(env, Visited(env, state, r, n + 1))
  {
    VisitDistinct(env, Visited(env, state, r, n), state[n], Stepped(env, state[n], r));
  }

  lemma {:induction false} VisitedDistinct(env: Env, state: seq<ManagedKey>, r: Refresh, n: nat)
    requires Distinct(env, state) && n <= |state|
    ensures NoneTwice(env, Visited(env, state, r, n)) == true
  {
    for i := 0 to n
      invariant NoneTwice(env, Visited(env, state, r, i)) == true
    {
      VisitedNew(env, state, r, i);
      VisitOneMore(env, state, r, i);
    }
  }

  lemma FreshIdentity(env: Env, o: Observed, status: Status)
    requires env.Lossless()
    ensures IdOf(env, FromObserved(env, o, status)) == IdSeen(o)
  {}

  lemma {:induction false} MatchedMeansKnown(env: Env, state: seq<ManagedKey>, r: Refresh, n: nat, i: nat)
    requires n <= |state| && i < |r.obs| && Position(r.obs, IdSeen(r.obs[i])) == i
    ensures Matched(env, state, r, n, i) <==> Lookup(env, state[..n], IdSeen(r.obs[i])).Some?
    decreases n
  {
    if n > 0 {
      MatchedMeansKnown(env, state, r, n - 1, i);
      var k := state[n - 1];
      assert state[..n] == state[..n - 1] + [k];
      LookupAppend(env, state[..n - 1], k, IdSeen(r.obs[i]));
      if IdOf(env, k) == IdSeen(r.obs[i]) {
        var p := Position(r.obs, IdOf(env, k));
        assert p == i;
      }
    }
  }

  /** What the first `i` observed keys contribute for `id`. */
  function StepSeen(status: Option<Status>, seen: Option<Dnskey>, known: bool, now: nat,
                    holdDown: nat): Option<Status> {
    if known then StepKey(status, seen, now, holdDown) else StepKnown(status, seen, now, holdDown)
  }

  lemma AdmittedMeansUnknown(env: Env, state: seq<ManagedKey>, r: Refresh, i: nat)
    requires i < |r.obs| && Position(r.obs, IdSeen(r.obs[i])) == i
    ensures Admitted(env, state, r, i) <==> Lookup(env, state, IdSeen(r.obs[i])).None? && Addable(r.obs[i])
  {
    MatchedMeansKnown(env, state, r, |state|, i);
    assert state[..|state|] == state;
  }

  /** One observed key: only its own identity is affected. */
  lemma AdmitLookup(env: Env, state: seq<ManagedKey>, r: Refresh, i: nat, id: Id)
    requires env.Lossless() && i < |r.obs|
    ensures var before, after := Extended(env, state, r, i).next, Extended(env, state, r, i + 1).next;
            Lookup(env, after, id) == if Admitted(env, state, r, i) && IdSeen(r.obs[i]) == id
                                      then Some(PendingAdd(r.now)) else Lookup(env, before, id)
  {
    FreshIdentity(env, r.obs[i], PendingAdd(r.now));
    LookupAppend(env, Extended(env, state, r, i).next, FromObserved(env, r.obs[i], PendingAdd(r.now)), id);
  }

  predicate FollowsSeen(env: Env, o: Outcome, r: Refresh, id: Id, known: Option<Status>, i: nat) {
    Lookup(env, o.next, id) == StepSeen(known, Seen(r.obs, id), Position(r.obs, id) < i, r.now, env.holdDown)
  }

  /** One more observed key. */
  lemma ExtendStep(env: Env, state: seq<ManagedKey>, r: Refresh, i: nat, id: Id)
    requires env.Lossless() && NoLateDuplicate(r.obs) && i < |r.obs|
    requires FollowsSeen(env, Extended(env, state, r, i), r, id, Lookup(env, state, id), i)
    ensures FollowsSeen(env, Extended(env, state, r, i + 1), r, id, Lookup(env, state, id), i + 1)
  {
    AdmitLookup(env, state, r, i, id);
    var p := Position(r.obs, id);
    if p == i { AdmittedMeansUnknown(env, state, r, i); }
  }

  lemma {:induction false} ExtendedLookup(env: Env, state: seq<ManagedKey>, r: Refresh, i: nat, id: Id)
    requires env.Lossless() && Distinct(env, state) && NoLateDuplicate(r.obs) && i <= |r.obs|
    ensures FollowsSeen(env, Extended(env, state, r, i), r, id, Lookup(env, state, id), i)
    decreases i
  {
    if i == 0 {
      VisitedLookup(env, state, r, |state|, id);
      assert state[..|state|] == state;
    } else {
      ExtendedLookup(env, state, r, i - 1, id);
      ExtendStep(env, state, r, i - 1, id);
    }
  }

  /** A key admitted by the second loop is not listed yet. */
  lemma AdmittedIsNew(env: Env, state: seq<ManagedKey>, r: Refresh, i: nat)
    requires env.Lossless() && Distinct(env, state) && NoLateDuplicate(r.obs) && i < |r.obs| &&
             Admitted(env, state, r, i)
    ensures NewTo(env, Extended(env, state, r, i), IdSeen(r.obs[i]))
  {
    ExtendedLookup(env, state, r, i, IdSeen(r.obs[i]));
    AdmittedMeansUnknown(env, state, r, i);
  }

  lemma {:induction false} AdmitDistinct(env: Env, state: seq<ManagedKey>, r: Refresh, i: nat)
    requires env.Lossless() && Distinct(env, state) && NoLateDuplicate(r.obs) && i < |r.obs|
    requires NoneTwice(env, Extended(env, state, r, i))
    ensures NoneTwice(env, Extended(env, state, r, i + 1))
  {
    if Admitted(env, state, r, i) {
      FreshIdentity(env, r.obs[i], PendingAdd(r.now));
      AdmittedIsNew(env, state, r, i);
      DistinctAppend(env, Extended(env, state, r, i).next, FromObserved(env, r.obs[i], PendingAdd(r.now)));
    }
  }

  lemma {:induction false} ExtendedDistinct(env: Env, state: seq<ManagedKey>, r: Refresh, n: nat)
    requires env.Lossless() && Distinct(env, state) && NoLateDuplicate(r.obs) && n <= |r.obs|
    ensures NoneTwice(env, Extended(env, state, r, n)) == true
  {
    VisitedDistinct(env, state, r, |state|);
    for i := 0 to n
      invariant NoneTwice(env, Extended(env, state, r, i)) == true
    {
      AdmitDistinct(env, state, r, i);
    }
  }

  /** The list algorithm is, for every key, one step of its automaton; identities stay distinct. */
  lemma RefreshStepsEachKey(env: Env, state: seq<ManagedKey>, r: Refresh, id: Id)
    requires env.Lossless() && Distinct(env, state) && NoLateDuplicate(r.obs)
    ensures Lookup(env, Applied(env, state, r).next, id)
            == StepKey(Lookup(env, state, id), Seen(r.obs, id), r.now, env.holdDown)
    ensures Distinct(env, Applied(env, state, r).next)
  {
    ExtendedLookup(env, state, r, |r.obs|, id);
    ExtendedDistinct(env, state, r, |r.obs|);
  }

  /** The refresh is, for every key, one step of its automaton, and leaves identities distinct. */
  ghost predicate StepsEachKey(env: Env, state: seq<ManagedKey>, r: Refresh) {
    var next := Applied(env, state, r).next;
    && Distinct(env, next)
    && forall id :: Lookup(env, next, id) == StepKey(Lookup(env, state, id), Seen(r.obs, id), r.now, env.holdDown)
  }

  lemma {:induction false} LateIsUnmatched(env: Env, state: seq<ManagedKey>, r: Refresh, n: nat, j: nat)
    requires n <= |state| && j < |r.obs| && Position(r.obs, IdSeen(r.obs[j])) != j
    ensures !Matched(env, state, r, n, j)
    decreases n
  {
    if n > 0 { LateIsUnmatched(env, state, r, n - 1, j); }
  }

  /** The status of an identity after the first `i` observed keys. */
  function ListedAfter(env: Env, state: seq<ManagedKey>, r: Refresh, i: nat, id: Id): Option<Status>
    requires i <= |r.obs|
  {
    Lookup(env, Extended(env, state, r, i).next, id)
  }

  /** An identity listed after some observed keys stays listed, as a new key once it is admitted. */
  lemma {:induction false} ListedStays(env: Env, state: seq<ManagedKey>, r: Refresh, j: nat, i: nat, id: Id)
    requires env.Lossless() && j <= i <= |r.obs| && ListedAfter(env, state, r, j, id).Some?
    ensures ListedAfter(env, state, r, i, id) in {ListedAfter(env, state, r, j, id), Some(PendingAdd(r.now))}
    decreases i
  {
    if j < i {
      ListedStays(env, state, r, j, i - 1, id);
      AdmitLookup(env, state, r, i - 1, id);
    }
  }

  lemma {:induction false} DistinctStart(env: Env, ks: seq<ManagedKey>, k: ManagedKey)
    requires Distinct(env, ks + [k])
    ensures Distinct(env, ks) && Lookup(env, ks, IdOf(env, k)).None?
  {
    assert (ks + [k])[..|ks|] == ks;
  }

  lemma {:induction false} DistinctUpTo(env: Env, state: seq<ManagedKey>, r: Refresh, j: nat, i: nat)
    requires j <= i <= |r.obs| && NoneTwice(env, Extended(env, state, r, i))
    ensures NoneTwice(env, Extended(env, state, r, j))
    decreases i
  {
    if j < i {
      if Admitted(env, state, r, i - 1) {
        DistinctStart(env, Extended(env, state, r, i - 1).next, FromObserved(env, r.obs[i - 1], PendingAdd(r.now)));
      }
      DistinctUpTo(env, state, r, j, i - 1);
    }
  }

  /** A late duplicate that may be added is added. */
  lemma LateIsAdded(env: Env, state: seq<ManagedKey>, r: Refresh, j: nat)
    requires env.Lossless() && j < |r.obs| && Addable(r.obs[j]) && Position(r.obs, IdSeen(r.obs[j])) != j
    ensures Admitted(env, state, r, j)
    ensures ListedAfter(env, state, r, |r.obs|, IdSeen(r.obs[j])) == Some(PendingAdd(r.now))
  {
    LateIsUnmatched(env, state, r, |state|, j);
    AdmitLookup(env, state, r, j, IdSeen(r.obs[j]));
    ListedStays(env, state, r, j + 1, |r.obs|, IdSeen(r.obs[j]));
  }

  /** If its automaton says it is newly added, an identity is listed once its first observation is past. */
  lemma ListedByFirst(env: Env, state: seq<ManagedKey>, r: Refresh, j: nat, id: Id)
    requires env.Lossless() && Distinct(env, state) && Position(r.obs, id) < j <= |r.obs|
    requires StepKey(Lookup(env, state, id), Seen(r.obs, id), r.now, env.holdDown).Some?
    ensures ListedAfter(env, state, r, j, id).Some?
  {
    if Lookup(env, state, id).None? {
      var p := Position(r.obs, id);
      AdmittedMeansUnknown(env, state, r, p);
      AdmitLookup(env, state, r, p, id);
      ListedStays(env, state, r, p + 1, j, id);
    } else {
      VisitedLookup(env, state, r, |state|, id);
      assert state[..|state|] == state;
      ListedStays(env, state, r, 0, j, id);
    }
  }

  /** Adding an identity that is listed leaves two entries with it. */
  lemma AddedTwice(env: Env, state: seq<ManagedKey>, r: Refresh, j: nat)
    requires env.Lossless() && j < |r.obs| && Admitted(env, state, r, j)
    requires ListedAfter(env, state, r, j, IdSeen(r.obs[j])).Some?
    ensures !Distinct(env, Applied(env, state, r).next)
  {
    if Distinct(env, Applied(env, state, r).next) {
      DistinctUpTo(env, state, r, j + 1, |r.obs|);
      FreshIdentity(env, r.obs[j], PendingAdd(r.now));
      DistinctStart(env, Extended(env, state, r, j).next, FromObserved(env, r.obs[j], PendingAdd(r.now)));
    }
  }

  /** After a late duplicate that may be added, some key is not where its automaton says or is listed twice. */
  lemma LateDuplicateBreaks(env: Env, state: seq<ManagedKey>, r: Refresh, j: nat)
    requires env.Lossless() && Distinct(env, state)
    requires j < |r.obs| && Addable(r.obs[j]) && Position(r.obs, IdSeen(r.obs[j])) != j
    ensures !StepsEachKey(env, state, r)
  {
    LateIsAdded(env, state, r, j);
    var id := IdSeen(r.obs[j]);
    if Lookup(env, Applied(env, state, r).next, id)
       == StepKey(Lookup(env, state, id), Seen(r.obs, id), r.now, env.holdDown) {
      ListedByFirst(env, state, r, j, id);
      AddedTwice(env, state, r, j);
    }
  }

  /** The shortest such refresh: the same new key observed twice is listed twice. */
  lemma RepeatedKeyListedTwice(env: Env, o: Observed, now: nat)
    requires Addable(o)
    ensures var k := FromObserved(env, o, PendingAdd(now)); Applied(env, [], Refresh([o, o], now)).next == [k, k]
    ensures env.Lossless() ==> !StepsEachKey(env, [], Refresh([o, o], now))
  {
    var r := Refresh([o, o], now);
    assert Admitted(env, [], r, 0) && Admitted(env, [], r, 1);
    assert Extended(env, [], r, 1).next == [FromObserved(env, o, PendingAdd(now))];
    if env.Lossless() { LateDuplicateBreaks(env, [], r, 1); }
  }

  /** A refresh steps every key's automaton exactly when no key that may be added repeats an earlier identity. */
  lemma StepsEachKeyIff(env: Env, state: seq<ManagedKey>, r: Refresh)
    requires env.Lossless() && Distinct(env, state)
    ensures StepsEachKey(env, state, r) <==> NoLateDuplicate(r.obs)
  {
    if NoLateDuplicate(r.obs) {
      forall id ensures Lookup(env, Applied(env, state, r).next, id)
                        == StepKey(Lookup(env, state, id), Seen(r.obs, id), r.now, env.holdDown) {
        RefreshStepsEachKey(env, state, r, id);
      }
      RefreshStepsEachKey(env, state, r, Id("", 0, []));
    } else {
      var j :| 0 <= j < |r.obs| && Addable(r.obs[j]) && Position(r.obs, IdSeen(r.obs[j])) != j;
      LateDuplicateBreaks(env, state, r, j);
    }
  }

  // ---- whole runs ----

  /** A run: the refreshes in order, and the key list before and after each of them. */
  datatype Run = Run(states: seq<seq<ManagedKey>>, refreshes: seq<Refresh>) {
    /** Each list is what the refresh made of the one before. */
    ghost predicate Linked(env: Env) {
      && |states| == |refreshes| + 1
      && forall i :: 0 <= i < |refreshes| ==> states[i + 1] == Applied(env, states[i], refreshes[i]).next
    }

    ghost predicate Valid(env: Env) {
      && env.Lossless() && Linked(env) && Distinct(env, states[0])
      && (forall i :: 0 <= i < |refreshes| ==> NoLateDuplicate(refreshes[i].obs))
    }

    function StatusAt(env: Env, id: Id, i: nat): Option<Status> requires i < |states| { Lookup(env, states[i], id) }

    function SeenAt(id: Id, i: nat): Option<Dnskey> requires i < |refreshes| { Seen(refreshes[i].obs, id) }
  }

  predicate Unrevoked(seen: Option<Dnskey>) { seen.Some? && !seen.value.revoke }
  predicate SeenRevoked(seen: Option<Dnskey>) { seen.Some? && seen.value.revoke }

  lemma {:induction false} RunDistinct(env: Env, run: Run, i: nat)
    requires run.Valid(env) && i < |run.states|
    ensures Distinct(env, run.states[i])
    decreases i
  {
    if i > 0 {
      RunDistinct(env, run, i - 1);
      RefreshStepsEachKey(env, run.states[i - 1], run.refreshes[i - 1], Id("", 0, []));
    }
  }

  lemma RunStep(env: Env, run: Run, id: Id, i: nat)
    requires run.Valid(env) && i < |run.refreshes|
    ensures run.StatusAt(env, id, i + 1)
            == StepKey(run.StatusAt(env, id, i), run.SeenAt(id, i), run.refreshes[i].now, env.holdDown)
  {
    RunDistinct(env, run, i);
    RefreshStepsEachKey(env, run.states[i], run.refreshes[i], id);
  }

  // ---- the history of one key ----

  /** One key over a run: its status before and after each refresh, and what each refresh saw of it. */
  datatype History = History(status: seq<Option<Status>>, seen: seq<Option<Dnskey>>, now: seq<nat>) {
    ghost predicate Steps(holdDown: nat) {
      && |seen| == |now| && |status| == |seen| + 1
      && forall i :: 0 <= i < |seen| ==> StepsAt(i, holdDown)
    }

    ghost predicate StepsAt(i: nat, holdDown: nat)
      requires |seen| == |now| && |status| == |seen| + 1 && i < |seen|
    {
      status[i + 1] == StepKey(status[i], seen[i], now[i], holdDown)
    }
  }

  ghost function HistoryOf(env: Env, run: Run, id: Id): (h: History)
    requires |run.states| == |run.refreshes| + 1
    ensures |h.status| == |run.states| && |h.seen| == |h.now| == |run.refreshes|
    ensures forall i :: 0 <= i < |run.states| ==> h.status[i] == run.StatusAt(env, id, i)
    ensures forall i :: 0 <= i < |run.refreshes| ==> h.seen[i] == run.SeenAt(id, i) && h.now[i] == run.refreshes[i].now
  {
    History(seq(|run.states|, i requires 0 <= i < |run.states| => run.StatusAt(env, id, i)),
            seq(|run.refreshes|, i requires 0 <= i < |run.refreshes| => run.SeenAt(id, i)),
            seq(|run.refreshes|, i requires 0 <= i < |run.refreshes| => run.refreshes[i].now))
  }

  /** In every run, every key's history follows its automaton. */
  lemma HistorySteps(env: Env, run: Run, id: Id)
    requires run.Valid(env)
    ensures HistoryOf(env, run, id).Steps(env.holdDown)
  {
    var h := HistoryOf(env, run, id);
    forall i: nat | i < |h.seen| ensures h.StepsAt(i, env.holdDown) {
      RunStep(env, run, id, i);
    }
  }

  /** From refresh `m` (exclusive of its own observation) to `n`, the key waited with the same start time. */
  ghost predicate Waited(h: History, m: nat, n: nat, t: nat)
    requires m <= n < |h.status| && |h.status| == |h.seen| + 1
  {
    && (forall j :: m <= j <= n ==> h.status[j] == Some(PendingAdd(t)))
    && (forall j :: m <= j < n ==> Unrevoked(h.seen[j]))
  }

  /** A pending key has waited since the start of the run or since the refresh that added it. */
  lemma {:induction false} PendingOrigin(h: History, holdDown: nat, n: nat) returns (m: nat)
    requires h.Steps(holdDown) && n < |h.status| && h.status[n].Some? && h.status[n].value.PendingAdd?
    ensures m <= n && Waited(h, m, n, h.status[n].value.addedAt)
    ensures m == 0 || (&& h.status[m - 1].None? && Unrevoked(h.seen[m - 1]) && h.seen[m - 1].value.sep
                       && h.now[m - 1] == h.status[n].value.addedAt)
    decreases n
  {
    m := n;
    if n > 0 {
      assert h.StepsAt(n - 1, holdDown);
      if h.status[n - 1].Some? { m := PendingOrigin(h, holdDown, n - 1); }
    }
  }

  /** From `m` to `n` the key was Active throughout and never seen revoked. */
  ghost predicate StayedActive(h: History, m: nat, n: nat)
    requires m <= n < |h.status| && |h.status| == |h.seen| + 1
  {
    (forall j :: m <= j <= n ==> h.status[j] == Some(Active)) && (forall j :: m <= j < n ==> !SeenRevoked(h.seen[j]))
  }

  /** An Active key has been so since the start of the run or since the refresh that promoted it. */
  lemma {:induction false} ActiveOrigin(h: History, holdDown: nat, n: nat) returns (m: nat)
    requires h.Steps(holdDown) && n < |h.status| && h.status[n] == Some(Active)
    ensures m <= n && StayedActive(h, m, n)
    ensures m == 0 || (&& h.status[m - 1].Some? && h.status[m - 1].value.PendingAdd? && Unrevoked(h.seen[m - 1])
                       && SaturatingSub(h.now[m - 1], h.status[m - 1].value.addedAt) >= holdDown)
    decreases n
  {
    m := n;
    if n > 0 {
      assert h.StepsAt(n - 1, holdDown);
      if h.status[n - 1] == Some(Active) { m := ActiveOrigin(h, holdDown, n - 1); }
    }
  }

  /**
   Hold-down over a whole run.  A key absent at refresh `from` and Active at `n` was admitted by some
   later refresh `a` (not held before it, SEP set, not revoked), then seen unrevoked in every refresh
   up to one `b` at least the hold-down after `a`, and has not been seen revoked since.
   */
  ghost predicate WentThroughHoldDown(h: History, holdDown: nat, from: nat, n: nat, a: nat, b: nat)
    requires |h.status| == |h.seen| + 1 && |h.seen| == |h.now| && n < |h.status|
  {
    && from <= a < b < n
    && h.status[a].None? && Unrevoked(h.seen[a]) && h.seen[a].value.sep
    && (forall j :: a < j <= b ==> Unrevoked(h.seen[j]) && h.status[j] == Some(PendingAdd(h.now[a])))
    && SaturatingSub(h.now[b], h.now[a]) >= holdDown
    && (forall j :: b < j < n ==> !SeenRevoked(h.seen[j]) && h.status[j] == Some(Active))
  }

  lemma HoldDownOf(h: History, holdDown: nat, from: nat, n: nat) returns (a: nat, b: nat)
    requires h.Steps(holdDown) && from <= n < |h.status| && h.status[from].None? && h.status[n] == Some(Active)
    ensures WentThroughHoldDown(h, holdDown, from, n, a, b)
  {
    var m := ActiveOrigin(h, holdDown, n);
    assert m > from;
    b := m - 1;
    var p := PendingOrigin(h, holdDown, b);
    assert p > from;
    a := p - 1;
  }

  lemma HoldDown(env: Env, run: Run, id: Id, from: nat, n: nat) returns (a: nat, b: nat)
    requires run.Valid(env) && from <= n < |run.states|
    requires run.StatusAt(env, id, from).None? && run.StatusAt(env, id, n) == Some(Active)
    ensures WentThroughHoldDown(HistoryOf(env, run, id), env.holdDown, from, n, a, b)
  {
    HistorySteps(env, run, id);
    a, b := HoldDownOf(HistoryOf(env, run, id), env.holdDown, from, n);
  }

  /**
   What the refreshes alone must show: added at `a`, seen unrevoked up to `b`, the hold-down over, never
   revoked since.
   */
  ghost predicate HeldDown(h: History, holdDown: nat, from: nat, n: nat, a: nat, b: nat) {
    && |h.status| == |h.seen| + 1 && |h.seen| == |h.now| && n < |h.status| && from <= a < b < n
    && h.status[a].None? && Unrevoked(h.seen[a]) && h.seen[a].value.sep
    && (forall j :: a < j <= b ==> Unrevoked(h.seen[j]))
    && SaturatingSub(h.now[b], h.now[a]) >= holdDown
    && forall j :: b < j < n ==> !SeenRevoked(h.seen[j])
  }

  /** Seen unrevoked after it was added, a key waits with its first time stamp or is Active already. */
  lemma {:induction false} WaitsOrActive(h: History, holdDown: nat, a: nat, j: nat)
    requires h.Steps(holdDown) && a < j < |h.status|
    requires h.status[a].None? && Unrevoked(h.seen[a]) && h.seen[a].value.sep
    requires forall i :: a < i < j ==> Unrevoked(h.seen[i])
    ensures h.status[j] == Some(PendingAdd(h.now[a])) || h.status[j] == Some(Active)
    decreases j
  {
    assert h.StepsAt(j - 1, holdDown);
    if a + 1 < j { WaitsOrActive(h, holdDown, a, j - 1); }
  }

  lemma {:induction false} StaysActive(h: History, holdDown: nat, m: nat, n: nat)
    requires h.Steps(holdDown) && m <= n < |h.status| && h.status[m] == Some(Active)
    requires forall j :: m <= j < n ==> !SeenRevoked(h.seen[j])
    ensures h.status[n] == Some(Active)
    decreases n
  {
    if m < n {
      StaysActive(h, holdDown, m, n - 1);
      assert h.StepsAt(n - 1, holdDown);
    }
  }

  lemma HeldDownIsActive(h: History, holdDown: nat, from: nat, n: nat, a: nat, b: nat)
    requires h.Steps(holdDown) && HeldDown(h, holdDown, from, n, a, b)
    ensures h.status[n] == Some(Active)
  {
    WaitsOrActive(h, holdDown, a, b);
    assert h.StepsAt(b, holdDown);
    StaysActive(h, holdDown, b + 1, n);
  }

  /**
   The hold-down rule, both ways: a key absent at one point is Active later if and only if it was added since,
   seen unrevoked in every refresh up to one at least the hold-down later, and not seen revoked since.
   */
  lemma ActiveIffHeldDown(env: Env, run: Run, id: Id, from: nat, n: nat)
    requires run.Valid(env) && from <= n < |run.states| && run.StatusAt(env, id, from).None?
    ensures run.StatusAt(env, id, n) == Some(Active) <==>
              exists a: nat, b: nat :: HeldDown(HistoryOf(env, run, id), env.holdDown, from, n, a, b)
  {
    HistorySteps(env, run, id);
    var h := HistoryOf(env, run, id);
    if run.StatusAt(env, id, n) == Some(Active) {
      var a, b := HoldDownOf(h, env.holdDown, from, n);
      assert HeldDown(h, env.holdDown, from, n, a, b);
    }
    if a: nat, b: nat :| HeldDown(h, env.holdDown, from, n, a, b) { HeldDownIsActive(h, env.holdDown, from, n, a, b); }
  }

  /** An Active key stays Active until a refresh sees it revoked. */
  lemma {:induction false} ActiveUntilRevoked(env: Env, run: Run, id: Id, m: nat, n: nat)
    requires run.Valid(env) && m <= n < |run.states| && run.StatusAt(env, id, m) == Some(Active)
    requires forall j :: m <= j < n && j < |run.refreshes| ==> !SeenRevoked(run.SeenAt(id, j))
    ensures run.StatusAt(env, id, n) == Some(Active)
    decreases n
  {
    if m < n {
      ActiveUntilRevoked(env, run, id, m, n - 1);
      RunStep(env, run, id, n - 1);
    }
  }

  /** A revoked key leaves the Revoked state only by a refresh that does not see it at all. */
  lemma {:induction false} RevokedUntilAbsent(h: History, holdDown: nat, m: nat, n: nat) returns (gone: nat)
    requires h.Steps(holdDown) && m <= n < |h.status|
    requires h.status[m].Some? && h.status[m].value.Revoked? && h.status[n] == Some(Active)
    ensures m <= gone < n && h.seen[gone].None? && h.status[gone + 1].None?
    decreases n - m
  {
    assert h.StepsAt(m, holdDown);
    gone := m;
    if h.status[m + 1].Some? { gone := RevokedUntilAbsent(h, holdDown, m + 1, n); }
  }

  /** A revoked key is Active again only after an absence followed by a full new hold-down. */
  lemma NoSilentReturn(env: Env, run: Run, id: Id, m: nat, n: nat) returns (gone: nat, a: nat, b: nat)
    requires run.Valid(env) && m <= n < |run.states|
    requires run.StatusAt(env, id, m).Some? && run.StatusAt(env, id, m).value.Revoked?
    requires run.StatusAt(env, id, n) == Some(Active)
    ensures m <= gone < n && run.SeenAt(id, gone).None?
    ensures WentThroughHoldDown(HistoryOf(env, run, id), env.holdDown, gone + 1, n, a, b)
  {
    HistorySteps(env, run, id);
    gone := RevokedUntilAbsent(HistoryOf(env, run, id), env.holdDown, m, n);
    a, b := HoldDownOf(HistoryOf(env, run, id), env.holdDown, gone + 1, n);
  }
}
