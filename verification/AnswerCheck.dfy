/**
 The last stage of validation: the answer's RRsets, or the denial records of an empty answer, against
 the keys the walk has come to trust.  Secure means that everything relied on was signed by a derived
 key, and for a denial that the signed records prove the absence.
 */
module AnswerCheck {
  import opened Basics
  import opened Names
  import opened Trust
  import opened KeyChain
  import Denial = NsecDenial
  import Denial3 = Nsec3Denial

  type Status = Denial.Outcome

  datatype Response = Response(answers: seq<Record>, authorities: seq<Record>, rcode: Denial.Rcode)

  /** NSEC3 hashing under a salt and an iteration count, and base32hex decoding of an owner label. */
  datatype HashLib = HashLib(hash: (string, nat) -> Denial3.Hasher, decode: Label -> Option<Denial3.Hash>)

  // ---- record sets ----

  datatype GroupKey = GroupKey(owner: Name, rtype: RType, rclass: nat)

  function GroupOf(r: Record): GroupKey { GroupKey(r.owner, r.Type(), r.rclass) }

  /** The records of a group, in order; signatures belong to no group. */
  function Members(records: seq<Record>, g: GroupKey): seq<Record> {
    if records == [] then []
    else Members(records[..|records| - 1], g) + OwnMember(records[|records| - 1], g)
  }

  /** The record itself if it belongs to the group. */
  function OwnMember(r: Record, g: GroupKey): seq<Record> { if !r.data.SigData? && GroupOf(r) == g then [r] else [] }

  lemma {:induction false} OneMoreMember(records: seq<Record>, i: nat, g: GroupKey)
    requires i < |records|
    ensures Members(records[..i + 1], g) == Members(records[..i], g) + OwnMember(records[i], g)
  {
    assert records[..i + 1][..i] == records[..i];
  }

  lemma {:induction false} MembersHas(records: seq<Record>, g: GroupKey)
    ensures forall r :: r in Members(records, g) <==> r in records && !r.data.SigData? && GroupOf(r) == g
  {
    if records != [] { MembersHas(records[..|records| - 1], g); }
  }

  predicate IsDenial(r: Record, rtype: RType) {
    (rtype == NSEC && r.data.NsecData?) || (rtype == NSEC3 && r.data.Nsec3Data?)
  }

  /** The denial records of one type at an owner, in order. */
  function OwnerSet(records: seq<Record>, rtype: RType, owner: Name): seq<Record> {
    if records == [] then []
    else
      var last := records[|records| - 1];
      OwnerSet(records[..|records| - 1], rtype, owner) +
        (if IsDenial(last, rtype) && last.owner == owner then [last] else [])
  }

  lemma {:induction false} OwnerSetHas(records: seq<Record>, rtype: RType, owner: Name)
    ensures forall r :: r in OwnerSet(records, rtype, owner) <==> r in records && IsDenial(r, rtype) && r.owner == owner
  {
    if records != [] { OwnerSetHas(records[..|records| - 1], rtype, owner); }
  }

  /** The first signature at the owner covering the type. */
  function SigFor(records: seq<Record>, owner: Name, covered: RType): (s: Option<Rrsig>)
    ensures s.Some? ==>
              s.value.covered == covered && exists r :: r in records && r.owner == owner && r.data == SigData(s.value)
    ensures s.None? ==> forall r :: r in records && r.owner == owner && r.data.SigData? ==>
            r.data.sig.covered != covered
  {
    if records == [] then None
    else if records[0].owner == owner && records[0].data.SigData? && records[0].data.sig.covered == covered then
      Some(records[0].data.sig)
    else SigFor(records[1..], owner, covered)
  }

  method GroupAnswers(answers: seq<Record>) returns (groups: map<GroupKey, seq<Record>>)
    ensures forall g :: g in groups <==> Members(answers, g) != []
    ensures forall g :: g in groups ==> groups[g] == Members(answers, g)
  {
    groups := map[];
    for i := 0 to |answers|
      invariant forall g :: g in groups <==> Members(answers[..i], g) != []
      invariant forall g :: g in groups ==> groups[g] == Members(answers[..i], g)
    {
      var r := answers[i];
      forall g ensures Members(answers[..i + 1], g) == Members(answers[..i], g) + OwnMember(r, g) {
        OneMoreMember(answers, i, g);
      }
      if !r.data.SigData? {
        var g := GroupOf(r);
        groups := groups[g := (if g in groups then groups[g] else []) + [r]];
      }
    }
    assert answers[..|answers|] == answers;
  }

  method GroupOwners(records: seq<Record>, rtype: RType) returns (sets: map<Name, seq<Record>>)
    ensures forall o :: o in sets <==> OwnerSet(records, rtype, o) != []
    ensures forall o :: o in sets ==> sets[o] == OwnerSet(records, rtype, o)
  {
    sets := map[];
    for i := 0 to |records|
      invariant forall o :: o in sets <==> OwnerSet(records[..i], rtype, o) != []
      invariant forall o :: o in sets ==> sets[o] == OwnerSet(records[..i], rtype, o)
    {
      assert records[..i + 1][..i] == records[..i];
      var r := records[i];
      if IsDenial(r, rtype) {
        sets := sets[r.owner := (if r.owner in sets then sets[r.owner] else []) + [r]];
      }
    }
    assert records[..|records|] == records;
  }

  // ---- signatures ----

  /** The set at the owner carries a signature among the records that a derived key vouches for. */
  ghost predicate Attested(t: Trust, records: seq<Record>, owner: Name, rtype: RType, rrset: seq<Record>) {
    SigFor(records, owner, rtype).Some? && Vouched(t, rrset, SigFor(records, owner, rtype).value)
  }

  /** No trusted zone is at or above the name. */
  ghost predicate OutOfReach(chain: Chain, n: Name) { forall e :: e in chain ==> !IsSuffix(e.zone, n) }

  /** Why a set with signature `sig` is not Secure: out of reach, out of time, or signed by none of the closest keys. */
  ghost predicate Unsigned(t: Trust, chain: Chain, rrset: seq<Record>, sig: Rrsig, now: int) {
    !Timely(sig, now) || exists keys :: ClosestKeys(chain, sig.signer, keys) && !t.Signed(rrset, sig, keys)
  }

  /**
   What a set with signature `sig` must meet to pass: the closest keys are those of the signer the signature
   names.
   */
  ghost predicate Passes(t: Trust, chain: Chain, rrset: seq<Record>, sig: Rrsig, now: int) {
    Timely(sig, now) && ClosestSigned(t, chain, sig.signer, rrset, sig)
  }

  /** The set's first signature is there and passes. */
  ghost predicate SetPasses(t: Trust, chain: Chain, records: seq<Record>, owner: Name, rtype: RType, rrset: seq<Record>,
                            now: int) {
    var sig := SigFor(records, owner, rtype);
    sig.Some? && Passes(t, chain, rrset, sig.value, now)
  }

  /** Every set of the answer passes, whenever the clock is read. */
  ghost predicate AnswersPass(t: Trust, chain: Chain, answers: seq<Record>, clock: nat -> int) {
    forall g, n: nat :: Members(answers, g) != [] ==>
      SetPasses(t, chain, answers, g.owner, g.rtype, Members(answers, g), clock(n))
  }

  /** Every set of denial records of the type passes, whenever the clock is read. */
  ghost predicate DenialsPass(t: Trust, chain: Chain, records: seq<Record>, rtype: RType, clock: nat -> int) {
    forall o, n: nat :: OwnerSet(records, rtype, o) != [] ==>
      SetPasses(t, chain, records, o, rtype, OwnerSet(records, rtype, o), clock(n))
  }

  /** Some set of denial records of the type does not pass at a reading of the clock. */
  ghost predicate DenialFails(t: Trust, chain: Chain, records: seq<Record>, rtype: RType, clock: nat -> int) {
    exists o, n: nat :: OwnerSet(records, rtype, o) != []
      && Unattested(t, chain, records, o, rtype, OwnerSet(records, rtype, o), clock(n))
  }

  /** Why a set does not pass: no signature for it, or one that is out of reach or does not hold. */
  ghost predicate Unattested(t: Trust, chain: Chain, records: seq<Record>, owner: Name, rtype: RType,
                             rrset: seq<Record>, now: int) {
    var sig := SigFor(records, owner, rtype);
    sig.None? || OutOfReach(chain, sig.value.signer) || Unsigned(t, chain, rrset, sig.value, now)
  }

  /** One RRset against the chain; the two failure verdicts are told apart by `missing` and `unreachable`. */
  method CheckSet(t: Trust, chain: Chain, records: seq<Record>, owner: Name, rtype: RType, rrset: seq<Record>, now: int,
                  missing: Status, unreachable: Status)
    returns (s: Status)
    requires Sound(t, chain) && missing != Denial.Secure && unreachable != Denial.Secure
    ensures s == Denial.Secure ==> Attested(t, records, owner, rtype, rrset)
    ensures s == Denial.Secure <==> SetPasses(t, chain, records, owner, rtype, rrset, now)
    ensures s != Denial.Secure ==>
              var sig := SigFor(records, owner, rtype);
              || (sig.None? && s == missing)
              || (sig.Some? && OutOfReach(chain, sig.value.signer) && s == unreachable)
              || (sig.Some? && Unsigned(t, chain, rrset, sig.value, now) && s == Denial.Bogus)
  {
    var found := SigFor(records, owner, rtype);
    if found.None? { return missing; }
    var sig := found.value;
    if !Timely(sig, now) { return Denial.Bogus; }
    var keys := ClosestTrustedKeys(chain, sig.signer);
    ClosestSignedIff(t, chain, sig.signer, keys, rrset, sig);
    if keys == [] {
      NoKeysOutOfReach(t, chain, sig.signer);
      return unreachable;
    }
    if !t.Signed(rrset, sig, keys) { return Denial.Bogus; }
    ClosestVouch(t, chain, keys, rrset, sig, now);
    return Denial.Secure;
  }

  lemma NoKeysOutOfReach(t: Trust, chain: Chain, n: Name)
    requires Sound(t, chain) && ClosestKeys(chain, n, [])
    ensures OutOfReach(chain, n)
  {
    if i: nat :| IsClosest(chain, n, i) && chain[i].keys == [] {
      assert chain[i] in chain;
      OutsideAnchors(t, chain[i].zone, chain[i].keys);
    }
  }

  /** Every group of the answer is attested. */
  ghost predicate AllAttested(t: Trust, answers: seq<Record>) {
    forall g {:trigger Attested(t, answers, g.owner, g.rtype, Members(answers, g))} ::
      Members(answers, g) != [] ==> Attested(t, answers, g.owner, g.rtype, Members(answers, g))
  }

  /** The RRset half of `validate_answer_against_chain`, the groups taken in any order. */
  method CheckAnswers(t: Trust, chain: Chain, answers: seq<Record>, groups: map<GroupKey, seq<Record>>,
                      clock: nat -> int)
    returns (s: Status)
    requires Sound(t, chain)
    requires forall g :: g in groups <==> Members(answers, g) != []
    requires forall g :: g in groups ==> groups[g] == Members(answers, g)
    ensures s == Denial.Secure ==> AllAttested(t, answers)
    ensures AnswersPass(t, chain, answers, clock) ==> s == Denial.Secure
    ensures s == Denial.Insecure ==> SomeUnreachable(chain, answers)
    ensures s == Denial.Bogus ==> SomeUnsigned(t, chain, answers, clock)
  {
    var todo, n := groups.Keys, 0;
    while todo != {}
      invariant todo <= groups.Keys
      invariant forall g :: g in groups && g !in todo ==> Attested(t, answers, g.owner, g.rtype, groups[g])
      decreases todo
    {
      var g :| g in todo;
      s := CheckSet(t, chain, answers, g.owner, g.rtype, groups[g], clock(n), Denial.Insecure, Denial.Insecure);
      if s != Denial.Secure { return; }
      todo, n := todo - {g}, n + 1;
    }
    return Denial.Secure;
  }

  // ---- the signer and the owner ----

  /** A zone at or above the owner vouches for the set: a derived key of it signed the set in time. */
  ghost predicate VouchedAbove(t: Trust, owner: Name, rrset: seq<Record>, sig: Rrsig) {
    exists d, now :: VouchedBy(t, rrset, sig, d, now) && IsSuffix(d.zone, owner)
  }

  /** Under this sound chain the set passes, by the keys of the entry at `i`. */
  ghost predicate PassesBy(t: Trust, chain: Chain, rrset: seq<Record>, sig: Rrsig, now: int, i: nat) {
    Sound(t, chain) && Timely(sig, now) && SignedByEntry(t, chain, sig.signer, rrset, sig, i)
  }

  /** Whatever chain the set passes under, the keys are those of a zone at or above the owner. */
  ghost predicate OnlyFromAbove(owner: Name, rrset: seq<Record>, sig: Rrsig) {
    forall t, chain: Chain, now, i: nat :: PassesBy(t, chain, rrset, sig, now, i) ==> IsSuffix(chain[i].zone, owner)
  }

  /** One anchored zone, whose key signed everything. */
  function LoneSigner(zone: Name): Trust { Trust({(zone, "k")}, (rrset, sig, key) => true, (ds, zone, key) => true) }

  /** Under a chain that trusts nothing but the signer, any set with a signature in time passes, whoever owns it. */
  lemma SignerAlonePasses(rrset: seq<Record>, sig: Rrsig)
    requires rrset != [] && sig.inception <= sig.expiration
    ensures PassesBy(LoneSigner(sig.signer), [Entry(sig.signer, ["k"])], rrset, sig, sig.inception, 0)
  {
    var t, chain := LoneSigner(sig.signer), [Entry(sig.signer, ["k"])];
    DeriveAnchored(t, sig.signer, ["k"]);
    assert Suffix(sig.signer, |sig.signer|) == sig.signer;
    assert "k" in chain[0].keys && t.Verifies(rrset, sig, "k");
    assert IsClosest(chain, sig.signer, 0);
  }

  /** A set that can pass at all passes only by keys of zones at or above its owner exactly if its signer is one. */
  lemma FromAboveIffSignerAbove(owner: Name, rrset: seq<Record>, sig: Rrsig)
    requires rrset != [] && sig.inception <= sig.expiration
    ensures OnlyFromAbove(owner, rrset, sig) <==> IsSuffix(sig.signer, owner)
  {
    if IsSuffix(sig.signer, owner) {
      forall t, chain: Chain, now, i: nat | PassesBy(t, chain, rrset, sig, now, i)
        ensures IsSuffix(chain[i].zone, owner)
      {
        SuffixSuffix(owner, |sig.signer|, |chain[i].zone|);
      }
    } else {
      SignerAlonePasses(rrset, sig);
    }
  }

  /** Every signature that decides a set of the answer names a signer at or above the set's owner. */
  ghost predicate SignersAbove(answers: seq<Record>) {
    forall g :: Members(answers, g) != [] && SigFor(answers, g.owner, g.rtype).Some? ==>
      IsSuffix(SigFor(answers, g.owner, g.rtype).value.signer, g.owner)
  }

  /** Every group of the answer is vouched for by a zone at or above its owner. */
  ghost predicate AllAttestedAbove(t: Trust, answers: seq<Record>) {
    forall g :: Members(answers, g) != [] ==>
      && SigFor(answers, g.owner, g.rtype).Some?
      && VouchedAbove(t, g.owner, Members(answers, g), SigFor(answers, g.owner, g.rtype).value)
  }

  /** Where signers are above owners, an attested answer is one that the owners' own zones vouch for. */
  lemma AttestedFromAbove(t: Trust, answers: seq<Record>)
    requires AllAttested(t, answers) && SignersAbove(answers)
    ensures AllAttestedAbove(t, answers)
  {
    forall g | Members(answers, g) != []
      ensures SigFor(answers, g.owner, g.rtype).Some?
      ensures VouchedAbove(t, g.owner, Members(answers, g), SigFor(answers, g.owner, g.rtype).value)
    {
      assert Attested(t, answers, g.owner, g.rtype, Members(answers, g));
      var sig := SigFor(answers, g.owner, g.rtype).value;
      var d, now :| VouchedBy(t, Members(answers, g), sig, d, now);
      SuffixSuffix(g.owner, |sig.signer|, |d.zone|);
    }
  }

  /** An address record of `owner`, and a signature over it that names `signer`. */
  function ForeignAnswer(owner: Name, signer: Name): seq<Record> {
    [Record(owner, 1, 60, AddrData(true, "")), Record(owner, 1, 60, SigData(Rrsig(A, signer, 0, 0, "")))]
  }

  lemma ForeignMembers(owner: Name, signer: Name, g: GroupKey)
    ensures Members(ForeignAnswer(owner, signer), g) == if g == GroupKey(owner, A, 1) then
            [ForeignAnswer(owner, signer)[0]] else []
  {
    var answers := ForeignAnswer(owner, signer);
    OneMoreMember(answers, 0, g);
    OneMoreMember(answers, 1, g);
    assert answers[..0] == [] && answers[..2] == answers;
  }

  /** Trusting one zone is enough to attest the answer of any other: no zone at or above the owner need vouch for it. */
  lemma ForeignSignerAttests(owner: Name, signer: Name)
    requires !IsSuffix(signer, owner)
    ensures var t, chain, answers := LoneSigner(signer), [Entry(signer, ["k"])], ForeignAnswer(owner, signer);
            var g := GroupKey(owner, A, 1);
            && Sound(t, chain) && AllAttested(t, answers) && Members(answers, g) != [] &&
              SigFor(answers, owner, A).Some?
            && Passes(t, chain, Members(answers, g), SigFor(answers, owner, A).value, 0)
            && forall e :: e in chain ==> !IsSuffix(e.zone, owner)
  {
    var t, chain, answers := LoneSigner(signer), [Entry(signer, ["k"])], ForeignAnswer(owner, signer);
    var g, sig := GroupKey(owner, A, 1), Rrsig(A, signer, 0, 0, "");
    assert answers[1..][0] == answers[1];
    assert SigFor(answers, owner, A) == Some(sig);
    ForeignMembers(owner, signer, g);
    SignerAlonePasses(Members(answers, g), sig);
    forall h | Members(answers, h) != [] ensures Attested(t, answers, h.owner, h.rtype, Members(answers, h)) {
      ForeignMembers(owner, signer, h);
      ClosestVouch(t, chain, ["k"], Members(answers, h), sig, 0);
    }
  }

  // ---- denial ----

  /** `verify_authority_rrsets`. */
  method CheckAuthority(t: Trust, chain: Chain, records: seq<Record>, rtype: RType, sets: map<Name, seq<Record>>,
                        clock: nat -> int)
    returns (ok: bool)
    requires Sound(t, chain)
    requires forall o :: o in sets ==> sets[o] != [] && sets[o] == OwnerSet(records, rtype, o)
    ensures ok ==> GoodSets(t, records, rtype, sets)
    ensures !ok ==> exists o, n: nat :: o in sets && Unattested(t, chain, records, o, rtype, sets[o], clock(n))
    ensures DenialsPass(t, chain, records, rtype, clock) ==> ok
  {
    var todo, n := sets.Keys, 0;
    while todo != {}
      invariant todo <= sets.Keys
      invariant forall o :: o in sets && o !in todo ==> Attested(t, records, o, rtype, sets[o])
      decreases todo
    {
      var o :| o in todo;
      var s := CheckSet(t, chain, records, o, rtype, sets[o], clock(n), Denial.Bogus, Denial.Bogus);
      if s != Denial.Secure { return false; }
      todo, n := todo - {o}, n + 1;
    }
    return true;
  }

  /** The record is the first NSEC at its owner, and the NSEC set there is attested. */
  ghost predicate SignedNsec(t: Trust, records: seq<Record>, r: Denial.Nsec) {
    var rrset := OwnerSet(records, NSEC, r.owner);
    rrset != [] && rrset[0].data == NsecData(r.next, r.types) && Attested(t, records, r.owner, NSEC, rrset)
  }

  /** The interval is the first NSEC3 at some owner whose set is attested, the owner's label decoded. */
  ghost predicate SignedNsec3(t: Trust, lib: HashLib, records: seq<Record>, owner: Name, r: Denial3.Interval) {
    var rrset := OwnerSet(records, NSEC3, owner);
    && rrset != [] && owner != [] && lib.decode(owner[0]) == Some(r.owner)
    && rrset[0].data.Nsec3Data? && rrset[0].data.nextHash == r.next
    && rrset[0].data.types == r.types && rrset[0].data.optOut == r.optOut
    && Attested(t, records, owner, NSEC3, rrset)
  }

  ghost predicate NsecProof(t: Trust, resp: Response, q: Name, qtype: RType, recs: seq<Denial.Nsec>) {
    && Denial.Verdict(recs, q, qtype, resp.rcode) == Denial.Secure
    && AllSigned(t, resp.authorities, recs)
  }

  ghost predicate Nsec3Proof(t: Trust, lib: HashLib, resp: Response, q: Name, qtype: RType,
                             salt: string, iterations: nat, owners: seq<Name>, recs: seq<Denial3.Interval>) {
    && Denial3.Verdict3(recs, lib.hash(salt, iterations), q, qtype, resp.rcode) == Denial.Secure
    && AllSigned3(t, lib, resp.authorities, owners, recs)
  }

  ghost predicate ProvenAbsent(t: Trust, lib: HashLib, resp: Response, q: Name, qtype: RType) {
    || (exists recs :: NsecProof(t, resp, q, qtype, recs))
    || (exists salt, iterations, owners, recs :: Nsec3Proof(t, lib, resp, q, qtype, salt, iterations, owners, recs))
  }

  /** The set of denial records at the owner, complete and attested. */
  ghost predicate GoodSet(t: Trust, records: seq<Record>, rtype: RType, owner: Name, rrset: seq<Record>) {
    rrset != [] && rrset == OwnerSet(records, rtype, owner) && Attested(t, records, owner, rtype, rrset)
  }

  ghost predicate GoodSets(t: Trust, records: seq<Record>, rtype: RType, sets: map<Name, seq<Record>>) {
    forall o :: o in sets ==> GoodSet(t, records, rtype, o, sets[o])
  }

  ghost predicate AllSigned(t: Trust, records: seq<Record>, recs: seq<Denial.Nsec>) {
    forall i :: 0 <= i < |recs| ==> SignedNsec(t, records, recs[i])
  }

  ghost predicate AllSigned3(t: Trust, lib: HashLib, records: seq<Record>, owners: seq<Name>,
                             recs: seq<Denial3.Interval>) {
    |owners| == |recs| && forall i :: 0 <= i < |recs| ==> SignedNsec3(t, lib, records, owners[i], recs[i])
  }

  lemma AppendSigned(t: Trust, records: seq<Record>, recs: seq<Denial.Nsec>, r: Denial.Nsec)
    requires AllSigned(t, records, recs) && SignedNsec(t, records, r)
    ensures AllSigned(t, records, recs + [r])
  {
    var after := recs + [r];
    forall i | 0 <= i < |after| ensures SignedNsec(t, records, after[i]) {
      if i < |recs| { assert after[i] == recs[i]; }
    }
  }

  lemma AppendSigned3(t: Trust, lib: HashLib, records: seq<Record>, owners: seq<Name>, recs: seq<Denial3.Interval>,
                      o: Name, r: Denial3.Interval)
    requires AllSigned3(t, lib, records, owners, recs) && SignedNsec3(t, lib, records, o, r)
    ensures AllSigned3(t, lib, records, owners + [o], recs + [r])
  {
    var os, rs := owners + [o], recs + [r];
    forall i | 0 <= i < |rs| ensures SignedNsec3(t, lib, records, os[i], rs[i]) {
      if i < |recs| { assert os[i] == owners[i] && rs[i] == recs[i]; }
    }
  }

  method FirstNsec(ghost t: Trust, ghost records: seq<Record>, owner: Name, rrset: seq<Record>) returns (r: Denial.Nsec)
    requires GoodSet(t, records, NSEC, owner, rrset)
    ensures SignedNsec(t, records, r) && r.owner == owner
  {
    var first := rrset[0];
    assert first in rrset;
    OwnerSetHas(records, NSEC, owner);
    r := Denial.Nsec(owner, first.data.next, first.data.types);
  }

  predicate Decodable(lib: HashLib, owner: Name) { owner != [] && lib.decode(owner[0]).Some? }

  method FirstNsec3(ghost t: Trust, lib: HashLib, ghost records: seq<Record>, owner: Name, rrset: seq<Record>)
    returns (r: Denial3.Interval)
    requires GoodSet(t, records, NSEC3, owner, rrset) && Decodable(lib, owner)
    ensures SignedNsec3(t, lib, records, owner, r)
  {
    var first := rrset[0];
    assert first in rrset;
    OwnerSetHas(records, NSEC3, owner);
    r := Denial3.Interval(lib.decode(owner[0]).value, first.data.nextHash, first.data.types, first.data.optOut);
  }

  ghost predicate HasOwner(recs: seq<Denial.Nsec>, o: Name) { exists i :: 0 <= i < |recs| && recs[i].owner == o }

  lemma AppendOwner(recs: seq<Denial.Nsec>, r: Denial.Nsec)
    ensures HasOwner(recs + [r], r.owner) && forall o :: HasOwner(recs, o) ==> HasOwner(recs + [r], o)
  {
    assert (recs + [r])[|recs|] == r;
    forall o | HasOwner(recs, o) ensures HasOwner(recs + [r], o) {
      var i :| 0 <= i < |recs| && recs[i].owner == o;
      assert (recs + [r])[i] == recs[i];
    }
  }

  /** The NSEC records of attested sets, in any order of their owners. */
  method NsecRecords(ghost t: Trust, ghost records: seq<Record>, sets: map<Name, seq<Record>>)
    returns (recs: seq<Denial.Nsec>)
    requires GoodSets(t, records, NSEC, sets)
    ensures AllSigned(t, records, recs) && |recs| == |sets.Keys| && forall o :: o in sets ==> HasOwner(recs, o)
  {
    recs := [];
    var todo := sets.Keys;
    while todo != {}
      invariant todo <= sets.Keys && |recs| + |todo| == |sets.Keys| && AllSigned(t, records, recs)
      invariant forall o :: o in sets && o !in todo ==> HasOwner(recs, o)
      decreases todo
    {
      var o :| o in todo;
      var r := FirstNsec(t, records, o, sets[o]);
      AppendSigned(t, records, recs, r);
      AppendOwner(recs, r);
      recs, todo := recs + [r], todo - {o};
    }
  }

  /** The decodable NSEC3 records of attested sets. */
  method Nsec3Records(ghost t: Trust, lib: HashLib, ghost records: seq<Record>, sets: map<Name, seq<Record>>)
    returns (recs: seq<Denial3.Interval>, owners: seq<Name>)
    requires GoodSets(t, records, NSEC3, sets)
    ensures AllSigned3(t, lib, records, owners, recs)
    ensures forall o :: o in sets && Decodable(lib, o) ==> o in owners
  {
    recs, owners := [], [];
    var todo := sets.Keys;
    while todo != {}
      invariant todo <= sets.Keys && AllSigned3(t, lib, records, owners, recs)
      invariant forall o :: o in sets && Decodable(lib, o) ==> o in todo || o in owners
      decreases todo
    {
      var o :| o in todo;
      if Decodable(lib, o) {
        var r := FirstNsec3(t, lib, records, o, sets[o]);
        AppendSigned3(t, lib, records, owners, recs, o, r);
        recs, owners := recs + [r], owners + [o];
      }
      todo := todo - {o};
    }
  }

  /** The status is what all the NSEC records of the response, each attested, prove. */
  ghost predicate NsecGives(t: Trust, resp: Response, q: Name, qtype: RType, s: Status, recs: seq<Denial.Nsec>) {
    && AllSigned(t, resp.authorities, recs)
    && (forall o :: OwnerSet(resp.authorities, NSEC, o) != [] ==> HasOwner(recs, o))
    && s == Denial.Verdict(recs, q, qtype, resp.rcode)
  }

  /**
   The status is what all the decodable NSEC3 records of the response, each attested, prove under the
   parameters of one of them; another hash than SHA-1 is Bogus.
   */
  ghost predicate Nsec3Gives(t: Trust, lib: HashLib, resp: Response, q: Name, qtype: RType, s: Status, first: Name,
                             owners: seq<Name>, recs: seq<Denial3.Interval>) {
    var set1 := OwnerSet(resp.authorities, NSEC3, first);
    && set1 != [] && set1[0].data.Nsec3Data?
    && var p := set1[0].data;
    if !p.sha1 then s == Denial.Bogus
    else
      && AllSigned3(t, lib, resp.authorities, owners, recs)
      && (forall o :: OwnerSet(resp.authorities, NSEC3, o) != [] && Decodable(lib, o) ==> o in owners)
      && s == Denial3.Verdict3(recs, lib.hash(p.salt, p.iterations), q, qtype, resp.rcode)
  }

  ghost predicate HasDenials(resp: Response, rtype: RType) { exists o :: OwnerSet(resp.authorities, rtype, o) != [] }

  /** The status is what the response's own denial records give: NSEC3 if there are any, else NSEC. */
  ghost predicate DenialGives(t: Trust, lib: HashLib, resp: Response, q: Name, qtype: RType, s: Status) {
    if HasDenials(resp, NSEC3) then
      exists first, owners, recs :: Nsec3Gives(t, lib, resp, q, qtype, s, first, owners, recs)
    else HasDenials(resp, NSEC) && exists recs :: NsecGives(t, resp, q, qtype, s, recs)
  }

  /** What an answer without RRsets comes to. */
  ghost predicate DenialJudged(t: Trust, lib: HashLib, chain: Chain, resp: Response, q: Name, qtype: RType,
                               clock: nat -> int, s: Status) {
    if !HasDenials(resp, NSEC) && !HasDenials(resp, NSEC3) then s == Denial.Insecure
    else
      && (|| DenialGives(t, lib, resp, q, qtype, s)
          || (s == Denial.Bogus && (|| DenialFails(t, chain, resp.authorities, NSEC, clock)
                                    || DenialFails(t, chain, resp.authorities, NSEC3, clock))))
      && (DenialsPass(t, chain, resp.authorities, NSEC, clock) &&
          DenialsPass(t, chain, resp.authorities, NSEC3, clock)
          ==> DenialGives(t, lib, resp, q, qtype, s))
  }

  /** Some set has no signature, or one by a signer out of reach. */
  ghost predicate SomeUnreachable(chain: Chain, answers: seq<Record>) {
    exists g ::
      && Members(answers, g) != []
      && (SigFor(answers, g.owner, g.rtype).None? || OutOfReach(chain, SigFor(answers, g.owner, g.rtype).value.signer))
  }

  /** Some set has a signature that at some reading of the clock is out of time or does not verify. */
  ghost predicate SomeUnsigned(t: Trust, chain: Chain, answers: seq<Record>, clock: nat -> int) {
    exists g, n: nat ::
      && Members(answers, g) != [] && SigFor(answers, g.owner, g.rtype).Some?
      && Unsigned(t, chain, Members(answers, g), SigFor(answers, g.owner, g.rtype).value, clock(n))
  }

  /** What an answer with RRsets comes to. */
  ghost predicate AnswerJudged(t: Trust, chain: Chain, answers: seq<Record>, clock: nat -> int, s: Status) {
    && (AnswersPass(t, chain, answers, clock) ==> s == Denial.Secure)
    && (s == Denial.Insecure ==> SomeUnreachable(chain, answers))
    && (s == Denial.Bogus ==> SomeUnsigned(t, chain, answers, clock))
  }

  /** `prove_denial_nsec3` on attested sets. */
  method DenyNsec3(ghost t: Trust, lib: HashLib, resp: Response, sets: map<Name, seq<Record>>, q: Name, qtype: RType)
    returns (s: Status)
    requires sets != map[] && GoodSets(t, resp.authorities, NSEC3, sets)
    requires forall o :: o in sets <==> OwnerSet(resp.authorities, NSEC3, o) != []
    ensures s == Denial.Secure ==> ProvenAbsent(t, lib, resp, q, qtype)
    ensures DenialGives(t, lib, resp, q, qtype, s)
  {
    var first: Name :| first in sets;
    assert GoodSet(t, resp.authorities, NSEC3, first, sets[first]);
    var params := sets[first][0];
    assert params in sets[first];
    OwnerSetHas(resp.authorities, NSEC3, first);
    if !params.data.sha1 {
      assert Nsec3Gives(t, lib, resp, q, qtype, Denial.Bogus, first, [], []);
      return Denial.Bogus;
    }
    var recs, owners := Nsec3Records(t, lib, resp.authorities, sets);
    s := Denial3.ProveDenial3(recs, lib.hash(params.data.salt, params.data.iterations), q, qtype, resp.rcode);
    assert Nsec3Gives(t, lib, resp, q, qtype, s, first, owners, recs);
    if s == Denial.Secure {
      assert Nsec3Proof(t, lib, resp, q, qtype, params.data.salt, params.data.iterations, owners, recs);
    }
  }

  /** `validate_denial`: Secure only on a proof made of signed records. */
  method CheckDenial(t: Trust, lib: HashLib, chain: Chain, resp: Response, q: Name, qtype: RType, clock: nat -> int)
    returns (s: Status)
    requires Sound(t, chain)
    ensures s == Denial.Secure ==> ProvenAbsent(t, lib, resp, q, qtype)
    ensures DenialJudged(t, lib, chain, resp, q, qtype, clock, s)
  {
    var nsec := GroupOwners(resp.authorities, NSEC);
    var nsec3 := GroupOwners(resp.authorities, NSEC3);
    if nsec == map[] && nsec3 == map[] {
      assert forall o :: o !in nsec && o !in nsec3;
      return Denial.Insecure;
    }
    var ok := CheckKind(t, chain, resp, NSEC, nsec, clock, 0);
    if !ok { return Denial.Bogus; }
    ok := CheckKind(t, chain, resp, NSEC3, nsec3, clock, |nsec|);
    if !ok { return Denial.Bogus; }
    if nsec3 != map[] {
      var o :| o in nsec3;
      s := DenyNsec3(t, lib, resp, nsec3, q, qtype);
    } else {
      assert forall o :: o !in nsec3;
      var o :| o in nsec;
      s := DenyNsec(t, lib, resp, nsec, q, qtype);
    }
  }

  /** The sets are exactly those of the response's denial records of the type. */
  ghost predicate SetsOf(resp: Response, rtype: RType, sets: map<Name, seq<Record>>) {
    && (forall o :: o in sets <==> OwnerSet(resp.authorities, rtype, o) != [])
    && (forall o :: o in sets ==> sets[o] == OwnerSet(resp.authorities, rtype, o))
  }

  /** Some set of denial records of the type does not pass. */
  ghost predicate KindFailed(t: Trust, chain: Chain, resp: Response, rtype: RType, clock: nat -> int) {
    && HasDenials(resp, rtype) && DenialFails(t, chain, resp.authorities, rtype, clock)
    && !DenialsPass(t, chain, resp.authorities, rtype, clock)
  }

  /** The denial records of one type, the clock being read from `shift` on. */
  method CheckKind(t: Trust, chain: Chain, resp: Response, rtype: RType, sets: map<Name, seq<Record>>,
                   clock: nat -> int,
                   shift: nat)
    returns (ok: bool)
    requires Sound(t, chain) && SetsOf(resp, rtype, sets)
    ensures if ok then GoodSets(t, resp.authorities, rtype, sets) else KindFailed(t, chain, resp, rtype, clock)
  {
    var later := (n: nat) => clock(n + shift);
    ok := CheckAuthority(t, chain, resp.authorities, rtype, sets, later);
    if !ok { AuthorityFails(t, chain, resp, rtype, sets, later, clock, shift); }
  }

  /** A failed check of denial records is a set that does not pass, and excludes that all of them do. */
  lemma AuthorityFails(t: Trust, chain: Chain, resp: Response, rtype: RType, sets: map<Name, seq<Record>>,
                       later: nat -> int, clock: nat -> int, shift: nat)
    requires SetsOf(resp, rtype, sets)
    requires exists o, n: nat :: o in sets && Unattested(t, chain, resp.authorities, o, rtype, sets[o], later(n))
    requires !DenialsPass(t, chain, resp.authorities, rtype, later) && forall n: nat :: later(n) == clock(n + shift)
    ensures KindFailed(t, chain, resp, rtype, clock)
  {
    var o, n: nat :| o in sets && Unattested(t, chain, resp.authorities, o, rtype, sets[o], later(n));
    assert later(n) == clock(n + shift);
    var p, m: nat :| OwnerSet(resp.authorities, rtype, p) != []
      && !SetPasses(t, chain, resp.authorities, p, rtype, OwnerSet(resp.authorities, rtype, p), later(m));
    assert later(m) == clock(m + shift);
  }

  /** `prove_denial_nsec` on attested sets. */
  method DenyNsec(ghost t: Trust, ghost lib: HashLib, resp: Response, sets: map<Name, seq<Record>>, q: Name,
                  qtype: RType)
    returns (s: Status)
    requires sets != map[] && GoodSets(t, resp.authorities, NSEC, sets) && !HasDenials(resp, NSEC3)
    requires forall o :: o in sets <==> OwnerSet(resp.authorities, NSEC, o) != []
    ensures s == Denial.Secure ==> ProvenAbsent(t, lib, resp, q, qtype)
    ensures DenialGives(t, lib, resp, q, qtype, s)
  {
    var recs := NsecRecords(t, resp.authorities, sets);
    s := Denial.ProveDenial(recs, q, qtype, resp.rcode);
    ghost var o :| o in sets;
    assert NsecGives(t, resp, q, qtype, s, recs);
    if s == Denial.Secure { assert NsecProof(t, resp, q, qtype, recs); }
  }

  /** `validate_answer_against_chain`. */
  method CheckResponse(t: Trust, lib: HashLib, chain: Chain, resp: Response, q: Name, qtype: RType, clock: nat -> int)
    returns (s: Status)
    requires Sound(t, chain)
    ensures s == Denial.Secure ==> AllAttested(t, resp.answers)
    ensures s == Denial.Secure && NoSets(resp.answers) ==> ProvenAbsent(t, lib, resp, q, qtype)
    ensures Judged(t, lib, chain, resp, q, qtype, clock, s) == true
  {
    var groups := GroupAnswers(resp.answers);
    if groups == map[] {
      NoGroups(resp.answers);
      s := CheckDenial(t, lib, chain, resp, q, qtype, clock);
    } else {
      var g :| g in groups;
      var r := Members(resp.answers, g)[0];
      assert r in Members(resp.answers, g);
      MembersHas(resp.answers, g);
      s := CheckAnswers(t, chain, resp.answers, groups, clock);
    }
  }

  /** The status is the one the response's signatures and denial records call for. */
  ghost predicate Judged(t: Trust, lib: HashLib, chain: Chain, resp: Response, q: Name, qtype: RType,
                         clock: nat -> int, s: Status) {
    if NoSets(resp.answers) then DenialJudged(t, lib, chain, resp, q, qtype, clock, s)
    else AnswerJudged(t, chain, resp.answers, clock, s)
  }

  /** The answer section holds nothing but signatures. */
  ghost predicate NoSets(answers: seq<Record>) { forall r :: r in answers ==> r.data.SigData? }

  lemma NoGroups(answers: seq<Record>)
    requires forall g :: Members(answers, g) == []
    ensures NoSets(answers)
  {
    forall r | r in answers ensures r.data.SigData? {
      MembersHas(answers, GroupOf(r));
      assert r !in Members(answers, GroupOf(r));
    }
  }

  // ---- what a Secure denial means ----

  /**
   If the attested NSEC records are the zone's own, a Secure NXDOMAIN names something that owns nothing in
   the zone, and that exists there at all only if a covering record's next owner lies below it.
   */
  lemma NsecAbsent(t: Trust, resp: Response, q: Name, qtype: RType, recs: seq<Denial.Nsec>, z: Denial.Zone)
    requires NsecProof(t, resp, q, qtype, recs) && z.Valid()
    requires forall r :: SignedNsec(t, resp.authorities, r) ==> z.Chain(r)
    ensures resp.rcode == Denial.NXDomain ==>
              exists r :: r in recs && Denial.Covers(r, q) && !z.Owns(q) && (z.HasAtOrBelow(q) <==> IsSuffix(q, r.next))
    ensures resp.rcode == Denial.NoError ==> z.Owns(q) && qtype !in z.types[q]
  {
    forall r | r in recs ensures z.Chain(r) {
      var i :| 0 <= i < |recs| && recs[i] == r;
      assert SignedNsec(t, resp.authorities, recs[i]);
    }
    Denial.SecureIsTrue(z, recs, q, qtype, resp.rcode);
  }

  /**
   The same for NSEC3: the name is not a signed one, and does not exist at all unless the record covering
   the next-closer name is opt-out.
   */
  lemma Nsec3Absent(t: Trust, lib: HashLib, resp: Response, q: Name, qtype: RType, salt: string, iterations: nat,
                    owners: seq<Name>, recs: seq<Denial3.Interval>, z: Denial3.HashedZone)
    requires Nsec3Proof(t, lib, resp, q, qtype, salt, iterations, owners, recs)
    requires z.Valid(lib.hash(salt, iterations)) && Denial3.CollisionFree(lib.hash(salt, iterations), z, q)
    requires forall o, r :: SignedNsec3(t, lib, resp.authorities, o, r) ==> z.Publishes(r, lib.hash(salt, iterations))
    ensures resp.rcode == Denial.NXDomain ==> q !in z.types
    ensures resp.rcode == Denial.NXDomain && !Denial3.NextCloserOptOut(recs, lib.hash(salt, iterations), q) ==>
            !z.Exists(q)
    ensures resp.rcode == Denial.NoError ==> q in z.types && qtype !in z.types[q]
  {
    forall r | r in recs ensures z.Publishes(r, lib.hash(salt, iterations)) {
      var i :| 0 <= i < |recs| && recs[i] == r;
      assert SignedNsec3(t, lib, resp.authorities, owners[i], recs[i]);
    }
    if resp.rcode == Denial.NXDomain { Denial3.SecureNxDomain(z, lib.hash(salt, iterations), recs, q, qtype); }
    if resp.rcode == Denial.NoError { Denial3.SecureNoData(z, lib.hash(salt, iterations), recs, q, qtype); }
  }
}
