/**
 The rules by which the validator comes to trust a zone's key set, and derivations built from them.
 Signature checking and DS digests are parameters.  The rules are exactly the checks the validator
 makes: a key set is derived if it is made of configured anchors of its zone, or signed by a derived
 key of the same zone, or reached through a DS set that a derived key of an ancestor-or-self zone
 signed, the key set being signed by one of its own keys and one of its keys matching one of the DS
 records.
 */
module Trust {
  import opened Basics
  import opened Names

  const A: RType := 1
  const NS: RType := 2
  const CNAME: RType := 5
  const AAAA: RType := 28
  const DS: RType := 43
  const RRSIG: RType := 46
  const NSEC: RType := 47
  const DNSKEY: RType := 48
  const NSEC3: RType := 50

  const CLOCK_SKEW := 300


  type Key = string
  datatype Ds = Ds(tag: nat, digest: string)
  datatype Rrsig = Rrsig(covered: RType, signer: Name, inception: nat, expiration: nat, text: string)
  datatype RData =
    | DnskeyData(key: Key)
    | DsData(ds: Ds)
    | SigData(sig: Rrsig)
    | NsecData(next: Name, types: set<RType>)
    | Nsec3Data(sha1: bool, salt: string, iterations: nat, nextHash: string, types: set<RType>, optOut: bool)
    | CnameData(alias: Name)
    | NsData(server: Name)
    | AddrData(v4: bool, address: string)
    | OtherData(rtype: RType, text: string)
  datatype Record = Record(owner: Name, rclass: nat, ttl: nat, data: RData) {
    function Type(): RType {
      match data
      case DnskeyData(_) => DNSKEY
      case DsData(_) => DS
      case SigData(_) => RRSIG
      case NsecData(_, _) => NSEC
      case Nsec3Data(_, _, _, _, _, _) => NSEC3
      case CnameData(_) => CNAME
      case NsData(_) => NS
      case AddrData(v4, _) => if v4 then A else AAAA
      case OtherData(rtype, _) => rtype
    }
  }

  /** `check_rrsig_validity`. */
  predicate Timely(sig: Rrsig, now: int) {
    sig.inception <= sig.expiration && sig.inception <= now + CLOCK_SKEW && now <= sig.expiration + CLOCK_SKEW
  }

  /** The record set is the zone's DNSKEY set, and `keys` are its keys in order. */
  ghost predicate KeySet(rrset: seq<Record>, zone: Name, keys: seq<Key>) {
    |rrset| == |keys| && forall i :: 0 <= i < |rrset| ==> rrset[i].owner == zone && rrset[i].data == DnskeyData(keys[i])
  }

  /** Every anchor ever configured or published during the run, and the two cryptographic checks. */
  datatype Trust = Trust(
    anchors: set<(Name, Key)>,
    signature: (seq<Record>, Rrsig, Key) -> bool,
    digest: (Ds, Name, Key) -> bool
  ) {
    predicate Verifies(rrset: seq<Record>, sig: Rrsig, key: Key) { rrset != [] && signature(rrset, sig, key) }

    /** Some key of the set verifies the signature. */
    predicate Signed(rrset: seq<Record>, sig: Rrsig, keys: seq<Key>) {
      exists k :: k in keys && Verifies(rrset, sig, k)
    }

    /** Some key of the set hashes to one of the DS records. */
    predicate Matches(zone: Name, ds: seq<Record>, keys: seq<Key>) {
      exists r, k :: r in ds && r.data.DsData? && k in keys && digest(r.data.ds, zone, k)
    }
  }

  /** How the keys of a zone came to be trusted. */
  datatype Derivation =
    | Anchored(zone: Name, keys: seq<Key>)
    | Resigned(zone: Name, keys: seq<Key>, base: Derivation, rrset: seq<Record>, sig: Rrsig, now: int)
    | Delegated(zone: Name, keys: seq<Key>, parent: Derivation, ds: seq<Record>, dsSig: Rrsig, dsNow: int,
                rrset: seq<Record>, sig: Rrsig, now: int)

  /** Every step of the derivation passes the validator's checks. */
  ghost predicate Holds(t: Trust, d: Derivation) {
    match d
    case Anchored(zone, keys) => keys != [] && forall k :: k in keys ==> (zone, k) in t.anchors
    case Resigned(zone, keys, base, rrset, sig, now) =>
      && Holds(t, base) && base.zone == zone
      && KeySet(rrset, zone, keys) && sig.covered == DNSKEY && Timely(sig, now) && t.Signed(rrset, sig, base.keys)
    case Delegated(zone, keys, parent, ds, dsSig, dsNow, rrset, sig, now) =>
      && Holds(t, parent) && IsSuffix(parent.zone, zone)
      && dsSig.covered == DS && Timely(dsSig, dsNow) && t.Signed(ds, dsSig, parent.keys)
      && KeySet(rrset, zone, keys) && sig.covered == DNSKEY && Timely(sig, now) && t.Signed(rrset, sig, keys)
      && t.Matches(zone, ds, keys)
  }

  ghost predicate Derives(t: Trust, d: Derivation, zone: Name, keys: seq<Key>) {
    Holds(t, d) && d.zone == zone && d.keys == keys
  }

  ghost predicate Derivable(t: Trust, zone: Name, keys: seq<Key>) { exists d :: Derives(t, d, zone, keys) }

  lemma DeriveAnchored(t: Trust, zone: Name, keys: seq<Key>)
    requires keys != [] && forall k :: k in keys ==> (zone, k) in t.anchors
    ensures Derivable(t, zone, keys)
  {
    assert Derives(t, Anchored(zone, keys), zone, keys);
  }

  lemma DeriveResigned(t: Trust, zone: Name, known: seq<Key>, keys: seq<Key>, rrset: seq<Record>, sig: Rrsig, now: int)
    requires Derivable(t, zone, known) && KeySet(rrset, zone, keys)
    requires sig.covered == DNSKEY && Timely(sig, now) && t.Signed(rrset, sig, known)
    ensures Derivable(t, zone, keys)
  {
    var d :| Derives(t, d, zone, known);
    assert Derives(t, Resigned(zone, keys, d, rrset, sig, now), zone, keys);
  }

  /** The DS set was signed, in time, by a derived key of an ancestor-or-self of the zone. */
  ghost predicate DsTrusted(t: Trust, zone: Name, ds: seq<Record>) {
    exists d, sig, now :: DsSigned(t, zone, ds, d, sig, now)
  }

  ghost predicate DsSigned(t: Trust, zone: Name, ds: seq<Record>, d: Derivation, sig: Rrsig, now: int) {
    Holds(t, d) && IsSuffix(d.zone, zone) && sig.covered == DS && Timely(sig, now) && t.Signed(ds, sig, d.keys)
  }

  lemma TrustDs(t: Trust, parent: Name, keys: seq<Key>, zone: Name, ds: seq<Record>, sig: Rrsig, now: int)
    requires Derivable(t, parent, keys) && IsSuffix(parent, zone)
    requires sig.covered == DS && Timely(sig, now) && t.Signed(ds, sig, keys)
    ensures DsTrusted(t, zone, ds)
  {
    var d :| Derives(t, d, parent, keys);
    assert DsSigned(t, zone, ds, d, sig, now);
  }

  lemma DeriveDelegated(t: Trust, zone: Name, ds: seq<Record>, keys: seq<Key>, rrset: seq<Record>, sig: Rrsig, now: int)
    requires DsTrusted(t, zone, ds) && KeySet(rrset, zone, keys) && sig.covered == DNSKEY && Timely(sig, now)
    requires t.Signed(rrset, sig, keys) && t.Matches(zone, ds, keys)
    ensures Derivable(t, zone, keys)
  {
    var d, dsSig, dsNow :| DsSigned(t, zone, ds, d, dsSig, dsNow);
    assert Derives(t, Delegated(zone, keys, d, ds, dsSig, dsNow, rrset, sig, now), zone, keys);
  }

  /** An RRset signed, in time, by a derived key of an ancestor-or-self of its signer. */
  ghost predicate Vouched(t: Trust, rrset: seq<Record>, sig: Rrsig) {
    exists d, now :: VouchedBy(t, rrset, sig, d, now)
  }

  ghost predicate VouchedBy(t: Trust, rrset: seq<Record>, sig: Rrsig, d: Derivation, now: int) {
    Holds(t, d) && IsSuffix(d.zone, sig.signer) && Timely(sig, now) && t.Signed(rrset, sig, d.keys)
  }

  lemma Vouch(t: Trust, zone: Name, keys: seq<Key>, rrset: seq<Record>, sig: Rrsig, now: int)
    requires Derivable(t, zone, keys) && IsSuffix(zone, sig.signer) && Timely(sig, now) && t.Signed(rrset, sig, keys)
    ensures Vouched(t, rrset, sig)
  {
    var d :| Derives(t, d, zone, keys);
    assert VouchedBy(t, rrset, sig, d, now);
  }

  // ---- what derivations give ----

  /** Every derivation starts at an anchor on the path from the root to its zone, and derives at least one key. */
  lemma {:induction false} DerivationIsAnchored(t: Trust, d: Derivation) returns (anchor: Name, key: Key)
    requires Holds(t, d)
    ensures (anchor, key) in t.anchors && IsSuffix(anchor, d.zone) && d.keys != []
    decreases d
  {
    match d
    case Anchored(zone, keys) =>
      anchor, key := zone, keys[0];
      assert Suffix(zone, |zone|) == zone;
    case Resigned(_, _, base, _, _, _) =>
      anchor, key := DerivationIsAnchored(t, base);
    case Delegated(zone, _, parent, _, _, _, _, _, _) =>
      anchor, key := DerivationIsAnchored(t, parent);
      SuffixSuffix(zone, |parent.zone|, |anchor|);
  }

  /** A zone outside every anchored subtree gets no keys and no trusted RRset. */
  lemma OutsideAnchors(t: Trust, zone: Name, keys: seq<Key>)
    requires Derivable(t, zone, keys)
    ensures keys != [] && exists a, k :: (a, k) in t.anchors && IsSuffix(a, zone)
  {
    var d :| Derives(t, d, zone, keys);
    var a, k := DerivationIsAnchored(t, d);
    assert (a, k) in t.anchors && IsSuffix(a, zone);
  }

  /** Publishing more anchors loses no derivation. */
  lemma {:induction false} DerivationsGrow(t: Trust, anchors: set<(Name, Key)>, d: Derivation)
    requires Holds(t, d) && t.anchors <= anchors
    ensures Holds(t.(anchors := anchors), d)
    decreases d
  {
    match d
    case Anchored(_, _) =>
    case Resigned(_, _, base, _, _, _) => DerivationsGrow(t, anchors, base);
    case Delegated(_, _, parent, _, _, _, _, _, _) => DerivationsGrow(t, anchors, parent);
  }
}
