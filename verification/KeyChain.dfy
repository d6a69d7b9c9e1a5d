/**
 The key sets a validation has come to trust, by zone: seeding from the anchors, replacing an entry, and
 finding the keys of the closest zone at or above a name.
 */
module KeyChain {
  import opened Basics
  import opened Names
  import opened Trust

  datatype Entry = Entry(zone: Name, keys: seq<Key>)
  type Chain = seq<Entry>

  ghost predicate Sound(t: Trust, chain: Chain) {
    forall e {:trigger Derivable(t, e.zone, e.keys)} :: e in chain ==> Derivable(t, e.zone, e.keys)
  }

  predicate Has(chain: Chain, zone: Name) { exists e {:trigger e in chain} :: e in chain && e.zone == zone }

  /** Every zone of `a` is still there in `b`. */
  ghost predicate KeepsZones(a: Chain, b: Chain) { forall z :: Has(a, z) ==> Has(b, z) }

  lemma KeepsTrans(a: Chain, b: Chain, c: Chain)
    requires KeepsZones(a, b) && KeepsZones(b, c)
    ensures KeepsZones(a, c)
  {}

  function Without(chain: Chain, zone: Name): (rest: Chain)
    ensures forall e :: e in rest <==> e in chain && e.zone != zone
  {
    if chain == [] then []
    else
      var last := chain[|chain| - 1];
      Without(chain[..|chain| - 1], zone) + (if last.zone == zone then [] else [last])
  }

  /** The chain with its entries for the zone replaced by one new entry. */
  function Replaced(chain: Chain, zone: Name, keys: seq<Key>): Chain { Without(chain, zone) + [Entry(zone, keys)] }

  lemma ReplacedKeeps(t: Trust, chain: Chain, zone: Name, keys: seq<Key>)
    requires Sound(t, chain) && Derivable(t, zone, keys)
    ensures Sound(t, Replaced(chain, zone, keys)) && Has(Replaced(chain, zone, keys), zone)
    ensures KeepsZones(chain, Replaced(chain, zone, keys))
  {
    var after := Replaced(chain, zone, keys);
    assert Entry(zone, keys) in after;
    forall z | Has(chain, z) ensures Has(after, z) {
      var e :| e in chain && e.zone == z;
      if z != zone { assert e in after; }
    }
  }

  lemma AppendedKeeps(t: Trust, chain: Chain, zone: Name, keys: seq<Key>)
    requires Sound(t, chain) && Derivable(t, zone, keys)
    ensures Sound(t, chain + [Entry(zone, keys)]) && Has(chain + [Entry(zone, keys)], zone)
    ensures KeepsZones(chain, chain + [Entry(zone, keys)])
  {
    var after := chain + [Entry(zone, keys)];
    assert Entry(zone, keys) in after;
    assert forall e :: e in chain ==> e in after;
  }

  /** Of the first `n` entries, the first among those at or above the zone with the most labels. */
  ghost predicate ClosestOf(chain: Chain, zone: Name, n: nat, i: nat)
    requires n <= |chain|
  {
    && i < n && IsSuffix(chain[i].zone, zone)
    && (forall j :: 0 <= j < i && IsSuffix(chain[j].zone, zone) ==> NumLabels(chain[j].zone) < NumLabels(chain[i].zone))
    && (forall j :: i < j < n && IsSuffix(chain[j].zone, zone) ==> NumLabels(chain[j].zone) <= NumLabels(chain[i].zone))
  }

  ghost predicate IsClosest(chain: Chain, zone: Name, i: nat) { ClosestOf(chain, zone, |chain|, i) }

  /** The keys of the closest entry, or none when no entry is at or above the zone. */
  ghost predicate ClosestKeys(chain: Chain, zone: Name, keys: seq<Key>) {
    || (exists i: nat :: IsClosest(chain, zone, i) && keys == chain[i].keys)
    || (keys == [] && forall e :: e in chain ==> !IsSuffix(e.zone, zone))
  }

  lemma ClosestIsUnique(chain: Chain, zone: Name, i: nat, j: nat)
    requires IsClosest(chain, zone, i) && IsClosest(chain, zone, j)
    ensures i == j
  {}

  /** The entry is the closest one to the name, and one of its keys signed the set. */
  ghost predicate SignedByEntry(t: Trust, chain: Chain, n: Name, rrset: seq<Record>, sig: Rrsig, i: nat) {
    IsClosest(chain, n, i) && t.Signed(rrset, sig, chain[i].keys)
  }

  ghost predicate ClosestSigned(t: Trust, chain: Chain, n: Name, rrset: seq<Record>, sig: Rrsig) {
    exists i: nat :: SignedByEntry(t, chain, n, rrset, sig, i)
  }

  /** Having the closest keys, the test on them decides. */
  lemma ClosestSignedIff(t: Trust, chain: Chain, n: Name, keys: seq<Key>, rrset: seq<Record>, sig: Rrsig)
    requires ClosestKeys(chain, n, keys)
    ensures ClosestSigned(t, chain, n, rrset, sig) <==> t.Signed(rrset, sig, keys)
  {
    if i: nat :| IsClosest(chain, n, i) && keys == chain[i].keys {
      if t.Signed(rrset, sig, keys) { assert SignedByEntry(t, chain, n, rrset, sig, i); }
      if j: nat :| SignedByEntry(t, chain, n, rrset, sig, j) { ClosestIsUnique(chain, n, i, j); }
    }
  }

  /** What the closest keys of a sound chain sign can be trusted. */
  lemma ClosestTrustDs(t: Trust, chain: Chain, zone: Name, keys: seq<Key>, ds: seq<Record>, sig: Rrsig, now: int)
    requires Sound(t, chain) && ClosestKeys(chain, zone, keys)
    requires sig.covered == DS && Timely(sig, now) && t.Signed(ds, sig, keys)
    ensures DsTrusted(t, zone, ds)
  {
    var i: nat :| IsClosest(chain, zone, i) && keys == chain[i].keys;
    assert Derivable(t, chain[i].zone, chain[i].keys);
    TrustDs(t, chain[i].zone, keys, zone, ds, sig, now);
  }

  lemma ClosestVouch(t: Trust, chain: Chain, keys: seq<Key>, rrset: seq<Record>, sig: Rrsig, now: int)
    requires Sound(t, chain) && ClosestKeys(chain, sig.signer, keys)
    requires Timely(sig, now) && t.Signed(rrset, sig, keys)
    ensures Vouched(t, rrset, sig)
  {
    var i: nat :| IsClosest(chain, sig.signer, i) && keys == chain[i].keys;
    assert Derivable(t, chain[i].zone, chain[i].keys);
    Vouch(t, chain[i].zone, keys, rrset, sig, now);
  }

  method ClosestTrustedKeys(chain: Chain, zone: Name) returns (keys: seq<Key>)
    ensures ClosestKeys(chain, zone, keys)
  {
    var best := -1;
    for n := 0 to |chain|
      invariant -1 <= best < n
      invariant best == -1 ==> forall j :: 0 <= j < n ==> !IsSuffix(chain[j].zone, zone)
      invariant best >= 0 ==> ClosestOf(chain, zone, n, best)
    {
      if IsSuffix(chain[n].zone, zone) {
        if best == -1 || NumLabels(chain[n].zone) > NumLabels(chain[best].zone) { best := n; }
      }
    }
    keys := if best >= 0 then chain[best].keys else [];
  }

  /** Keys of the first entry for the zone. */
  function KeysFor(chain: Chain, zone: Name): (keys: seq<Key>)
    ensures keys != [] ==> Entry(zone, keys) in chain
  {
    if chain == [] then [] else if chain[0].zone == zone then chain[0].keys else KeysFor(chain[1..], zone)
  }

  /** `chain_keys` as seeded from the anchors: one entry per anchored zone, each made of anchors of that zone. */
  ghost predicate OfAnchors(chain: Chain, anchors: seq<(Name, Key)>) {
    forall e :: e in chain ==> e.keys != [] && forall k :: k in e.keys ==> (e.zone, k) in anchors
  }

  /** A chain seeded from anchors of the root alone is, once the root's entry is replaced, that entry. */
  lemma OnlyRoot(chain: Chain, anchors: seq<(Name, Key)>)
    requires OfAnchors(chain, anchors)
    ensures (forall a :: a in anchors ==> a.0 == []) ==> forall keys :: Replaced(chain, [], keys) == [Entry([], keys)]
  {
    if forall a :: a in anchors ==> a.0 == [] {
      forall e | e in chain ensures e.zone == [] { assert (e.zone, e.keys[0]) in anchors; }
      var rest := Without(chain, []);
      if rest != [] { assert rest[0] in rest; }
    }
  }

  method Seed(ghost t: Trust, anchors: seq<(Name, Key)>) returns (chain: Chain)
    requires forall a :: a in anchors ==> a in t.anchors
    ensures Sound(t, chain) && OfAnchors(chain, anchors) && (chain == [] <==> anchors == [])
    ensures forall a :: a in anchors ==> exists e :: e in chain && e.zone == a.0 && a.1 in e.keys
    ensures forall i, j :: 0 <= i < j < |chain| ==> chain[i].zone != chain[j].zone
  {
    chain := [];
    for n := 0 to |anchors|
      invariant OfAnchors(chain, anchors) && (chain == [] <==> n == 0)
      invariant forall m :: 0 <= m < n ==> exists e :: e in chain && e.zone == anchors[m].0 && anchors[m].1 in e.keys
      invariant forall i, j :: 0 <= i < j < |chain| ==> chain[i].zone != chain[j].zone
    {
      chain := Insert(chain, anchors[n].0, anchors[n].1, anchors[..n], anchors);
    }
    forall e | e in chain ensures Derivable(t, e.zone, e.keys) {
      DeriveAnchored(t, e.zone, e.keys);
    }
  }

  method Insert(chain: Chain, zone: Name, key: Key, ghost done: seq<(Name, Key)>, ghost anchors: seq<(Name, Key)>)
    returns (after: Chain)
    requires OfAnchors(chain, anchors) && (zone, key) in anchors
    requires forall a :: a in done ==> exists e :: e in chain && e.zone == a.0 && a.1 in e.keys
    requires forall i, j :: 0 <= i < j < |chain| ==> chain[i].zone != chain[j].zone
    ensures OfAnchors(after, anchors) && after != []
    ensures forall a :: a in done + [(zone, key)] ==> exists e :: e in after && e.zone == a.0 && a.1 in e.keys
    ensures forall i, j :: 0 <= i < j < |after| ==> after[i].zone != after[j].zone
  {
    var n := 0;
    while n < |chain| && chain[n].zone != zone
      invariant 0 <= n <= |chain| && forall i :: 0 <= i < n ==> chain[i].zone != zone
    {
      n := n + 1;
    }
    if n < |chain| {
      after := chain[n := Entry(zone, chain[n].keys + [key])];
      assert after[n] in after;
      forall a | a in done ensures exists e :: e in after && e.zone == a.0 && a.1 in e.keys {
        var i :| 0 <= i < |chain| && chain[i].zone == a.0 && a.1 in chain[i].keys;
        assert after[i] in after;
      }
    } else {
      after := chain + [Entry(zone, [key])];
      assert after[|chain|] in after;
    }
  }
}
