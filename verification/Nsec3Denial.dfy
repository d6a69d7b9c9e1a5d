/**
 NSEC3 denial of existence (sections 8.3 to 8.5 of RFC 5155): the verdict over a set of hashed
 intervals, and what it means for the zone whose hash ring the intervals were taken from.  A zone may
 leave unsigned names out of its ring, in the intervals it marks opt-out; the verdict does not look at
 that mark, and what this costs is given exactly.  The hash itself is a parameter; base32 decoding of
 the owner label happens before this module.
 */
module Nsec3Denial {
  import opened Basics
  import opened Names
  import opened NsecDenial

  type Hash = string
  type Hasher = Name -> Option<Hash>

  datatype Interval = Interval(owner: Hash, next: Hash, types: set<RType>, optOut: bool)

  // ---- the computation ----

  /** `hash_in_range`: strictly between the bounds, the last interval wrapping past zero. */
  predicate HashInRange(target: Hash, owner: Hash, next: Hash) {
    if BytesLt(owner, target) && BytesLt(target, next) then true
    else BytesLt(next, owner) && (BytesLt(owner, target) || BytesLt(target, next))
  }

  predicate HasOwner(recs: seq<Interval>, h: Hash) { exists r :: r in recs && r.owner == h }

  predicate HasCover(recs: seq<Interval>, h: Hash) {
    recs != [] && (HashInRange(h, recs[0].owner, recs[0].next) || HasCover(recs[1..], h))
  }

  lemma {:induction false} HasCoverMeans(recs: seq<Interval>, h: Hash)
    ensures HasCover(recs, h) <==> exists r :: r in recs && HashInRange(h, r.owner, r.next)
  {
    if recs != [] {
      HasCoverMeans(recs[1..], h);
      assert recs == [recs[0]] + recs[1..];
    }
  }

  /** The library's label count of the ancestor of `q` with `k` labels. */
  function CountAt(q: Name, k: nat): (c: nat)
    requires k <= |q|
    ensures c <= k <= c + 1
  {
    if k > 0 && q[|q| - k] == STAR then k - 1 else k
  }

  lemma CountAtIs(q: Name, k: nat)
    requires k <= |q|
    ensures CountAt(q, k) == NumLabels(Suffix(q, k))
    ensures CountAt(q, k) > 0 ==> TrimTo(Suffix(q, k), CountAt(q, k) - 1) == Suffix(q, CountAt(q, k) - 1)
  {
    if CountAt(q, k) > 0 { SuffixSuffix(q, k, CountAt(q, k) - 1); }
  }

  /** The climb from depth `k` of `q` towards the root, to the first ancestor whose hash owns a record. */
  function FindDepth(recs: seq<Interval>, hash: Hasher, q: Name, k: nat): (depth: Option<nat>)
    requires k <= |q|
    ensures depth.Some? ==> depth.value < k
    ensures depth.Some? ==> hash(Suffix(q, depth.value)).Some? && HasOwner(recs, hash(Suffix(q, depth.value)).value)
  {
    var c := CountAt(q, k);
    if c == 0 || hash(Suffix(q, c - 1)).None? then None
    else if HasOwner(recs, hash(Suffix(q, c - 1)).value) then Some(c - 1)
    else FindDepth(recs, hash, q, c - 1)
  }

  function FindEncloser(recs: seq<Interval>, hash: Hasher, q: Name): Option<Name> {
    var depth := FindDepth(recs, hash, q, |q|);
    if depth.Some? then Some(Suffix(q, depth.value)) else None
  }

  function NxVerdict(recs: seq<Interval>, hash: Hasher, q: Name, found: Option<Name>): Outcome {
    if found.None? then Bogus
    else
      var count := NumLabels(found.value) + 1;
      if count > NumLabels(q) then Bogus
      else
        var nextCloser, wildcard := hash(TrimTo(q, count)), hash(Wildcard(found.value));
        if nextCloser.None? then Insecure
        else if !HasCover(recs, nextCloser.value) then Bogus
        else if wildcard.None? then Insecure
        else if HasCover(recs, wildcard.value) || HasOwner(recs, wildcard.value) then Secure
        else Bogus
  }

  /** Index of the first record owned by `h`. */
  function OwnerAt(recs: seq<Interval>, h: Hash): (k: nat)
    ensures k <= |recs| && (k < |recs| ==> recs[k].owner == h)
    ensures forall i :: 0 <= i < k ==> recs[i].owner != h
  {
    if recs == [] || recs[0].owner == h then 0 else 1 + OwnerAt(recs[1..], h)
  }

  function Verdict3(recs: seq<Interval>, hash: Hasher, q: Name, qtype: RType, rcode: Rcode): Outcome {
    match rcode
    case NoError =>
      if hash(q).None? then Insecure
      else
        var k := OwnerAt(recs, hash(q).value);
        if k == |recs| then Insecure else if qtype in recs[k].types then Bogus else Secure
    case NXDomain => NxVerdict(recs, hash, q, FindEncloser(recs, hash, q))
    case OtherRcode => Insecure
  }

  /** The loop that looks for the closest encloser. */
  method ClimbToOwner(recs: seq<Interval>, hash: Hasher, q: Name) returns (found: Option<Name>)
    ensures found == FindEncloser(recs, hash, q)
  {
    var current := q;
    ghost var k: nat := |q|;
    assert Suffix(q, |q|) == q;
    while NumLabels(current) > 0
      invariant k <= |q| && current == Suffix(q, k)
      invariant FindDepth(recs, hash, q, k) == FindDepth(recs, hash, q, |q|)
      decreases k
    {
      CountAtIs(q, k);
      k := CountAt(q, k) - 1;
      current := TrimTo(current, NumLabels(current) - 1);
      var h := hash(current);
      if h.None? { return None; }
      if HasOwner(recs, h.value) { return Some(current); }
      if current == [] { return None; }
    }
    CountAtIs(q, k);
    return None;
  }

  /** `prove_denial_nsec3` after its records have been decoded. */
  method ProveDenial3(recs: seq<Interval>, hash: Hasher, q: Name, qtype: RType, rcode: Rcode) returns (o: Outcome)
    ensures o == Verdict3(recs, hash, q, qtype, rcode)
  {
    if rcode == NoError {
      var target := hash(q);
      if target.None? { return Insecure; }
      for i := 0 to |recs|
        invariant forall j :: 0 <= j < i ==> recs[j].owner != target.value
      {
        if recs[i].owner == target.value { return if qtype !in recs[i].types then Secure else Bogus; }
      }
      return Insecure;
    }
    if rcode == NXDomain {
      var found := ClimbToOwner(recs, hash, q);
      return NxVerdict(recs, hash, q, found);
    }
    return Insecure;
  }

  // ---- hash rings ----

  ghost predicate Ring(hs: seq<Hash>) {
    |hs| > 0 && forall i, j :: 0 <= i < j < |hs| ==> BytesLt(hs[i], hs[j])
  }

  function NextIndex(n: nat, i: nat): (k: nat)
    requires i < n
    ensures k < n
  {
    if i + 1 < n then i + 1 else 0
  }

  ghost predicate InGap(hs: seq<Hash>, i: nat, t: Hash) requires i < |hs| {
    HashInRange(t, hs[i], hs[NextIndex(|hs|, i)])
  }

  /** What an interval of a ring holds: an inner gap, or both ends of the order for the last one. */
  lemma GapMeaning(hs: seq<Hash>, i: nat, t: Hash)
    requires Ring(hs) && i < |hs|
    ensures i + 1 < |hs| ==> (InGap(hs, i, t) <==> BytesLt(hs[i], t) && BytesLt(t, hs[i + 1]))
    ensures i + 1 == |hs| ==>
              (InGap(hs, i, t) <==> |hs| > 1 && (BytesLt(hs[i], t) || BytesLt(t, hs[0])))
  {
    if i + 1 < |hs| {
      BytesLtAsym(hs[i], hs[i + 1]);
    } else if |hs| > 1 {
      BytesLtAsym(hs[0], hs[i]);
    } else {
      if BytesLt(hs[0], t) { BytesLtAsym(hs[0], t); }
      if BytesLt(hs[0], hs[0]) { BytesLtAsym(hs[0], hs[0]); }
    }
  }

  lemma OwnersAreNotCovered(hs: seq<Hash>, i: nat, k: nat)
    requires Ring(hs) && i < |hs| && k < |hs|
    ensures !InGap(hs, i, hs[k])
  {
    GapMeaning(hs, i, hs[k]);
    if k < i { BytesLtAsym(hs[k], hs[i]); }
    if i < k { BytesLtAsym(hs[i], hs[k]); }
    if k > 0 { BytesLtAsym(hs[0], hs[k]); }
    if i + 1 < k { BytesLtAsym(hs[i + 1], hs[k]); }
    if BytesLt(hs[k], hs[k]) { BytesLtAsym(hs[k], hs[k]); }
  }

  lemma GapExists(hs: seq<Hash>, t: Hash) returns (i: nat)
    requires Ring(hs) && |hs| >= 2 && t !in hs
    ensures i < |hs| && InGap(hs, i, t)
  {
    var last := |hs| - 1;
    BytesLtTotal(hs[0], t);
    BytesLtTotal(hs[last], t);
    if BytesLt(t, hs[0]) || BytesLt(hs[last], t) {
      GapMeaning(hs, last, t);
      return last;
    }
    i := 0;
    while i + 1 < last && BytesLt(hs[i + 1], t)
      invariant i < last && BytesLt(hs[i], t)
    {
      i := i + 1;
    }
    BytesLtTotal(hs[i + 1], t);
    GapMeaning(hs, i, t);
  }

  lemma GapIsUnique(hs: seq<Hash>, i: nat, j: nat, t: Hash)
    requires Ring(hs) && i < j < |hs| && InGap(hs, i, t)
    ensures !InGap(hs, j, t)
  {
    GapMeaning(hs, i, t);
    GapMeaning(hs, j, t);
    if BytesLt(hs[j], t) && i + 1 < j { BytesLtTrans(hs[i + 1], hs[j], t); }
    if BytesLt(hs[i + 1], t) { BytesLtAsym(hs[i + 1], t); }
    if 0 < i { BytesLtTrans(hs[0], hs[i], t); }
    BytesLtAsym(hs[0], t);
  }

  /** In a ring of two or more hashes, every hash is an owner or lies in exactly one interval. */
  lemma RingPartition(hs: seq<Hash>, t: Hash)
    requires Ring(hs) && |hs| >= 2
    ensures t in hs ==> forall i :: 0 <= i < |hs| ==> !InGap(hs, i, t)
    ensures t !in hs ==> exists i :: 0 <= i < |hs| && InGap(hs, i, t)
                                && forall j :: 0 <= j < |hs| && j != i ==> !InGap(hs, j, t)
  {
    if t in hs {
      var k :| 0 <= k < |hs| && hs[k] == t;
      forall i | 0 <= i < |hs| ensures !InGap(hs, i, t) { OwnersAreNotCovered(hs, i, k); }
    } else {
      var i := GapExists(hs, t);
      forall j | 0 <= j < |hs| && j != i ensures !InGap(hs, j, t) {
        if InGap(hs, j, t) {
          if i < j { GapIsUnique(hs, i, j, t); } else { GapIsUnique(hs, j, i, t); }
        }
      }
    }
  }

  // ---- zones ----

  /**
   A zone: its signed names with their types, their hashes as a ring, which of the ring's intervals are
   opt-out, and the unsigned names, which are hashed into opt-out intervals.
   */
  datatype HashedZone = HashedZone(apex: Name, types: map<Name, set<RType>>, ring: seq<Hash>,
                                   unsigned: set<Name>, optOut: seq<bool>) {
    ghost predicate Valid(hash: Hasher) {
      && apex in types
      && Ring(ring) && |optOut| == |ring|
      && (forall n {:trigger Placed(n, hash)} :: n in types ==> Placed(n, hash))
      && (forall n {:trigger LeftOut(n, hash)} :: n in unsigned ==> LeftOut(n, hash))
      && (forall h :: h in ring ==> exists n :: n in types && hash(n) == Some(h))
    }

    predicate Exists(n: Name) { n in types || n in unsigned }

    /** The name lies below the apex, its ancestors down to the apex are signed, and its hash is in the ring. */
    ghost predicate Placed(n: Name, hash: Hasher) {
      && IsSuffix(apex, n)
      && (forall k :: |apex| <= k <= |n| ==> Suffix(n, k) in types)
      && hash(n).Some? && hash(n).value in ring
    }

    /** The name lies below the apex, its ancestors down to the apex exist, and its hash is in an opt-out interval. */
    ghost predicate LeftOut(n: Name, hash: Hasher) {
      && IsSuffix(apex, n) && n !in types
      && (forall k :: |apex| <= k <= |n| ==> Exists(Suffix(n, k)))
      && hash(n).Some? && OptedOut(hash(n).value)
    }

    /** The hash is no owner and lies in an opt-out interval; the only interval of a one-name ring is all the rest. */
    ghost predicate OptedOut(h: Hash) {
      |optOut| == |ring| && h !in ring && exists i :: 0 <= i < |ring| && optOut[i] && (|ring| == 1 || InGap(ring, i, h))
    }

    /** The record is the ring's interval at `i`, with its opt-out mark. */
    ghost predicate IntervalAt(r: Interval, i: nat) {
      && i < |ring| && i < |optOut|
      && r.owner == ring[i] && r.next == ring[NextIndex(|ring|, i)] && r.optOut == optOut[i]
    }

    /** The record is one of the ring's intervals and lists the types of the name it stands for. */
    ghost predicate Publishes(r: Interval, hash: Hasher) {
      && (exists i :: IntervalAt(r, i))
      && (exists n :: n in types && hash(n) == Some(r.owner) && r.types == types[n])
    }
  }

  /** No ancestor-or-self of `q` hashes to the hash of a different signed name of the zone. */
  ghost predicate CollisionFree(hash: Hasher, z: HashedZone, q: Name) {
    forall n, k :: n in z.types && 0 <= k <= |q| && hash(n).Some? && hash(Suffix(q, k)) == hash(n)
      ==> Suffix(q, k) == n
  }

  ghost predicate NothingAtOrBelow(z: HashedZone, n: Name) { forall o :: z.Exists(o) ==> !IsSuffix(n, o) }

  lemma OwnerIsInZone(z: HashedZone, hash: Hasher, recs: seq<Interval>, q: Name, k: nat)
    requires z.Valid(hash) && CollisionFree(hash, z, q) && k <= |q|
    requires forall r :: r in recs ==> z.Publishes(r, hash)
    requires hash(Suffix(q, k)).Some? && HasOwner(recs, hash(Suffix(q, k)).value)
    ensures Suffix(q, k) in z.types
  {
    var r :| r in recs && r.owner == hash(Suffix(q, k)).value;
    var n :| n in z.types && hash(n) == Some(r.owner);
  }

  /** A record in hand covers the hash and is marked opt-out. */
  ghost predicate OptOutCover(recs: seq<Interval>, h: Hash) {
    exists r :: r in recs && HashInRange(h, r.owner, r.next) && r.optOut
  }

  /** A covered hash is no owner; it is that of an unsigned name only under an opt-out record. */
  lemma CoverMeans(z: HashedZone, hash: Hasher, recs: seq<Interval>, h: Hash)
    requires z.Valid(hash) && (forall r :: r in recs ==> z.Publishes(r, hash)) && HasCover(recs, h)
    ensures h !in z.ring && (z.OptedOut(h) <==> OptOutCover(recs, h))
  {
    HasCoverMeans(recs, h);
    var r :| r in recs && HashInRange(h, r.owner, r.next);
    var i: nat :| z.IntervalAt(r, i);
    CoveredAt(z, h, i);
    forall s | s in recs && HashInRange(h, s.owner, s.next) ensures s.optOut == z.optOut[i] {
      var j: nat :| z.IntervalAt(s, j);
      SameGap(z.ring, i, j, h);
    }
  }

  lemma SameGap(hs: seq<Hash>, i: nat, j: nat, t: Hash)
    requires Ring(hs) && i < |hs| && j < |hs| && InGap(hs, i, t) && InGap(hs, j, t)
    ensures i == j
  {
    if i < j { GapIsUnique(hs, i, j, t); }
    if j < i { GapIsUnique(hs, j, i, t); }
  }

  /** A hash in the interval at `i` is no owner, and is opted out exactly if that interval is. */
  lemma CoveredAt(z: HashedZone, h: Hash, i: nat)
    requires Ring(z.ring) && |z.optOut| == |z.ring| && i < |z.ring| && InGap(z.ring, i, h)
    ensures h !in z.ring && (z.OptedOut(h) <==> z.optOut[i])
  {
    if k: nat :| k < |z.ring| && z.ring[k] == h { OwnersAreNotCovered(z.ring, i, k); }
    forall j | 0 <= j < |z.ring| && InGap(z.ring, j, h) ensures j == i { SameGap(z.ring, i, j, h); }
  }

  lemma CoveredIsNotSigned(z: HashedZone, hash: Hasher, recs: seq<Interval>, n: Name)
    requires z.Valid(hash) && forall r :: r in recs ==> z.Publishes(r, hash)
    requires hash(n).Some? && HasCover(recs, hash(n).value)
    ensures n !in z.types && (n in z.unsigned ==> OptOutCover(recs, hash(n).value))
  {
    assert n in z.types ==> z.Placed(n, hash);
    assert n in z.unsigned ==> z.LeftOut(n, hash);
    CoverMeans(z, hash, recs, hash(n).value);
  }

  /** In a zone closed under ancestors, a missing name has nothing at or below it. */
  lemma NothingDeeper(z: HashedZone, hash: Hasher, q: Name, j: nat, k: nat)
    requires z.Valid(hash) && |z.apex| <= j <= k <= |q| && !z.Exists(Suffix(q, j))
    ensures NothingAtOrBelow(z, Suffix(q, k))
  {
    forall o | z.Exists(o) ensures !IsSuffix(Suffix(q, k), o) {
      assert if o in z.types then z.Placed(o, hash) else z.LeftOut(o, hash);
      assert k <= |o| ==> Suffix(Suffix(o, k), j) == Suffix(o, j);
      SuffixSuffix(q, k, j);
      assert j <= |o| ==> z.Exists(Suffix(o, j));
    }
  }

  /** Covering the name one label below an existing encloser pins that name as unsigned or missing. */
  lemma NextCloserIsMissing(z: HashedZone, hash: Hasher, recs: seq<Interval>, q: Name, e: Name)
    requires z.Valid(hash) && forall r :: r in recs ==> z.Publishes(r, hash)
    requires e in z.types && |e| < |q| && e == Suffix(q, |e|) && NumLabels(e) + 1 <= NumLabels(q)
    requires var h := hash(TrimTo(q, NumLabels(e) + 1)); h.Some? && HasCover(recs, h.value)
    ensures TrimTo(q, NumLabels(e) + 1) == Suffix(q, |e| + 1) && |z.apex| <= |e|
    ensures Suffix(q, |e| + 1) !in z.types
    ensures Suffix(q, |e| + 1) in z.unsigned ==> OptOutCover(recs, hash(Suffix(q, |e| + 1)).value)
  {
    CoveredIsNotSigned(z, hash, recs, TrimTo(q, NumLabels(e) + 1));
    assert TrimTo(q, |e|) == e;
    assert z.Placed(e, hash);
  }

  /** Nothing exists at any depth of `q` below the encloser. */
  ghost predicate NothingPast(z: HashedZone, q: Name, depth: nat) {
    forall k :: depth < k <= |q| ==> NothingAtOrBelow(z, Suffix(q, k))
  }

  lemma NothingPastMissing(z: HashedZone, hash: Hasher, q: Name, depth: nat)
    requires z.Valid(hash) && |z.apex| <= depth < |q|
    ensures NothingPast(z, q, depth) <==> !z.Exists(Suffix(q, depth + 1))
    ensures NothingPast(z, q, depth) ==> !z.Exists(q)
  {
    if !z.Exists(Suffix(q, depth + 1)) {
      forall k | depth < k <= |q| ensures NothingAtOrBelow(z, Suffix(q, k)) {
        NothingDeeper(z, hash, q, depth + 1, k);
      }
    }
    var next := Suffix(q, depth + 1);
    assert IsSuffix(next, next) by { assert Suffix(next, |next|) == next; }
    assert Suffix(q, |q|) == q && IsSuffix(q, q);
  }

  /** The signed names are closed under ancestors. */
  lemma SignedAncestor(z: HashedZone, hash: Hasher, q: Name, j: nat)
    requires z.Valid(hash) && |z.apex| <= j <= |q| && q in z.types
    ensures Suffix(q, j) in z.types
  {
    assert z.Placed(q, hash);
  }

  /** What a Secure NXDOMAIN verdict has checked. */
  lemma SecureMeansCovered(recs: seq<Interval>, hash: Hasher, q: Name, found: Option<Name>)
    requires NxVerdict(recs, hash, q, found) == Secure
    ensures found.Some? && NumLabels(found.value) + 1 <= NumLabels(q)
    ensures var h := hash(TrimTo(q, NumLabels(found.value) + 1)); h.Some? && HasCover(recs, h.value)
  {}

  /** The record that covers the next-closer name of the query is marked opt-out. */
  ghost predicate NextCloserOptOut(recs: seq<Interval>, hash: Hasher, q: Name) {
    var found := FindEncloser(recs, hash, q);
    found.Some? && |found.value| < |q| &&
    var h := hash(Suffix(q, |found.value| + 1));
    h.Some? && OptOutCover(recs, h.value)
  }

  /**
   A Secure NXDOMAIN over intervals of the zone's ring: the encloser found is signed, the query name and
   the next-closer name are not, and nothing at all exists from the next-closer name on unless the record
   that covers it is opt-out.
   */
  lemma SecureNxDomain(z: HashedZone, hash: Hasher, recs: seq<Interval>, q: Name, qtype: RType)
    requires z.Valid(hash) && CollisionFree(hash, z, q)
    requires forall r :: r in recs ==> z.Publishes(r, hash)
    requires Verdict3(recs, hash, q, qtype, NXDomain) == Secure
    ensures var found := FindEncloser(recs, hash, q);
            && found.Some? && found.value in z.types && |z.apex| <= |found.value| < |q| && IsSuffix(found.value, q)
            && q !in z.types && Suffix(q, |found.value| + 1) !in z.types
            && hash(Suffix(q, |found.value| + 1)).Some? && HasCover(recs, hash(Suffix(q, |found.value| + 1)).value)
            && (!NextCloserOptOut(recs, hash, q) ==> NothingPast(z, q, |found.value|) && !z.Exists(q))
  {
    var found := FindEncloser(recs, hash, q);
    SecureMeansCovered(recs, hash, q, found);
    var e := found.value;
    OwnerIsInZone(z, hash, recs, q, |e|);
    NextCloserIsMissing(z, hash, recs, q, e);
    NothingPastMissing(z, hash, q, |e|);
    if q in z.types { SignedAncestor(z, hash, q, |e| + 1); }
  }

  /** A zone stays one when a name below a signed one, hashed into an opt-out interval, joins the unsigned names. */
  lemma UnsignedFits(z: HashedZone, hash: Hasher, n: Name)
    requires z.Valid(hash) && n !in z.types && |n| > |z.apex| && n[1..] in z.types
    requires hash(n).Some? && z.OptedOut(hash(n).value)
    ensures z.(unsigned := z.unsigned + {n}).Valid(hash)
  {
    var more := z.(unsigned := z.unsigned + {n});
    forall o | o in z.types ensures more.Placed(o, hash) { assert z.Placed(o, hash); }
    forall o | o in z.unsigned ensures more.LeftOut(o, hash) { LeftOutStays(z, hash, o, n); }
    JoinsUnsigned(z, hash, n);
  }

  lemma LeftOutStays(z: HashedZone, hash: Hasher, o: Name, n: Name)
    requires z.LeftOut(o, hash)
    ensures z.(unsigned := z.unsigned + {n}).LeftOut(o, hash)
  {
    var more := z.(unsigned := z.unsigned + {n});
    assert more.OptedOut(hash(o).value);
    assert forall k :: |z.apex| <= k <= |o| ==> z.Exists(Suffix(o, k));
  }

  lemma JoinsUnsigned(z: HashedZone, hash: Hasher, n: Name)
    requires z.Valid(hash) && n !in z.types && |n| > |z.apex| && n[1..] in z.types
    requires hash(n).Some? && z.OptedOut(hash(n).value)
    ensures z.(unsigned := z.unsigned + {n}).LeftOut(n, hash)
  {
    var more := z.(unsigned := z.unsigned + {n});
    assert more.OptedOut(hash(n).value);
    assert z.Placed(n[1..], hash);
    forall k | |z.apex| <= k <= |n| ensures more.Exists(Suffix(n, k)) {
      if k < |n| { assert Suffix(n, k) == Suffix(n[1..], k); } else { assert Suffix(n, k) == n; }
    }
    assert Suffix(n, |z.apex|) == Suffix(n[1..], |z.apex|);
  }

  lemma StillPublishes(z: HashedZone, hash: Hasher, n: Name, r: Interval)
    requires z.Publishes(r, hash)
    ensures z.(unsigned := z.unsigned + {n}).Publishes(r, hash)
  {
    var i: nat :| z.IntervalAt(r, i);
    assert z.(unsigned := z.unsigned + {n}).IntervalAt(r, i);
  }

  /** Under an opt-out cover, the next-closer name may as well exist, unsigned. */
  lemma OptOutLeavesRoom(z: HashedZone, hash: Hasher, recs: seq<Interval>, q: Name, qtype: RType)
    returns (more: HashedZone)
    requires Consistent(z, recs, hash, q) && Verdict3(recs, hash, q, qtype, NXDomain) == Secure
    requires NextCloserOptOut(recs, hash, q)
    ensures Consistent(more, recs, hash, q) && !Denied(more, recs, hash, q) && more.types == z.types
  {
    SecureNxDomain(z, hash, recs, q, qtype);
    var e := FindEncloser(recs, hash, q).value;
    var n := Suffix(q, |e| + 1);
    assert n[1..] == e;
    CoverMeans(z, hash, recs, hash(n).value);
    UnsignedFits(z, hash, n);
    more := z.(unsigned := z.unsigned + {n});
    forall r | r in recs ensures more.Publishes(r, hash) { StillPublishes(z, hash, n, r); }
    NothingPastMissing(more, hash, q, |e|);
  }

  /** The zone has nothing from the next-closer name of the query on. */
  ghost predicate Denied(z: HashedZone, recs: seq<Interval>, hash: Hasher, q: Name) {
    var found := FindEncloser(recs, hash, q);
    found.Some? && NothingPast(z, q, |found.value|)
  }

  ghost predicate Consistent(z: HashedZone, recs: seq<Interval>, hash: Hasher, q: Name) {
    z.Valid(hash) && CollisionFree(hash, z, q) && forall r :: r in recs ==> z.Publishes(r, hash)
  }

  /**
   A Secure NXDOMAIN is true of every zone these records can come from exactly when the record covering
   the next-closer name is not opt-out.
   */
  lemma SecureIsTrueIffNotOptOut(z: HashedZone, hash: Hasher, recs: seq<Interval>, q: Name, qtype: RType)
    requires Consistent(z, recs, hash, q) && Verdict3(recs, hash, q, qtype, NXDomain) == Secure
    ensures (forall other :: Consistent(other, recs, hash, q) ==> Denied(other, recs, hash, q))
            <==> !NextCloserOptOut(recs, hash, q)
  {
    if NextCloserOptOut(recs, hash, q) {
      var more := OptOutLeavesRoom(z, hash, recs, q, qtype);
    } else {
      forall other | Consistent(other, recs, hash, q) ensures Denied(other, recs, hash, q) {
        SecureNxDomain(other, hash, recs, q, qtype);
      }
    }
  }

  /** A hash that tells the names below apart: `m` for the root, else the first label. */
  function FirstLabel(n: Name): Option<Hash> { Some(if n == [] then "m" else n[0]) }

  /** Two signed names, the root and `z.`, and between their hashes, opted out, the unsigned delegation `q.`. */
  function OptOutZone(): HashedZone {
    HashedZone([], map[[] := {}, ["z"] := {}], ["m", "z"], {["q"]}, [true, false])
  }

  function OptOutRecords(): seq<Interval> { [Interval("m", "z", {}, true), Interval("z", "m", {}, false)] }

  /** Under an apex at the root, a one-label name has only itself and the root above it. */
  lemma OneLabelSuffixes(n: Name, k: nat)
    requires k <= |n| <= 1
    ensures Suffix(n, k) == n || Suffix(n, k) == []
  {}

  lemma OptOutPlaced(n: Name)
    requires n in OptOutZone().types
    ensures OptOutZone().Placed(n, FirstLabel)
  {
    var z := OptOutZone();
    forall k | 0 <= k <= |n| ensures Suffix(n, k) in z.types { OneLabelSuffixes(n, k); }
    assert Suffix(n, 0) == z.apex && z.ring[0] == "m" && z.ring[1] == "z";
  }

  lemma OptOutLeftOut(n: Name)
    requires n in OptOutZone().unsigned
    ensures OptOutZone().LeftOut(n, FirstLabel)
  {
    var z := OptOutZone();
    forall k | 0 <= k <= |n| ensures z.Exists(Suffix(n, k)) { OneLabelSuffixes(n, k); }
    assert Suffix(n, 0) == z.apex;
    assert InGap(z.ring, 0, "q") && z.optOut[0];
  }

  lemma OptOutZoneValid()
    ensures OptOutZone().Valid(FirstLabel)
  {
    var z := OptOutZone();
    forall n | n in z.types ensures z.Placed(n, FirstLabel) { OptOutPlaced(n); }
    forall n | n in z.unsigned ensures z.LeftOut(n, FirstLabel) { OptOutLeftOut(n); }
    assert FirstLabel([]) == Some(z.ring[0]) && FirstLabel(["z"]) == Some(z.ring[1]);
    assert [] in z.types && ["z"] in z.types;
  }

  lemma OptOutZonePublishes(r: Interval)
    requires r in OptOutRecords()
    ensures OptOutZone().Publishes(r, FirstLabel)
  {
    var z, recs := OptOutZone(), OptOutRecords();
    if r == recs[0] {
      assert z.IntervalAt(r, 0) && [] in z.types && FirstLabel([]) == Some("m");
    } else {
      assert z.IntervalAt(r, 1) && ["z"] in z.types && FirstLabel(["z"]) == Some("z");
    }
  }

  lemma OptOutZoneCollisionFree()
    ensures CollisionFree(FirstLabel, OptOutZone(), ["q"])
  {
    var q: Name := ["q"];
    forall n, k | n in OptOutZone().types && 0 <= k <= |q| && FirstLabel(Suffix(q, k)) == FirstLabel(n)
      ensures Suffix(q, k) == n
    {
      OneLabelSuffixes(q, k);
    }
  }

  lemma OptOutVerdict()
    ensures Verdict3(OptOutRecords(), FirstLabel, ["q"], 1, NXDomain) == Secure
  {
    var recs := OptOutRecords();
    var q: Name := ["q"];
    assert HasOwner(recs, "m") by { assert recs[0] in recs; }
    assert Suffix(q, 0) == [] && CountAt(q, 1) == 1;
    assert FindDepth(recs, FirstLabel, q, 1) == Some(0);
    assert TrimTo(q, 1) == q && NumLabels(q) == 1;
    assert HashInRange("q", "m", "z") && HashInRange("*", "z", "m");
    assert recs[1] in recs;
    HasCoverMeans(recs, "q");
    HasCoverMeans(recs, "*");
    assert FirstLabel(Wildcard([])) == Some("*");
  }

  /** With every record of that zone in hand, NXDOMAIN is Secure for the name that exists. */
  lemma OptOutDeniesExisting()
    ensures Consistent(OptOutZone(), OptOutRecords(), FirstLabel, ["q"]) && OptOutZone().Exists(["q"])
    ensures Verdict3(OptOutRecords(), FirstLabel, ["q"], 1, NXDomain) == Secure
  {
    OptOutZoneValid();
    OptOutZoneCollisionFree();
    forall r | r in OptOutRecords() ensures OptOutZone().Publishes(r, FirstLabel) { OptOutZonePublishes(r); }
    OptOutVerdict();
  }

  /** Which half of the wildcard test passed decides whether the wildcard at the encloser is a signed name. */
  lemma WildcardHalf(z: HashedZone, hash: Hasher, recs: seq<Interval>, q: Name, qtype: RType)
    requires Consistent(z, recs, hash, q) && Verdict3(recs, hash, q, qtype, NXDomain) == Secure
    requires CollisionFree(hash, z, Wildcard(FindEncloser(recs, hash, q).value))
    ensures var w := Wildcard(FindEncloser(recs, hash, q).value);
            && hash(w).Some?
            && (w in z.types <==> HasOwner(recs, hash(w).value))
            && (w in z.unsigned ==> OptOutCover(recs, hash(w).value))
  {
    var w := Wildcard(FindEncloser(recs, hash, q).value);
    assert Suffix(w, |w|) == w;
    assert w in z.unsigned ==> z.LeftOut(w, hash);
    if HasOwner(recs, hash(w).value) {
      OwnerIsInZone(z, hash, recs, w, |w|);
    } else {
      CoveredIsNotSigned(z, hash, recs, w);
    }
  }

  /** A Secure NODATA: the name exists in the zone and does not hold the type. */
  lemma SecureNoData(z: HashedZone, hash: Hasher, recs: seq<Interval>, q: Name, qtype: RType)
    requires z.Valid(hash) && CollisionFree(hash, z, q)
    requires forall r :: r in recs ==> z.Publishes(r, hash)
    requires Verdict3(recs, hash, q, qtype, NoError) == Secure
    ensures q in z.types && qtype !in z.types[q]
  {
    var r := recs[OwnerAt(recs, hash(q).value)];
    assert r in recs;
    var n :| n in z.types && hash(n) == Some(r.owner) && r.types == z.types[n];
    assert Suffix(q, |q|) == q;
  }

  // ---- each verdict ----

  /**
   No error, over intervals of the zone's ring: with the name's own record the zone's types decide between
   Secure and Bogus; without it, or without a hash, the verdict is Insecure.
   */
  lemma NoErrorVerdict3(z: HashedZone, hash: Hasher, recs: seq<Interval>, q: Name, qtype: RType)
    requires Consistent(z, recs, hash, q)
    ensures hash(q).Some? && HasOwner(recs, hash(q).value) ==> q in z.types
    ensures var v, held := Verdict3(recs, hash, q, qtype, NoError), hash(q).Some? && HasOwner(recs, hash(q).value);
            && (v == Bogus <==> held && qtype in z.types[q])
            && (v == Secure <==> held && qtype !in z.types[q])
            && (v == Insecure <==> !held)
  {
    if hash(q).Some? {
      assert Suffix(q, |q|) == q;
      forall r | r in recs && r.owner == hash(q).value ensures q in z.types && r.types == z.types[q] {
        var n :| n in z.types && hash(n) == Some(r.owner) && r.types == z.types[n];
      }
      var k := OwnerAt(recs, hash(q).value);
      if k < |recs| { assert recs[k] in recs; }
    }
  }

  /** The climb found an encloser with a name below it on the way to the query. */
  ghost predicate Enclosed(recs: seq<Interval>, hash: Hasher, q: Name) {
    var found := FindEncloser(recs, hash, q);
    found.Some? && NumLabels(found.value) < NumLabels(q)
  }

  /** The hash lies inside one of the intervals. */
  ghost predicate Spans(recs: seq<Interval>, h: Hash) { exists r :: r in recs && HashInRange(h, r.owner, r.next) }

  lemma CoverSpans(recs: seq<Interval>, h: Hash)
    ensures HasCover(recs, h) == Spans(recs, h)
  {
    HasCoverMeans(recs, h);
  }

  /**
   A name error is Insecure only where a hash is missing after the encloser is found; with the hashes it is
   Secure exactly when the next-closer name is covered and the wildcard covered or owned, otherwise Bogus.
   */
  lemma NameErrorVerdict3(recs: seq<Interval>, hash: Hasher, q: Name, qtype: RType)
    ensures var v := Verdict3(recs, hash, q, qtype, NXDomain);
            if !Enclosed(recs, hash, q) then v == Bogus
            else
              var e := FindEncloser(recs, hash, q).value;
              var next, wild := hash(TrimTo(q, NumLabels(e) + 1)), hash(Wildcard(e));
              && (next.None? ==> v == Insecure)
              && (next.Some? && wild.None? ==> v == if Spans(recs, next.value) then Insecure else Bogus)
              && (next.Some? && wild.Some? ==>
                    && v != Insecure
                    && (v == Secure <==> && Spans(recs, next.value)
                                         && (Spans(recs, wild.value) || HasOwner(recs, wild.value))))
    ensures Verdict3(recs, hash, q, qtype, OtherRcode) == Insecure
  {
    if Enclosed(recs, hash, q) {
      var e := FindEncloser(recs, hash, q).value;
      var next, wild := hash(TrimTo(q, NumLabels(e) + 1)), hash(Wildcard(e));
      if next.Some? { CoverSpans(recs, next.value); }
      if wild.Some? { CoverSpans(recs, wild.value); }
    }
  }

  /** So a name error about a signed name is never Secure, and Bogus wherever the hashes are to be had. */
  lemma NameErrorOfSigned3(z: HashedZone, hash: Hasher, recs: seq<Interval>, q: Name, qtype: RType)
    requires Consistent(z, recs, hash, q) && q in z.types
    ensures Verdict3(recs, hash, q, qtype, NXDomain) != Secure
    ensures (forall n :: hash(n).Some?) ==> Verdict3(recs, hash, q, qtype, NXDomain) == Bogus
  {
    NameErrorVerdict3(recs, hash, q, qtype);
    if Verdict3(recs, hash, q, qtype, NXDomain) == Secure { SecureNxDomain(z, hash, recs, q, qtype); }
  }

  // ---- completeness ----

  /** All of the ring's intervals are in hand. */
  ghost predicate WholeRing(z: HashedZone, recs: seq<Interval>) {
    forall i :: 0 <= i < |z.ring| ==> HasInterval(recs, z.ring[i], z.ring[NextIndex(|z.ring|, i)])
  }

  ghost predicate HasInterval(recs: seq<Interval>, owner: Hash, next: Hash) {
    exists r :: r in recs && r.owner == owner && r.next == next
  }

  lemma WholeRingAnswers(z: HashedZone, recs: seq<Interval>, t: Hash)
    requires Ring(z.ring) && |z.ring| >= 2 && WholeRing(z, recs)
    ensures if t in z.ring then HasOwner(recs, t) else HasCover(recs, t)
  {
    if t in z.ring {
      var k :| 0 <= k < |z.ring| && z.ring[k] == t;
      assert HasInterval(recs, z.ring[k], z.ring[NextIndex(|z.ring|, k)]);
    } else {
      var i := GapExists(z.ring, t);
      assert HasInterval(recs, z.ring[i], z.ring[NextIndex(|z.ring|, i)]);
      HasCoverMeans(recs, t);
    }
  }

  lemma OwnerIffInZone(z: HashedZone, hash: Hasher, recs: seq<Interval>, q: Name, k: nat)
    requires z.Valid(hash) && CollisionFree(hash, z, q) && |z.ring| >= 2 && k <= |q|
    requires (forall r :: r in recs ==> z.Publishes(r, hash)) && WholeRing(z, recs)
    requires hash(Suffix(q, k)).Some?
    ensures HasOwner(recs, hash(Suffix(q, k)).value) <==> Suffix(q, k) in z.types
    ensures HasCover(recs, hash(Suffix(q, k)).value) <==> Suffix(q, k) !in z.types
  {
    WholeRingAnswers(z, recs, hash(Suffix(q, k)).value);
    assert Suffix(q, k) in z.types ==> z.Placed(Suffix(q, k), hash);
    if HasOwner(recs, hash(Suffix(q, k)).value) { OwnerIsInZone(z, hash, recs, q, k); }
    if HasCover(recs, hash(Suffix(q, k)).value) { CoveredIsNotSigned(z, hash, recs, Suffix(q, k)); }
  }

  /** The records own the hash of the ancestor at depth `k` exactly if it is signed. */
  ghost predicate OwnedAt(recs: seq<Interval>, hash: Hasher, z: HashedZone, q: Name, k: nat)
    requires k <= |q|
  {
    hash(Suffix(q, k)).Some? && (HasOwner(recs, hash(Suffix(q, k)).value) <==> Suffix(q, k) in z.types)
  }

  ghost predicate OwnsExisting(recs: seq<Interval>, hash: Hasher, z: HashedZone, q: Name) {
    forall k: nat {:trigger OwnedAt(recs, hash, z, q, k)} :: k <= |q| ==> OwnedAt(recs, hash, z, q, k)
  }

  ghost predicate Missing(z: HashedZone, q: Name, k: nat) requires k <= |q| { Suffix(q, k) !in z.types }

  ghost predicate MissingBetween(z: HashedZone, q: Name, low: nat, high: nat) requires high <= |q| {
    forall k: nat {:trigger Missing(z, q, k)} :: low < k < high ==> Missing(z, q, k)
  }

  lemma WholeRingOwnsExisting(z: HashedZone, hash: Hasher, recs: seq<Interval>, q: Name)
    requires z.Valid(hash) && CollisionFree(hash, z, q) && |z.ring| >= 2
    requires (forall r :: r in recs ==> z.Publishes(r, hash)) && WholeRing(z, recs)
    requires forall k :: 0 <= k <= |q| ==> hash(Suffix(q, k)).Some?
    ensures OwnsExisting(recs, hash, z, q)
  {
    forall k: nat | k <= |q| ensures OwnedAt(recs, hash, z, q, k) {
      OwnerIffInZone(z, hash, recs, q, k);
    }
  }

  /** The largest signed depth below `from`. */
  ghost function DeepestBelow(z: HashedZone, q: Name, from: nat): (depth: nat)
    requires |z.apex| < from <= |q| && !Missing(z, q, |z.apex|)
    ensures depth < from && !Missing(z, q, depth) && MissingBetween(z, q, depth, from)
  {
    if Missing(z, q, from - 1) then DeepestBelow(z, q, from - 1) else from - 1
  }

  /** Climbing from a name without `*` labels stops at the closest signed proper ancestor. */
  lemma {:induction false} ClimbFindsZoneName(recs: seq<Interval>, hash: Hasher, z: HashedZone, q: Name, from: nat)
    requires OwnsExisting(recs, hash, z, q) && NoStar(q)
    requires |z.apex| < from <= |q| && !Missing(z, q, |z.apex|)
    ensures FindDepth(recs, hash, q, from) == Some(DeepestBelow(z, q, from))
    decreases from
  {
    assert OwnedAt(recs, hash, z, q, from - 1);
    if Missing(z, q, from - 1) { ClimbFindsZoneName(recs, hash, z, q, from - 1); }
  }

  lemma EncloserFound(z: HashedZone, hash: Hasher, recs: seq<Interval>, q: Name) returns (depth: nat)
    requires OwnsExisting(recs, hash, z, q) && NoStar(q) && IsSuffix(z.apex, q) && q != z.apex && z.apex in z.types
    ensures depth < |q| && FindEncloser(recs, hash, q) == Some(Suffix(q, depth))
    ensures !Missing(z, q, depth) && MissingBetween(z, q, depth, |q|)
  {
    assert Suffix(q, |q|) == q;
    ClimbFindsZoneName(recs, hash, z, q, |q|);
    depth := DeepestBelow(z, q, |q|);
  }

  /** With the whole ring in hand, NXDOMAIN is Secure exactly for the names that are not signed: absent or opted out. */
  lemma SecureIffAbsent(z: HashedZone, hash: Hasher, recs: seq<Interval>, q: Name, qtype: RType)
    requires z.Valid(hash) && CollisionFree(hash, z, q) && |z.ring| >= 2 && NoStar(q)
    requires (forall r :: r in recs ==> z.Publishes(r, hash)) && WholeRing(z, recs)
    requires IsSuffix(z.apex, q) && q != z.apex
    requires forall k :: 0 <= k <= |q| ==> hash(Suffix(q, k)).Some? && hash(Wildcard(Suffix(q, k))).Some?
    ensures Verdict3(recs, hash, q, qtype, NXDomain) == Secure <==> !z.Exists(q) || q in z.unsigned
  {
    if q in z.unsigned { assert z.LeftOut(q, hash); }
    WholeRingOwnsExisting(z, hash, recs, q);
    var depth := EncloserFound(z, hash, recs, q);
    VerdictAtDepth(z, hash, recs, q, depth);
  }

  lemma VerdictAtDepth(z: HashedZone, hash: Hasher, recs: seq<Interval>, q: Name, depth: nat)
    requires z.Valid(hash) && CollisionFree(hash, z, q) && |z.ring| >= 2 && NoStar(q)
    requires (forall r :: r in recs ==> z.Publishes(r, hash)) && WholeRing(z, recs)
    requires depth < |q| && !Missing(z, q, depth) && MissingBetween(z, q, depth, |q|)
    requires hash(Suffix(q, depth + 1)).Some? && hash(Wildcard(Suffix(q, depth))).Some?
    ensures NxVerdict(recs, hash, q, Some(Suffix(q, depth))) == Secure <==> q !in z.types
  {
    WholeRingAnswers(z, recs, hash(Wildcard(Suffix(q, depth))).value);
    NextCloserDecides(recs, hash, q, depth);
    OwnerIffInZone(z, hash, recs, q, depth + 1);
    AbsentNextCloser(z, hash, q, depth);
  }

  /** Once the wildcard is answered, the verdict is whether the next-closer name is covered. */
  lemma NextCloserDecides(recs: seq<Interval>, hash: Hasher, q: Name, depth: nat)
    requires NoStar(q) && depth < |q|
    requires hash(Suffix(q, depth + 1)).Some? && hash(Wildcard(Suffix(q, depth))).Some?
    requires var w := hash(Wildcard(Suffix(q, depth))).value; HasOwner(recs, w) || HasCover(recs, w)
    ensures NxVerdict(recs, hash, q, Some(Suffix(q, depth))) == Secure <==>
            HasCover(recs, hash(Suffix(q, depth + 1)).value)
  {
    StarlessCounts(q, depth);
    assert TrimTo(q, depth + 1) == Suffix(q, depth + 1);
  }

  lemma AbsentNextCloser(z: HashedZone, hash: Hasher, q: Name, depth: nat)
    requires z.Valid(hash) && depth < |q| && !Missing(z, q, depth) && MissingBetween(z, q, depth, |q|)
    ensures Missing(z, q, depth + 1) <==> q !in z.types
  {
    assert Suffix(q, |q|) == q;
    assert z.Placed(Suffix(q, depth), hash);
    if depth + 1 < |q| {
      assert Missing(z, q, depth + 1);
      if q in z.types { SignedAncestor(z, hash, q, depth + 1); }
    }
  }

  lemma StarlessCounts(q: Name, k: nat)
    requires NoStar(q) && k <= |q|
    ensures NumLabels(Suffix(q, k)) == k && NumLabels(q) == |q|
  {
    if k > 0 { assert Suffix(q, k)[0] == q[|q| - k]; }
  }

  /** A one-name ring covers nothing, so no NXDOMAIN from it is ever accepted. */
  lemma SingletonRingProvesNothing(z: HashedZone, hash: Hasher, recs: seq<Interval>, q: Name, qtype: RType)
    requires z.Valid(hash) && |z.ring| == 1 && forall r :: r in recs ==> z.Publishes(r, hash)
    ensures Verdict3(recs, hash, q, qtype, NXDomain) != Secure
  {
    forall t ensures !HasCover(recs, t) { SingletonCoversNothing(z, hash, recs, t); }
    if Verdict3(recs, hash, q, qtype, NXDomain) == Secure {
      SecureMeansCovered(recs, hash, q, FindEncloser(recs, hash, q));
    }
  }

  lemma SingletonCoversNothing(z: HashedZone, hash: Hasher, recs: seq<Interval>, t: Hash)
    requires z.Valid(hash) && |z.ring| == 1 && forall r :: r in recs ==> z.Publishes(r, hash)
    ensures !HasCover(recs, t)
  {
    HasCoverMeans(recs, t);
    forall r | r in recs ensures !HashInRange(t, r.owner, r.next) {
      var i :| z.IntervalAt(r, i);
      GapMeaning(z.ring, 0, t);
    }
  }
}
