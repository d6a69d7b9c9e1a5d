/**
 The wildcard half of an NSEC3 name error (section 8.4 of RFC 5155).  The verdict accepts the record at the
 wildcard itself, whatever types it lists.  Here is exactly when a Secure name error is right about both
 the name and the wildcard.
 */
module Nsec3Wildcard {
  import opened Basics
  import opened Names
  import opened NsecDenial
  import opened Nsec3Denial

  /** The records may come from the zone, and no hash the verdict uses collides with a signed name. */
  ghost predicate From(z: HashedZone, recs: seq<Interval>, hash: Hasher, q: Name, w: Name) {
    Consistent(z, recs, hash, q) && CollisionFree(hash, z, w)
  }

  /** The name may answer the type: it is signed and lists it, or is unsigned and may hold anything. */
  ghost predicate MayHold(z: HashedZone, n: Name, qtype: RType) {
    (n in z.types && qtype in z.types[n]) || n in z.unsigned
  }

  /** Nothing exists from the next-closer name on, and the wildcard at the encloser answers nothing. */
  ghost predicate NoAnswer3(z: HashedZone, recs: seq<Interval>, hash: Hasher, q: Name, w: Name, qtype: RType) {
    Denied(z, recs, hash, q) && !MayHold(z, w, qtype)
  }

  /** A record in hand covers the hash without opt-out, or owns it without the type. */
  ghost predicate DeniesHash(r: Interval, h: Hash, qtype: RType) {
    (HashInRange(h, r.owner, r.next) && !r.optOut) || (r.owner == h && qtype !in r.types)
  }

  ghost predicate HashDenied(recs: seq<Interval>, h: Hash, qtype: RType) {
    exists r :: r in recs && DeniesHash(r, h, qtype)
  }

  /** The record at a signed name lists its types. */
  lemma OwnerRecord(z: HashedZone, hash: Hasher, r: Interval, n: Name)
    requires z.Valid(hash) && CollisionFree(hash, z, n) && z.Publishes(r, hash) && hash(n) == Some(r.owner)
    ensures n in z.types && r.types == z.types[n] && n !in z.unsigned
  {
    var o :| o in z.types && hash(o) == Some(r.owner) && r.types == z.types[o];
    assert Suffix(n, |n|) == n;
    assert n in z.unsigned ==> z.LeftOut(n, hash);
  }

  lemma DenyingIsRight3(z: HashedZone, hash: Hasher, recs: seq<Interval>, n: Name, qtype: RType)
    requires z.Valid(hash) && CollisionFree(hash, z, n) && forall r :: r in recs ==> z.Publishes(r, hash)
    requires hash(n).Some? && HashDenied(recs, hash(n).value, qtype)
    ensures !MayHold(z, n, qtype)
  {
    var h := hash(n).value;
    var r :| r in recs && DeniesHash(r, h, qtype);
    if r.owner == h && qtype !in r.types {
      OwnerRecord(z, hash, r, n);
    } else {
      HasCoverMeans(recs, h);
      CoveredIsNotSigned(z, hash, recs, n);
      CoveredNotOptOut(z, hash, recs, r, h);
    }
  }

  /** All records that cover a hash are the same interval, so one without opt-out means none with it. */
  lemma CoveredNotOptOut(z: HashedZone, hash: Hasher, recs: seq<Interval>, r: Interval, h: Hash)
    requires z.Valid(hash) && (forall s :: s in recs ==> z.Publishes(s, hash)) && r in recs
    requires HashInRange(h, r.owner, r.next) && !r.optOut
    ensures !OptOutCover(recs, h)
  {
    var i: nat :| z.IntervalAt(r, i);
    forall s | s in recs && HashInRange(h, s.owner, s.next) ensures !s.optOut {
      var j: nat :| z.IntervalAt(s, j);
      SameGap(z.ring, i, j, h);
    }
  }

  /** A wildcard whose record lists the type answers it. */
  lemma OwnedAnswers(z: HashedZone, hash: Hasher, recs: seq<Interval>, w: Name, qtype: RType)
    requires z.Valid(hash) && CollisionFree(hash, z, w) && forall r :: r in recs ==> z.Publishes(r, hash)
    requires hash(w).Some? && HasOwner(recs, hash(w).value) && !HashDenied(recs, hash(w).value, qtype)
    ensures MayHold(z, w, qtype)
  {
    var r :| r in recs && r.owner == hash(w).value;
    assert !DeniesHash(r, hash(w).value, qtype);
    OwnerRecord(z, hash, r, w);
  }

  lemma OnlyOptOut(z: HashedZone, hash: Hasher, recs: seq<Interval>, w: Name, qtype: RType)
    requires z.Valid(hash) && forall r :: r in recs ==> z.Publishes(r, hash)
    requires hash(w).Some? && HasCover(recs, hash(w).value) && !HashDenied(recs, hash(w).value, qtype)
    ensures w !in z.types && z.OptedOut(hash(w).value)
  {
    var h := hash(w).value;
    HasCoverMeans(recs, h);
    var r :| r in recs && HashInRange(h, r.owner, r.next);
    assert !DeniesHash(r, h, qtype);
    CoverMeans(z, hash, recs, h);
    CoveredIsNotSigned(z, hash, recs, w);
  }

  /** Under opt-out covers alone, a name below a signed one may as well exist, unsigned. */
  lemma CoveredLeavesRoom(z: HashedZone, hash: Hasher, recs: seq<Interval>, q: Name, w: Name, qtype: RType)
    returns (more: HashedZone)
    requires From(z, recs, hash, q, w) && |w| > |z.apex| && w[1..] in z.types
    requires hash(w).Some? && HasCover(recs, hash(w).value) && !HashDenied(recs, hash(w).value, qtype)
    ensures From(more, recs, hash, q, w) && MayHold(more, w, qtype)
  {
    OnlyOptOut(z, hash, recs, w, qtype);
    UnsignedFits(z, hash, w);
    more := z.(unsigned := z.unsigned + {w});
    forall s | s in recs ensures more.Publishes(s, hash) { StillPublishes(z, hash, w, s); }
  }

  /** Without either half of the condition, some zone the records may come from has an answer. */
  lemma SomeZoneAnswers(z: HashedZone, hash: Hasher, recs: seq<Interval>, q: Name, w: Name, qtype: RType)
    returns (other: HashedZone)
    requires Verdict3(recs, hash, q, qtype, NXDomain) == Secure
    requires w == Wildcard(FindEncloser(recs, hash, q).value) && From(z, recs, hash, q, w) && hash(w).Some?
    requires NextCloserOptOut(recs, hash, q) || !HashDenied(recs, hash(w).value, qtype)
    ensures From(other, recs, hash, q, w) && !NoAnswer3(other, recs, hash, q, w, qtype)
  {
    other := z;
    if NextCloserOptOut(recs, hash, q) {
      other := OptOutLeavesRoom(z, hash, recs, q, qtype);
    } else if HasOwner(recs, hash(w).value) {
      OwnedAnswers(z, hash, recs, w, qtype);
    } else {
      SecureNxDomain(z, hash, recs, q, qtype);
      assert w[1..] == FindEncloser(recs, hash, q).value;
      other := CoveredLeavesRoom(z, hash, recs, q, w, qtype);
    }
  }

  lemma NoZoneAnswers(z: HashedZone, hash: Hasher, recs: seq<Interval>, q: Name, w: Name, qtype: RType)
    requires Verdict3(recs, hash, q, qtype, NXDomain) == Secure && From(z, recs, hash, q, w) && hash(w).Some?
    requires !NextCloserOptOut(recs, hash, q) && HashDenied(recs, hash(w).value, qtype)
    ensures NoAnswer3(z, recs, hash, q, w, qtype)
  {
    SecureNxDomain(z, hash, recs, q, qtype);
    DenyingIsRight3(z, hash, recs, w, qtype);
  }

  ghost predicate RightEverywhere(recs: seq<Interval>, hash: Hasher, q: Name, w: Name, qtype: RType) {
    forall z :: From(z, recs, hash, q, w) ==> NoAnswer3(z, recs, hash, q, w, qtype)
  }

  /**
   A Secure NSEC3 name error is right, about the name and the wildcard, in every zone the records may come
   from exactly when the record covering the next-closer name is not opt-out and one of the records covers
   the wildcard without opt-out or owns it without the type.
   */
  lemma SecureIsRightIff(z: HashedZone, hash: Hasher, recs: seq<Interval>, q: Name, w: Name, qtype: RType)
    requires Verdict3(recs, hash, q, qtype, NXDomain) == Secure
    requires w == Wildcard(FindEncloser(recs, hash, q).value) && From(z, recs, hash, q, w)
    ensures hash(w).Some?
    ensures RightEverywhere(recs, hash, q, w, qtype)
            <==> !NextCloserOptOut(recs, hash, q) && HashDenied(recs, hash(w).value, qtype)
  {
    if !NextCloserOptOut(recs, hash, q) && HashDenied(recs, hash(w).value, qtype) {
      forall other | From(other, recs, hash, q, w) ensures NoAnswer3(other, recs, hash, q, w, qtype) {
        NoZoneAnswers(other, hash, recs, q, w, qtype);
      }
    } else {
      var other := SomeZoneAnswers(z, hash, recs, q, w, qtype);
    }
  }

  // ---- a wildcard that answers ----

  /** Signed names `.`, `z.` and the wildcard `*.`, which holds type 1; nothing is opted out. */
  function WildZone(): HashedZone {
    HashedZone([], map[[] := {}, ["z"] := {}, ["*"] := {1}], ["*", "m", "z"], {}, [false, false, false])
  }

  function WildRecords(): seq<Interval> {
    [Interval("*", "m", {1}, false), Interval("m", "z", {}, false), Interval("z", "*", {}, false)]
  }

  lemma WildPlaced(n: Name)
    requires n in WildZone().types
    ensures WildZone().Placed(n, FirstLabel)
  {
    var z := WildZone();
    forall k | 0 <= k <= |n| ensures Suffix(n, k) in z.types { OneLabelSuffixes(n, k); }
    assert Suffix(n, 0) == z.apex && z.ring[0] == "*" && z.ring[1] == "m" && z.ring[2] == "z";
  }

  lemma WildValid()
    ensures WildZone().Valid(FirstLabel)
  {
    var z := WildZone();
    forall n | n in z.types ensures z.Placed(n, FirstLabel) { WildPlaced(n); }
    assert FirstLabel(["*"]) == Some(z.ring[0]) && FirstLabel([]) == Some(z.ring[1]) &&
           FirstLabel(["z"]) == Some(z.ring[2]);
    assert [] in z.types && ["z"] in z.types && ["*"] in z.types;
  }

  lemma WildPublishes(r: Interval)
    requires r in WildRecords()
    ensures WildZone().Publishes(r, FirstLabel)
  {
    var z, recs := WildZone(), WildRecords();
    if r == recs[0] {
      assert z.IntervalAt(r, 0) && ["*"] in z.types && FirstLabel(["*"]) == Some("*");
    } else if r == recs[1] {
      assert z.IntervalAt(r, 1) && [] in z.types && FirstLabel([]) == Some("m");
    } else {
      assert z.IntervalAt(r, 2) && ["z"] in z.types && FirstLabel(["z"]) == Some("z");
    }
  }

  lemma SameFirstLabel(m: Name, n: Name)
    requires |m| <= 1 && |n| <= 1 && FirstLabel(m) == FirstLabel(n) && m != ["m"] && n != ["m"]
    ensures m == n
  {}

  /** The hash tells the zone's names and any other one-label name but `m` apart. */
  lemma WildDistinct(n: Name, m: Name)
    requires n in WildZone().types && |m| <= 1 && m != ["m"] && FirstLabel(m) == FirstLabel(n)
    ensures m == n
  {
    SameFirstLabel(m, n);
  }

  lemma WildCollisionFree(q: Name)
    requires |q| == 1 && q[0] != "m"
    ensures CollisionFree(FirstLabel, WildZone(), q)
  {
    var z := WildZone();
    forall n, k | n in z.types && 0 <= k <= |q| && FirstLabel(Suffix(q, k)) == FirstLabel(n) ensures Suffix(q, k) == n {
      assert Suffix(q, k) != ["m"] by { OneLabelSuffixes(q, k); }
      WildDistinct(n, Suffix(q, k));
    }
  }

  lemma WildVerdict(recs: seq<Interval>, q: Name)
    requires recs == WildRecords() && q == ["q"]
    ensures Verdict3(recs, FirstLabel, q, 1, NXDomain) == Secure && FindEncloser(recs, FirstLabel, q) == Some([])
  {
    assert HasOwner(recs, "m") by { assert recs[1] in recs; }
    assert HasOwner(recs, "*") by { assert recs[0] in recs; }
    assert Suffix(q, 0) == [] && CountAt(q, 1) == 1;
    assert FindDepth(recs, FirstLabel, q, 1) == Some(0);
    assert TrimTo(q, 1) == q && NumLabels(q) == 1;
    assert HashInRange("q", "m", "z");
    assert recs[1] in recs;
    HasCoverMeans(recs, "q");
    assert FirstLabel(Wildcard([])) == Some("*");
  }

  /** With every record of that zone in hand, NXDOMAIN is Secure for a name that the wildcard answers. */
  lemma AnsweringWildcardAccepted(q: Name)
    requires q == ["q"]
    ensures var z, recs := WildZone(), WildRecords();
            && From(z, recs, FirstLabel, q, ["*"]) && FindEncloser(recs, FirstLabel, q) == Some([])
            && Verdict3(recs, FirstLabel, q, 1, NXDomain) == Secure && !NoAnswer3(z, recs, FirstLabel, q, ["*"], 1)
  {
    WildValid();
    WildCollisionFree(q);
    WildCollisionFree(["*"]);
    forall r | r in WildRecords() ensures WildZone().Publishes(r, FirstLabel) { WildPublishes(r); }
    WildVerdict(WildRecords(), q);
  }
}
