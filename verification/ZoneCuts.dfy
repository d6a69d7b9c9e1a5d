/**
 Names below a zone cut or a DNAME.  The zone's own records say nothing of them (section 4.1 of RFC 6840,
 section 8.3 of RFC 5155), and neither verdict looks for this.  A name error is about such a name exactly
 when the record at the covering owner, or at the closest encloser, shows a cut.
 */
module ZoneCuts {
  import opened Basics
  import opened Names
  import opened NsecDenial
  import opened Nsec3Denial
  import opened NsecWildcard

  const NS_TYPE: RType := 2
  const SOA_TYPE: RType := 6
  const DNAME_TYPE: RType := 39

  /** The types of a delegation point or of the owner of a DNAME. */
  predicate IsCut(types: set<RType>) { (NS_TYPE in types && SOA_TYPE !in types) || DNAME_TYPE in types }

  // ---- NSEC ----

  /** The owner is a cut strictly above the name. */
  ghost predicate CutAbove(z: Zone, d: Name, q: Name) {
    d in z.names && d in z.types && IsCut(z.types[d]) && IsSuffix(d, q) && d != q
  }

  ghost predicate BelowCut(z: Zone, q: Name) { exists d :: CutAbove(z, d, q) }

  /** The zone owns nothing below its cuts. */
  ghost predicate CutsRespected(z: Zone) { forall o :: o in z.names ==> !BelowCut(z, o) }

  /** A cut above a covered name is the covering record's owner. */
  lemma CutIsOwner(z: Zone, i: nat, q: Name, d: Name)
    requires z.Valid() && CutsRespected(z) && i + 1 < |z.names| && Covers(z.Record(i), q) && CutAbove(z, d, q)
    ensures d == z.names[i]
  {
    var owner := z.names[i];
    var j :| 0 <= j < |z.names| && z.names[j] == d;
    AncestorLt(q, |d|);
    if j > i {
      if j > i + 1 { CanonLtTrans(q, z.names[i + 1], d); }
      CanonLtAsym(q, d);
    } else if j < i {
      CommonConvex(d, owner, q);
      CommonSym(d, q);
      CommonIsSuffix(d, owner, |d|);
      CommonIsSuffix(d, q, |d|);
      assert Suffix(d, |d|) == d;
      CanonLtAsym(d, owner);
      assert CutAbove(z, d, owner) && owner in z.names;
    }
  }

  /** A covered name lies below a cut exactly when the covering record's owner is one and lies above it. */
  lemma BelowCutIff(z: Zone, r: Nsec, q: Name)
    requires z.Valid() && CutsRespected(z) && z.Chain(r) && Covers(r, q)
    ensures BelowCut(z, q) <==> IsCut(r.types) && IsSuffix(r.owner, q)
  {
    var i := CoveringRecordIsInner(z, r, q);
    CanonLtAsym(r.owner, q);
    assert r.owner in z.names;
    if IsCut(r.types) && IsSuffix(r.owner, q) { assert CutAbove(z, r.owner, q); }
    if d :| CutAbove(z, d, q) { CutIsOwner(z, i, q, d); }
  }

  /** A zone at the root with a delegation `a` and another owner `b`. */
  ghost function CutZone(a: Label, b: Label): Zone { Zone([[a], [b]], map[[a] := {NS_TYPE}, [b] := {}]) }

  lemma NephewOrder(x: Label, a: Label, b: Label)
    requires BytesLt(a, b)
    ensures CanonLt([x, a], [b])
  {
    BytesLtAsym(a, b);
    var m: Name, n: Name := [x, a], [b];
    assert Last(m) == a && Last(n) == b;
  }

  lemma ParentEncloser(x: Label, a: Label, b: Label)
    requires x != STAR && a != STAR && a != b
    ensures EncloserOf([x, a], [[a], [b]]) == [a]
  {
    var q: Name, m: Name, n: Name := [x, a], [a], [b];
    assert Last(q) == a && Last(m) == a && Last(n) == b && Init(m) == [];
    assert Common(q, m) == 1 && Common(q, n) == 0;
    EncloserOfPair(q, m, n);
  }

  /** The record at the delegation gives a Secure name error for any name below it. */
  lemma BelowCutDenied(a: Label, b: Label, x: Label, qtype: RType)
    requires BytesLt(a, b) && a != STAR && x != STAR
    ensures var z, recs := CutZone(a, b), [Nsec([a], [b], {NS_TYPE})];
            && FromChain(z, recs) && BelowCut(z, [x, a]) && Verdict(recs, [x, a], qtype, NXDomain) == Secure
  {
    CutZoneHolds(a, b, x);
    var r := Nsec([a], [b], {NS_TYPE});
    assert Covers(r, [x, a]) by { ParentOrder(x, a); NephewOrder(x, a, b); }
    assert Covers(r, [STAR, a]) by { ParentOrder(STAR, a); NephewOrder(STAR, a, b); }
    assert Wildcard([a]) == [STAR, a];
    assert EncloserOf([x, a], [r.owner, r.next]) == [a] by { BytesLtAsym(a, b); ParentEncloser(x, a, b); }
    OneRecordVerdict(r, [x, a], [a], qtype);
  }

  lemma CutZoneHolds(a: Label, b: Label, x: Label)
    requires BytesLt(a, b)
    ensures FromChain(CutZone(a, b), [Nsec([a], [b], {NS_TYPE})]) && BelowCut(CutZone(a, b), [x, a])
  {
    var z := CutZone(a, b);
    BytesLtAsym(a, b);
    LabelOrder(a, b);
    assert [a][0] != [b][0];
    assert z.names[0] == [a] && z.names[1] == [b] && Nsec([a], [b], {NS_TYPE}) == z.Record(0);
    assert Suffix([x, a], 1) == [a] && z.names[0] in z.names;
    assert CutAbove(z, [a], [x, a]);
  }

  // ---- NSEC3 ----

  ghost predicate CutAbove3(z: HashedZone, d: Name, q: Name) {
    d in z.types && IsCut(z.types[d]) && IsSuffix(d, q) && d != q
  }

  /** The name lies below a signed delegation point or DNAME of the zone. */
  ghost predicate BelowCut3(z: HashedZone, q: Name) { exists d :: CutAbove3(z, d, q) }

  ghost predicate CutsRespected3(z: HashedZone) { forall o :: o in z.types ==> !BelowCut3(z, o) }

  /** Some record in hand stands for the name and shows a cut. */
  ghost predicate ShowsCut(recs: seq<Interval>, hash: Hasher, e: Name) {
    exists r :: r in recs && hash(e) == Some(r.owner) && IsCut(r.types)
  }

  lemma EncloserRecord(z: HashedZone, hash: Hasher, recs: seq<Interval>, q: Name, e: Name, r: Interval)
    requires Consistent(z, recs, hash, q) && IsSuffix(e, q) && r in recs && hash(e) == Some(r.owner)
    ensures e in z.types && r.types == z.types[e]
  {
    assert z.Publishes(r, hash);
    var n :| n in z.types && hash(n) == Some(r.owner) && r.types == z.types[n];
    assert Suffix(q, |e|) == e;
  }

  /** A cut above the name is the signed ancestor below which nothing on the way to the name is signed. */
  lemma CutIsEncloser(z: HashedZone, hash: Hasher, q: Name, e: Name, d: Name)
    requires z.Valid(hash) && CutsRespected3(z) && CutAbove3(z, d, q)
    requires e in z.types && IsSuffix(e, q) && |z.apex| <= |e| < |q| && Suffix(q, |e| + 1) !in z.types
    ensures d == e
  {
    assert Suffix(q, |d|) == d && Suffix(q, |e|) == e;
    if |e| < |d| {
      SuffixSuffix(q, |d|, |e| + 1);
      SignedAncestor(z, hash, d, |e| + 1);
    } else {
      SuffixSuffix(q, |e|, |d|);
      assert d != e ==> CutAbove3(z, d, e);
    }
  }

  /** After a Secure name error the name lies below a signed cut exactly when the encloser's record shows one. */
  lemma BelowCutIff3(z: HashedZone, hash: Hasher, recs: seq<Interval>, q: Name, qtype: RType)
    requires Consistent(z, recs, hash, q) && CutsRespected3(z)
    requires Verdict3(recs, hash, q, qtype, NXDomain) == Secure
    ensures BelowCut3(z, q) <==> ShowsCut(recs, hash, FindEncloser(recs, hash, q).value)
  {
    SecureNxDomain(z, hash, recs, q, qtype);
    var e := FindEncloser(recs, hash, q).value;
    assert hash(e).Some? && HasOwner(recs, hash(e).value);
    if d :| CutAbove3(z, d, q) {
      CutIsEncloser(z, hash, q, e, d);
      var r :| r in recs && r.owner == hash(e).value;
      EncloserRecord(z, hash, recs, q, e, r);
    }
    if r :| r in recs && hash(e) == Some(r.owner) && IsCut(r.types) {
      EncloserRecord(z, hash, recs, q, e, r);
      assert CutAbove3(z, e, q);
    }
  }

  /** Signed names `.` and the delegation `a.`. */
  function CutZone3(): HashedZone { HashedZone([], map[[] := {}, ["a"] := {NS_TYPE}], ["a", "m"], {}, [false, false]) }

  function CutRecords3(): seq<Interval> { [Interval("a", "m", {NS_TYPE}, false), Interval("m", "a", {}, false)] }

  lemma CutPlaced3(n: Name)
    requires n in CutZone3().types
    ensures CutZone3().Placed(n, FirstLabel)
  {
    var z := CutZone3();
    forall k | 0 <= k <= |n| ensures Suffix(n, k) in z.types { OneLabelSuffixes(n, k); }
    assert Suffix(n, 0) == z.apex && z.ring[0] == "a" && z.ring[1] == "m";
  }

  lemma CutValid3()
    ensures CutZone3().Valid(FirstLabel)
  {
    var z := CutZone3();
    forall n | n in z.types ensures z.Placed(n, FirstLabel) { CutPlaced3(n); }
    assert FirstLabel(["a"]) == Some(z.ring[0]) && FirstLabel([]) == Some(z.ring[1]);
    assert [] in z.types && ["a"] in z.types;
  }

  lemma CutPublishes3(r: Interval)
    requires r in CutRecords3()
    ensures CutZone3().Publishes(r, FirstLabel)
  {
    var z, recs := CutZone3(), CutRecords3();
    if r == recs[0] {
      assert z.IntervalAt(r, 0) && ["a"] in z.types && FirstLabel(["a"]) == Some("a");
    } else {
      assert z.IntervalAt(r, 1) && [] in z.types && FirstLabel([]) == Some("m");
    }
  }

  lemma CutCollisionFree3(q: Name)
    requires q == ["x", "a"]
    ensures CollisionFree(FirstLabel, CutZone3(), q)
  {
    var z := CutZone3();
    assert Suffix(q, 0) == [] && Suffix(q, 1) == ["a"] && Suffix(q, 2) == q;
    forall n, k | n in z.types && 0 <= k <= |q| && FirstLabel(Suffix(q, k)) == FirstLabel(n)
      ensures Suffix(q, k) == n
    {
      
    }
  }

  lemma CutVerdict3(recs: seq<Interval>, q: Name)
    requires recs == CutRecords3() && q == ["x", "a"]
    ensures Verdict3(recs, FirstLabel, q, 1, NXDomain) == Secure
  {
    var a: Name := ["a"];
    assert HasOwner(recs, "a") by { assert recs[0] in recs; }
    assert Suffix(q, 1) == a && CountAt(q, 2) == 2;
    assert FindDepth(recs, FirstLabel, q, 2) == Some(1);
    assert TrimTo(q, 2) == q && NumLabels(q) == 2 && NumLabels(a) == 1;
    assert HashInRange("x", "m", "a") && HashInRange("*", "m", "a");
    assert recs[1] in recs;
    HasCoverMeans(recs, "x");
    HasCoverMeans(recs, "*");
    assert FirstLabel(Wildcard(a)) == Some("*");
  }

  lemma CutAboveIt(z: HashedZone, q: Name)
    requires z == CutZone3() && q == ["x", "a"]
    ensures BelowCut3(z, q)
  {
    assert Suffix(q, 1) == ["a"];
    assert CutAbove3(z, ["a"], q);
  }

  /** With every record of that zone in hand, NXDOMAIN is Secure for a name below the delegation. */
  lemma BelowCutDenied3(q: Name)
    requires q == ["x", "a"]
    ensures Consistent(CutZone3(), CutRecords3(), FirstLabel, q) && BelowCut3(CutZone3(), q)
    ensures Verdict3(CutRecords3(), FirstLabel, q, 1, NXDomain) == Secure
  {
    CutValid3();
    CutCollisionFree3(q);
    forall r | r in CutRecords3() ensures CutZone3().Publishes(r, FirstLabel) { CutPublishes3(r); }
    CutVerdict3(CutRecords3(), q);
    CutAboveIt(CutZone3(), q);
  }
}
