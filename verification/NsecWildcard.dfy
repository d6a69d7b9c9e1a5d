/**
 The wildcard half of an NSEC name error (section 5.4 of RFC 4035).  The verdict asks each record for the
 wildcard under its own idea of the closest encloser, so a record from elsewhere in the zone can pass
 the test for a wildcard that does not matter.  Here is what records say about one name and type in every
 zone they may come from, hence exactly when a Secure name error is right about the wildcard too.
 */
module NsecWildcard {
  import opened Names
  import opened NsecDenial

  ghost predicate FromChain(z: Zone, recs: seq<Nsec>) { z.Valid() && forall r :: r in recs ==> z.Chain(r) }

  ghost predicate Holds(z: Zone, n: Name, qtype: RType) { z.Owns(n) && n in z.types && qtype in z.types[n] }

  /** The name lies in the record's interval, the last one of a zone reaching round to the first owner. */
  predicate Spans(r: Nsec, n: Name) {
    if CanonLt(r.owner, r.next) then Covers(r, n) else r.owner != n && (CanonLt(r.owner, n) || CanonLt(n, r.next))
  }

  /** The record alone rules out the type at the name. */
  predicate Denies(r: Nsec, n: Name, qtype: RType) { Spans(r, n) || (r.owner == n && qtype !in r.types) }

  // ---- a denying record is right ----

  lemma SpannedIsNoOwner(z: Zone, r: Nsec, n: Name)
    requires z.Valid() && z.Chain(r) && Spans(r, n)
    ensures !z.Owns(n)
  {
    if CanonLt(r.owner, r.next) {
      CoveredIsInsideSpan(z, r, n);
    } else if k :| 0 <= k < |z.names| && z.names[k] == n {
      WrapSpansNone(z, r, k);
    }
  }

  lemma WrapSpansNone(z: Zone, r: Nsec, k: nat)
    requires z.Valid() && z.Chain(r) && !CanonLt(r.owner, r.next) && k < |z.names|
    ensures !Spans(r, z.names[k])
  {
    var i :| 0 <= i < |z.names| && r == z.Record(i);
    if k < i { CanonLtAsym(z.names[k], z.names[i]); }
    if k > 0 { CanonLtAsym(z.names[0], z.names[k]); }
    if CanonLt(z.names[k], z.names[k]) { CanonLtAsym(z.names[k], z.names[k]); }
  }

  lemma DenyingIsRight(z: Zone, r: Nsec, n: Name, qtype: RType)
    requires z.Valid() && z.Chain(r) && Denies(r, n, qtype)
    ensures !Holds(z, n, qtype)
  {
    if Spans(r, n) { SpannedIsNoOwner(z, r, n); }
  }

  // ---- without one, some zone holds the type ----

  /** The type added at a name the zone owns. */
  ghost function WithType(z: Zone, n: Name, qtype: RType): Zone
    requires n in z.types
  {
    z.(types := z.types[n := z.types[n] + {qtype}])
  }

  lemma TypeFits(z: Zone, recs: seq<Nsec>, n: Name, qtype: RType)
    requires FromChain(z, recs) && z.Owns(n) && n in z.types && forall r :: r in recs ==> !Denies(r, n, qtype)
    ensures FromChain(WithType(z, n, qtype), recs) && Holds(WithType(z, n, qtype), n, qtype)
  {
    var more := WithType(z, n, qtype);
    forall r | r in recs ensures more.Chain(r) {
      var i :| 0 <= i < |z.names| && r == z.Record(i);
      assert more.types[z.names[i]] == z.types[z.names[i]];
      assert r == more.Record(i);
    }
    assert more.names == z.names;
  }

  /** Where a name that is no owner belongs. */
  ghost predicate Belongs(z: Zone, n: Name, p: nat) {
    && p <= |z.names|
    && (forall i :: 0 <= i < p ==> CanonLt(z.names[i], n))
    && (forall i :: p <= i < |z.names| ==> CanonLt(n, z.names[i]))
  }

  lemma {:induction false} PlaceUpTo(z: Zone, n: Name, k: nat) returns (p: nat)
    requires z.Valid() && !z.Owns(n) && k <= |z.names|
    ensures p <= k && (forall i :: 0 <= i < p ==> CanonLt(z.names[i], n))
    ensures forall i :: p <= i < k ==> CanonLt(n, z.names[i])
    decreases k
  {
    p := 0;
    if k > 0 {
      CanonLtTotal(z.names[k - 1], n);
      if CanonLt(z.names[k - 1], n) {
        forall i | 0 <= i < k - 1 ensures CanonLt(z.names[i], n) { CanonLtTrans(z.names[i], z.names[k - 1], n); }
        p := k;
      } else {
        p := PlaceUpTo(z, n, k - 1);
      }
    }
  }

  /** The zone with the name added at its place, holding one type. */
  ghost function WithName(z: Zone, n: Name, p: nat, qtype: RType): Zone
    requires p <= |z.names|
  {
    Zone(z.names[..p] + [n] + z.names[p..], z.types[n := {qtype}])
  }

  lemma WithNameValid(z: Zone, n: Name, p: nat, qtype: RType)
    requires z.Valid() && !z.Owns(n) && Belongs(z, n, p)
    ensures WithName(z, n, p, qtype).Valid() && Holds(WithName(z, n, p, qtype), n, qtype)
  {
    var more := WithName(z, n, p, qtype);
    assert more.names[p] == n;
    forall i, j | 0 <= i < j < |more.names| ensures CanonLt(more.names[i], more.names[j]) {
      if i != p && j != p {
        var a, b := if i < p then i else i - 1, if j < p then j else j - 1;
        assert more.names[i] == z.names[a] && more.names[j] == z.names[b];
      }
    }
    forall m | m in more.names ensures m in more.types {
      if m != n {
        var i :| 0 <= i < |more.names| && more.names[i] == m;
        assert m == z.names[if i < p then i else i - 1];
      }
    }
  }

  /** A record that does not span the name has its interval beside the name's place. */
  lemma BesidePlace(z: Zone, n: Name, p: nat, i: nat)
    requires z.Valid() && !z.Owns(n) && Belongs(z, n, p) && i < |z.names| && !Spans(z.Record(i), n)
    ensures if i + 1 < |z.names| then i + 1 != p else 0 < p < |z.names|
  {
    assert z.names[i] != n;
    if i + 1 < |z.names| { CanonLtAsym(z.names[i], z.names[i + 1]); } else { LastWraps(z); }
  }

  /** An owner's place in the larger zone. */
  function Shifted(p: nat, i: nat): nat { if i < p then i else i + 1 }

  lemma NameShifted(z: Zone, n: Name, p: nat, qtype: RType, i: nat)
    requires p <= |z.names| && i < |z.names|
    ensures WithName(z, n, p, qtype).names[Shifted(p, i)] == z.names[i]
  {}

  /** So it is a record of the larger zone's chain. */
  lemma RecordShifted(z: Zone, n: Name, p: nat, qtype: RType, i: nat)
    requires z.Valid() && !z.Owns(n) && p <= |z.names| && i < |z.names| && WithName(z, n, p, qtype).Valid()
    requires if i + 1 < |z.names| then i + 1 != p else 0 < p < |z.names|
    ensures WithName(z, n, p, qtype).Record(Shifted(p, i)) == z.Record(i)
  {
    NameShifted(z, n, p, qtype, i);
    NameShifted(z, n, p, qtype, if i + 1 < |z.names| then i + 1 else 0);
    assert z.names[i] != n;
  }

  lemma RecordStays(z: Zone, n: Name, p: nat, qtype: RType, r: Nsec)
    requires z.Valid() && !z.Owns(n) && Belongs(z, n, p) && z.Chain(r) && !Spans(r, n)
    requires WithName(z, n, p, qtype).Valid()
    ensures WithName(z, n, p, qtype).Chain(r)
  {
    var i :| 0 <= i < |z.names| && r == z.Record(i);
    BesidePlace(z, n, p, i);
    RecordShifted(z, n, p, qtype, i);
  }

  lemma LastWraps(z: Zone)
    requires z.Valid()
    ensures !CanonLt(z.names[|z.names| - 1], z.names[0])
  {
    var a, b := z.names[0], z.names[|z.names| - 1];
    if CanonLt(b, a) { CanonLtAsym(b, a); }
  }

  lemma NameFits(z: Zone, recs: seq<Nsec>, n: Name, qtype: RType) returns (more: Zone)
    requires FromChain(z, recs) && !z.Owns(n) && forall r :: r in recs ==> !Denies(r, n, qtype)
    ensures FromChain(more, recs) && Holds(more, n, qtype)
  {
    var p := PlaceUpTo(z, n, |z.names|);
    more := WithName(z, n, p, qtype);
    WithNameValid(z, n, p, qtype);
    forall r | r in recs ensures more.Chain(r) { RecordStays(z, n, p, qtype, r); }
  }

  /** Records of a zone rule a type out at a name, in every zone they may come from, exactly if one of them does. */
  lemma DeniedIffOneDenies(z: Zone, recs: seq<Nsec>, n: Name, qtype: RType)
    requires FromChain(z, recs)
    ensures (forall other :: FromChain(other, recs) ==> !Holds(other, n, qtype))
            <==> exists r :: r in recs && Denies(r, n, qtype)
  {
    if r :| r in recs && Denies(r, n, qtype) {
      forall other | FromChain(other, recs) ensures !Holds(other, n, qtype) { DenyingIsRight(other, r, n, qtype); }
    } else if z.Owns(n) {
      TypeFits(z, recs, n, qtype);
    } else {
      var more := NameFits(z, recs, n, qtype);
    }
  }

  // ---- a Secure name error ----

  /** Nothing exists at or below the name, and the wildcard under its closest encloser does not hold the type. */
  ghost predicate NoAnswer(z: Zone, q: Name, qtype: RType) {
    !z.HasAtOrBelow(q) && forall e :: IsClosestEncloser(z, q, e) ==> !Holds(z, Wildcard(e), qtype)
  }

  lemma EncloserIsUnique(z: Zone, q: Name, d: Name, e: Name)
    requires IsClosestEncloser(z, q, d) && IsClosestEncloser(z, q, e)
    ensures d == e
  {
    assert Suffix(q, |e|) == e && Suffix(q, |d|) == d;
  }

  lemma CoverGivesEncloser(z: Zone, r: Nsec, q: Name)
    requires z.Valid() && z.Chain(r) && Covers(r, q) && NoStar(q)
    ensures (z.HasAtOrBelow(q) <==> IsSuffix(q, r.next)) && IsClosestEncloser(z, q, EncloserOf(q, [r.owner, r.next]))
  {
    CoveredExistsIff(z, r, q);
    var i := CoveringRecordIsInner(z, r, q);
    NeighboursGiveClosestEncloser(z, i, q);
  }

  /**
   A Secure name error is right in every zone the records may come from exactly when the covering record's
   next owner does not lie below the name and one of the records denies the wildcard under the encloser
   that the covering record gives.
   */
  lemma SecureIsRightIffWildcardDenied(z: Zone, recs: seq<Nsec>, q: Name, qtype: RType, r: Nsec)
    requires FromChain(z, recs) && NoStar(q) && r in recs && Covers(r, q)
    ensures (forall other :: FromChain(other, recs) ==> NoAnswer(other, q, qtype))
            <==> && !IsSuffix(q, r.next)
                 && exists s :: s in recs && Denies(s, Wildcard(EncloserOf(q, [r.owner, r.next])), qtype)
  {
    var e := EncloserOf(q, [r.owner, r.next]);
    forall other | FromChain(other, recs)
      ensures NoAnswer(other, q, qtype) <==> !IsSuffix(q, r.next) && !Holds(other, Wildcard(e), qtype)
    {
      CoverGivesEncloser(other, r, q);
      forall d | IsClosestEncloser(other, q, d) ensures d == e { EncloserIsUnique(other, q, d, e); }
    }
    DeniedIffOneDenies(z, recs, Wildcard(e), qtype);
  }

  // ---- names of one and two labels ----

  lemma LabelOrder(a: Label, b: Label)
    requires BytesLt(a, b)
    ensures CanonLt([a], [b]) && CanonLt([], [a])
  {
    BytesLtAsym(a, b);
    var m: Name, n: Name := [a], [b];
    assert Init(m) == [] && Init(n) == [] && Last(m) == a && Last(n) == b;
  }

  lemma SiblingOrder(a: Label, b: Label, parent: Label)
    requires BytesLt(a, b)
    ensures CanonLt([a, parent], [b, parent])
  {
    var m: Name, n: Name := [a, parent], [b, parent];
    assert Init(m) == [a] && Init(n) == [b] && Last(m) == parent && Last(n) == parent;
    LabelOrder(a, b);
  }

  lemma CousinOrder(a: Label, b: Label, child: Label)
    requires BytesLt(a, b)
    ensures CanonLt([a], [child, b])
  {
    BytesLtAsym(a, b);
    var m: Name, n: Name := [a], [child, b];
    assert Last(m) == a && Last(n) == b;
  }

  lemma ParentOrder(child: Label, parent: Label)
    ensures CanonLt([parent], [child, parent])
  {
    var n: Name := [child, parent];
    AncestorLt(n, 1);
    assert Suffix(n, 1) == [parent];
  }

  lemma SiblingCommon(a: Label, b: Label, parent: Label)
    requires a != b
    ensures Common([a, parent], [b, parent]) == 1
  {
    var m: Name, n: Name := [a, parent], [b, parent];
    assert Init(m) == [a] && Init(n) == [b];
    var i: Name, j: Name := [a], [b];
    assert Last(i) == a && Last(j) == b;
  }

  /** Sharing no trailing label with either bound, a name gets the root for an encloser. */
  lemma RootEncloser(q: Name, top: Label)
    requires NoStar(q) && |q| > 0 && Last(q) != top
    ensures EncloserOf(q, [[], [top]]) == []
  {
    var n: Name := [top];
    assert Last(n) == top;
    EncloserOfPair(q, [], n);
  }

  lemma SiblingEncloser(q: Label, a: Label, b: Label, parent: Label)
    requires q != STAR && parent != STAR && q != a && q != b
    ensures EncloserOf([q, parent], [[a, parent], [b, parent]]) == [parent]
  {
    SiblingCommon(q, a, parent);
    SiblingCommon(q, b, parent);
    EncloserOfPair([q, parent], [a, parent], [b, parent]);
  }

  /** A name right above one of the bounds is taken for its own encloser. */
  lemma OwnEncloser(q: Label, child: Label, other: Label)
    requires q != STAR && other != q
    ensures EncloserOf([q], [[other], [child, q]]) == [q]
  {
    var n: Name, a: Name, next: Name := [q], [other], [child, q];
    assert Last(n) == q && Last(a) == other && Last(next) == q && Init(n) == [];
    assert Common(n, a) == 0 && Common(n, next) == 1;
    EncloserOfPair(n, a, next);
    assert Suffix(n, 1) == n;
  }

  // ---- an empty non-terminal ----

  /** A zone with owners `a` and `x.q`, so that `q` exists without owning anything. */
  ghost function HollowZone(a: Label, x: Label, q: Label): Zone { Zone([[a], [x, q]], map[[a] := {}, [x, q] := {}]) }

  /** One record that covers the name and the wildcard under the encloser it gives is enough. */
  lemma OneRecordVerdict(r: Nsec, q: Name, e: Name, qtype: RType)
    requires Covers(r, q) && EncloserOf(q, [r.owner, r.next]) == e && Covers(r, Wildcard(e))
    ensures Verdict([r], q, qtype, NXDomain) == Secure
  {
    var recs := [r];
    assert NameCovered(recs, q, 0) || Covers(recs[0], q);
    assert WildcardCovered(recs, q, qtype, 0) || WildcardDenied(recs[0], q, qtype);
  }

  lemma HollowVerdict(a: Label, x: Label, q: Label, qtype: RType)
    requires BytesLt(a, q) && BytesLt(STAR, x) && q != STAR
    ensures Verdict([Nsec([a], [x, q], {})], [q], qtype, NXDomain) == Secure
  {
    var r := Nsec([a], [x, q], {});
    assert Covers(r, [q]) by { LabelOrder(a, q); ParentOrder(x, q); }
    assert Covers(r, [STAR, q]) by { CousinOrder(a, q, STAR); SiblingOrder(STAR, x, q); }
    assert Wildcard([q]) == [STAR, q];
    assert EncloserOf([q], [r.owner, r.next]) == [q] by { BytesLtAsym(a, q); OwnEncloser(q, x, a); }
    OneRecordVerdict(r, [q], [q], qtype);
  }

  lemma HollowExists(a: Label, x: Label, q: Label)
    requires BytesLt(a, q)
    ensures FromChain(HollowZone(a, x, q), [Nsec([a], [x, q], {})]) && HollowZone(a, x, q).HasAtOrBelow([q])
  {
    var z := HollowZone(a, x, q);
    CousinOrder(a, q, x);
    assert z.names[0] == [a] && z.names[1] == [x, q];
    assert Nsec([a], [x, q], {}) == z.Record(0);
    assert Suffix(z.names[1], 1) == [q] && z.names[1] in z.names;
  }

  /** The one record of such a zone that covers anything gives a Secure name error for `q`, which exists. */
  lemma EmptyNonTerminalDenied(a: Label, x: Label, q: Label, qtype: RType)
    requires BytesLt(a, q) && BytesLt(STAR, x) && q != STAR
    ensures var z, recs := HollowZone(a, x, q), [Nsec([a], [x, q], {})];
            && FromChain(z, recs) && Verdict(recs, [q], qtype, NXDomain) == Secure
            && z.HasAtOrBelow([q]) && !NoAnswer(z, [q], qtype)
  {
    HollowExists(a, x, q);
    HollowVerdict(a, x, q, qtype);
  }

  // ---- a wildcard missed ----

  /** A zone at the root with owners `.`, `a`, `*.b` and `x.b`; the wildcard holds the type. */
  ghost function StrayZone(a: Label, b: Label, x: Label, qtype: RType): Zone {
    Zone([[], [a], [STAR, b], [x, b]], map[[] := {}, [a] := {}, [STAR, b] := {qtype}, [x, b] := {}])
  }

  function AtRoot(a: Label): Nsec { Nsec([], [a], {}) }

  function AtWildcard(b: Label, x: Label, qtype: RType): Nsec { Nsec([STAR, b], [x, b], {qtype}) }

  /** Four names, each before the next, make a zone. */
  lemma FourInOrder(z: Zone)
    requires |z.names| == 4 && (forall n :: n in z.names ==> n in z.types)
    requires CanonLt(z.names[0], z.names[1]) && CanonLt(z.names[1], z.names[2]) && CanonLt(z.names[2], z.names[3])
    ensures z.Valid()
  {
    CanonLtTrans(z.names[0], z.names[1], z.names[2]);
    CanonLtTrans(z.names[1], z.names[2], z.names[3]);
    CanonLtTrans(z.names[0], z.names[1], z.names[3]);
  }

  lemma StrayFromChain(a: Label, b: Label, x: Label, qtype: RType)
    requires BytesLt(STAR, a) && BytesLt(a, b) && BytesLt(STAR, x)
    ensures var z := StrayZone(a, b, x, qtype);
            FromChain(z, [AtRoot(a), AtWildcard(b, x, qtype)]) && Holds(z, [STAR, b], qtype)
  {
    var z := StrayZone(a, b, x, qtype);
    LabelOrder(a, b);
    CousinOrder(a, b, STAR);
    SiblingOrder(STAR, x, b);
    BytesLtAsym(STAR, x);
    StrayTypes(a, b, x, qtype);
    FourInOrder(z);
    assert AtRoot(a) == z.Record(0) && AtWildcard(b, x, qtype) == z.Record(2);
    assert z.names[2] == [STAR, b];
  }

  /** The four owners are different names. */
  lemma StrayTypes(a: Label, b: Label, x: Label, qtype: RType)
    requires x != STAR
    ensures var z := StrayZone(a, b, x, qtype);
            && (forall n :: n in z.names ==> n in z.types)
            && z.types[[]] == {} && z.types[[STAR, b]] == {qtype}
  {
    assert [STAR, b][0] != [x, b][0];
  }

  /** Two records, one covering the name and one covering the wildcard under its own encloser. */
  lemma TwoRecordVerdict(r: Nsec, s: Nsec, q: Name, qtype: RType)
    requires Covers(s, q) && Covers(r, Wildcard(EncloserOf(q, [r.owner, r.next])))
    ensures Verdict([r, s], q, qtype, NXDomain) == Secure
  {
    var recs := [r, s];
    assert NameCovered(recs, q, 1) || Covers(recs[1], q);
    assert WildcardCovered(recs, q, qtype, 0) || WildcardDenied(recs[0], q, qtype);
    assert WildcardCovered(recs, q, qtype, 1);
  }

  lemma StrayVerdict(a: Label, b: Label, x: Label, q: Label, qtype: RType)
    requires BytesLt(STAR, a) && BytesLt(a, b) && BytesLt(STAR, q) && BytesLt(q, x) && b != STAR
    ensures Verdict([AtRoot(a), AtWildcard(b, x, qtype)], [q, b], qtype, NXDomain) == Secure
  {
    BytesLtAsym(STAR, q);
    BytesLtAsym(a, b);
    LabelOrder(STAR, a);
    SiblingOrder(STAR, q, b);
    SiblingOrder(q, x, b);
    var n: Name := [q, b];
    assert Last(n) == b;
    RootEncloser(n, a);
    assert Wildcard([]) == [STAR];
    TwoRecordVerdict(AtRoot(a), AtWildcard(b, x, qtype), n, qtype);
  }

  /** The wildcard under the encloser that a covering record gives holds the type: there is an answer. */
  lemma WildcardAnswers(z: Zone, r: Nsec, q: Name, e: Name, qtype: RType)
    requires z.Valid() && z.Chain(r) && Covers(r, q) && NoStar(q)
    requires EncloserOf(q, [r.owner, r.next]) == e && Holds(z, Wildcard(e), qtype)
    ensures !NoAnswer(z, q, qtype)
  {
    CoverGivesEncloser(z, r, q);
  }

  lemma StrayCovered(z: Zone, r: Nsec, b: Label, x: Label, q: Label)
    requires z.Valid() && z.Chain(r) && r.owner == [STAR, b] && r.next == [x, b] && BytesLt(STAR, q) && BytesLt(q, x)
    ensures Covers(r, [q, b]) && !z.HasAtOrBelow([q, b])
  {
    SiblingOrder(STAR, q, b);
    SiblingOrder(q, x, b);
    BytesLtAsym(q, x);
    CoveredExistsIff(z, r, [q, b]);
    assert Suffix(r.next, 2) == r.next && r.next[0] == x && [q, b][0] == q;
  }

  lemma StrayEncloser(r: Nsec, b: Label, x: Label, q: Label)
    requires r.owner == [STAR, b] && r.next == [x, b] && BytesLt(STAR, q) && BytesLt(q, x) && b != STAR
    ensures EncloserOf([q, b], [r.owner, r.next]) == [b] && NoStar([q, b])
  {
    BytesLtAsym(STAR, q);
    BytesLtAsym(q, x);
    SiblingEncloser(q, STAR, x, b);
  }

  /** Two records of such a zone give a Secure name error for `q.b`, which the wildcard `*.b` answers. */
  lemma StrayRecordAccepted(a: Label, b: Label, x: Label, q: Label, qtype: RType)
    requires BytesLt(STAR, a) && BytesLt(a, b) && BytesLt(STAR, q) && BytesLt(q, x) && b != STAR
    ensures var z, recs := StrayZone(a, b, x, qtype), [AtRoot(a), AtWildcard(b, x, qtype)];
            && FromChain(z, recs) && Verdict(recs, [q, b], qtype, NXDomain) == Secure
            && !z.HasAtOrBelow([q, b]) && !NoAnswer(z, [q, b], qtype)
  {
    var z, r := StrayZone(a, b, x, qtype), AtWildcard(b, x, qtype);
    BytesLtTrans(STAR, q, x);
    StrayFromChain(a, b, x, qtype);
    StrayVerdict(a, b, x, q, qtype);
    assert r in [AtRoot(a), r];
    StrayCovered(z, r, b, x, q);
    StrayEncloser(r, b, x, q);
    assert Wildcard([b]) == [STAR, b];
    WildcardAnswers(z, r, [q, b], [b], qtype);
  }

  /** Labels in that order, and for the empty non-terminal above. */
  lemma SomeLabels()
    ensures BytesLt(STAR, "a") && BytesLt("a", "b") && BytesLt(STAR, "q") && BytesLt("q", "x") && BytesLt("a", "q")
  {}
}
