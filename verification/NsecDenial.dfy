/**
 NSEC denial of existence: the verdict computed from a set of NSEC records, and what a verdict
 means for the zone the records were taken from (section 5.4 of RFC 4035).
 */
module NsecDenial {
  import opened Basics
  import opened Names

  datatype Outcome = Secure | Insecure | Bogus
  datatype Rcode = NoError | NXDomain | OtherRcode

  /** One NSEC RRset: owner, next owner and the types present at the owner. */
  datatype Nsec = Nsec(owner: Name, next: Name, types: set<RType>)

  // ---- the computation ----

  /** Climbing from `anc` towards the root, the first visited ancestor at or above `cand`. */
  function Climb(anc: Name, cand: Name): (best: Name)
    ensures IsSuffix(best, anc)
    decreases |anc|
  {
    if NumLabels(anc) == 0 then Suffix(anc, 0)
    else if IsSuffix(anc, cand) then anc
    else
      var up := TrimTo(anc, NumLabels(anc) - 1);
      SuffixSuffix(anc, |up|, |Climb(up, cand)|);
      Climb(up, cand)
  }

  function Better(best: Name, found: Name): Name {
    if NumLabels(found) > NumLabels(best) then found else best
  }

  /** The best ancestor after the first `n` candidates. */
  function EncloserUpTo(qname: Name, cands: seq<Name>, n: nat): (e: Name)
    requires n <= |cands|
    ensures IsSuffix(e, qname)
  {
    if n == 0 then Suffix(qname, 0)
    else Better(EncloserUpTo(qname, cands, n - 1), Climb(qname, cands[n - 1]))
  }

  function EncloserOf(qname: Name, cands: seq<Name>): Name { EncloserUpTo(qname, cands, |cands|) }

  /** The inner loop of `closest_encloser`, for one candidate. */
  method ClimbTo(qname: Name, cand: Name) returns (found: Name)
    ensures found == Climb(qname, cand)
  {
    var anc := qname;
    while NumLabels(anc) > 0
      invariant Climb(anc, cand) == Climb(qname, cand)
      decreases |anc|
    {
      if IsSuffix(anc, cand) { return anc; }
      anc := TrimTo(anc, NumLabels(anc) - 1);
    }
    return [];
  }

  /** `closest_encloser`. */
  method ClosestEncloser(qname: Name, cands: seq<Name>) returns (best: Name)
    ensures best == EncloserOf(qname, cands)
  {
    best := [];
    for i := 0 to |cands|
      invariant best == EncloserUpTo(qname, cands, i)
    {
      var found := ClimbTo(qname, cands[i]);
      if NumLabels(found) > NumLabels(best) { best := found; }
    }
  }

  predicate Covers(r: Nsec, name: Name) { CanonLt(r.owner, name) && CanonLt(name, r.next) }

  function Wildcard(encloser: Name): Name { [STAR] + encloser }

  predicate WildcardDenied(r: Nsec, q: Name, qtype: RType) {
    var wildcard := Wildcard(EncloserOf(q, [r.owner, r.next]));
    Covers(r, wildcard) || (r.owner == wildcard && qtype !in r.types)
  }

  /** The first record owned by the query name, if any. */
  function OwnerIndex(recs: seq<Nsec>, q: Name): (k: nat)
    ensures k <= |recs|
    ensures k < |recs| ==> recs[k].owner == q
    ensures forall i :: 0 <= i < k ==> recs[i].owner != q
  {
    if recs == [] then 0
    else if recs[0].owner == q then 0
    else 1 + OwnerIndex(recs[1..], q)
  }

  /** One of the first `n` records covers the name. */
  predicate NameCovered(recs: seq<Nsec>, q: Name, n: nat) requires n <= |recs| {
    n > 0 && (NameCovered(recs, q, n - 1) || Covers(recs[n - 1], q))
  }

  /** One of the first `n` records passes the test. */
  predicate AnyOf(test: Nsec -> bool, recs: seq<Nsec>, n: nat) requires n <= |recs| {
    n > 0 && (AnyOf(test, recs, n - 1) || test(recs[n - 1]))
  }

  function Denies(q: Name, qtype: RType): Nsec -> bool { r => WildcardDenied(r, q, qtype) }

  predicate WildcardCovered(recs: seq<Nsec>, q: Name, qtype: RType, n: nat) requires n <= |recs| {
    AnyOf(Denies(q, qtype), recs, n)
  }

  lemma {:induction false} CoveringRecord(recs: seq<Nsec>, q: Name, n: nat) returns (i: nat)
    requires n <= |recs| && NameCovered(recs, q, n)
    ensures i < n && Covers(recs[i], q)
  {
    if NameCovered(recs, q, n - 1) { i := CoveringRecord(recs, q, n - 1); } else { i := n - 1; }
  }

  method DeniesWildcard(r: Nsec, q: Name, qtype: RType) returns (denied: bool)
    ensures denied == WildcardDenied(r, q, qtype)
  {
    var encloser := ClosestEncloser(q, [r.owner, r.next]);
    var wildcard := Wildcard(encloser);
    denied := Covers(r, wildcard);
    if r.owner == wildcard && qtype !in r.types { denied := true; }
  }

  function Verdict(recs: seq<Nsec>, qname: Name, qtype: RType, rcode: Rcode): Outcome {
    match rcode
    case NoError =>
      var k := OwnerIndex(recs, qname);
      if k == |recs| then Insecure else if qtype in recs[k].types then Bogus else Secure
    case NXDomain =>
      if NameCovered(recs, qname, |recs|) && WildcardCovered(recs, qname, qtype, |recs|) then Secure else Bogus
    case OtherRcode => Insecure
  }

  /** `prove_denial_nsec`. */
  method ProveDenial(recs: seq<Nsec>, qname: Name, qtype: RType, rcode: Rcode) returns (o: Outcome)
    ensures o == Verdict(recs, qname, qtype, rcode)
  {
    if rcode == NoError {
      for i := 0 to |recs|
        invariant forall j :: 0 <= j < i ==> recs[j].owner != qname
      {
        if recs[i].owner == qname {
          return if qtype !in recs[i].types then Secure else Bogus;
        }
      }
    }
    if rcode == NXDomain {
      var sawName, sawWildcard := false, false;
      for i := 0 to |recs|
        invariant sawName == NameCovered(recs, qname, i)
        invariant sawWildcard == WildcardCovered(recs, qname, qtype, i)
      {
        if Covers(recs[i], qname) { sawName := true; }
        var denied := DeniesWildcard(recs[i], qname, qtype);
        if denied { sawWildcard := true; }
      }
      return if sawName && sawWildcard then Secure else Bogus;
    }
    return Insecure;
  }

  // ---- the zone the records come from ----

  /** A zone as its owner names in canonical order, with the types each owner holds. */
  datatype Zone = Zone(names: seq<Name>, types: map<Name, set<RType>>) {
    ghost predicate Valid() {
      && |names| > 0
      && (forall i, j :: 0 <= i < j < |names| ==> CanonLt(names[i], names[j]))
      && (forall n :: n in names ==> n in types)
    }

    ghost predicate Owns(n: Name) { exists i :: 0 <= i < |names| && names[i] == n }

    /** Some owner of the zone is `n` or lies below it: `n` exists in the zone. */
    ghost predicate HasAtOrBelow(n: Name) { exists z :: z in names && IsSuffix(n, z) }

    /** The zone's NSEC chain, the last record pointing back to the first owner. */
    ghost function Record(i: nat): (r: Nsec)
      requires Valid() && i < |names|
    {
      Nsec(names[i], names[if i + 1 < |names| then i + 1 else 0], types[names[i]])
    }

    ghost predicate Chain(r: Nsec) requires Valid() { exists i :: 0 <= i < |names| && r == Record(i) }
  }

  /** `e` is the longest ancestor-or-self of `q` that exists in the zone. */
  ghost predicate IsClosestEncloser(z: Zone, q: Name, e: Name) {
    && IsSuffix(e, q)
    && z.HasAtOrBelow(e)
    && forall k :: |e| < k <= |q| ==> !z.HasAtOrBelow(Suffix(q, k))
  }

  // ---- soundness ----

  /** The two NSEC bounds share with `q` at least as many labels as any name of the zone. */
  lemma BoundsDominate(z: Zone, i: nat, q: Name, other: Name)
    requires z.Valid() && i + 1 < |z.names| && other in z.names
    requires CanonLt(z.names[i], q) && CanonLt(q, z.names[i + 1])
    ensures Common(q, other) <= Common(q, z.names[i]) ||
            Common(q, other) <= Common(q, z.names[i + 1])
    ensures other != q
  {
    var owner, next, o := z.names[i], z.names[i + 1], other;
    var j :| 0 <= j < |z.names| && z.names[j] == other;
    if j <= i {
      assert CanonLe(o, owner);
      CommonConvex(o, owner, q);
      CommonSym(o, q); CommonSym(owner, q);
      if o == q { CanonLtAsym(owner, q); }
    } else {
      assert CanonLe(next, o);
      CommonConvex(q, next, o);
      if o == q { CanonLtAsym(q, next); }
    }
  }

  /** Without `*` labels the climb stops at the deepest shared ancestor. */
  lemma {:induction false} ClimbIsCommon(anc: Name, cand: Name)
    requires NoStar(anc)
    ensures Climb(anc, cand) == Suffix(anc, Common(anc, cand))
    decreases |anc|
  {
    CommonIsSuffix(anc, cand, |anc|);
    assert Suffix(anc, |anc|) == anc;
    if |anc| > 0 && !IsSuffix(anc, cand) {
      var up := Suffix(anc, |anc| - 1);
      ClimbIsCommon(up, cand);
      ClimbKeepsCommon(anc, cand);
      SuffixSuffix(anc, |anc| - 1, Common(anc, cand));
    }
  }

  lemma ClimbKeepsCommon(anc: Name, cand: Name)
    requires |anc| > 0 && Common(anc, cand) < |anc|
    ensures Common(Suffix(anc, |anc| - 1), cand) == Common(anc, cand)
  {
    var up := Suffix(anc, |anc| - 1);
    var k, c := Common(up, cand), Common(anc, cand);
    CommonIsSuffix(up, cand, k);
    SuffixSuffix(anc, |anc| - 1, k);
    CommonIsSuffix(anc, cand, k);
    CommonIsSuffix(anc, cand, c);
    SuffixSuffix(anc, |anc| - 1, c);
    CommonIsSuffix(up, cand, c);
  }

  lemma PairUnfolds(q: Name, owner: Name, next: Name)
    ensures EncloserOf(q, [owner, next]) ==
            Better(Better(Suffix(q, 0), Climb(q, owner)), Climb(q, next))
  {
    var c := [owner, next];
    assert EncloserUpTo(q, c, 1) == Better(EncloserUpTo(q, c, 0), Climb(q, c[0]));
  }

  lemma EncloserOfPair(q: Name, owner: Name, next: Name)
    requires NoStar(q)
    ensures EncloserOf(q, [owner, next]) == Suffix(q, Max(Common(q, owner), Common(q, next)))
  {
    ClimbIsCommon(q, owner);
    ClimbIsCommon(q, next);
    PairUnfolds(q, owner, next);
  }

  /** Two neighbouring owners around `q` settle its closest encloser exactly as the whole zone would. */
  lemma NeighboursGiveClosestEncloser(z: Zone, i: nat, q: Name)
    requires z.Valid() && i + 1 < |z.names| && NoStar(q)
    requires CanonLt(z.names[i], q) && CanonLt(q, z.names[i + 1])
    ensures IsClosestEncloser(z, q, EncloserOf(q, [z.names[i], z.names[i + 1]]))
  {
    var owner, next := z.names[i], z.names[i + 1];
    EncloserOfPair(q, owner, next);
    var c := Max(Common(q, owner), Common(q, next));
    CommonIsSuffix(q, owner, c);
    CommonIsSuffix(q, next, c);
    assert owner in z.names && next in z.names;
    forall k, o | c < k <= |q| && o in z.names ensures !IsSuffix(Suffix(q, k), o) {
      BoundsDominate(z, i, q, o);
      CommonIsSuffix(q, o, k);
    }
  }

  /** A record of the zone's chain that covers `q` is one of two neighbours: the wrap record covers nothing. */
  lemma CoveringRecordIsInner(z: Zone, r: Nsec, q: Name) returns (i: nat)
    requires z.Valid() && z.Chain(r) && Covers(r, q)
    ensures i + 1 < |z.names| && r == z.Record(i)
  {
    i :| 0 <= i < |z.names| && r == z.Record(i);
    CanonLtTrans(r.owner, q, r.next);
    CanonLtAsym(r.owner, r.next);
  }

  /**
   A covered name exists in the zone, as an empty non-terminal, exactly when the record's next owner lies
   below it.
   */
  lemma CoveredExistsIff(z: Zone, r: Nsec, q: Name)
    requires z.Valid() && z.Chain(r) && Covers(r, q)
    ensures !z.Owns(q) && (z.HasAtOrBelow(q) <==> IsSuffix(q, r.next))
  {
    var i := CoveringRecordIsInner(z, r, q);
    forall j | 0 <= j < |z.names| ensures z.names[j] != q { BoundsDominate(z, i, q, z.names[j]); }
    assert r.next in z.names;
    forall o | o in z.names && IsSuffix(q, o) ensures IsSuffix(q, r.next) { BelowIsNext(z, i, q, o); }
  }

  /** An owner below the name sorts at or after the next owner, which then lies below the name as well. */
  lemma BelowIsNext(z: Zone, i: nat, q: Name, o: Name)
    requires z.Valid() && i + 1 < |z.names| && Covers(z.Record(i), q) && o in z.names && IsSuffix(q, o)
    ensures IsSuffix(q, z.names[i + 1])
  {
    var next := z.names[i + 1];
    var j :| 0 <= j < |z.names| && z.names[j] == o;
    assert Suffix(q, |q|) == q;
    CommonIsSuffix(q, o, |q|);
    CommonIsSuffix(q, next, |q|);
    BoundsDominate(z, i, q, o);
    if |q| < |o| { AncestorLt(o, |q|); }
    if j <= i {
      if j < i { CanonLtTrans(o, z.names[i], q); }
      CanonLtAsym(o, q);
    }
    CommonConvex(q, next, o);
  }

  /**
   A Secure verdict over records of the zone's own chain: NXDOMAIN means the name owns nothing and a
   record of the response says whether it exists all the same and pins its closest encloser; NODATA
   means the name is an owner without the type.
   */
  lemma SecureIsTrue(z: Zone, recs: seq<Nsec>, q: Name, qtype: RType, rcode: Rcode)
    requires z.Valid() && forall r :: r in recs ==> z.Chain(r)
    requires Verdict(recs, q, qtype, rcode) == Secure
    ensures rcode == NXDomain ==>
              exists r :: r in recs && Covers(r, q) && !z.Owns(q) && (z.HasAtOrBelow(q) <==> IsSuffix(q, r.next))
                && (NoStar(q) ==> IsClosestEncloser(z, q, EncloserOf(q, [r.owner, r.next])))
    ensures rcode == NoError ==> z.Owns(q) && qtype !in z.types[q]
  {
    if rcode == NXDomain {
      var k := CoveringRecord(recs, q, |recs|);
      var r := recs[k];
      assert z.Chain(r);
      var i := CoveringRecordIsInner(z, r, q);
      CoveredExistsIff(z, r, q);
      if NoStar(q) { NeighboursGiveClosestEncloser(z, i, q); }
      assert r in recs;
    } else if rcode == NoError {
      var k := OwnerIndex(recs, q);
      var r := recs[k];
      assert z.Chain(r);
      var i :| 0 <= i < |z.names| && r == z.Record(i);
      assert z.names[i] == q;
    }
  }

  // ---- each verdict ----

  lemma {:induction false} NameCoveredMeans(recs: seq<Nsec>, q: Name, n: nat)
    requires n <= |recs|
    ensures NameCovered(recs, q, n) <==> exists i :: 0 <= i < n && Covers(recs[i], q)
  {
    if n > 0 { NameCoveredMeans(recs, q, n - 1); }
  }

  lemma {:induction false} AnyOfMeans(test: Nsec -> bool, recs: seq<Nsec>, n: nat)
    requires n <= |recs|
    ensures AnyOf(test, recs, n) <==> exists i :: 0 <= i < n && test(recs[i])
  {
    if n > 0 { AnyOfMeans(test, recs, n - 1); }
  }

  /** One of the records covers the wildcard under the encloser it gives, or owns it without the type. */
  ghost predicate SomeDenies(recs: seq<Nsec>, q: Name, qtype: RType) {
    exists i :: 0 <= i < |recs| && WildcardDenied(recs[i], q, qtype)
  }

  ghost predicate HasRecordAt(recs: seq<Nsec>, q: Name) { exists r :: r in recs && r.owner == q }

  /**
   No error, over records of the zone's own chain: with a record at the name the zone's types decide
   between Secure and Bogus, and without one the verdict is Insecure.
   */
  lemma NoErrorVerdict(z: Zone, recs: seq<Nsec>, q: Name, qtype: RType)
    requires z.Valid() && forall r :: r in recs ==> z.Chain(r)
    ensures HasRecordAt(recs, q) ==> z.Owns(q) && q in z.types
    ensures var v := Verdict(recs, q, qtype, NoError);
            && (v == Bogus <==> HasRecordAt(recs, q) && qtype in z.types[q])
            && (v == Secure <==> HasRecordAt(recs, q) && qtype !in z.types[q])
            && (v == Insecure <==> !HasRecordAt(recs, q))
  {
    forall r | r in recs && r.owner == q ensures z.Owns(q) && q in z.types && r.types == z.types[q] {
      assert z.Chain(r);
      var i :| 0 <= i < |z.names| && r == z.Record(i);
    }
    var k := OwnerIndex(recs, q);
    if k < |recs| { assert recs[k] in recs; }
  }

  /** So for a name that owns nothing, covered or an empty non-terminal, no error is Insecure. */
  lemma NoErrorOfNonOwner(z: Zone, recs: seq<Nsec>, q: Name, qtype: RType)
    requires z.Valid() && (forall r :: r in recs ==> z.Chain(r)) && !z.Owns(q)
    ensures Verdict(recs, q, qtype, NoError) == Insecure
  {
    NoErrorVerdict(z, recs, q, qtype);
  }

  /**
   A name error is Secure exactly when one record in hand covers the name and one covers the wildcard under
   its own encloser, or owns it without the type; otherwise it is Bogus.  Other codes prove nothing.
   */
  lemma NameErrorVerdict(recs: seq<Nsec>, q: Name, qtype: RType)
    ensures var v := Verdict(recs, q, qtype, NXDomain);
            && (v == Secure <==> && (exists i :: 0 <= i < |recs| && Covers(recs[i], q))
                                 && SomeDenies(recs, q, qtype))
            && v != Insecure
    ensures Verdict(recs, q, qtype, OtherRcode) == Insecure
  {
    NameCoveredMeans(recs, q, |recs|);
    AnyOfMeans(Denies(q, qtype), recs, |recs|);
    assert SomeDenies(recs, q, qtype) == exists i :: 0 <= i < |recs| && Denies(q, qtype)(recs[i]);
  }

  /** So a name error about a name that owns records is Bogus, whichever records of the zone come with it. */
  lemma NameErrorOfOwner(z: Zone, recs: seq<Nsec>, q: Name, qtype: RType)
    requires z.Valid() && (forall r :: r in recs ==> z.Chain(r)) && z.Owns(q)
    ensures Verdict(recs, q, qtype, NXDomain) == Bogus
  {
    NameErrorVerdict(recs, q, qtype);
    if Verdict(recs, q, qtype, NXDomain) == Secure { SecureIsTrue(z, recs, q, qtype, NXDomain); }
  }

  // ---- completeness ----

  lemma CoveredIsInsideSpan(z: Zone, r: Nsec, q: Name)
    requires z.Valid() && z.Chain(r) && Covers(r, q)
    ensures !z.Owns(q) && CanonLt(z.names[0], q) && CanonLt(q, z.names[|z.names| - 1])
  {
    var last := |z.names| - 1;
    var i := CoveringRecordIsInner(z, r, q);
    forall j | 0 <= j <= last ensures z.names[j] != q {
      BoundsDominate(z, i, q, z.names[j]);
    }
    if i > 0 { CanonLtTrans(z.names[0], r.owner, q); }
    if i + 1 < last { CanonLtTrans(q, r.next, z.names[last]); }
  }

  /** The neighbour pair around `q`, searching the chain from its first owner. */
  lemma GapAround(z: Zone, q: Name, from: nat) returns (i: nat)
    requires z.Valid() && !z.Owns(q) && from < |z.names|
    requires CanonLt(z.names[from], q) && CanonLt(q, z.names[|z.names| - 1])
    ensures i + 1 < |z.names| && Covers(z.Record(i), q)
    decreases |z.names| - from
  {
    CanonLtAsym(z.names[from], q);
    i := from;
    if !CanonLt(q, z.names[from + 1]) {
      CanonLtTotal(z.names[from + 1], q);
      i := GapAround(z, q, from + 1);
    }
  }

  /** The chain holds a record covering `q` exactly when `q` is no owner and lies inside the chain's span. */
  lemma CoveredIffInsideSpan(z: Zone, q: Name)
    requires z.Valid()
    ensures (exists r :: z.Chain(r) && Covers(r, q)) <==>
            !z.Owns(q) && CanonLt(z.names[0], q) && CanonLt(q, z.names[|z.names| - 1])
  {
    if r :| z.Chain(r) && Covers(r, q) {
      CoveredIsInsideSpan(z, r, q);
    } else if !z.Owns(q) && CanonLt(z.names[0], q) && CanonLt(q, z.names[|z.names| - 1]) {
      var i := GapAround(z, q, 0);
      assert z.Chain(z.Record(i));
    }
  }

  // ---- the reach of the encloser computation ----

  /** The next name of a climb. */
  function Up(n: Name): (up: Name)
    requires NumLabels(n) > 0
    ensures |up| == NumLabels(n) - 1 && forall i :: 0 <= i < |up| ==> up[i] == n[i + |n| - |up|]
  {
    TrimTo(n, NumLabels(n) - 1)
  }

  /** The climb from `n` visits an ancestor-or-self of length `k` before stopping. */
  ghost predicate Visits(n: Name, k: nat)
    decreases |n|
  {
    NumLabels(n) > 0 && (k == |n| || Visits(Up(n), k))
  }

  lemma {:induction false} ClimbResultIsVisited(n: Name, cand: Name)
    ensures |Climb(n, cand)| == 0 || Visits(n, |Climb(n, cand)|)
    decreases |n|
  {
    if NumLabels(n) > 0 && !IsSuffix(n, cand) { ClimbResultIsVisited(Up(n), cand); }
  }

  lemma {:induction false} VisitsAtMost(n: Name, k: nat)
    requires Visits(n, k)
    ensures k <= |n|
    decreases |n|
  {
    if k != |n| { VisitsAtMost(Up(n), k); }
  }

  lemma {:induction false} VisitSkips(n: Name, k: nat)
    requires 1 < k <= |n| && n[|n| - k] == STAR && Visits(n, k)
    ensures !Visits(n, k - 1)
    decreases |n|
  {
    if |n| == k {
      if Visits(n, k - 1) { VisitsAtMost(Up(n), k - 1); }
    } else {
      VisitsAtMost(Up(n), k);
      VisitSkips(Up(n), k);
    }
  }

  /** A `*` label hides some depth `k` of the name from the climb. */
  lemma StarHidesADepth(q: Name) returns (k: nat)
    requires !NoStar(q)
    ensures 0 < k <= |q| && !Visits(q, k)
  {
    var p :| 0 <= p < |q| && q[p] == STAR;
    k := |q| - p;
    if Visits(q, k) {
      if k == 1 {
        VisitOne(q);
      } else {
        VisitSkips(q, k);
        k := k - 1;
      }
    }
  }

  lemma {:induction false} VisitOne(n: Name)
    requires |n| > 0 && n[|n| - 1] == STAR
    ensures !Visits(n, 1)
    decreases |n|
  {
    if NumLabels(n) > 1 { VisitOne(Up(n)); }
  }

  /** The encloser result never has a length the climb does not visit. */
  lemma EncloserLengthVisited(q: Name, owner: Name, next: Name)
    ensures var e := EncloserOf(q, [owner, next]); |e| == 0 || Visits(q, |e|)
  {
    ClimbResultIsVisited(q, owner);
    ClimbResultIsVisited(q, next);
    PairUnfolds(q, owner, next);
  }

  ghost predicate AlwaysFindsEncloser(q: Name) {
    forall z: Zone, i: nat ::
      z.Valid() && i + 1 < |z.names| && Covers(z.Record(i), q)
      ==> IsClosestEncloser(z, q, EncloserOf(q, [z.Record(i).owner, z.Record(i).next]))
  }

  /** The name just after `q` in canonical order that shares exactly its last `k` labels. */
  function JustAfter(q: Name, k: nat): Name requires k < |q| { [q[|q| - k - 1] + "0"] + Suffix(q, k) }

  ghost function TwoNames(a: Name, b: Name): Zone { Zone([a, b], map[a := {}, b := {}]) }

  lemma TwoNamesZone(a: Name, b: Name)
    requires CanonLt(a, b)
    ensures TwoNames(a, b).Valid() && TwoNames(a, b).Record(0) == Nsec(a, b, {})
    ensures forall n :: TwoNames(a, b).HasAtOrBelow(n) <==> IsSuffix(n, a) || IsSuffix(n, b)
  {
    var z := TwoNames(a, b);
    CanonLtAsym(a, b);
    assert z.names[0] == a && z.names[1] == b;
    assert forall n :: n in z.names ==> n == a || n == b;
    assert a in z.names && b in z.names;
  }

  ghost function ZoneAtDepth(q: Name, k: nat): Zone requires k < |q| { TwoNames(Suffix(q, k), JustAfter(q, k)) }

  lemma ZoneAtDepthCovers(q: Name, k: nat)
    requires 0 < k < |q|
    ensures ZoneAtDepth(q, k).Valid() && Covers(ZoneAtDepth(q, k).Record(0), q)
  {
    AncestorLt(q, k);
    JustAfterIsGreater(q, k);
    CanonLtTrans(Suffix(q, k), q, JustAfter(q, k));
    TwoNamesZone(Suffix(q, k), JustAfter(q, k));
  }

  /** In that zone the deepest name above or at `q` is at depth `k`. */
  lemma ZoneAtDepthEncloser(q: Name, k: nat, e: Name)
    requires 0 < k < |q|
    requires IsClosestEncloser(ZoneAtDepth(q, k), q, e)
    ensures |e| == k
  {
    var owner, next := Suffix(q, k), JustAfter(q, k);
    AncestorLt(q, k);
    JustAfterIsGreater(q, k);
    CanonLtTrans(owner, q, next);
    TwoNamesZone(owner, next);
    CommonIsSuffix(q, next, |e|);
    assert IsSuffix(Suffix(q, k), owner);
  }

  lemma {:induction false} JustAfterIsGreater(q: Name, k: nat)
    requires k < |q|
    ensures CanonLt(q, JustAfter(q, k)) && Common(q, JustAfter(q, k)) == k
    decreases k
  {
    var next := JustAfter(q, k);
    if k == 0 {
      var l := q[|q| - 1];
      assert l != l + "0" by { assert |l| != |l + "0"|; }
      ExtendedIsGreater(l);
    } else {
      assert Init(next) == JustAfter(Init(q), k - 1);
      JustAfterIsGreater(Init(q), k - 1);
    }
  }

  lemma {:induction false} ExtendedIsGreater(l: Label)
    ensures BytesLt(l, l + "0")
    decreases |l|
  {
    if |l| > 0 {
      ExtendedIsGreater(l[1..]);
      assert (l + "0")[1..] == l[1..] + "0";
    }
  }

  /**
   The encloser computation agrees with a search of the whole zone, for every zone and every covering
   record, exactly when no label of the query name is `*` (the library's label count skips over it).
   */
  lemma EncloserRightIffNoStar(q: Name)
    ensures AlwaysFindsEncloser(q) <==> NoStar(q)
  {
    if NoStar(q) {
      forall z: Zone, i: nat | z.Valid() && i + 1 < |z.names| && Covers(z.Record(i), q)
        ensures IsClosestEncloser(z, q, EncloserOf(q, [z.Record(i).owner, z.Record(i).next]))
      {
        NeighboursGiveClosestEncloser(z, i, q);
      }
    } else {
      var k := StarHidesADepth(q);
      if k < |q| {
        var z := ZoneAtDepth(q, k);
        ZoneAtDepthCovers(q, k);
        EncloserLengthVisited(q, z.names[0], z.names[1]);
        var e := EncloserOf(q, [z.Record(0).owner, z.Record(0).next]);
        if IsClosestEncloser(z, q, e) { ZoneAtDepthEncloser(q, k, e); }
      } else {
        LoneStarMissed(q);
      }
    }
  }

  /** The query name `*` itself: a zone with a name below it, whose record for the root covers it. */
  lemma LoneStarMissed(q: Name)
    requires |q| > 0 && !Visits(q, |q|)
    ensures !AlwaysFindsEncloser(q)
  {
    assert |q| == 1;
    var below := ["a"] + q;
    assert Suffix(below, 1) == q;
    AncestorLt(below, 1);
    TwoNamesZone([], below);
    var z := TwoNames([], below);
    assert Covers(z.Record(0), q);
    EncloserLengthVisited(q, [], below);
    assert z.HasAtOrBelow(Suffix(q, 1));
  }
}
