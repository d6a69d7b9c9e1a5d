/**
 Domain names as the resolver handles them: a sequence of labels, leftmost label first, the root
 being the empty sequence.  Labels are in their case-folded form: the library compares, orders and
 hashes names ignoring ASCII case, and the resolver folds before every comparison of its own.  The
 module fixes the library operations the resolver relies on (label counting, trimming, zone
 containment, canonical order of section 6.1 of RFC 4034) and proves the order facts the denial
 proofs need.
 */
module Names {

  type Label = string
  type Name = seq<Label>

  /** A record type, by its number. */
  type RType = nat

  const STAR: Label := "*"

  /** The ancestor of `n` with its last `k` labels. */
  function Suffix(n: Name, k: nat): (s: Name)
    requires k <= |n|
    ensures |s| == k
  {
    n[|n| - k..]
  }

  /** `anc` is `n` or an ancestor of `n`. */
  predicate IsSuffix(anc: Name, n: Name) { |anc| <= |n| && Suffix(n, |anc|) == anc }

  lemma SuffixSuffix(n: Name, j: nat, k: nat)
    requires k <= j <= |n|
    ensures Suffix(Suffix(n, j), k) == Suffix(n, k)
  {}

  /** The library's label count, which does not count a leading `*`. */
  function NumLabels(n: Name): (k: nat)
    ensures k <= |n| <= k + 1
  {
    if |n| > 0 && n[0] == STAR then |n| - 1 else |n|
  }

  function TrimTo(n: Name, k: nat): Name { if k >= |n| then n else Suffix(n, k) }

  ghost predicate NoStar(n: Name) { forall i :: 0 <= i < |n| ==> n[i] != STAR }

  /** Octet-string order: lexicographic, a missing octet sorting first. */
  predicate BytesLt(a: string, b: string)
    decreases |a|
  {
    |b| > 0 && (|a| == 0 || a[0] < b[0] || (a[0] == b[0] && BytesLt(a[1..], b[1..])))
  }

  lemma {:induction false} BytesLtTotal(a: string, b: string)
    ensures BytesLt(a, b) || a == b || BytesLt(b, a)
    decreases |a|
  {
    if |a| > 0 && |b| > 0 && a[0] == b[0] {
      BytesLtTotal(a[1..], b[1..]);
      assert a == [a[0]] + a[1..] && b == [b[0]] + b[1..];
    }
  }

  lemma {:induction false} BytesLtAsym(a: string, b: string)
    requires BytesLt(a, b)
    ensures !BytesLt(b, a) && a != b
    decreases |a|
  {
    if |a| > 0 && a[0] == b[0] { BytesLtAsym(a[1..], b[1..]); }
  }

  lemma {:induction false} BytesLtTrans(a: string, b: string, c: string)
    requires BytesLt(a, b) && BytesLt(b, c)
    ensures BytesLt(a, c)
    decreases |a|
  {
    if |a| > 0 && a[0] == b[0] == c[0] { BytesLtTrans(a[1..], b[1..], c[1..]); }
  }

  function Init<T>(s: seq<T>): seq<T> requires |s| > 0 { s[..|s| - 1] }
  function Last<T>(s: seq<T>): T requires |s| > 0 { s[|s| - 1] }

  /** Canonical name order: labels compared from the right (section 6.1 of RFC 4034). */
  predicate CanonLt(a: Name, b: Name)
    decreases |a|
  {
    |b| > 0 &&
    (|a| == 0 || (if Last(a) == Last(b) then CanonLt(Init(a), Init(b)) else BytesLt(Last(a), Last(b))))
  }

  predicate CanonLe(a: Name, b: Name) { a == b || CanonLt(a, b) }

  lemma InitLast(n: Name)
    requires |n| > 0
    ensures n == Init(n) + [Last(n)]
  {}

  lemma {:induction false} CanonLtTotal(a: Name, b: Name)
    ensures CanonLt(a, b) || a == b || CanonLt(b, a)
    decreases |a|
  {
    if |a| > 0 && |b| > 0 {
      if Last(a) == Last(b) {
        CanonLtTotal(Init(a), Init(b));
        InitLast(a); InitLast(b);
      } else {
        BytesLtTotal(Last(a), Last(b));
      }
    }
  }

  lemma {:induction false} CanonLtAsym(a: Name, b: Name)
    requires CanonLt(a, b)
    ensures !CanonLt(b, a) && a != b
    decreases |a|
  {
    if |a| > 0 {
      if Last(a) == Last(b) { CanonLtAsym(Init(a), Init(b)); } else { BytesLtAsym(Last(a), Last(b)); }
    }
  }

  lemma {:induction false} CanonLtTrans(a: Name, b: Name, c: Name)
    requires CanonLt(a, b) && CanonLt(b, c)
    ensures CanonLt(a, c)
    decreases |a|
  {
    if |a| > 0 {
      if Last(a) == Last(b) == Last(c) {
        CanonLtTrans(Init(a), Init(b), Init(c));
      } else if Last(a) != Last(b) && Last(b) != Last(c) {
        BytesLtTrans(Last(a), Last(b), Last(c));
        BytesLtAsym(Last(a), Last(b));
        BytesLtAsym(Last(a), Last(c));
      }
    }
  }

  /** Number of rightmost labels two names share. */
  function Common(a: Name, b: Name): (k: nat)
    ensures k <= |a| && k <= |b|
    decreases |a|
  {
    if |a| > 0 && |b| > 0 && Last(a) == Last(b) then 1 + Common(Init(a), Init(b)) else 0
  }

  lemma {:induction false} CommonIsSuffix(q: Name, z: Name, k: nat)
    requires k <= |q|
    ensures IsSuffix(Suffix(q, k), z) <==> k <= Common(q, z)
    decreases |q|
  {
    if k == 0 {
      assert Suffix(z, 0) == Suffix(q, 0);
    } else if |z| > 0 {
      CommonIsSuffix(Init(q), Init(z), k - 1);
      var s := Suffix(q, k);
      assert s == Suffix(Init(q), k - 1) + [Last(q)];
      if k <= |z| { assert Suffix(z, k) == Suffix(Init(z), k - 1) + [Last(z)]; }
      if IsSuffix(s, z) {
        assert Last(s) == Last(Suffix(z, k)) == Last(z);
        assert Init(s) == Suffix(Init(q), k - 1) && Init(s) == Suffix(Init(z), k - 1);
      }
    }
  }

  /** Convexity of the canonical order: the outer pair shares no more labels than either inner pair. */
  lemma {:induction false} CommonConvex(a: Name, b: Name, c: Name)
    requires CanonLe(a, b) && CanonLe(b, c)
    ensures Common(a, c) <= Common(a, b) && Common(a, c) <= Common(b, c)
    decreases |a|
  {
    if a != b && b != c && |a| > 0 && |c| > 0 && Last(a) == Last(c) {
      if Last(b) != Last(a) {
        BytesLtAsym(Last(a), Last(b));
        assert false;
      }
      CommonConvex(Init(a), Init(b), Init(c));
    } else if a == b {
      CommonSelf(a);
    } else if b == c {
      CommonSelf(b);
    }
  }

  lemma {:induction false} CommonSelf(a: Name)
    ensures Common(a, a) == |a|
    decreases |a|
  {
    if |a| > 0 { CommonSelf(Init(a)); }
  }

  lemma {:induction false} CommonSym(a: Name, b: Name)
    ensures Common(a, b) == Common(b, a)
    decreases |a|
  {
    if |a| > 0 && |b| > 0 { CommonSym(Init(a), Init(b)); }
  }

  /** A proper ancestor sorts before its descendants. */
  lemma {:induction false} AncestorLt(q: Name, k: nat)
    requires k < |q|
    ensures CanonLt(Suffix(q, k), q)
    decreases |q|
  {
    if k > 0 {
      var s := Suffix(q, k);
      assert Last(s) == Last(q) && Init(s) == Suffix(Init(q), k - 1);
      AncestorLt(Init(q), k - 1);
    }
  }
}
