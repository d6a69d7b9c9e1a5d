/**
 The validator's DNSKEY cache: a positive map of key sets that skip re-verification and a negative map
 of zones whose fetch failed, each bounded, each evicting expired entries first and otherwise one
 arbitrary entry.  Entries enter the positive map only with a derivation, so whatever is read back
 later, by any query, still has one.
 */
module DnskeyCache {
  import opened Basics
  import opened Names
  import opened Trust

  const POSITIVE_CACHE_CAP := 256
  const NEGATIVE_CACHE_CAP := 256
  const NEGATIVE_TTL := 300
  const MIN_POSITIVE_TTL := 60
  const MAX_POSITIVE_TTL := 86400

  datatype Positive = Positive(keys: seq<Key>, expiry: int)

  function Clamp(ttl: int): (c: int)
    ensures MIN_POSITIVE_TTL <= c <= MAX_POSITIVE_TTL && (MIN_POSITIVE_TTL <= ttl <= MAX_POSITIVE_TTL ==> c == ttl)
  {
    if ttl < MIN_POSITIVE_TTL then MIN_POSITIVE_TTL else if ttl > MAX_POSITIVE_TTL then MAX_POSITIVE_TTL else ttl
  }

  /** `b` is `a` with some entries dropped. */
  ghost predicate Shrinks<V>(a: map<Name, V>, b: map<Name, V>) { forall z :: z in b ==> z in a && a[z] == b[z] }

  lemma FewerEntries<V>(a: map<Name, V>, b: map<Name, V>, gone: Name)
    requires Shrinks(a, b) && gone in a && gone !in b
    ensures |b| < |a|
  {
    var rest := a.Keys - {gone};
    assert b.Keys <= rest;
    SubsetSize(b.Keys, rest);
    assert |b| == |b.Keys| && |a| == |a.Keys|;
  }

  lemma NoMoreEntries<V>(a: map<Name, V>, b: map<Name, V>)
    requires Shrinks(a, b)
    ensures |b| <= |a|
  {
    assert b.Keys <= a.Keys;
    SubsetSize(b.Keys, a.Keys);
    assert |b| == |b.Keys| && |a| == |a.Keys|;
  }

  /** `evict`: every expired entry goes; only if there is none, one live entry goes. */
  method Evict<V>(m: map<Name, V>, expiry: V -> int, now: int) returns (kept: map<Name, V>)
    ensures Shrinks(m, kept) && (|m| > 0 ==> |kept| < |m|)
    ensures forall z :: z in kept && expiry(kept[z]) <= now ==> forall y :: y in m ==> expiry(m[y]) > now
    ensures forall z, y :: z in m && z !in kept && expiry(m[z]) > now && y in m && y != z ==> y in kept
  {
    var stale := set z | z in m && expiry(m[z]) <= now;
    if stale == {} {
      if |m| == 0 { return m; }
      var k :| k in m;
      kept := m - {k};
      FewerEntries(m, kept, k);
    } else {
      kept := m - stale;
      var k :| k in stale;
      FewerEntries(m, kept, k);
    }
  }

  /** What other validations may do to the cache between two steps of one. */
  datatype CacheOp =
    | PutOp(zone: Name, keys: seq<Key>, ttl: int, now: int)
    | InvalidateOp(zone: Name)
    | NegativeOp(zone: Name, now: int)

  ghost predicate Legal(t: Trust, ops: seq<CacheOp>) {
    forall i {:trigger Derivable(t, ops[i].zone, ops[i].keys)} ::
      0 <= i < |ops| && ops[i].PutOp? ==> Derivable(t, ops[i].zone, ops[i].keys)
  }

  /** Any interleaving of parts of legal writes is legal: what validations log, others may meet as interference. */
  lemma InterleavingIsLegal(t: Trust, logs: seq<seq<CacheOp>>, ops: seq<CacheOp>)
    requires forall i :: 0 <= i < |logs| ==> Legal(t, logs[i])
    requires forall op :: op in ops ==> exists i :: 0 <= i < |logs| && op in logs[i]
    ensures Legal(t, ops)
  {
    forall n | 0 <= n < |ops| && ops[n].PutOp? ensures Derivable(t, ops[n].zone, ops[n].keys) {
      assert ops[n] in ops;
      var i :| 0 <= i < |logs| && ops[n] in logs[i];
      var j :| 0 <= j < |logs[i]| && logs[i][j] == ops[n];
      assert Legal(t, logs[i]);
    }
  }

  class Cache {
    var positive: map<Name, Positive>
    var negative: map<Name, int>
    ghost var log: seq<CacheOp>

    /** Every cached key set has a derivation, neither map outgrows its cap, and every write so far was legal. */
    ghost predicate Valid(t: Trust)
      reads this
    {
      && |positive| <= POSITIVE_CACHE_CAP && |negative| <= NEGATIVE_CACHE_CAP && Legal(t, log)
      && forall z {:trigger Derivable(t, z, positive[z].keys)} :: z in positive ==> Derivable(t, z, positive[z].keys)
    }

    constructor (ghost t: Trust)
      ensures Valid(t) && positive == map[] && negative == map[] && log == []
    {
      positive, negative, log := map[], map[], [];
    }

    function GetPositive(zone: Name, now: int): Option<seq<Key>>
      reads this
    {
      if zone in positive && positive[zone].expiry > now then Some(positive[zone].keys) else None
    }

    predicate HasNegative(zone: Name, now: int)
      reads this
    {
      zone in negative && negative[zone] > now
    }

    method PutPositive(ghost t: Trust, zone: Name, keys: seq<Key>, ttl: int, now: int)
      requires Valid(t) && Derivable(t, zone, keys)
      modifies this`positive, this`log
      ensures Valid(t)
      ensures zone in positive && positive[zone] == Positive(keys, now + Clamp(ttl))
      ensures Shrinks(old(positive), positive - {zone})
      ensures log == old(log) + [PutOp(zone, keys, ttl, now)]
      ensures zone in old(positive) || |old(positive)| < POSITIVE_CACHE_CAP ==> old(positive.Keys) <= positive.Keys
    {
      var m := positive;
      if |m| >= POSITIVE_CACHE_CAP && zone !in m { m := Evict(m, (e: Positive) => e.expiry, now); }
      positive := m[zone := Positive(keys, now + Clamp(ttl))];
      assert positive.Keys == m.Keys + {zone};
      assert |positive| == |positive.Keys| && |m| == |m.Keys|;
      log := log + [PutOp(zone, keys, ttl, now)];
    }

    method InvalidatePositive(ghost t: Trust, zone: Name)
      requires Valid(t)
      modifies this`positive, this`log
      ensures Valid(t) && positive == old(positive) - {zone} && log == old(log) + [InvalidateOp(zone)]
    {
      var m := positive - {zone};
      NoMoreEntries(positive, m);
      positive := m;
      log := log + [InvalidateOp(zone)];
    }

    method PutNegative(ghost t: Trust, zone: Name, now: int)
      requires Valid(t)
      modifies this`negative, this`log
      ensures Valid(t)
      ensures zone in negative && negative[zone] == now + NEGATIVE_TTL
      ensures Shrinks(old(negative), negative - {zone}) && log == old(log) + [NegativeOp(zone, now)]
    {
      var m := negative;
      if |m| >= NEGATIVE_CACHE_CAP && zone !in m { m := Evict(m, (e: int) => e, now); }
      negative := m[zone := now + NEGATIVE_TTL];
      assert negative.Keys == m.Keys + {zone};
      assert |negative| == |negative.Keys| && |m| == |m.Keys|;
      log := log + [NegativeOp(zone, now)];
    }

    /** A suspension point: other validations run, in any number and order. */
    method Interfere(ghost t: Trust, ops: seq<CacheOp>)
      requires Valid(t) && Legal(t, ops)
      modifies this
      ensures Valid(t)
    {
      for i := 0 to |ops|
        invariant Valid(t)
      {
        match ops[i] {
          case PutOp(zone, keys, ttl, now) => PutPositive(t, zone, keys, ttl, now);
          case InvalidateOp(zone) => InvalidatePositive(t, zone);
          case NegativeOp(zone, now) => PutNegative(t, zone, now);
        }
      }
    }
  }
}
