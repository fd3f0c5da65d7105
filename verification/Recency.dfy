/**
 What the cache computes, as a function on one list of entries, most recently used first, and the
 guarantee it gives over whole traces (internal/lookup/cache.go).
 */
module Recency {
  import opened Wrappers
  import opened RecencyList

  type Entries<V> = seq<Entry<V>>

  const DEFAULT_MAX_ENTRIES := 1024
  const MAX_DURATION := 0x7fff_ffff_ffff_ffff

  ghost predicate Unique<V>(es: Entries<V>) {
    forall i, j :: 0 <= i < j < |es| ==> es[i].key != es[j].key
  }

  /** Where the key is; the length of the list if it is not there. */
  function Pos<V>(es: Entries<V>, key: string): (p: nat)
    ensures p <= |es| && (p < |es| ==> es[p].key == key)
    ensures forall i :: 0 <= i < p ==> es[i].key != key
  {
    if es == [] || es[0].key == key then 0 else 1 + Pos(es[1..], key)
  }

  function Without<V>(es: Entries<V>, k: nat): Entries<V>
    requires k < |es|
  {
    es[..k] + es[k + 1..]
  }

  datatype Lookup<V> = Lookup(es: Entries<V>, found: Option<V>)

  function Get<V>(es: Entries<V>, key: string, now: int): Lookup<V> {
    var p := Pos(es, key);
    if p == |es| then Lookup(es, None)
    else if now > es[p].expiresAt then Lookup(Without(es, p), None)
    else Lookup([es[p]] + Without(es, p), Some(es[p].value))
  }

  function Put<V>(es: Entries<V>, capacity: nat, e: Entry<V>): Entries<V>
    requires capacity > 0
  {
    var p := Pos(es, e.key);
    if p < |es| then [e] + Without(es, p)
    else [e] + (if |es| >= capacity then es[..|es| - 1] else es)
  }

  /** Go's float64 to integer conversion. */
  function Trunc(x: real): int {
    if x >= 0.0 then x.Floor else -((-x).Floor)
  }

  /** The jitter added to a TTL, for a random number in [0, 1); reals stand for float64. */
  function Jitter(ttl: int, rand: real): int {
    Trunc(Product(ttl as real * 0.15, rand * 2.0 - 1.0))
  }

  function Product(x: real, y: real): real { x * y }

  /** int64 addition of durations. */
  function Wrap64(n: int): int {
    (n + MAX_DURATION + 1) % (2 * (MAX_DURATION + 1)) - (MAX_DURATION + 1)
  }

  function Jittered(ttl: int, jitter: int): int {
    var t := Wrap64(ttl + jitter);
    if t <= 0 then ttl else t
  }

  function EffectiveTtl(ttl: int, rand: real): int {
    Jittered(ttl, Jitter(ttl, rand))
  }

  function Set<V>(es: Entries<V>, capacity: nat, key: string, value: V, ttl: int, now: int, rand: real): Entries<V>
    requires capacity > 0
  {
    if ttl <= 0 then es else Put(es, capacity, Entry(key, value, now + EffectiveTtl(ttl, rand)))
  }

  predicate IsTtl(ttl: int) { 0 < ttl <= MAX_DURATION }
  predicate IsRand(rand: real) { 0.0 <= rand < 1.0 }

  /** The jitter is 15% of the TTL times a factor that runs from -1 to 1 with the random number, cut towards zero. */
  lemma JitterIsExact(ttl: int, rand: real)
    ensures var x := ttl as real * 0.15 * (rand * 2.0 - 1.0);
            if x >= 0.0 then 0.0 <= x - Jitter(ttl, rand) as real < 1.0 else 0.0 <= Jitter(ttl, rand) as real - x < 1.0
  {
    CutTowardsZero(Product(ttl as real * 0.15, rand * 2.0 - 1.0));
  }

  lemma CutTowardsZero(x: real)
    ensures if x >= 0.0 then 0.0 <= x - Trunc(x) as real < 1.0 else 0.0 <= Trunc(x) as real - x < 1.0
  {
  }

  lemma JitterBound(ttl: int, rand: real)
    requires IsTtl(ttl) && IsRand(rand)
    ensures -0.15 * ttl as real <= Jitter(ttl, rand) as real <= 0.15 * ttl as real
    ensures 0 < ttl + Jitter(ttl, rand)
  {
    var s := ttl as real * 0.15;
    ProductBound(s, rand * 2.0 - 1.0);
    TruncBound(Product(s, rand * 2.0 - 1.0), s);
  }

  lemma TruncBound(x: real, b: real)
    requires -b <= x <= b
    ensures -b <= Trunc(x) as real <= b
  {
  }

  lemma ProductBound(s: real, u: real)
    requires s >= 0.0 && -1.0 <= u <= 1.0
    ensures -s <= Product(s, u) <= s
  {
    NotNegative(s, 1.0 - u);
    NotNegative(s, 1.0 + u);
    Distribute(s, u);
  }

  lemma Distribute(s: real, u: real)
    ensures s * (1.0 - u) == s - Product(s, u) && s * (1.0 + u) == s + Product(s, u)
  {
  }

  lemma NotNegative(s: real, v: real)
    requires s >= 0.0 && v >= 0.0
    ensures s * v >= 0.0
  {
  }

  /**
   The effective TTL is within 15% of the TTL. The fallback to the plain TTL happens exactly
   when the jittered duration overflows int64.
   */
  lemma EffectiveTtlBound(ttl: int, rand: real)
    requires IsTtl(ttl) && IsRand(rand)
    ensures var t := EffectiveTtl(ttl, rand);
            0 < t <= MAX_DURATION && 0.85 * ttl as real <= t as real <= 1.15 * ttl as real
    ensures var t := ttl + Jitter(ttl, rand); EffectiveTtl(ttl, rand) == if t <= 0x7fff_ffff_ffff_ffff then t else ttl
    ensures Wrap64(ttl + Jitter(ttl, rand)) <= 0 <==> ttl + Jitter(ttl, rand) > MAX_DURATION
  {
    JitterBound(ttl, rand);
    JitteredBound(ttl, Jitter(ttl, rand));
  }

  lemma JitteredBound(ttl: int, jitter: int)
    requires IsTtl(ttl) && -0.15 * ttl as real <= jitter as real <= 0.15 * ttl as real
    ensures var t := Jittered(ttl, jitter);
            0 < t <= MAX_DURATION && 0.85 * ttl as real <= t as real <= 1.15 * ttl as real
    ensures Jittered(ttl, jitter) == if ttl + jitter <= MAX_DURATION then ttl + jitter else ttl
    ensures Wrap64(ttl + jitter) <= 0 <==> ttl + jitter > MAX_DURATION
  {
  }

  /** An expired entry is a miss and leaves; any other is a hit and becomes the most recent one. */
  ghost predicate FetchEffect<V>(es: Entries<V>, e: Entry<V>, now: int, r: Lookup<V>) {
    && (forall x :: x in r.es ==> x in es && (e.expiresAt < now ==> x != e))
    && (forall x :: x in es && x != e ==> x in r.es)
    && if e.expiresAt < now then r.found == None else r.found == Some(e.value) && r.es != [] && r.es[0] == e
  }

  /**
   What a Get does: an unknown key misses and changes nothing, an expired one misses and leaves, and any other
   is a hit and becomes the most recent one. No other entry is touched.
   */
  lemma GetMeans<V>(es: Entries<V>, key: string, now: int)
    requires Unique(es)
    ensures var r := Get(es, key, now);
            if forall e :: e in es ==> e.key != key then r == Lookup(es, None)
            else exists e :: e in es && e.key == key && FetchEffect(es, e, now, r)
  {
    var p := Pos(es, key);
    if p < |es| {
      var e, rest := es[p], Without(es, p);
      assert e in es && e.key == key;
      WithoutHolds(es, p);
      if now <= e.expiresAt {
        assert forall x :: x in [e] + rest <==> x == e || x in rest;
      }
    } else {
      assert forall e :: e in es ==> e.key != key;
    }
  }

  lemma WithoutHolds<V>(es: Entries<V>, p: nat)
    requires Unique(es) && p < |es|
    ensures forall x :: x in Without(es, p) <==> x in es && x != es[p]
  {
    forall x ensures x in Without(es, p) <==> x in es && x != es[p] {
      if x in es && x != es[p] {
        var i :| 0 <= i < |es| && es[i] == x;
        assert Without(es, p)[if i < p then i else i - 1] == x;
      }
      if x in Without(es, p) {
        var i :| 0 <= i < |Without(es, p)| && Without(es, p)[i] == x;
        assert es[if i < p then i else i + 1] == x;
      }
    }
  }

  /**
   What a Put does: the entry comes first, replaces the one of its key, and otherwise costs the last one if
   there is no room.
   */
  lemma PutMeans<V>(es: Entries<V>, capacity: nat, e: Entry<V>)
    requires capacity > 0 && Unique(es)
    ensures var r := Put(es, capacity, e);
            && r != [] && r[0] == e
            && ((exists x :: x in es && x.key == e.key) ==>
                  forall x :: x in r[1..] <==> x in es && x.key != e.key)
            && ((forall x :: x in es ==> x.key != e.key) ==>
                  r[1..] == if |es| < capacity then es else es[..|es| - 1])
  {
    var p := Pos(es, e.key);
    if p < |es| {
      WithoutHolds(es, p);
      assert es[p] in es && Put(es, capacity, e)[1..] == Without(es, p);
      forall x | x in es && x.key == e.key ensures x == es[p] {
        var i :| 0 <= i < |es| && es[i] == x;
      }
    } else {
      assert forall x :: x in es ==> x.key != e.key;
    }
  }
}
