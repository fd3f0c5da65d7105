/** The cache's guarantee over whole traces of Get and Set. */
module LruTrace {
  import opened Wrappers
  import opened RecencyList
  import opened Recency

  /** A Get, or a Set that draws some life for its entry: whatever the jitter, the guarantees are the same. */
  datatype Op<V> = Fetch(key: string, now: int) | Store(key: string, value: V, ttl: int, now: int, life: int)

  function Step<V>(es: Entries<V>, capacity: nat, op: Op<V>): Entries<V>
    requires capacity > 0
  {
    match op
    case Fetch(key, now) => Get(es, key, now).es
    case Store(key, value, ttl, now, life) => if ttl <= 0 then es else Put(es, capacity, Entry(key, value, now + life))
  }

  /** A Set is a Store with the life it draws. */
  lemma SetIsStep<V>(es: Entries<V>, capacity: nat, key: string, value: V, ttl: int, now: int, rand: real)
    requires capacity > 0
    ensures Set(es, capacity, key, value, ttl, now, rand) ==
            Step(es, capacity, Store(key, value, ttl, now, EffectiveTtl(ttl, rand)))
  {
  }

  /** A trace, from an empty cache or any other state. */
  function Trace<V>(es: Entries<V>, capacity: nat, ops: seq<Op<V>>): Entries<V>
    requires capacity > 0
  {
    if ops == [] then es else Step(Trace(es, capacity, ops[..|ops| - 1]), capacity, ops[|ops| - 1])
  }

  /** The operation makes `key` the most recently used one: a hit, or a Set with a positive TTL. */
  predicate Touches<V>(es: Entries<V>, op: Op<V>, key: string) {
    op.key == key && match op
                     case Fetch(_, now) => Get(es, key, now).found.Some?
                     case Store(_, _, ttl, _, _) => ttl > 0
  }

  ghost predicate Sane<V>(es: Entries<V>, capacity: nat) {
    Unique(es) && |es| <= capacity
  }

  lemma WithoutAt<V>(es: Entries<V>, q: nat)
    requires q < |es|
    ensures |Without(es, q)| == |es| - 1
    ensures forall i :: 0 <= i < |es| - 1 ==> Without(es, q)[i] == es[if i < q then i else i + 1]
  {
  }

  lemma PutSane<V>(es: Entries<V>, capacity: nat, e: Entry<V>)
    requires capacity > 0 && Sane(es, capacity)
    ensures Sane(Put(es, capacity, e), capacity)
  {
    var p := Pos(es, e.key);
    if p < |es| { WithoutAt(es, p); }
  }

  lemma GetSane<V>(es: Entries<V>, capacity: nat, key: string, now: int)
    requires Sane(es, capacity)
    ensures Sane(Get(es, key, now).es, capacity)
  {
    var p := Pos(es, key);
    if p < |es| { WithoutAt(es, p); }
  }

  lemma StepSane<V>(es: Entries<V>, capacity: nat, op: Op<V>)
    requires capacity > 0 && Sane(es, capacity)
    ensures Sane(Step(es, capacity, op), capacity)
  {
    match op {
      case Fetch(key, now) => GetSane(es, capacity, key, now);
      case Store(key, value, ttl, now, life) => PutSane(es, capacity, Entry(key, value, now + life));
    }
  }

  /** Never more entries than the capacity, and never a key twice. */
  lemma {:induction false} TraceSane<V>(capacity: nat, ops: seq<Op<V>>)
    requires capacity > 0
    ensures Sane(Trace<V>([], capacity, ops), capacity)
  {
    if ops != [] {
      TraceSane(capacity, ops[..|ops| - 1]);
      StepSane(Trace([], capacity, ops[..|ops| - 1]), capacity, ops[|ops| - 1]);
    }
  }

  function Keys<V>(es: Entries<V>): set<string> {
    set i | 0 <= i < |es| :: es[i].key
  }

  lemma {:induction false} KeysCount<V>(es: Entries<V>)
    requires Unique(es)
    ensures |Keys(es)| == |es|
  {
    if es != [] {
      var init := es[..|es| - 1];
      KeysCount(init);
      assert Keys(es) == Keys(init) + {es[|es| - 1].key};
      assert es[|es| - 1].key !in Keys(init);
    }
  }

  /** The entry e is in the list, and whatever is more recent has its key among `others`. */
  ghost predicate Protected<V>(es: Entries<V>, e: Entry<V>, others: set<string>) {
    exists p :: At(es, e, others, p)
  }

  ghost predicate At<V>(es: Entries<V>, e: Entry<V>, others: set<string>, p: int) {
    0 <= p < |es| && es[p] == e && forall i :: 0 <= i < p ==> es[i].key in others
  }

  /** The operation does not store e's key anew, fetches it in time, and touches no other key than `others`. */
  predicate Spares<V>(es: Entries<V>, op: Op<V>, e: Entry<V>, others: set<string>) {
    && (op.key == e.key ==> match op
                            case Fetch(_, now) => now <= e.expiresAt
                            case Store(_, _, ttl, _, _) => ttl <= 0)
    && (op.key != e.key && Touches(es, op, op.key) ==> op.key in others)
  }

  ghost predicate SparesAlong<V>(es: Entries<V>, capacity: nat, ops: seq<Op<V>>, e: Entry<V>, others: set<string>)
    requires capacity > 0
  {
    ops == [] ||
    (&& SparesAlong(es, capacity, ops[..|ops| - 1], e, others)
     && Spares(Trace(es, capacity, ops[..|ops| - 1]), ops[|ops| - 1], e, others))
  }

  /** Eviction does not reach e while fewer than `capacity` other keys are in play. */
  lemma NotEvicted<V>(es: Entries<V>, capacity: nat, e: Entry<V>, others: set<string>, p: nat, key: string)
    requires capacity > 0 && Sane(es, capacity) && At(es, e, others, p) && |others| < capacity
    requires key in others && Pos(es, key) == |es| && |es| >= capacity
    ensures p < |es| - 1
  {
    var before := es[..p];
    KeysCount(before);
    assert key !in Keys(before);
    assert Keys(before) + {key} <= others;
    assert |Keys(before) + {key}| == p + 1;
    SubsetSize(Keys(before) + {key}, others);
  }

  lemma {:induction false} SubsetSize(a: set<string>, b: set<string>)
    requires a <= b
    ensures |a| <= |b|
  {
    assert b == a + (b - a);
  }

  lemma RefreshProtects<V>(es: Entries<V>, f: Entry<V>, e: Entry<V>, others: set<string>, p: nat, q: nat)
    returns (r: nat)
    requires At(es, e, others, p) && q < |es| && q != p && f.key in others
    ensures At([f] + Without(es, q), e, others, r)
  {
    WithoutAt(es, q);
    r := if q < p then p else p + 1;
  }

  lemma InsertProtects<V>(es: Entries<V>, n: nat, f: Entry<V>, e: Entry<V>, others: set<string>, p: nat)
    requires At(es, e, others, p) && p < n <= |es| && f.key in others
    ensures At([f] + es[..n], e, others, p + 1)
  {
  }

  lemma PutProtects<V>(es: Entries<V>, capacity: nat, f: Entry<V>, e: Entry<V>, others: set<string>, p: nat)
    returns (r: nat)
    requires capacity > 0 && Sane(es, capacity) && |others| < capacity
    requires At(es, e, others, p) && f.key != e.key && f.key in others
    ensures At(Put(es, capacity, f), e, others, r)
  {
    var q := Pos(es, f.key);
    if q < |es| {
      r := RefreshProtects(es, f, e, others, p, q);
    } else {
      if |es| >= capacity { NotEvicted(es, capacity, e, others, p, f.key); }
      InsertProtects(es, if |es| >= capacity then |es| - 1 else |es|, f, e, others, p);
      assert es[..|es|] == es;
      r := p + 1;
    }
  }

  lemma GetProtects<V>(es: Entries<V>, key: string, now: int, e: Entry<V>, others: set<string>, p: nat) returns (r: nat)
    requires Unique(es) && At(es, e, others, p)
    requires key == e.key ==> now <= e.expiresAt
    requires key != e.key && Get(es, key, now).found.Some? ==> key in others
    ensures At(Get(es, key, now).es, e, others, r)
  {
    var q := Pos(es, key);
    r := p;
    if q < |es| {
      WithoutAt(es, q);
      if key == e.key {
        assert q == p;
        r := 0;
      } else {
        r := (if q < p then p - 1 else p) + if now <= es[q].expiresAt then 1 else 0;
      }
    }
  }

  lemma StepProtects<V>(es: Entries<V>, capacity: nat, op: Op<V>, e: Entry<V>, others: set<string>)
    requires capacity > 0 && Sane(es, capacity) && |others| < capacity
    requires Protected(es, e, others) && Spares(es, op, e, others)
    ensures Protected(Step(es, capacity, op), e, others)
  {
    var p :| At(es, e, others, p);
    match op {
      case Fetch(key, now) =>
        var r := GetProtects(es, key, now, e, others, p);
      case Store(key, value, ttl, now, life) =>
        if ttl > 0 {
          var r := PutProtects(es, capacity, Entry(key, value, now + life), e, others, p);
        }
    }
  }

  lemma {:induction false} TraceProtects<V>(es: Entries<V>, capacity: nat, ops: seq<Op<V>>, e: Entry<V>,
      others: set<string>)
    requires capacity > 0 && Sane(es, capacity) && |others| < capacity
    requires Protected(es, e, others) && SparesAlong(es, capacity, ops, e, others)
    ensures Protected(Trace(es, capacity, ops), e, others) && Sane(Trace(es, capacity, ops), capacity)
  {
    if ops != [] {
      TraceProtects(es, capacity, ops[..|ops| - 1], e, others);
      StepProtects(Trace(es, capacity, ops[..|ops| - 1]), capacity, ops[|ops| - 1], e, others);
      StepSane(Trace(es, capacity, ops[..|ops| - 1]), capacity, ops[|ops| - 1]);
    }
  }

  /** The value the last Set of a key with a positive TTL gave it. */
  function LastStored<V>(ops: seq<Op<V>>, key: string): Option<V> {
    if ops == [] then None else
      var last := ops[|ops| - 1];
      if last.Store? && last.key == key && last.ttl > 0 then Some(last.value) else LastStored(ops[..|ops| - 1], key)
  }

  ghost predicate HoldsLastStored<V>(es: Entries<V>, ops: seq<Op<V>>) {
    forall i :: 0 <= i < |es| ==> LastStored(ops, es[i].key) == Some(es[i].value)
  }

  /** Whatever the cache holds for a key is what was last stored under it. */
  lemma {:induction false} TraceHoldsLastStored<V>(capacity: nat, ops: seq<Op<V>>)
    requires capacity > 0
    ensures HoldsLastStored(Trace([], capacity, ops), ops)
  {
    if ops != [] {
      var before, op := ops[..|ops| - 1], ops[|ops| - 1];
      var es := Trace([], capacity, before);
      TraceHoldsLastStored(capacity, before);
      TraceSane(capacity, before);
      var t := Step(es, capacity, op);
      forall i | 0 <= i < |t| ensures LastStored(ops, t[i].key) == Some(t[i].value) {
        match op {
          case Fetch(key, now) =>
            var j := GetKeeps(es, key, now, i);
          case Store(key, value, ttl, now, life) =>
            if ttl > 0 && i > 0 {
              var j := PutKeeps(es, capacity, Entry(key, value, now + life), i);
            }
        }
      }
    }
  }

  /** Every entry after a Get was there before. */
  lemma GetKeeps<V>(es: Entries<V>, key: string, now: int, i: nat) returns (j: nat)
    requires i < |Get(es, key, now).es|
    ensures j < |es| && es[j] == Get(es, key, now).es[i]
  {
    var p := Pos(es, key);
    j := i;
    if p < |es| {
      WithoutAt(es, p);
      if now > es[p].expiresAt {
        j := if i < p then i else i + 1;
      } else {
        j := if i == 0 then p else if i - 1 < p then i - 1 else i;
      }
    }
  }

  /** Every entry after a Put is the new one, or was there before under another key. */
  lemma PutKeeps<V>(es: Entries<V>, capacity: nat, e: Entry<V>, i: nat) returns (j: nat)
    requires capacity > 0 && Unique(es) && 0 < i < |Put(es, capacity, e)|
    ensures j < |es| && es[j] == Put(es, capacity, e)[i] && es[j].key != e.key
  {
    var p := Pos(es, e.key);
    if p < |es| {
      j := RefreshKeeps(es, p, e, i);
    } else {
      j := i - 1;
      assert Put(es, capacity, e)[i] == es[j];
    }
  }

  lemma RefreshKeeps<V>(es: Entries<V>, p: nat, e: Entry<V>, i: nat) returns (j: nat)
    requires Unique(es) && p < |es| && es[p].key == e.key && 0 < i < |es|
    ensures j < |es| && es[j] == ([e] + Without(es, p))[i] && es[j].key != e.key
  {
    WithoutAt(es, p);
    j := if i - 1 < p then i - 1 else i;
    assert ([e] + Without(es, p))[i] == Without(es, p)[i - 1];
  }

  lemma TouchPutsFirst<V>(es: Entries<V>, capacity: nat, op: Op<V>)
    requires capacity > 0 && Touches(es, op, op.key)
    ensures var t := Step(es, capacity, op); t != [] && t[0].key == op.key
  {
  }

  lemma {:induction false} TraceConcat<V>(es: Entries<V>, capacity: nat, a: seq<Op<V>>, b: seq<Op<V>>)
    requires capacity > 0
    ensures Trace(es, capacity, a + b) == Trace(Trace(es, capacity, a), capacity, b)
  {
    if b == [] {
      assert a + b == a;
    } else {
      TraceConcat(es, capacity, a, b[..|b| - 1]);
      assert (a + b)[..|a + b| - 1] == a + b[..|b| - 1];
    }
  }

  /**
   The LRU guarantee. After any trace in which a key was touched and then at most capacity - 1 other
   keys were, a Get of that key before its expiry is a hit, with the value last stored under it.
   */
  lemma LruGuarantee<V>(capacity: nat, before: seq<Op<V>>, touch: Op<V>, after: seq<Op<V>>, others: set<string>,
      now: int)
    requires capacity > 0 && |others| < capacity
    requires Touches(Trace([], capacity, before), touch, touch.key)
    requires var es := Trace([], capacity, before + [touch]);
             es != [] && SparesAlong(es, capacity, after, es[0], others) && now <= es[0].expiresAt
    ensures var found := Get(Trace([], capacity, before + [touch] + after), touch.key, now).found;
            found.Some? && found == LastStored(before + [touch], touch.key)
  {
    var upto := before + [touch];
    assert upto[..|before|] == before;
    var es := Trace([], capacity, upto);
    TouchPutsFirst(Trace([], capacity, before), capacity, touch);
    TraceSane(capacity, upto);
    TraceHoldsLastStored(capacity, upto);
    assert At(es, es[0], others, 0);
    TraceProtects(es, capacity, after, es[0], others);
    TraceConcat([], capacity, upto, after);
    var t := Trace([], capacity, upto + after);
    var p :| At(t, es[0], others, p);
    assert Pos(t, touch.key) == p;
  }
}
