/**
 The cached lookup (internal/lookup/cached.go): what it may serve, and when it asks the lookup it
 wraps. Resolve reads the cache and, on a miss, writes it later; other callers' steps can fall in
 between, so a run is any interleaving of the two halves.
 */
module CachedLookup {
  import opened Wrappers
  import opened RecencyList
  import opened Recency
  import opened Lookups
  import opened CacheKey
  import opened LruTrace
  import Cache

  /** The wrapped lookup: its answer to a call may depend on when it is made, that is, on the call's number. */
  datatype Inner = Inner(answer: (nat, Binds) -> LookupReply, ttl: int)

  /** One Set: the bind it was for, the reply with its single row, the inner call that gave it, and the time. */
  datatype Stored = Stored(bind: Binds, reply: LookupReply, call: nat, at: int)

  /** `asked` holds the inner calls on their way; `stored` is the history of Sets. */
  datatype State = State(es: Entries<LookupReply>, calls: nat, asked: map<nat, Binds>, stored: seq<Stored>, clock: int)

  datatype Half =
    | Begin(bind: Binds, now: int)              // read the cache; on a miss, ask the inner lookup
    | Finish(call: nat, now: int, life: int)    // the inner lookup has answered; `life` is the jittered TTL

  function Initial(clock: int): State { State([], 0, map[], [], clock) }

  /** Within 15% of the TTL: whatever the cache draws is (Recency.EffectiveTtlBound). */
  predicate Drawn(ttl: int, life: int) {
    0.85 * ttl as real <= life as real <= 1.15 * ttl as real
  }

  predicate Enabled(s: State, inner: Inner, h: Half) {
    s.clock <= h.now &&
    (h.Finish? ==> h.call in s.asked && Drawn(inner.ttl, h.life))
  }

  /** A reply that is cached: exactly one row. */
  predicate Single(reply: LookupReply) { reply.Rows? && |reply.rows| == 1 }

  /** The entries after a reply came in: a reply of one row is cached. */
  function Kept(es: Entries<LookupReply>, key: string, reply: LookupReply, expiresAt: int): Entries<LookupReply> {
    if Single(reply) then Put(es, DEFAULT_MAX_ENTRIES, Entry(key, reply, expiresAt)) else es
  }

  function Next(s: State, inner: Inner, h: Half): State
    requires Enabled(s, inner, h)
  {
    match h
    case Begin(bind, now) =>
      var got := Recency.Get(s.es, Key(bind), now);
      if got.found.Some? then s.(es := got.es, clock := now)
      else s.(es := got.es, calls := s.calls + 1, asked := s.asked[s.calls := bind], clock := now)
    case Finish(call, now, life) =>
      var bind := s.asked[call];
      var reply := inner.answer(call, bind);
      s.(es := Kept(s.es, Key(bind), reply, now + life), asked := s.asked - {call}, clock := now,
         stored := if Single(reply) then s.stored + [Stored(bind, reply, call, now)] else s.stored)
  }

  predicate Runs(s: State, inner: Inner, run: seq<Half>)
    decreases |run|
  {
    run == [] || (Enabled(s, inner, run[0]) && Runs(Next(s, inner, run[0]), inner, run[1..]))
  }

  function After(s: State, inner: Inner, run: seq<Half>): State
    requires Runs(s, inner, run)
    decreases |run|
  {
    if run == [] then s else After(Next(s, inner, run[0]), inner, run[1..])
  }

  /** The last Set under a key. */
  function LastFor(stored: seq<Stored>, key: string): Option<Stored> {
    if stored == [] then None else
      var last := stored[|stored| - 1];
      if Key(last.bind) == key then Some(last) else LastFor(stored[..|stored| - 1], key)
  }

  lemma LastForSnoc(stored: seq<Stored>, st: Stored, key: string)
    ensures LastFor(stored + [st], key) == if Key(st.bind) == key then Some(st) else LastFor(stored, key)
  {
    InitSnoc(stored, st);
  }

  /** Within 1.15 times the TTL. */
  predicate InTime(end: int, start: int, ttl: int) {
    (end - start) as real <= 1.15 * ttl as real
  }

  /** The Set st is what stands behind the entry e. */
  predicate Backs(st: Stored, e: Entry<LookupReply>, inner: Inner, clock: int) {
    && Key(st.bind) == e.key && st.reply == e.value
    && Single(st.reply) && inner.answer(st.call, st.bind) == st.reply
    && st.at <= clock
    && InTime(e.expiresAt, st.at, inner.ttl)
  }

  predicate Backed(e: Entry<LookupReply>, s: State, inner: Inner) {
    var st := LastFor(s.stored, e.key);
    st.Some? && Backs(st.value, e, inner, s.clock)
  }

  ghost predicate Sound(s: State, inner: Inner) {
    Sane(s.es, DEFAULT_MAX_ENTRIES) && forall i :: 0 <= i < |s.es| ==> Backed(s.es[i], s, inner)
  }

  lemma BeginSound(s: State, inner: Inner, h: Half)
    requires Sound(s, inner) && Enabled(s, inner, h) && h.Begin?
    ensures Sound(Next(s, inner, h), inner)
  {
    var t := Next(s, inner, h);
    GetSane(s.es, DEFAULT_MAX_ENTRIES, Key(h.bind), h.now);
    forall i | 0 <= i < |t.es| ensures Backed(t.es[i], t, inner) {
      var j := GetKeeps(s.es, Key(h.bind), h.now, i);
      assert Backed(s.es[j], s, inner);
    }
  }

  lemma PutSound(s: State, inner: Inner, st: Stored, e: Entry<LookupReply>)
    requires Sound(s, inner) && s.clock <= st.at && Backs(st, e, inner, st.at)
    ensures Sound(s.(es := Put(s.es, DEFAULT_MAX_ENTRIES, e), stored := s.stored + [st], clock := st.at), inner)
  {
    var es := Put(s.es, DEFAULT_MAX_ENTRIES, e);
    var t := s.(es := es, stored := s.stored + [st], clock := st.at);
    PutSane(s.es, DEFAULT_MAX_ENTRIES, e);
    forall i | 0 <= i < |es| ensures Backed(es[i], t, inner) {
      LastForSnoc(s.stored, st, es[i].key);
      if i == 0 {
        assert es[0] == e;
      } else {
        var j := PutKeeps(s.es, DEFAULT_MAX_ENTRIES, e, i);
        assert Backed(s.es[j], s, inner);
      }
    }
  }

  lemma ExpiresInTime(ttl: int, at: int, life: int)
    requires IsTtl(ttl) && Drawn(ttl, life)
    ensures InTime(at + life, at, ttl)
  {
  }

  /** The entry a Finish with a single row puts in front. */
  function EntryOf(s: State, inner: Inner, h: Half): Entry<LookupReply>
    requires Enabled(s, inner, h) && h.Finish? && Single(inner.answer(h.call, s.asked[h.call]))
  {
    Entry(Key(s.asked[h.call]), inner.answer(h.call, s.asked[h.call]), h.now + h.life)
  }

  lemma IdleSound(s: State, t: State, inner: Inner)
    requires Sound(s, inner) && t.es == s.es && t.stored == s.stored && s.clock <= t.clock
    ensures Sound(t, inner)
  {
    forall i | 0 <= i < |t.es| ensures Backed(t.es[i], t, inner) {
      assert Backed(s.es[i], s, inner);
    }
  }

  lemma FinishSound(s: State, inner: Inner, h: Half)
    requires Sound(s, inner) && Enabled(s, inner, h) && h.Finish? && IsTtl(inner.ttl)
    ensures Sound(Next(s, inner, h), inner)
  {
    var bind := s.asked[h.call];
    if Single(inner.answer(h.call, bind)) {
      ExpiresInTime(inner.ttl, h.now, h.life);
      IdleSound(s, s.(asked := s.asked - {h.call}), inner);
      PutSound(s.(asked := s.asked - {h.call}), inner, Stored(bind, inner.answer(h.call, bind), h.call, h.now),
        EntryOf(s, inner, h));
    } else {
      IdleSound(s, Next(s, inner, h), inner);
    }
  }

  lemma NextSound(s: State, inner: Inner, h: Half)
    requires Sound(s, inner) && Enabled(s, inner, h) && IsTtl(inner.ttl)
    ensures Sound(Next(s, inner, h), inner)
  {
    if h.Begin? { BeginSound(s, inner, h); } else { FinishSound(s, inner, h); }
  }

  lemma {:induction false} RunsSound(s: State, inner: Inner, run: seq<Half>)
    requires Sound(s, inner) && Runs(s, inner, run) && IsTtl(inner.ttl)
    ensures Sound(After(s, inner, run), inner)
    decreases |run|
  {
    if run != [] {
      NextSound(s, inner, run[0]);
      RunsSound(Next(s, inner, run[0]), inner, run[1..]);
    }
  }

  /** A bind with a key of its own: plain values, no '=' in a name, no '|' in a value. */
  predicate Plain(bind: Binds) {
    CacheKey.Scalar(bind) && CacheKey.Readable(bind)
  }

  /** What reading the cache for this bind at this time would serve. */
  function Served(s: State, bind: Binds, now: int): Option<LookupReply> {
    Recency.Get(s.es, Key(bind), now).found
  }

  /** The state some run leads to, from an empty cache. */
  ghost predicate Reached(s: State, inner: Inner) {
    exists start, run :: Runs(Initial(start), inner, run) && After(Initial(start), inner, run) == s
  }

  lemma ReachedSound(s: State, inner: Inner)
    requires IsTtl(inner.ttl) && Reached(s, inner)
    ensures Sound(s, inner)
  {
    var start, run :| Runs(Initial(start), inner, run) && After(Initial(start), inner, run) == s;
    RunsSound(Initial(start), inner, run);
  }

  /**
   Bounded staleness. In any reached state, rows served from the cache at time `now` are one row, which
   the inner lookup returned to the last cached call under this key, and which was stored at most
   1.15 times the TTL ago. If that bind and this one are both plain, they are the same bind.
   */
  lemma BoundedStaleness(s: State, inner: Inner, bind: Binds, now: int)
    requires IsTtl(inner.ttl) && Reached(s, inner) && s.clock <= now && Served(s, bind, now).Some?
    ensures var st := LastFor(s.stored, Key(bind));
            && st.Some?
            && Served(s, bind, now) == Some(st.value.reply) && Single(st.value.reply)
            && inner.answer(st.value.call, st.value.bind) == st.value.reply
            && st.value.at <= now && InTime(now, st.value.at, inner.ttl)
            && (Plain(bind) && Plain(st.value.bind) ==> st.value.bind == bind)
  {
    ReachedSound(s, inner);
    var p := Pos(s.es, Key(bind));
    assert Backed(s.es[p], s, inner);
    var st := LastFor(s.stored, Key(bind)).value;
    if Plain(bind) && Plain(st.bind) { KeyInjective(bind, st.bind); }
  }

  /** The key a half works on. */
  function KeyOf(s: State, inner: Inner, h: Half): string
    requires Enabled(s, inner, h)
  {
    Key(if h.Begin? then h.bind else s.asked[h.call])
  }

  /** No half of the run stores under e's key; it is read in time only; the other keys are among `others`. */
  predicate SparedBy(s: State, inner: Inner, run: seq<Half>, e: Entry<LookupReply>, others: set<string>)
    decreases |run|
  {
    run == [] ||
    (&& Enabled(s, inner, run[0])
     && (if KeyOf(s, inner, run[0]) == e.key then run[0].Begin? && run[0].now <= e.expiresAt
         else KeyOf(s, inner, run[0]) in others)
     && SparedBy(Next(s, inner, run[0]), inner, run[1..], e, others))
  }

  lemma NextWarm(s: State, inner: Inner, h: Half, e: Entry<LookupReply>, others: set<string>)
    requires Enabled(s, inner, h) && IsTtl(inner.ttl) && Sane(s.es, DEFAULT_MAX_ENTRIES)
    requires Protected(s.es, e, others) && |others| < DEFAULT_MAX_ENTRIES
    requires if KeyOf(s, inner, h) == e.key then h.Begin? && h.now <= e.expiresAt else KeyOf(s, inner, h) in others
    ensures Protected(Next(s, inner, h).es, e, others) && Sane(Next(s, inner, h).es, DEFAULT_MAX_ENTRIES)
  {
    if h.Begin? {
      StepProtects(s.es, DEFAULT_MAX_ENTRIES, Fetch(Key(h.bind), h.now), e, others);
      GetSane(s.es, DEFAULT_MAX_ENTRIES, Key(h.bind), h.now);
    } else if Single(inner.answer(h.call, s.asked[h.call])) {
      var p :| At(s.es, e, others, p);
      var r := PutProtects(s.es, DEFAULT_MAX_ENTRIES, EntryOf(s, inner, h), e, others, p);
      PutSane(s.es, DEFAULT_MAX_ENTRIES, EntryOf(s, inner, h));
    }
  }

  lemma {:induction false} RunsWarm(s: State, inner: Inner, run: seq<Half>, e: Entry<LookupReply>, others: set<string>)
    requires IsTtl(inner.ttl) && Sane(s.es, DEFAULT_MAX_ENTRIES) && Runs(s, inner, run)
    requires Protected(s.es, e, others) && |others| < DEFAULT_MAX_ENTRIES && SparedBy(s, inner, run, e, others)
    ensures var t := After(s, inner, run); Protected(t.es, e, others) && Sane(t.es, DEFAULT_MAX_ENTRIES)
    decreases |run|
  {
    if run != [] {
      NextWarm(s, inner, run[0], e, others);
      RunsWarm(Next(s, inner, run[0]), inner, run[1..], e, others);
    }
  }

  /** Call `finish` answers one row for `bind`, and the run `rest` leaves its entry alone. */
  predicate KeptWarm(s: State, inner: Inner, finish: Half, rest: seq<Half>, others: set<string>, bind: Binds) {
    && Enabled(s, inner, finish) && finish.Finish? && s.asked[finish.call] == bind &&
       Single(inner.answer(finish.call, bind))
    && Runs(Next(s, inner, finish), inner, rest)
    && SparedBy(Next(s, inner, finish), inner, rest, EntryOf(s, inner, finish), others)
  }

  /**
   The cache does spare the inner lookup: once a call's single row is stored, a read of its key within 0.85 times
   the TTL is served that row and makes no inner call, however the run went on, as long as it worked on fewer
   than 1024 other keys.
   */
  lemma WarmBindIsServed(s: State, inner: Inner, finish: Half, rest: seq<Half>, others: set<string>, bind: Binds,
      now: int)
    requires IsTtl(inner.ttl) && Reached(s, inner) && KeptWarm(s, inner, finish, rest, others, bind)
    requires |others| < DEFAULT_MAX_ENTRIES && (now - finish.now) as real <= 0.85 * inner.ttl as real
    requires After(Next(s, inner, finish), inner, rest).clock <= now
    ensures var t := After(Next(s, inner, finish), inner, rest);
            && Served(t, bind, now) == Some(inner.answer(finish.call, bind))
            && Next(t, inner, Begin(bind, now)).calls == t.calls && Next(t, inner, Begin(bind, now)).asked == t.asked
  {
    var u, e := Next(s, inner, finish), EntryOf(s, inner, finish);
    ReachedSound(s, inner);
    FinishSound(s, inner, finish);
    FinishInFront(s, inner, finish, others);
    RunsWarm(u, inner, rest, e, others);
    WarmHit(After(u, inner, rest), bind, now, e, others);
    NotBefore(inner.ttl, finish.now, now, finish.life);
    HitMakesNoCall(After(u, inner, rest), inner, bind, now);
  }

  lemma FinishInFront(s: State, inner: Inner, h: Half, others: set<string>)
    requires Enabled(s, inner, h) && h.Finish? && Single(inner.answer(h.call, s.asked[h.call]))
    ensures Protected(Next(s, inner, h).es, EntryOf(s, inner, h), others)
  {
    assert At(Next(s, inner, h).es, EntryOf(s, inner, h), others, 0);
  }

  lemma HitMakesNoCall(t: State, inner: Inner, bind: Binds, now: int)
    requires t.clock <= now && Served(t, bind, now).Some?
    ensures Next(t, inner, Begin(bind, now)).calls == t.calls && Next(t, inner, Begin(bind, now)).asked == t.asked
  {
  }

  lemma WarmHit(t: State, bind: Binds, now: int, e: Entry<LookupReply>, others: set<string>)
    requires Sane(t.es, DEFAULT_MAX_ENTRIES) && Protected(t.es, e, others) && Key(bind) == e.key
    ensures now <= e.expiresAt ==> Served(t, bind, now) == Some(e.value)
  {
    var p :| At(t.es, e, others, p);
    assert Pos(t.es, e.key) == p;
  }

  lemma NotBefore(ttl: int, at: int, now: int, life: int)
    requires IsTtl(ttl) && Drawn(ttl, life) && (now - at) as real <= 0.85 * ttl as real
    ensures now <= at + life
  {
  }

  /** One Resolve on the cache's entries: the new entries, the calls made so far, and the reply. */
  datatype Resolution = Resolution(es: Entries<LookupReply>, calls: nat, reply: LookupReply)

  /** A miss: the inner lookup is called, and its reply is cached if it has one row. */
  function AfterMiss(es: Entries<LookupReply>, calls: nat, inner: Inner, bind: Binds, later: int, life: int): Resolution
  {
    var reply := inner.answer(calls, bind);
    Resolution(Kept(es, Key(bind), reply, later + life), calls + 1, reply)
  }

  function Resolved(es: Entries<LookupReply>, calls: nat, inner: Inner, bind: Binds, now: int, later: int,
      life: int): Resolution
  {
    var got := Recency.Get(es, Key(bind), now);
    if got.found.Some? then Resolution(got.es, calls, got.found.value)
    else AfterMiss(got.es, calls, inner, bind, later, life)
  }

  /** A hit by one caller alone is a Begin. */
  lemma HitIsARun(s: State, inner: Inner, bind: Binds, now: int, later: int, life: int)
    requires s.clock <= now && Served(s, bind, now).Some?
    ensures Enabled(s, inner, Begin(bind, now))
    ensures var t := Next(s, inner, Begin(bind, now));
            Resolved(s.es, s.calls, inner, bind, now, later, life) ==
              Resolution(t.es, t.calls, Served(s, bind, now).value)
  {
  }

  /** A miss by one caller alone is a Begin and the Finish of its call. */
  lemma MissIsARun(s: State, inner: Inner, bind: Binds, now: int, later: int, life: int)
    requires s.clock <= now <= later && Drawn(inner.ttl, life) && Served(s, bind, now).None?
    ensures Enabled(s, inner, Begin(bind, now)) &&
            var t := Next(s, inner, Begin(bind, now));
            Enabled(t, inner, Finish(s.calls, later, life)) &&
            var u := Next(t, inner, Finish(s.calls, later, life));
            var r := Resolved(s.es, s.calls, inner, bind, now, later, life);
            r.es == u.es && r.calls == u.calls && r.reply == inner.answer(s.calls, bind)
  {
    MissBegins(s, inner, bind, now);
    FinishKeeps(Next(s, inner, Begin(bind, now)), inner, Finish(s.calls, later, life), bind);
    MissKeeps(s.es, s.calls, inner, bind, now, later, life);
  }

  lemma FinishKeeps(t: State, inner: Inner, h: Half, bind: Binds)
    requires Enabled(t, inner, h) && h.Finish? && t.asked[h.call] == bind
    ensures var u := Next(t, inner, h);
            u.calls == t.calls && u.es == Kept(t.es, Key(bind), inner.answer(h.call, bind), h.now + h.life)
  {
  }

  lemma MissKeeps(es: Entries<LookupReply>, calls: nat, inner: Inner, bind: Binds, now: int, later: int, life: int)
    requires Recency.Get(es, Key(bind), now).found.None?
    ensures var r := Resolved(es, calls, inner, bind, now, later, life);
            && r.es == Kept(Recency.Get(es, Key(bind), now).es, Key(bind), inner.answer(calls, bind), later + life)
            && r.calls == calls + 1 && r.reply == inner.answer(calls, bind)
  {
  }

  lemma MissBegins(s: State, inner: Inner, bind: Binds, now: int)
    requires s.clock <= now && Served(s, bind, now).None?
    ensures var t := Next(s, inner, Begin(bind, now));
            && s.calls in t.asked && t.asked[s.calls] == bind && t.calls == s.calls + 1 && t.clock == now
            && t.es == Recency.Get(s.es, Key(bind), now).es
  {
  }

  class CachedLookup {
    const inner: Inner
    const cache: Cache.Cache<LookupReply>
    var calls: nat   // inner calls so far

    ghost predicate Valid()
      reads this, cache, cache.repr
    {
      this !in cache.repr && cache.Valid() && cache.maxEntries == DEFAULT_MAX_ENTRIES && IsTtl(inner.ttl)
    }

    constructor (inner: Inner)
      requires IsTtl(inner.ttl)
      ensures Valid() && this.inner == inner && calls == 0 && cache.contents == [] && fresh(cache.repr)
    {
      this.inner, calls := inner, 0;
      cache := new Cache.Cache(0);
    }

    /** Resolve; `life` is the jittered TTL the cache draws. */
    method Resolve(bind: Binds, now: int, later: int, rand: real) returns (r: LookupReply, ghost life: int)
      requires Valid() && IsRand(rand)
      modifies this, cache.repr
      ensures Valid() && fresh(cache.repr - old(cache.repr)) && Drawn(inner.ttl, life)
      ensures var d := Resolved(old(cache.contents), old(calls), inner, bind, now, later, life);
              cache.contents == d.es && calls == d.calls && r == d.reply
    {
      var key := MakeCacheKey(bind);
      var hit := cache.Get(key, now);
      if hit.Some? {
        life := SomeLife(inner.ttl, rand);
        return hit.value, life;
      }
      r, life := Ask(bind, key, later, rand);
    }

    method Ask(bind: Binds, key: string, later: int, rand: real) returns (r: LookupReply, ghost life: int)
      requires Valid() && key == Key(bind) && IsRand(rand)
      modifies `calls, cache.repr
      ensures Valid() && fresh(cache.repr - old(cache.repr)) && Drawn(inner.ttl, life)
      ensures var d := AfterMiss(old(cache.contents), old(calls), inner, bind, later, life);
              cache.contents == d.es && calls == d.calls && r == d.reply
    {
      r := inner.answer(calls, bind);
      calls := calls + 1;
      if r.Rows? && |r.rows| == 1 {
        life := Store(key, r, later, rand);
      } else {
        life := SomeLife(inner.ttl, rand);
      }
    }

    method Store(key: string, r: LookupReply, now: int, rand: real) returns (ghost life: int)
      requires Valid() && IsRand(rand)
      modifies cache.repr
      ensures Valid() && fresh(cache.repr - old(cache.repr)) && Drawn(inner.ttl, life)
      ensures cache.contents == Put(old(cache.contents), DEFAULT_MAX_ENTRIES, Entry(key, r, now + life))
    {
      cache.Set(key, r, inner.ttl, now, rand);
      EffectiveTtlBound(inner.ttl, rand);
      life := EffectiveTtl(inner.ttl, rand);
    }
  }

  lemma SomeLife(ttl: int, rand: real) returns (life: int)
    requires IsTtl(ttl) && IsRand(rand)
    ensures Drawn(ttl, life)
  {
    EffectiveTtlBound(ttl, rand);
    life := EffectiveTtl(ttl, rand);
  }

  /** NewCachedLookup; null stands for the inner lookup returned unwrapped. */
  method NewCachedLookup(inner: Inner) returns (c: CachedLookup?)
    requires inner.ttl <= MAX_DURATION  // a time.Duration
    ensures c == null <==> inner.ttl <= 0
    ensures c != null ==> fresh(c) && c.Valid() && c.inner == inner && c.calls == 0 && c.cache.contents == []
  {
    if inner.ttl <= 0 { return null; }
    c := new CachedLookup(inner);
  }
}
