/** The bounded LRU+TTL cache (internal/lookup/cache.go): a map and a linked list changed together. */
module Cache {
  import opened Wrappers
  import opened RecencyList
  import opened Recency
  import opened LruTrace

  ghost predicate Distinct<V>(nodes: seq<Element<V>>) {
    forall i, j :: 0 <= i < j < |nodes| ==> nodes[i] != nodes[j]
  }

  /** The map finds each listed element under its entry's key, and holds no more than that. */
  ghost predicate Indexed<V>(items: map<string, Element<V>>, nodes: seq<Element<V>>, es: Entries<V>) {
    && |nodes| == |es| == |items|
    && forall i :: 0 <= i < |es| ==> es[i].key in items && items[es[i].key] == nodes[i]
  }

  lemma IndexedUnique<V>(items: map<string, Element<V>>, nodes: seq<Element<V>>, es: Entries<V>)
    requires Indexed(items, nodes, es) && Distinct(nodes)
    ensures Unique(es)
  {
  }

  /** Where a key's element is in the list. */
  lemma Locate<V>(items: map<string, Element<V>>, nodes: seq<Element<V>>, es: Entries<V>, key: string) returns (k: nat)
    requires Indexed(items, nodes, es) && Distinct(nodes)
    ensures k == Pos(es, key)
    ensures if key in items then k < |es| && nodes[k] == items[key] else k == |es|
  {
    k := Pos(es, key);
    IndexedUnique(items, nodes, es);
    KeysCount(es);
    assert Keys(es) <= items.Keys;
    SameSize(Keys(es), items.Keys);
    if key in items {
      assert key in Keys(es);
    }
  }

  lemma SameSize(a: set<string>, b: set<string>)
    requires a <= b && |a| == |b|
    ensures a == b
  {
    assert b == a + (b - a);
    assert |b - a| == 0;
  }

  lemma IndexedWithout<V>(items: map<string, Element<V>>, nodes: seq<Element<V>>, es: Entries<V>, k: nat)
    requires Indexed(items, nodes, es) && Distinct(nodes) && k < |es|
    ensures Indexed(items - {es[k].key}, nodes[..k] + nodes[k + 1..], Without(es, k))
  {
    var rest, left := Without(es, k), nodes[..k] + nodes[k + 1..];
    assert (items - {es[k].key}).Keys == items.Keys - {es[k].key};
    forall i | 0 <= i < |rest|
      ensures rest[i].key in items && rest[i].key != es[k].key && items[rest[i].key] == left[i]
    {
      var j := if i < k then i else i + 1;
      assert rest[i] == es[j] && left[i] == nodes[j] && nodes[j] != nodes[k];
    }
  }

  lemma IndexedFront<V>(items: map<string, Element<V>>, nodes: seq<Element<V>>, es: Entries<V>, el: Element<V>,
      e: Entry<V>)
    requires Indexed(items, nodes, es) && e.key !in items
    ensures Indexed(items[e.key := el], [el] + nodes, [e] + es)
  {
    var all, nodes' := [e] + es, [el] + nodes;
    assert forall i :: 0 < i < |all| ==> all[i] == es[i - 1] && nodes'[i] == nodes[i - 1];
    assert items[e.key := el].Keys == items.Keys + {e.key};
  }

  lemma IndexedPromoted<V>(items: map<string, Element<V>>, nodes: seq<Element<V>>, es: Entries<V>, k: nat)
    requires Indexed(items, nodes, es) && Distinct(nodes) && k < |es|
    ensures Indexed(items, [nodes[k]] + (nodes[..k] + nodes[k + 1..]), [es[k]] + Without(es, k))
  {
    var key := es[k].key;
    IndexedWithout(items, nodes, es, k);
    IndexedFront(items - {key}, nodes[..k] + nodes[k + 1..], Without(es, k), nodes[k], es[k]);
    assert (items - {key})[key := nodes[k]] == items;
  }

  /** Where element i was before element k left the list, or was moved to its front. */
  function Before(i: int, k: nat): int { if i < k then i else i + 1 }
  function BeforeMove(i: int, k: nat): int { if i == 0 then k else Before(i - 1, k) }

  lemma LeftFrom<T>(s: seq<T>, k: nat)
    requires k < |s|
    ensures forall i :: 0 <= i < |s| - 1 ==> (s[..k] + s[k + 1..])[i] == s[Before(i, k)]
  {
  }

  lemma FrontedFrom<T>(s: seq<T>, k: nat)
    requires k < |s|
    ensures forall i :: 0 <= i < |s| ==> ([s[k]] + (s[..k] + s[k + 1..]))[i] == s[BeforeMove(i, k)]
  {
  }

  class Cache<V> {
    const maxEntries: nat
    var items: map<string, Element<V>>
    const lru: List<V>
    ghost var repr: set<object>
    ghost var contents: Entries<V>   // the abstract value: the entries, most recently used first

    /** The map and the list hold the same elements, each under its own key, and never more than maxEntries. */
    ghost predicate Valid()
      reads this, repr
    {
      && this in repr && lru in repr && (forall n :: n in lru.nodes ==> n in repr)
      && lru.Valid() && 0 < maxEntries && |lru.nodes| <= maxEntries
      && Indexed(items, lru.nodes, contents)
      && forall i :: 0 <= i < |lru.nodes| ==> lru.nodes[i].entry == contents[i]
    }

    constructor (maxEntries: int)
      ensures Valid() && fresh(repr) && contents == []
      ensures this.maxEntries == if maxEntries <= 0 then 1024 else maxEntries
    {
      this.maxEntries := if maxEntries <= 0 then DEFAULT_MAX_ENTRIES else maxEntries;
      items, contents := map[], [];
      lru := new List();
      new;
      repr := {this, lru};
    }

    /** Take an element out of both. */
    method Unlink(el: Element<V>, ghost k: nat)
      requires Valid() && k < |lru.nodes| && lru.nodes[k] == el
      modifies repr
      ensures Valid() && contents == Without(old(contents), k)
      ensures lru.nodes == old(lru.nodes)[..k] + old(lru.nodes)[k + 1..]
      ensures repr == old(repr) && el !in lru.nodes
      ensures el.entry == old(el.entry) && items == old(items) - {el.entry.key}
    {
      ghost var nodes, es := lru.nodes, contents;
      IndexedWithout(items, nodes, es, k);
      LeftFrom(nodes, k);
      LeftFrom(es, k);
      contents := Without(contents, k);
      items := items - {el.entry.key};
      lru.Remove(el, k);
    }

    /** Put an element into both, in front. */
    method Link(el: Element<V>)
      requires Valid() && el in repr && el !in lru.nodes && el.entry.key !in items && |lru.nodes| < maxEntries
      modifies repr
      ensures Valid() && repr == old(repr) && contents == [old(el.entry)] + old(contents)
      ensures el.entry == old(el.entry) && lru.nodes == [el] + old(lru.nodes)
      ensures items == old(items)[el.entry.key := el]
    {
      IndexedFront(items, lru.nodes, contents, el, el.entry);
      lru.PushFront(el);
      items := items[el.entry.key := el];
      contents := [el.entry] + contents;
    }

    /** Make an element the most recently used one. */
    method Promote(el: Element<V>, ghost k: nat)
      requires Valid() && k < |lru.nodes| && lru.nodes[k] == el
      modifies repr
      ensures Valid() && contents == [old(contents)[k]] + Without(old(contents), k)
      ensures lru.nodes == [el] + (old(lru.nodes)[..k] + old(lru.nodes)[k + 1..])
      ensures repr == old(repr)
      ensures el.entry == old(el.entry) && items == old(items)
    {
      ghost var nodes, es := lru.nodes, contents;
      IndexedPromoted(items, nodes, es, k);
      lru.MoveToFront(el, k);
      contents := [es[k]] + Without(es, k);
      FrontedFrom(nodes, k);
      FrontedFrom(es, k);
    }

    /** The front element's entry gets a new value and expiry. */
    method Overwrite(el: Element<V>, e: Entry<V>)
      requires Valid() && lru.nodes != [] && lru.nodes[0] == el && el.entry.key == e.key
      modifies `contents, el`entry
      ensures Valid() && contents == [e] + old(contents)[1..] && repr == old(repr) && lru.nodes == old(lru.nodes) &&
              items == old(items)
    {
      el.entry := e;
      contents := [e] + contents[1..];
    }

    /** The least recently used entry leaves. */
    method Evict()
      requires Valid() && lru.nodes != []
      modifies repr
      ensures Valid() && repr == old(repr)
      ensures contents == old(contents)[..|old(contents)| - 1] && forall k :: k in items ==> k in old(items)
    {
      ghost var es := contents;
      var last := lru.back;
      if last != null {
        Unlink(last, |lru.nodes| - 1);
        assert Without(es, |es| - 1) == es[..|es| - 1];
      }
    }

    /** A new entry goes in front; the least recently used one leaves if there is no room. */
    method Insert(e: Entry<V>)
      requires Valid() && e.key !in items
      modifies repr
      ensures Valid() && fresh(repr - old(repr))
      ensures contents ==
              [e] + (if |old(contents)| >= maxEntries then old(contents)[..|old(contents)| - 1] else old(contents))
    {
      if lru.len >= maxEntries { Evict(); }
      var el := new Element(e);
      repr := repr + {el};
      Link(el);
    }

    /** An entry whose key is there already is overwritten and becomes the most recent one. */
    method Refresh(el: Element<V>, e: Entry<V>, ghost k: nat)
      requires Valid() && k < |lru.nodes| && lru.nodes[k] == el && contents[k].key == e.key
      modifies repr
      ensures Valid() && repr == old(repr)
      ensures contents == [e] + Without(old(contents), k)
    {
      Promote(el, k);
      Overwrite(el, e);
    }

    method Get(key: string, now: int) returns (r: Option<V>)
      requires Valid()
      modifies repr
      ensures Valid() && repr == old(repr)
      ensures Recency.Lookup(contents, r) == Recency.Get(old(contents), key, now)
    {
      ghost var k := Locate(items, lru.nodes, contents, key);
      if key !in items { return None; }
      var el := items[key];
      if now > el.entry.expiresAt {
        Unlink(el, k);
        return None;
      }
      Promote(el, k);
      r := Some(el.entry.value);
    }

    method Put(e: Entry<V>)
      requires Valid()
      modifies repr
      ensures Valid() && fresh(repr - old(repr))
      ensures contents == Recency.Put(old(contents), maxEntries, e)
    {
      ghost var k := Locate(items, lru.nodes, contents, e.key);
      if e.key in items {
        Refresh(items[e.key], e, k);
      } else {
        Insert(e);
      }
    }

    method Set(key: string, value: V, ttl: int, now: int, rand: real)
      requires Valid()
      modifies repr
      ensures Valid() && fresh(repr - old(repr))
      ensures contents == Recency.Set(old(contents), maxEntries, key, value, ttl, now, rand)
    {
      if ttl <= 0 { return; }
      Put(Entry(key, value, now + EffectiveTtl(ttl, rand)));
    }

    /** The number of entries, expired ones included. */
    method Len() returns (n: nat)
      requires Valid()
      ensures n == |contents| <= maxEntries
    {
      n := lru.len;
    }
  }
}
