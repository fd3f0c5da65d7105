/** The doubly linked list behind the cache: front is the most recently used element. */
module RecencyList {

  /** What one cache key holds. */
  datatype Entry<V> = Entry(key: string, value: V, expiresAt: int)

  class Element<V> {
    var prev: Element?<V>
    var next: Element?<V>
    var entry: Entry<V>

    constructor (entry: Entry<V>)
      ensures this.entry == entry && prev == null && next == null
    {
      this.entry := entry;
      prev, next := null, null;
    }
  }

  class List<V> {
    var front: Element?<V>
    var back: Element?<V>
    var len: nat
    ghost var nodes: seq<Element<V>>   // front to back

    /** No element twice, and every pointer goes to the neighbour in `nodes`. */
    ghost predicate Valid()
      reads this, nodes
    {
      && (forall i, j :: 0 <= i < j < |nodes| ==> nodes[i] != nodes[j])
      && len == |nodes|
      && front == (if nodes == [] then null else nodes[0])
      && back == (if nodes == [] then null else nodes[|nodes| - 1])
      && (forall i, j :: 0 <= i && j == i + 1 && j < |nodes| ==> nodes[i].next == nodes[j] && nodes[j].prev == nodes[i])
      && (nodes != [] ==> nodes[0].prev == null && nodes[|nodes| - 1].next == null)
    }

    constructor ()
      ensures Valid() && nodes == []
    {
      front, back, len, nodes := null, null, 0, [];
    }

    /** Unlink the element at position k. */
    method Remove(e: Element<V>, ghost k: nat)
      requires Valid() && k < |nodes| && nodes[k] == e
      modifies this, (set n | n in nodes)`prev, (set n | n in nodes)`next
      ensures Valid() && nodes == old(nodes)[..k] + old(nodes)[k + 1..]
      ensures e !in nodes
    {
      ghost var was := nodes;
      assert k > 0 ==> e.prev == was[k - 1];
      assert k + 1 < |was| ==> e.next == was[k + 1];
      if e.prev == null { front := e.next; } else { e.prev.next := e.next; }
      if e.next == null { back := e.prev; } else { e.next.prev := e.prev; }
      len := len - 1;
      nodes := nodes[..k] + nodes[k + 1..];
      assert forall i :: 0 <= i < k ==> nodes[i] == was[i];
      assert forall i :: k <= i < |nodes| ==> nodes[i] == was[i + 1];
    }

    method PushFront(e: Element<V>)
      requires Valid() && e !in nodes
      modifies this, e`prev, e`next, (set n | n in nodes)`prev
      ensures Valid() && nodes == [e] + old(nodes)
    {
      ghost var was := nodes;
      e.prev, e.next := null, front;
      if front == null { back := e; } else { front.prev := e; }
      front := e;
      len := len + 1;
      nodes := [e] + nodes;
      assert forall i :: 0 < i < |nodes| ==> nodes[i] == was[i - 1];
    }

    method MoveToFront(e: Element<V>, ghost k: nat)
      requires Valid() && k < |nodes| && nodes[k] == e
      modifies this, (set n | n in nodes)`prev, (set n | n in nodes)`next
      ensures Valid() && nodes == [e] + (old(nodes)[..k] + old(nodes)[k + 1..])
    {
      Remove(e, k);
      PushFront(e);
    }
  }
}
