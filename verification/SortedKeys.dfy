/**
 Byte-wise string order and the sorted key list of a map. Go's encoding/json and
 MakeCacheKey both walk a map in this order, so both texts depend on the map
 only, never on its iteration order.
 */
module SortedKeys {

  predicate Leq(a: string, b: string) {
    a == [] || (b != [] && (a[0] < b[0] || (a[0] == b[0] && Leq(a[1..], b[1..]))))
  }

  /** Strictly increasing: sorted, and no key twice. */
  predicate Increasing(keys: seq<string>) {
    forall i, j :: 0 <= i < j < |keys| ==> keys[i] != keys[j] && Leq(keys[i], keys[j])
  }

  lemma {:induction false} LeqTotal(a: string, b: string)
    ensures Leq(a, b) || Leq(b, a)
    ensures Leq(a, b) && Leq(b, a) ==> a == b
  {
    if a != [] && b != [] && a[0] == b[0] {
      LeqTotal(a[1..], b[1..]);
      assert a == [a[0]] + a[1..] && b == [b[0]] + b[1..];
    }
  }

  lemma {:induction false} LeqTransitive(a: string, b: string, c: string)
    requires Leq(a, b) && Leq(b, c)
    ensures Leq(a, c)
  {
    if a != [] && b != [] && c != [] && a[0] == b[0] && b[0] == c[0] {
      LeqTransitive(a[1..], b[1..], c[1..]);
    }
  }

  predicate IsLeast(least: string, s: set<string>) {
    least in s && forall k :: k in s ==> Leq(least, k)
  }

  /** A non-empty finite set of strings has a least element. */
  lemma {:induction false} LeastExists(s: set<string>)
    requires s != {}
    ensures exists least :: IsLeast(least, s)
    decreases s
  {
    var x :| x in s;
    LeqTotal(x, x);
    var rest := s - {x};
    if rest == {} {
      assert s == {x};
      assert IsLeast(x, s);
    } else {
      LeastExists(rest);
      var y :| IsLeast(y, rest);
      LeqTotal(x, y);
      var least := if Leq(x, y) then x else y;
      forall k | k in s ensures Leq(least, k) {
        if k != x && least == x { LeqTransitive(x, y, k); }
      }
      assert IsLeast(least, s);
    }
  }

  lemma LeastUnique(x: string, y: string, s: set<string>)
    requires IsLeast(x, s) && IsLeast(y, s)
    ensures x == y
  {
    LeqTotal(x, y);
  }

  function Least(s: set<string>): (least: string)
    requires s != {}
    ensures IsLeast(least, s)
  {
    LeastExists(s);
    assert forall x, y :: IsLeast(x, s) && IsLeast(y, s) ==> x == y by {
      forall x, y | IsLeast(x, s) && IsLeast(y, s) ensures x == y { LeastUnique(x, y, s); }
    }
    var least :| least in s && IsLeast(least, s);
    least
  }

  /** The keys of a set, in increasing order. */
  function Sorted(s: set<string>): (keys: seq<string>)
    ensures Increasing(keys)
    ensures forall k :: k in keys <==> k in s
    ensures |keys| == |s|
    decreases s
  {
    if s == {} then [] else
      var least := Least(s);
      var rest := Sorted(s - {least});
      assert s == {least} + (s - {least});
      [least] + rest
  }

  /** A set has only one increasing enumeration. */
  lemma {:induction false} SortedUnique(a: seq<string>, b: seq<string>)
    requires Increasing(a) && Increasing(b)
    requires forall k :: k in a <==> k in b
    ensures a == b
  {
    assert a != [] ==> a[0] in a;
    assert b != [] ==> b[0] in b;
    if a != [] && b != [] {
      assert a[0] in b && b[0] in a;
      LeqTotal(a[0], b[0]);
      assert a[0] == b[0];
      forall k ensures k in a[1..] <==> k in b[1..] {
        assert k in a <==> k == a[0] || k in a[1..];
        assert k in b <==> k == b[0] || k in b[1..];
      }
      SortedUnique(a[1..], b[1..]);
      assert a == [a[0]] + a[1..] && b == [b[0]] + b[1..];
    }
  }

  /** One insertion step of a sort. */
  function Insert(keys: seq<string>, k: string): (r: seq<string>)
    requires Increasing(keys) && k !in keys
    ensures Increasing(r)
    ensures forall x :: x in r <==> x == k || x in keys
  {
    if keys == [] then [k]
    else if Leq(k, keys[0]) then
      assert forall j :: 0 <= j < |keys| ==> Leq(k, keys[j]) by {
        forall j | 0 <= j < |keys| ensures Leq(k, keys[j]) {
          if j > 0 { LeqTransitive(k, keys[0], keys[j]); }
        }
      }
      [k] + keys
    else
      LeqTotal(k, keys[0]);
      assert forall x :: x in keys <==> x == keys[0] || x in keys[1..];
      var rest := Insert(keys[1..], k);
      assert forall j :: 0 <= j < |rest| ==> keys[0] != rest[j] && Leq(keys[0], rest[j]) by {
        forall j | 0 <= j < |rest| ensures keys[0] != rest[j] && Leq(keys[0], rest[j]) {
          assert rest[j] in rest;
        }
      }
      [keys[0]] + rest
  }

  predicate NoRepeats(keys: seq<string>) {
    forall i, j :: 0 <= i < j < |keys| ==> keys[i] != keys[j]
  }

  /** sort.Strings on a list without repeats. */
  function Sort(keys: seq<string>): (r: seq<string>)
    requires NoRepeats(keys)
    ensures Increasing(r)
    ensures forall x :: x in r <==> x in keys
  {
    if keys == [] then [] else
      assert forall x :: x in keys <==> x == keys[0] || x in keys[1..];
      Insert(Sort(keys[1..]), keys[0])
  }
}
