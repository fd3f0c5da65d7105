/**
 What accepting an instance buys: when the emit check agrees with the graph of all bindings, and how
 far an event can be passed on (internal/config/config.go validateInstance, detectEmitCycles).
 */
module EmitChains {
  import opened Wrappers
  import opened Bindings
  import opened EmitGraph

  datatype Verdict = Accepted | SelfEmit(stream: string) | EmitCycle(key: string)

  predicate Emits(b: Binding) { b.emit != "" }

  predicate SelfEmits(b: Binding, id: string) {
    Emits(b) && ConsumeKey(b, id) == EmitKey(b, id)
  }

  /** A binding that emits to its own stream's name emits to itself exactly when that stream is shared. */
  lemma OwnNameIsSelfIfShared(b: Binding, id: string)
    requires Emits(b) && b.emit == b.stream
    ensures SelfEmits(b, id) <==> IsShared(b)
  {
    EmitKeyIsTheName(b, id);
    if IsShared(b) { SharedKeyIsTheName(b, id, id); } else { InstanceKeysDiffer(b, id, id); }
  }

  /** And an instance stream is reached from inside the instance by spelling its whole key. */
  lemma WholeKeyIsSelf(b: Binding, id: string)
    requires Emits(b) && !IsShared(b)
    ensures SelfEmits(b, id) <==> b.emit == id + "." + b.stream
  {
    EmitKeyIsTheName(b, id);
    InstanceKeysDiffer(b, id, id);
  }

  ghost predicate Accepts(bs: seq<Binding>, id: string) {
    (forall i :: 0 <= i < |bs| ==> !SelfEmits(bs[i], id)) && !Cyclic(LastEdges(bs, id))
  }

  /** The two emit checks of validateInstance, in its order. */
  method Validate(bs: seq<Binding>, id: string) returns (v: Verdict)
    ensures v.Accepted? <==> Accepts(bs, id)
    ensures v.SelfEmit? ==> exists b :: b in bs && SelfEmits(b, id) && b.stream == v.stream
    ensures v.EmitCycle? ==> OnCycle(LastEdges(bs, id), v.key)
  {
    for i := 0 to |bs|
      invariant forall j :: 0 <= j < i ==> !SelfEmits(bs[j], id)
    {
      if bs[i].emit != "" && ConsumeKey(bs[i], id) == EmitKey(bs[i], id) {
        assert SelfEmits(bs[i], id);
        return SelfEmit(bs[i].stream);
      }
    }
    var err := DetectEmitCycles(bs, id);
    return match err case Some(key) => EmitCycle(key) case None => Accepted;
  }

  /** Binding i emits from a to b. */
  predicate Joins(bs: seq<Binding>, id: string, i: int, a: string, b: string) {
    0 <= i < |bs| && Emits(bs[i]) && ConsumeKey(bs[i], id) == a && EmitKey(bs[i], id) == b
  }

  /** An edge of the graph of all bindings. */
  ghost predicate EdgeOf(bs: seq<Binding>, id: string, a: string, b: string) {
    exists i :: Joins(bs, id, i, a, b)
  }

  ghost predicate ClosedWalk(bs: seq<Binding>, id: string, w: seq<string>) {
    && |w| >= 2 && w[0] == w[|w| - 1]
    && forall i, j :: 0 <= i && j == i + 1 && j < |w| ==> EdgeOf(bs, id, w[i], w[j])
  }

  /** The graph of all bindings has a cycle. */
  ghost predicate Loops(bs: seq<Binding>, id: string) {
    exists w :: ClosedWalk(bs, id, w)
  }

  /** i is the last emitting binding on its key. */
  predicate LastOn(bs: seq<Binding>, id: string, i: int) {
    && 0 <= i < |bs| && Emits(bs[i])
    && forall j :: i < j < |bs| && Emits(bs[j]) ==> ConsumeKey(bs[j], id) != ConsumeKey(bs[i], id)
  }

  /** Every edge of the map is that of the last emitting binding on its key. */
  lemma {:induction false} EdgeFromLast(bs: seq<Binding>, id: string, a: string) returns (i: nat)
    requires a in LastEdges(bs, id)
    ensures LastOn(bs, id, i) && Joins(bs, id, i, a, LastEdges(bs, id)[a])
  {
    var m := |bs| - 1;
    if Emits(bs[m]) && ConsumeKey(bs[m], id) == a { return m; }
    i := EdgeFromLast(bs[..m], id, a);
    assert bs[i] == bs[..m][i];
    forall j | i < j < |bs| && Emits(bs[j]) ensures ConsumeKey(bs[j], id) != ConsumeKey(bs[i], id) {
      if j < m { assert bs[j] == bs[..m][j]; }
    }
  }

  /** And every emitting binding's key has an edge. */
  lemma {:induction false} KeyHasEdge(bs: seq<Binding>, id: string, i: nat)
    requires i < |bs| && Emits(bs[i])
    ensures ConsumeKey(bs[i], id) in LastEdges(bs, id)
  {
    if i < |bs| - 1 {
      assert bs[..|bs| - 1][i] == bs[i];
      KeyHasEdge(bs[..|bs| - 1], id, i);
    }
  }

  /** The keys a chain goes through. */
  lemma {:induction false} Trail(bs: seq<Binding>, id: string, n: string, k: nat) returns (w: seq<string>)
    requires Hop(LastEdges(bs, id), n, k).Some?
    ensures |w| == k + 1 && w[0] == n && w[k] == Hop(LastEdges(bs, id), n, k).value
    ensures forall i, j :: 0 <= i && j == i + 1 && j < |w| ==> EdgeOf(bs, id, w[i], w[j])
    decreases k
  {
    var edge := LastEdges(bs, id);
    if k == 0 { return [n]; }
    var rest := Trail(bs, id, edge[n], k - 1);
    var i := EdgeFromLast(bs, id, n);
    assert EdgeOf(bs, id, n, edge[n]);
    w := [n] + rest;
  }

  /** What the check rejects is a cycle of the bindings, always. */
  lemma RejectedLoops(bs: seq<Binding>, id: string)
    requires !Accepts(bs, id)
    ensures Loops(bs, id)
  {
    if i :| 0 <= i < |bs| && SelfEmits(bs[i], id) {
      var a := ConsumeKey(bs[i], id);
      assert Joins(bs, id, i, a, a);
      assert ClosedWalk(bs, id, [a, a]);
    } else {
      var edge := LastEdges(bs, id);
      var n :| OnCycle(edge, n);
      var k: nat :| k > 0 && Hop(edge, n, k) == Some(n);
      var w := Trail(bs, id, n, k);
      assert ClosedWalk(bs, id, w);
    }
  }

  /** No two emitting bindings consume one key. */
  predicate DistinctKeys(bs: seq<Binding>, id: string) {
    forall i, j :: 0 <= i < j < |bs| && Emits(bs[i]) && Emits(bs[j]) ==> ConsumeKey(bs[i], id) != ConsumeKey(bs[j], id)
  }

  /** All emitting bindings consume one key. */
  predicate OneKey(bs: seq<Binding>, id: string) {
    forall i, j :: 0 <= i < j < |bs| && Emits(bs[i]) && Emits(bs[j]) ==> ConsumeKey(bs[i], id) == ConsumeKey(bs[j], id)
  }

  /** With distinct keys the edge map is the graph of all bindings. */
  lemma MapIsGraph(bs: seq<Binding>, id: string, a: string, b: string)
    requires DistinctKeys(bs, id)
    ensures EdgeOf(bs, id, a, b) <==> a in LastEdges(bs, id) && LastEdges(bs, id)[a] == b
  {
    if EdgeOf(bs, id, a, b) {
      var i :| Joins(bs, id, i, a, b);
      KeyHasEdge(bs, id, i);
    }
    if a in LastEdges(bs, id) {
      var j := EdgeFromLast(bs, id, a);
      if EdgeOf(bs, id, a, b) {
        var i :| Joins(bs, id, i, a, b);
        assert i == j;
      }
    }
  }

  lemma {:induction false} WalkHops(bs: seq<Binding>, id: string, w: seq<string>, i: nat)
    requires DistinctKeys(bs, id) && ClosedWalk(bs, id, w) && i < |w|
    ensures Hop(LastEdges(bs, id), w[i], |w| - 1 - i) == Some(w[|w| - 1])
    decreases |w| - i
  {
    if i + 1 < |w| {
      MapIsGraph(bs, id, w[i], w[i + 1]);
      WalkHops(bs, id, w, i + 1);
    }
  }

  /** With distinct keys, accepted means that the graph of all bindings has no cycle. */
  lemma ExactWhenDistinct(bs: seq<Binding>, id: string)
    requires DistinctKeys(bs, id)
    ensures Accepts(bs, id) <==> !Loops(bs, id)
  {
    if Loops(bs, id) {
      var w :| ClosedWalk(bs, id, w);
      WalkHops(bs, id, w, 0);
      assert OnCycle(LastEdges(bs, id), w[0]);
    }
    if !Accepts(bs, id) { RejectedLoops(bs, id); }
  }

  /** With a single key, a cycle is a binding that emits to itself. */
  lemma ExactWhenOneKey(bs: seq<Binding>, id: string)
    requires OneKey(bs, id)
    ensures Accepts(bs, id) <==> !Loops(bs, id)
  {
    if Loops(bs, id) {
      var w :| ClosedWalk(bs, id, w);
      assert EdgeOf(bs, id, w[0], w[1]);
      var i :| Joins(bs, id, i, w[0], w[1]);
      if |w| > 2 {
        assert EdgeOf(bs, id, w[1], w[2]);
        var j :| Joins(bs, id, j, w[1], w[2]);
        assert w[0] == w[1];
      }
      assert SelfEmits(bs[i], id);
    }
    if !Accepts(bs, id) { RejectedLoops(bs, id); }
  }

  /** The same bindings up to where they emit to. */
  predicate SameShape(bs: seq<Binding>, cs: seq<Binding>) {
    |bs| == |cs| && forall i :: 0 <= i < |bs| ==>
      bs[i].stream == cs[i].stream && bs[i].scope == cs[i].scope && Emits(bs[i]) == Emits(cs[i])
  }

  /** The check agrees with the graph of all bindings, wherever they emit to. */
  ghost predicate ExactFor(bs: seq<Binding>, id: string) {
    forall cs | SameShape(bs, cs) :: Accepts(cs, id) <==> !Loops(cs, id)
  }

  /** A name longer than every consume key. */
  function Fresh(bs: seq<Binding>, id: string): (f: string)
    ensures forall i :: 0 <= i < |bs| ==> |ConsumeKey(bs[i], id)| < |f|
    ensures f != ""
  {
    if bs == [] then "x" else ConsumeKey(bs[0], id) + Fresh(bs[1..], id)
  }

  /** Binding i goes from k to m, every binding on m back to k, and all others to a stream nobody consumes. */
  function Hidden(bs: seq<Binding>, id: string, i: nat, k: string, m: string): (cs: seq<Binding>)
    ensures |cs| == |bs|
  {
    seq(|bs|, x requires 0 <= x < |bs| =>
      bs[x].(emit := if !Emits(bs[x]) then "" else if x == i then m
                     else if ConsumeKey(bs[x], id) == m then k else Fresh(bs, id)))
  }

  /** Binding i and another one on the key k, and a binding on another key. */
  predicate Shadowed(bs: seq<Binding>, id: string, i: nat, j: nat, l: nat) {
    && i < j < |bs| && l < |bs| && Emits(bs[i]) && Emits(bs[j]) && Emits(bs[l])
    && ConsumeKey(bs[i], id) == ConsumeKey(bs[j], id) != ConsumeKey(bs[l], id)
  }

  predicate Named(bs: seq<Binding>) {
    forall x :: 0 <= x < |bs| ==> bs[x].stream != ""
  }

  lemma HiddenAt(bs: seq<Binding>, id: string, i: nat, k: string, m: string, x: nat)
    requires Named(bs) && x < |bs| && k != "" && m != ""
    ensures var c := Hidden(bs, id, i, k, m)[x];
            && c.stream == bs[x].stream && c.scope == bs[x].scope && Emits(c) == Emits(bs[x])
            && ConsumeKey(c, id) == ConsumeKey(bs[x], id)
            && |ConsumeKey(c, id)| < |Fresh(bs, id)|
            && (Emits(c) ==>
                  EmitKey(c, id) == if x == i then m else if ConsumeKey(bs[x], id) == m then k else Fresh(bs, id))
  {
  }

  lemma KeyNotEmpty(b: Binding, id: string)
    requires b.stream != ""
    ensures ConsumeKey(b, id) != ""
  {
  }

  lemma HiddenLoops(bs: seq<Binding>, id: string, i: nat, j: nat, l: nat, k: string, m: string)
    requires Named(bs) && Shadowed(bs, id, i, j, l) && k == ConsumeKey(bs[i], id) && m == ConsumeKey(bs[l], id)
    ensures Loops(Hidden(bs, id, i, k, m), id)
  {
    var cs := Hidden(bs, id, i, k, m);
    KeyNotEmpty(bs[i], id);
    KeyNotEmpty(bs[l], id);
    HiddenAt(bs, id, i, k, m, i);
    HiddenAt(bs, id, i, k, m, l);
    assert Joins(cs, id, i, k, m) && Joins(cs, id, l, m, k);
    assert EdgeOf(cs, id, k, m) && EdgeOf(cs, id, m, k);
    assert ClosedWalk(cs, id, [k, m, k]);
  }

  lemma HiddenEdge(bs: seq<Binding>, id: string, i: nat, j: nat, l: nat, k: string, m: string, n: string)
    requires Named(bs) && Shadowed(bs, id, i, j, l) && k == ConsumeKey(bs[i], id) && m == ConsumeKey(bs[l], id)
    requires n in LastEdges(Hidden(bs, id, i, k, m), id)
    ensures var next := LastEdges(Hidden(bs, id, i, k, m), id)[n];
            n != Fresh(bs, id) && (next == Fresh(bs, id) || (next == k && n != k))
  {
    KeyNotEmpty(bs[i], id);
    KeyNotEmpty(bs[l], id);
    var x := EdgeFromLast(Hidden(bs, id, i, k, m), id, n);
    HiddenAt(bs, id, i, k, m, x);
    HiddenAt(bs, id, i, k, m, i);
    HiddenAt(bs, id, i, k, m, j);
    assert x != i;
  }

  /** Two emitting bindings on key k hide the cycle of the first with a binding on key m. */
  lemma HiddenCycle(bs: seq<Binding>, id: string, i: nat, j: nat, l: nat)
    requires Named(bs) && Shadowed(bs, id, i, j, l)
    ensures exists cs :: SameShape(bs, cs) && Accepts(cs, id) && Loops(cs, id)
  {
    var k, m := ConsumeKey(bs[i], id), ConsumeKey(bs[l], id);
    var cs := Hidden(bs, id, i, k, m);
    KeyNotEmpty(bs[i], id);
    KeyNotEmpty(bs[l], id);
    HiddenLoops(bs, id, i, j, l, k, m);
    var edge := LastEdges(cs, id);
    forall n | n in edge ensures n != Fresh(bs, id) && (edge[n] == Fresh(bs, id) || (edge[n] == k && n != k)) {
      HiddenEdge(bs, id, i, j, l, k, m, n);
    }
    ShortChains(edge, k, Fresh(bs, id));
    forall x | 0 <= x < |bs|
      ensures cs[x].stream == bs[x].stream && cs[x].scope == bs[x].scope && Emits(cs[x]) == Emits(bs[x])
      ensures !SelfEmits(cs[x], id)
    {
      HiddenAt(bs, id, i, k, m, x);
    }
    assert SameShape(bs, cs);
  }

  /** Chains of at most two hops have no cycle. */
  lemma ShortChains(edge: Edges, k: string, f: string)
    requires forall n :: n in edge ==> n != f && (edge[n] == f || (edge[n] == k && n != k))
    ensures !Cyclic(edge)
  {
    if Cyclic(edge) {
      var n :| OnCycle(edge, n);
      var p: nat :| p > 0 && Hop(edge, n, p) == Some(n);
      assert Leaves(edge, f, 0);
      if edge[n] == f {
        assert Leaves(edge, n, 1);
        EndsOffCycle(edge, n, 1, p);
      } else if k !in edge {
        assert Leaves(edge, k, 0);
        assert Leaves(edge, n, 1);
        EndsOffCycle(edge, n, 1, p);
      } else {
        assert Leaves(edge, k, 1);
        assert Leaves(edge, n, 2);
        EndsOffCycle(edge, n, 2, p);
      }
    }
  }

  /**
   The check is exact, wherever the bindings emit to, if and only if the emitting bindings consume
   pairwise distinct keys, or all the same one.
   */
  lemma ExactnessOfTheCheck(bs: seq<Binding>, id: string)
    requires Named(bs)  // checked before
    ensures ExactFor(bs, id) <==> DistinctKeys(bs, id) || OneKey(bs, id)
  {
    forall cs | SameShape(bs, cs) && (DistinctKeys(bs, id) || OneKey(bs, id))
      ensures Accepts(cs, id) <==> !Loops(cs, id)
    {
      assert forall i :: 0 <= i < |bs| ==> ConsumeKey(bs[i], id) == ConsumeKey(cs[i], id);
      if DistinctKeys(bs, id) { ExactWhenDistinct(cs, id); } else { ExactWhenOneKey(cs, id); }
    }
    if !DistinctKeys(bs, id) && !OneKey(bs, id) {
      var i, j :| 0 <= i < j < |bs| && Emits(bs[i]) && Emits(bs[j]) && ConsumeKey(bs[i], id) == ConsumeKey(bs[j], id);
      var x, y :| 0 <= x < y < |bs| && Emits(bs[x]) && Emits(bs[y]) && ConsumeKey(bs[x], id) != ConsumeKey(bs[y], id);
      var l := if ConsumeKey(bs[x], id) != ConsumeKey(bs[i], id) then x else y;
      HiddenCycle(bs, id, i, j, l);
    }
  }

  lemma {:induction false} LeavesUnique(edge: Edges, n: string, j: nat, k: nat)
    requires Leaves(edge, n, j) && Leaves(edge, n, k)
    ensures j == k
    decreases j
  {
    if j > 0 && k > 0 { LeavesUnique(edge, edge[n], j - 1, k - 1); }
  }

  lemma RankExists(edge: Edges, n: string)
    requires !Cyclic(edge)
    ensures exists k: nat :: Leaves(edge, n, k)
  {
    var k := ChainEnds(edge, [], n);
  }

  /** How many more times an event on this key is passed on. */
  ghost function Rank(edge: Edges, n: string): (k: nat)
    requires !Cyclic(edge)
    ensures Leaves(edge, n, k)
  {
    RankExists(edge, n);
    var k: nat :| Leaves(edge, n, k);
    k
  }

  /**
   Emission chains end. In an accepted instance with distinct keys, each binding passes an event on
   to a key of a rank lower by one, and no rank exceeds the number of emitting keys.
   */
  lemma EmissionChainsEnd(bs: seq<Binding>, id: string, i: nat)
    requires Accepts(bs, id) && DistinctKeys(bs, id) && i < |bs| && Emits(bs[i])
    ensures var edge := LastEdges(bs, id);
            Rank(edge, ConsumeKey(bs[i], id)) == Rank(edge, EmitKey(bs[i], id)) + 1 <= |edge|
  {
    var edge := LastEdges(bs, id);
    var n := ConsumeKey(bs[i], id);
    assert Joins(bs, id, i, n, EmitKey(bs[i], id));
    MapIsGraph(bs, id, n, EmitKey(bs[i], id));
    var k := ChainEnds(edge, [], n);
    assert edge.Keys - Elements([]) == edge.Keys;
    LeavesUnique(edge, n, k, Rank(edge, n));
    LeavesUnique(edge, edge[n], k - 1, Rank(edge, edge[n]));
  }
}
