/** The emit graph in resolved-key space (internal/config/config.go) and its cycle check. */
module EmitGraph {
  import opened Wrappers
  import opened Bindings

  type Edges = map<string, string>

  function ResolveKey(name: string, scope: string, instanceID: string): string {
    if scope == "shared" then name else instanceID + "." + name
  }

  function ScopeOrDefault(s: string): string {
    if s == "" then "instance" else s
  }

  function ConsumeKey(b: Binding, id: string): string { ResolveKey(b.stream, ScopeOrDefault(b.scope), id) }
  function EmitKey(b: Binding, id: string): string { ResolveKey(b.emit, "shared", id) }

  /** The key a consumer is started on (cmd/dasher/main.go) is the key the check reasons about. */
  lemma StartedOnConsumeKey(b: Binding, id: string)
    ensures ResolveKey(b.stream, b.scope, id) == ConsumeKey(b, id)
  {
  }

  predicate IsShared(b: Binding) { b.scope == "shared" }

  /** A shared stream has one key for all instances: its name. */
  lemma SharedKeyIsTheName(b: Binding, id: string, other: string)
    requires IsShared(b)
    ensures ConsumeKey(b, id) == ConsumeKey(b, other) == b.stream
  {
  }

  /** Any other stream has a key of its own in each instance, which begins with the instance's id and a dot. */
  lemma InstanceKeysDiffer(b: Binding, id: string, other: string)
    requires !IsShared(b)
    ensures var key := ConsumeKey(b, id);
            && |key| == |id| + 1 + |b.stream| && key[..|id|] == id && key[|id|] == '.' && key[|id| + 1..] == b.stream
    ensures ConsumeKey(b, id) == ConsumeKey(b, other) <==> id == other
  {
    var key, k := ConsumeKey(b, id), ConsumeKey(b, other);
    assert key[..|id|] == id && k[..|other|] == other;
    assert key[|id| + 1..] == b.stream;
  }

  /** An emit target is the raw stream name in every instance. */
  lemma EmitKeyIsTheName(b: Binding, id: string)
    ensures EmitKey(b, id) == b.emit
  {
  }

  /** The edge map: a later binding replaces the edge of an earlier one on the same key. */
  function LastEdges(bs: seq<Binding>, id: string): Edges {
    if bs == [] then map[] else
      var last := bs[|bs| - 1];
      var before := LastEdges(bs[..|bs| - 1], id);
      if last.emit == "" then before else before[ConsumeKey(last, id) := EmitKey(last, id)]
  }

  /** The key reached after k hops. */
  function Hop(edge: Edges, n: string, k: nat): Option<string>
    decreases k
  {
    if k == 0 then Some(n) else if n in edge then Hop(edge, edge[n], k - 1) else None
  }

  ghost predicate OnCycle(edge: Edges, n: string) {
    exists k: nat :: k > 0 && Hop(edge, n, k) == Some(n)
  }

  ghost predicate Cyclic(edge: Edges) {
    exists n :: OnCycle(edge, n)
  }

  /** After k hops the chain from n has come to a key without an outgoing edge. */
  predicate Leaves(edge: Edges, n: string, k: nat) {
    Hop(edge, n, k).Some? && Hop(edge, n, k).value !in edge
  }

  ghost predicate Ends(edge: Edges, n: string) {
    exists k: nat :: Leaves(edge, n, k)
  }

  lemma {:induction false} HopAdds(edge: Edges, n: string, j: nat, k: nat)
    requires Hop(edge, n, j).Some?
    ensures Hop(edge, n, j + k) == Hop(edge, Hop(edge, n, j).value, k)
    decreases j
  {
    if j > 0 { HopAdds(edge, edge[n], j - 1, k); }
  }

  /** A chain that ends is on no cycle. */
  lemma {:induction false} EndsOffCycle(edge: Edges, n: string, k: nat, p: nat)
    requires Leaves(edge, n, k) && p > 0
    ensures Hop(edge, n, p) != Some(n)
    decreases k
  {
    if Hop(edge, n, p) == Some(n) {
      if p <= k {
        HopAdds(edge, n, p, k - p);
        EndsOffCycle(edge, n, k - p, p);
      } else {
        HopAdds(edge, n, k, p - k);
      }
    }
  }

  /** A path along the edges. */
  ghost predicate IsPath(edge: Edges, path: seq<string>) {
    && (forall i :: 0 <= i < |path| ==> path[i] in edge)
    && (forall i, j :: 0 <= i && j == i + 1 && j < |path| ==> edge[path[i]] == path[j])
  }

  ghost predicate Continues(edge: Edges, path: seq<string>, n: string)
    requires IsPath(edge, path)
  {
    path != [] ==> edge[path[|path| - 1]] == n
  }

  lemma {:induction false} PathHops(edge: Edges, path: seq<string>, n: string, i: nat)
    requires IsPath(edge, path) && Continues(edge, path, n) && i < |path|
    ensures Hop(edge, path[i], |path| - i) == Some(n)
    decreases |path| - i
  {
    if i + 1 < |path| {
      PathHops(edge, path, n, i + 1);
    } else {
      assert Hop(edge, n, 0) == Some(n);
    }
  }

  lemma PathClosesCycle(edge: Edges, path: seq<string>, n: string)
    requires IsPath(edge, path) && Continues(edge, path, n) && n in path
    ensures OnCycle(edge, n)
  {
    var i :| 0 <= i < |path| && path[i] == n;
    PathHops(edge, path, n, i);
  }

  function Elements(path: seq<string>): set<string> {
    set n | n in path
  }

  lemma PathGrows(edge: Edges, path: seq<string>, n: string)
    requires IsPath(edge, path) && Continues(edge, path, n) && n in edge
    ensures IsPath(edge, path + [n]) && Continues(edge, path + [n], edge[n])
  {
    var grown := path + [n];
    forall i, j | 0 <= i && j == i + 1 && j < |grown| ensures edge[grown[i]] == grown[j] {
      assert j == |path| ==> grown[i] == path[|path| - 1];
    }
  }

  lemma ElementsSnoc(path: seq<string>, n: string)
    ensures Elements(path + [n]) == Elements(path) + {n}
  {
    assert forall m :: m in path + [n] <==> m in path || m == n;
  }

  /** The keys not on the stack. */
  function Left(edge: Edges, path: seq<string>): set<string> {
    edge.Keys - Elements(path)
  }

  lemma LeftShrinks(edge: Edges, path: seq<string>, n: string)
    requires n in edge && n !in path
    ensures Left(edge, path + [n]) < Left(edge, path)
    ensures |Left(edge, path + [n])| < |Left(edge, path)|
  {
    ElementsSnoc(path, n);
    assert Left(edge, path) == Left(edge, path + [n]) + {n};
  }

  /** Without cycles, every chain ends within as many hops as there are edges. */
  lemma {:induction false} ChainEnds(edge: Edges, path: seq<string>, n: string) returns (k: nat)
    requires !Cyclic(edge)
    requires IsPath(edge, path) && Continues(edge, path, n)
    ensures Leaves(edge, n, k) && k <= |Left(edge, path)|
    decreases Left(edge, path)
  {
    if n in path { PathClosesCycle(edge, path, n); }
    if n !in edge { return 0; }
    PathGrows(edge, path, n);
    LeftShrinks(edge, path, n);
    k := ChainEnds(edge, path + [n], edge[n]);
    k := k + 1;
  }

  datatype Colour = Visiting | Visited

  type Colours = map<string, Colour>

  predicate Done(state: Colours, n: string) { n in state && state[n] == Visited }

  /** `path` is the stack of calls under way: exactly the keys being visited. The chains of visited keys end. */
  ghost predicate Coloured(edge: Edges, state: Colours, path: seq<string>) {
    && IsPath(edge, path)
    && (forall n :: n in state && state[n] == Visiting <==> n in path)
    && (forall n :: Done(state, n) ==> Ends(edge, n))
  }

  ghost predicate DoneStays(before: Colours, after: Colours) {
    forall n :: Done(before, n) ==> Done(after, n)
  }

  lemma Enter(edge: Edges, state: Colours, path: seq<string>, n: string)
    requires Coloured(edge, state, path) && Continues(edge, path, n) && n !in state && n in edge
    ensures Coloured(edge, state[n := Visiting], path + [n]) && Continues(edge, path + [n], edge[n])
    ensures DoneStays(state, state[n := Visiting])
  {
    PathGrows(edge, path, n);
    assert forall m :: m in path + [n] <==> m in path || m == n;
    assert forall m :: Done(state[n := Visiting], m) ==> Done(state, m);
  }

  lemma Leave(edge: Edges, state: Colours, path: seq<string>, n: string)
    requires Coloured(edge, state, path + [n]) && IsPath(edge, path) && n in edge && n !in path && Ends(edge, edge[n])
    ensures Coloured(edge, state[n := Visited], path) && DoneStays(state, state[n := Visited])
  {
    var k: nat :| Leaves(edge, edge[n], k);
    assert Leaves(edge, n, k + 1);
    assert forall m :: m in path + [n] <==> m in path || m == n;
    assert forall m :: Done(state[n := Visited], m) ==> m == n || Done(state, m);
  }

  lemma LeaveTerminal(edge: Edges, state: Colours, path: seq<string>, n: string)
    requires Coloured(edge, state, path) && n !in edge && n !in state
    ensures var after := state[n := Visiting][n := Visited];
            Coloured(edge, after, path) && DoneStays(state, after)
  {
    assert Leaves(edge, n, 0);
    assert forall m :: Done(state[n := Visiting][n := Visited], m) ==> m == n || Done(state, m);
  }

  /** The depth-first walk and its colours; a key without a colour is unvisited. */
  class Walk {
    const edge: Edges
    var state: Colours

    constructor (edge: Edges)
      ensures this.edge == edge && state == map[]
    {
      this.edge, state := edge, map[];
    }

    method Visit(n: string, ghost path: seq<string>) returns (err: Option<string>)
      requires Coloured(edge, state, path) && Continues(edge, path, n)
      modifies this
      ensures err.Some? ==> OnCycle(edge, err.value)
      ensures err.None? ==> Coloured(edge, state, path) && Done(state, n) && DoneStays(old(state), state)
      decreases Left(edge, path)
    {
      if n in state && state[n] == Visiting {
        PathClosesCycle(edge, path, n);
        return Some(n);
      }
      if n in state && state[n] == Visited { return None; }
      ghost var before := state;
      state := state[n := Visiting];
      if n in edge {
        Enter(edge, before, path, n);
        LeftShrinks(edge, path, n);
        err := Visit(edge[n], path + [n]);
        if err.Some? { return; }
        Leave(edge, state, path, n);
      } else {
        LeaveTerminal(edge, before, path, n);
      }
      state := state[n := Visited];
      err := None;
    }
  }

  lemma EdgesSnoc(bs: seq<Binding>, id: string, i: nat)
    requires i < |bs|
    ensures LastEdges(bs[..i + 1], id) ==
            if bs[i].emit == "" then LastEdges(bs[..i], id)
            else LastEdges(bs[..i], id)[ConsumeKey(bs[i], id) := EmitKey(bs[i], id)]
  {
    assert bs[..i + 1][..i] == bs[..i];
  }

  /** detectEmitCycles: an error names a key on a cycle, and no error means there is no cycle. */
  method DetectEmitCycles(bs: seq<Binding>, id: string) returns (err: Option<string>)
    ensures err.Some? ==> OnCycle(LastEdges(bs, id), err.value)
    ensures err.None? <==> !Cyclic(LastEdges(bs, id))
  {
    var emitEdge: Edges, i := map[], 0;
    while i < |bs|
      invariant 0 <= i <= |bs| && emitEdge == LastEdges(bs[..i], id)
    {
      EdgesSnoc(bs, id, i);
      if bs[i].emit != "" {
        emitEdge := emitEdge[ConsumeKey(bs[i], id) := EmitKey(bs[i], id)];
      }
      i := i + 1;
    }
    assert bs[..i] == bs;
    var walk := new Walk(emitEdge);
    i := 0;
    while i < |bs|
      invariant 0 <= i <= |bs| && walk.edge == emitEdge && Coloured(emitEdge, walk.state, [])
      invariant forall j :: 0 <= j < i ==> Done(walk.state, ConsumeKey(bs[j], id))
    {
      var consumeKey := ConsumeKey(bs[i], id);
      if consumeKey !in walk.state {
        err := walk.Visit(consumeKey, []);
        if err.Some? { return; }
      } else {
        assert walk.state[consumeKey] != Visiting;
      }
      i := i + 1;
    }
    err := None;
    AllEnd(bs, id);
  }

  /** Every key with an edge is some emitting binding's consume key. */
  lemma {:induction false} EdgesAreConsumed(bs: seq<Binding>, id: string, n: string)
    requires n in LastEdges(bs, id)
    ensures exists j ::
              && 0 <= j < |bs| && bs[j].emit != "" && ConsumeKey(bs[j], id) == n
              && EmitKey(bs[j], id) == LastEdges(bs, id)[n]
  {
    var m := |bs| - 1;
    if bs[m].emit != "" && ConsumeKey(bs[m], id) == n {
      assert bs[m].emit != "" && ConsumeKey(bs[m], id) == n;
    } else {
      EdgesAreConsumed(bs[..m], id, n);
      var j :| 0 <= j < m && bs[..m][j].emit != "" && ConsumeKey(bs[..m][j], id) == n &&
        EmitKey(bs[..m][j], id) == LastEdges(bs[..m], id)[n];
      assert bs[j] == bs[..m][j];
    }
  }

  lemma AllEnd(bs: seq<Binding>, id: string)
    ensures (forall j :: 0 <= j < |bs| ==> Ends(LastEdges(bs, id), ConsumeKey(bs[j], id))) ==>
            !Cyclic(LastEdges(bs, id))
  {
    var edge := LastEdges(bs, id);
    if (forall j :: 0 <= j < |bs| ==> Ends(edge, ConsumeKey(bs[j], id))) && Cyclic(edge) {
      var n :| OnCycle(edge, n);
      var p: nat :| p > 0 && Hop(edge, n, p) == Some(n);
      EdgesAreConsumed(bs, id, n);
      var j :| 0 <= j < |bs| && ConsumeKey(bs[j], id) == n;
      var k: nat :| Leaves(edge, n, k);
      EndsOffCycle(edge, n, k, p);
    }
  }
}
