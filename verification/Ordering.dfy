/**
 One consumer name, fail loud: however often it crashes and restarts, entries are handled and
 acknowledged in stream order, an interrupted entry being handled again before the next.
 */
module Ordering {
  import opened Wrappers
  import opened PendingList
  import opened OwnEntries
  import opened Pipeline
  import opened Protocol

  /** The call log without immediate repeats. */
  function Collapse(calls: seq<Id>): (r: seq<Id>)
    ensures calls != [] ==> r != [] && r[|r| - 1] == calls[|calls| - 1]
  {
    if calls == [] then [] else
      var r := Collapse(calls[..|calls| - 1]);
      var last := calls[|calls| - 1];
      if r != [] && r[|r| - 1] == last then r else r + [last]
  }

  predicate SoloStep(step: Step, me: Name) {
    match step
    case Append(_) => true
    case Tick(_) => true
    case Start(c) => c == me
    case Crash(c) => c == me
    case Main(c, _) => c == me
    case Side(c, _) => c == me
  }

  /**
   A local batch is the stretch of the stream that starts at `from`; XREADGROUP follows it only if it reaches the
   cursor.
   */
  predicate Stretch(batch: seq<Id>, after: After, from: Id, cursor: Id) {
    && (forall i :: 0 <= i < |batch| ==> batch[i] == from + i)
    && from + |batch| <= cursor
    && (after.Read? ==> from + |batch| == cursor)
  }

  /** The handler has been called on everything below `lo`, and perhaps on `lo` itself. */
  predicate Called(calls: seq<Id>, lo: Id, inHand: bool) {
    Collapse(calls) == Range(0, if inHand then lo + 1 else lo)
  }

  /** What the main loop may be doing when `lo` is the first entry not yet acknowledged. */
  predicate PhaseInOrder(g: Group, p: Phase, lo: Id) {
    match p
    case Top => true
    case SelfListed(ids, full) => Stretch(ids, if full then Again else Read, lo, g.cursor)
    case Reading => lo == g.cursor
    case Working(batch, after) => Stretch(batch, after, lo, g.cursor)
    case Calling(id, _, _, rest, after) => id == lo < g.cursor && Stretch(rest, after, lo + 1, g.cursor) &&
      Called(g.calls, lo, true)
    case Backoff(id, rest, after) => id == lo < g.cursor && Stretch(rest, after, lo + 1, g.cursor) &&
      Called(g.calls, lo, true)
    case Acking(id, rest, after) =>
      && id < g.cursor && Stretch(rest, after, id + 1, g.cursor)
      && (if id == lo then Called(g.calls, lo, true) else id + 1 == lo)
  }

  /** `lo` splits the delivered entries: below it all acknowledged, from it on all pending for `me`. */
  ghost predicate InOrder(g: Group, me: Name, lo: Id) {
    && lo <= g.cursor <= |g.log|
    && (forall id :: id in g.pel <==> lo <= id < g.cursor)
    && (forall id :: id in g.pel ==> g.pel[id].owner == me && g.pel[id].since <= g.now)
    && g.acked == Span(0, lo)
    && (Called(g.calls, lo, false) || (lo < g.cursor && Called(g.calls, lo, true)))
  }

  ghost predicate StateInOrder(s: State, me: Name, lo: Id) {
    && InOrder(s.g, me, lo)
    && s.nodes.Keys <= {me}
    && (me in s.nodes ==>
          && PhaseInOrder(s.g, s.nodes[me].phase, lo)
          && (s.nodes[me].scan.ScanListed? ==> s.nodes[me].scan.ids == []))
  }

  /** A page, as XPENDING promises it, of a pending list that is the whole interval [lo, end). */
  lemma {:induction false} PageIsStretch(ids: seq<Id>, lo: Id, end: Id, count: nat, i: nat)
    requires |ids| <= count && i <= |ids|
    requires forall j :: 0 <= j < |ids| ==> lo <= ids[j] < end
    requires forall j, k :: 0 <= j < k < |ids| ==> ids[j] < ids[k]
    requires forall id: Id :: lo <= id < end && id !in ids ==>
               |ids| == count && forall j :: 0 <= j < |ids| ==> ids[j] < id
    ensures forall j :: 0 <= j < i ==> ids[j] == lo + j
    ensures i == |ids| && lo <= end ==> lo + |ids| <= end && (|ids| < count ==> lo + |ids| == end)
  {
    if i > 0 {
      PageIsStretch(ids, lo, end, count, i - 1);
      var id := lo + i - 1;
      if i > 1 { assert ids[i - 2] < ids[i - 1]; }
      assert id <= ids[i - 1];
      assert id < ids[i - 1] ==> id !in ids;
    }
    if i == |ids| && lo + i < end {
      assert lo + i !in ids;
    }
  }

  lemma {:induction false} ForeignNone(pel: Pel, ids: seq<Id>, me: Name)
    requires forall id :: id in pel ==> pel[id].owner == me
    ensures Foreign(pel, ids, me) == []
  {
    if ids != [] { ForeignNone(pel, ids[1..], me); }
  }

  lemma CollapseSnoc(calls: seq<Id>, id: Id)
    ensures Collapse(calls + [id]) == var r := Collapse(calls); if r != [] && r[|r| - 1] == id then r else r + [id]
  {
    InitSnoc(calls, id);
  }

  ghost predicate MoveInOrder(move: Move, me: Name, lo: Id) {
    InOrder(move.g, me, lo) && (move.phase.Some? ==> PhaseInOrder(move.g, move.phase.value, lo))
  }

  lemma ListInOrder(cfg: Setup, g: Group, me: Name, p: Phase, lo: Id)
    requires cfg.count > 0 && InOrder(g, me, lo) && p.Top?
    ensures MoveInOrder(MainMove(cfg, g, me, p, ListOwn), me, lo)
  {
    var ids := OwnPage(cfg, g, me);
    PageIsStretch(ids, lo, g.cursor, cfg.count, |ids|);
  }

  lemma FetchInOrder(cfg: Setup, g: Group, me: Name, p: Phase, m: MainStep, lo: Id)
    requires cfg.count > 0 && InOrder(g, me, lo) && PhaseInOrder(g, p, lo) && MainEnabled(g, p, m)
    requires m.ClaimOwn? || m.ReadNew? || m.Leave?
    ensures MoveInOrder(MainMove(cfg, g, me, p, m), me, lo)
  {
    if m.ClaimOwn? {
      ClaimedAll(g.pel, p.ids, g.now);
    }
  }

  lemma CallExtends(calls: seq<Id>, lo: Id)
    requires Called(calls, lo, false) || Called(calls, lo, true)
    ensures Called(calls + [lo], lo, true)
  {
    CollapseSnoc(calls, lo);
    assert Range(0, lo + 1) == Range(0, lo) + [lo];
  }

  lemma CallInOrder(cfg: Setup, g: Group, me: Name, p: Phase, m: MainStep, lo: Id)
    requires cfg.failLoud && InOrder(g, me, lo) && PhaseInOrder(g, p, lo) && MainEnabled(g, p, m)
    requires m.Process? || m.Retry?
    ensures MoveInOrder(MainMove(cfg, g, me, p, m), me, lo)
  {
    CallExtends(g.calls, lo);
    if m.Process? {
      assert p.batch[0] == lo;
      assert Stretch(p.batch[1..], p.after, lo + 1, g.cursor);
    }
  }

  lemma ReturnInOrder(cfg: Setup, g: Group, me: Name, p: Phase, m: MainStep, lo: Id)
    requires cfg.failLoud && InOrder(g, me, lo) && PhaseInOrder(g, p, lo) && MainEnabled(g, p, m)
    requires m.Act? || m.Return?
    ensures MoveInOrder(MainMove(cfg, g, me, p, m), me, lo)
  {
  }

  lemma AckInOrder(cfg: Setup, g: Group, me: Name, p: Phase, m: MainStep, lo: Id)
    requires InOrder(g, me, lo) && PhaseInOrder(g, p, lo) && MainEnabled(g, p, m)
    requires m.AckOk? || m.AckReplyLost?
    ensures MoveInOrder(MainMove(cfg, g, me, p, m), me, p.id + 1)
  {
    assert Span(0, p.id + 1) == Span(0, lo) + {p.id};
  }

  /** The background loops of the only consumer find nothing to steal and nobody to collect. */
  lemma SideInOrder(cfg: Setup, g: Group, me: Name, n: Node, b: SideStep, lo: Id)
    requires InOrder(g, me, lo) && SideEnabled(g, n, b) && (n.scan.ScanListed? ==> n.scan.ids == [])
    ensures var pel := SidePel(cfg, g, me, n, b);
            pel.Keys == g.pel.Keys && forall id :: id in pel ==> pel[id].owner == me && pel[id].since <= g.now
    ensures var t := SideNode(cfg, g, me, n, b); t.phase == n.phase && (t.scan.ScanListed? ==> t.scan.ids == [])
  {
    if b.ScanList? {
      ForeignNone(g.pel, IdlePage(cfg, g, n.scan.from), me);
    }
  }

  lemma MainInOrder(cfg: Setup, g: Group, me: Name, p: Phase, m: MainStep, lo: Id) returns (lo': Id)
    requires cfg.failLoud && cfg.count > 0
    requires InOrder(g, me, lo) && PhaseInOrder(g, p, lo) && MainEnabled(g, p, m)
    ensures MoveInOrder(MainMove(cfg, g, me, p, m), me, lo')
  {
    lo' := lo;
    match m {
      case ListOwn => ListInOrder(cfg, g, me, p, lo);
      case Process(_) => CallInOrder(cfg, g, me, p, m, lo);
      case Retry(_) => CallInOrder(cfg, g, me, p, m, lo);
      case Act => ReturnInOrder(cfg, g, me, p, m, lo);
      case Return => ReturnInOrder(cfg, g, me, p, m, lo);
      case AckOk => AckInOrder(cfg, g, me, p, m, lo); lo' := p.id + 1;
      case AckReplyLost => AckInOrder(cfg, g, me, p, m, lo); lo' := p.id + 1;
      case _ => FetchInOrder(cfg, g, me, p, m, lo);
    }
  }

  lemma EnvironmentInOrder(cfg: Setup, s: State, me: Name, step: Step, lo: Id)
    requires StateInOrder(s, me, lo) && Enabled(s, step) && SoloStep(step, me) && !step.Main?
    ensures StateInOrder(Apply(cfg, s, step), me, lo)
  {
    if step.Side? { SideInOrder(cfg, s.g, me, s.nodes[me], step.b, lo); }
  }

  lemma StepInOrder(cfg: Setup, s: State, me: Name, step: Step, lo: Id) returns (lo': Id)
    requires cfg.failLoud && cfg.count > 0
    requires StateInOrder(s, me, lo) && Enabled(s, step) && SoloStep(step, me)
    ensures StateInOrder(Apply(cfg, s, step), me, lo')
  {
    if step.Main? {
      lo' := MainInOrder(cfg, s.g, me, s.nodes[me].phase, step.m, lo);
    } else {
      EnvironmentInOrder(cfg, s, me, step, lo);
      lo' := lo;
    }
  }

  /**
   In every run of one consumer name, whatever it crashes on, the delivered entries split into acknowledged then
   pending.
   */
  lemma {:induction false} RunsInOrder(cfg: Setup, me: Name, steps: seq<Step>) returns (lo: Id)
    requires cfg.failLoud && cfg.count > 0
    requires Run(cfg, INIT, steps).Some? && forall i :: 0 <= i < |steps| ==> SoloStep(steps[i], me)
    ensures StateInOrder(Run(cfg, INIT, steps).value, me, lo)
  {
    if steps == [] {
      lo := 0;
      assert Span(0, 0) == {};
    } else {
      var before := steps[..|steps| - 1];
      lo := RunsInOrder(cfg, me, before);
      lo := StepInOrder(cfg, Run(cfg, INIT, before).value, me, steps[|steps| - 1], lo);
    }
  }

  /**
   In-order delivery with stuttering. The acknowledged entries are a prefix of the stream, the
   handler is called in stream order up to repeats of the entry in hand, and XREADGROUP is only
   sent with an empty own PEL.
   */
  lemma InOrderDelivery(cfg: Setup, me: Name, steps: seq<Step>)
    requires cfg.failLoud && cfg.count > 0
    requires Run(cfg, INIT, steps).Some? && forall i :: 0 <= i < |steps| ==> SoloStep(steps[i], me)
    ensures var s := Run(cfg, INIT, steps).value;
            && (exists lo: Id :: lo <= s.g.cursor && s.g.acked == Span(0, lo))
            && (exists called: Id :: called <= s.g.cursor && Collapse(s.g.calls) == Range(0, called))
            && (me in s.nodes && s.nodes[me].phase.Reading? ==> Owned(s.g.pel, me) == {})
  {
    var lo := RunsInOrder(cfg, me, steps);
    var s := Run(cfg, INIT, steps).value;
    var called := if Called(s.g.calls, lo, false) then lo else lo + 1;
    assert called <= s.g.cursor && Collapse(s.g.calls) == Range(0, called);
  }
}
