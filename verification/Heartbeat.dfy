/** When the heartbeat keeps an in-flight entry from being stolen, and exactly when it does not. */
module Heartbeat {
  import opened Wrappers
  import opened PendingList
  import opened Protocol
  import opened Conservation
  import opened Takeovers

  /** Time only passes while c's ticker is on time: no tick is overdue, and none is half done. */
  predicate Punctual(s: State, c: Name, step: Step) {
    step.Tick? && c in s.nodes ==> s.nodes[c].beat.None? && s.g.now + step.d <= s.nodes[c].tickBy
  }

  ghost predicate PunctualRun(cfg: Setup, s: State, c: Name, steps: seq<Step>) {
    && Run(cfg, s, steps).Some?
    && (steps != [] ==>
          && PunctualRun(cfg, s, c, steps[..|steps| - 1])
          && Punctual(Run(cfg, s, steps[..|steps| - 1]).value, c, steps[|steps| - 1]))
  }

  /** c's ticker: the next tick is at most one interval away, and a loaded beat was loaded just now. */
  predicate OnTime(cfg: Setup, g: Group, n: Node) {
    && g.now <= n.tickBy <= g.now + cfg.beatEvery
    && (n.beat.Some? ==> n.tickBy == g.now + cfg.beatEvery)
  }

  predicate Carries(s: State, c: Name, e: Id) {
    c in s.nodes && InFlight(s.nodes[c].phase) == Some(e)
  }

  /** A punctual run through which c keeps e in flight and loses at most `lost` heartbeats in a row. */
  ghost predicate Flight(cfg: Setup, s: State, c: Name, e: Id, lost: nat, steps: seq<Step>) {
    && Run(cfg, s, steps).Some?
    && var t := Run(cfg, s, steps).value;
    && Carries(t, c, e) && t.nodes[c].misses <= lost
    && (steps != [] ==>
          && Flight(cfg, s, c, e, lost, steps[..|steps| - 1])
          && Punctual(Run(cfg, s, steps[..|steps| - 1]).value, c, steps[|steps| - 1]))
  }

  /** How long e has been idle; an entry no longer pending counts as just claimed. */
  function Idle(g: Group, e: Id): Time {
    if e in g.pel then g.now - g.pel[e].since else 0
  }

  /** e has just been published in flight by c, with the given idle time. */
  predicate Published(cfg: Setup, s: State, c: Name, e: Id, idle: Time) {
    && Carries(s, c, e) && s.nodes[c].misses == 0 && OnTime(cfg, s.g, s.nodes[c])
    && e < s.g.cursor && 0 <= Idle(s.g, e) == idle
  }

  /** The invariant: what e's idle time can be at the latest when the pending tick comes. */
  predicate Covered(cfg: Setup, s: State, c: Name, e: Id, idle: Time) {
    && Carries(s, c, e) && OnTime(cfg, s.g, s.nodes[c]) && e < s.g.cursor && 0 <= idle && 0 <= Idle(s.g, e)
    && var n := s.nodes[c];
    var reach := idle + (1 + n.misses) * cfg.beatEvery;
    if n.beat == Some(e) then Idle(s.g, e) <= reach
    else Idle(s.g, e) + (n.tickBy - s.g.now) <= reach
  }

  /** Steps of any other process, the clock and the stream. */
  lemma OthersKeepCovered(cfg: Setup, s: State, c: Name, e: Id, idle: Time, step: Step)
    requires cfg.beatEvery >= 0 && Covered(cfg, s, c, e, idle) && Enabled(s, step) && Punctual(s, c, step)
    requires Actor(step) != Some(c)
    ensures Covered(cfg, Apply(cfg, s, step), c, e, idle)
  {
  }

  lemma OwnKeepCovered(cfg: Setup, s: State, c: Name, e: Id, idle: Time, step: Step)
    requires cfg.beatEvery >= 0 && Covered(cfg, s, c, e, idle) && Enabled(s, step)
    requires Actor(step) == Some(c) && Carries(Apply(cfg, s, step), c, e)
    ensures Covered(cfg, Apply(cfg, s, step), c, e, idle)
  {
  }

  lemma {:induction false} FlightCovered(cfg: Setup, s: State, c: Name, e: Id, idle: Time, lost: nat, steps: seq<Step>)
    requires cfg.beatEvery >= 0 && Covered(cfg, s, c, e, idle) && Flight(cfg, s, c, e, lost, steps)
    ensures Covered(cfg, Run(cfg, s, steps).value, c, e, idle)
  {
    if steps != [] {
      var before, last := steps[..|steps| - 1], steps[|steps| - 1];
      FlightCovered(cfg, s, c, e, idle, lost, before);
      var t := Run(cfg, s, before).value;
      if Actor(last) == Some(c) {
        OwnKeepCovered(cfg, t, c, e, idle, last);
      } else {
        OthersKeepCovered(cfg, t, c, e, idle, last);
      }
    }
  }

  lemma CoveredNotClaimable(cfg: Setup, s: State, c: Name, e: Id, idle: Time, lost: nat)
    requires cfg.beatEvery >= 0 && Covered(cfg, s, c, e, idle) && s.nodes[c].misses <= lost
    requires idle + (1 + lost) * cfg.beatEvery < cfg.minIdle
    ensures !Claimable(s.g.pel, e, cfg.minIdle, s.g.now)
  {
    var misses := s.nodes[c].misses;
    assert (1 + misses) * cfg.beatEvery <= (1 + lost) * cfg.beatEvery;
  }

  /** How much idle time the entry starts with, seen from one interval before the next tick. */
  function Head(cfg: Setup, s: State, c: Name, idle: Time): Time
    requires c in s.nodes
  {
    var head := idle + (s.nodes[c].tickBy - s.g.now) - cfg.beatEvery;
    if head > 0 then head else 0
  }

  lemma PublishedCovered(cfg: Setup, s: State, c: Name, e: Id, idle: Time)
    requires cfg.beatEvery >= 0 && Published(cfg, s, c, e, idle)
    ensures Covered(cfg, s, c, e, Head(cfg, s, c, idle)) && Head(cfg, s, c, idle) <= idle
  {
  }

  /**
   The heartbeat's guarantee: an entry published with some idle time stays out of every peer's reach
   for as long as it is in flight, provided that what that idle time has grown to at the next tick,
   plus one interval per tolerated loss, is below reclaimMinIdle, and one interval per tolerated loss
   plus one is too. Handler time, retries and ack retries do not matter.
   */
  lemma NeverClaimable(cfg: Setup, s: State, c: Name, e: Id, idle: Time, lost: nat, steps: seq<Step>)
    requires cfg.beatEvery >= 0 && Published(cfg, s, c, e, idle) && Flight(cfg, s, c, e, lost, steps)
    requires Head(cfg, s, c, idle) + (1 + lost) * cfg.beatEvery < cfg.minIdle
    ensures var t := Run(cfg, s, steps).value; !Claimable(t.g.pel, e, cfg.minIdle, t.g.now)
  {
    PublishedCovered(cfg, s, c, e, idle);
    FlightCovered(cfg, s, c, e, Head(cfg, s, c, idle), lost, steps);
    CoveredNotClaimable(cfg, Run(cfg, s, steps).value, c, e, Head(cfg, s, c, idle), lost);
  }

  /** s, just after a tick, and k whole intervals later, every heartbeat since having been lost. */
  function AfterLosses(s: State, c: Name, every: Time, k: nat): State
    requires c in s.nodes && every >= 0
  {
    var now := s.g.now + k * every;
    State(s.g.(now := now), s.nodes[c := s.nodes[c].(misses := s.nodes[c].misses + k, tickBy := now + every)])
  }

  lemma FlightSnoc(cfg: Setup, s: State, c: Name, e: Id, lost: nat, steps: seq<Step>, t: State, step: Step, next: State)
    requires Flight(cfg, s, c, e, lost, steps) && Run(cfg, s, steps) == Some(t)
    requires Enabled(t, step) && Punctual(t, c, step) && Apply(cfg, t, step) == next
    requires Carries(next, c, e) && next.nodes[c].misses <= lost
    ensures Flight(cfg, s, c, e, lost, steps + [step]) && Run(cfg, s, steps + [step]) == Some(next)
  {
    assert (steps + [step])[..|steps|] == steps;
  }

  function Loaded(cfg: Setup, t: State, c: Name, e: Id): State
    requires c in t.nodes
  {
    t.(nodes := t.nodes[c := t.nodes[c].(beat := Some(e), tickBy := t.g.now + cfg.beatEvery)])
  }

  function BeatLost(cfg: Setup, t: State, c: Name): State
    requires c in t.nodes
  {
    t.(nodes := t.nodes[c := t.nodes[c].(tickBy := t.g.now + cfg.beatEvery, misses := t.nodes[c].misses + 1)])
  }

  function BeatGood(cfg: Setup, t: State, c: Name, e: Id): State
    requires c in t.nodes
  {
    State(t.g.(pel := Claim(t.g.pel, [e], c, 0, t.g.now)),
          t.nodes[c := t.nodes[c].(tickBy := t.g.now + cfg.beatEvery, misses := 0)])
  }

  lemma BeatLoads(cfg: Setup, t: State, c: Name, e: Id)
    requires Carries(t, c, e) && t.nodes[c].beat.None?
    ensures Enabled(t, Side(c, BeatLoad)) && Apply(cfg, t, Side(c, BeatLoad)) == Loaded(cfg, t, c, e)
  {
    assert t.g.steals + [] == t.g.steals;
  }

  lemma SetTwice(nodes: map<Name, Node>, c: Name, m: Node, n: Node)
    ensures nodes[c := m][c := n] == nodes[c := n]
  {
  }

  lemma BeatFails(cfg: Setup, t: State, c: Name, e: Id)
    requires Carries(t, c, e) && t.nodes[c].beat.None?
    ensures var u := Loaded(cfg, t, c, e);
            && Enabled(u, Side(c, BeatFail))
            && Apply(cfg, u, Side(c, BeatFail)) == BeatLost(cfg, t, c)
  {
    assert t.g.steals + [] == t.g.steals;
    SetTwice(t.nodes, c, Loaded(cfg, t, c, e).nodes[c], BeatLost(cfg, t, c).nodes[c]);
  }

  lemma BeatClaims(cfg: Setup, t: State, c: Name, e: Id)
    requires Carries(t, c, e) && t.nodes[c].beat.None?
    ensures var u := Loaded(cfg, t, c, e);
            && Enabled(u, Side(c, BeatClaim))
            && Apply(cfg, u, Side(c, BeatClaim)) == BeatGood(cfg, t, c, e)
  {
    assert t.g.steals + [] == t.g.steals;
    SetTwice(t.nodes, c, Loaded(cfg, t, c, e).nodes[c], BeatGood(cfg, t, c, e).nodes[c]);
  }

  /** A tick loads the entry in flight, and its claim fails. */
  lemma BeatIsLost(cfg: Setup, s: State, c: Name, e: Id, lost: nat, steps: seq<Step>, t: State)
    returns (longer: seq<Step>)
    requires Flight(cfg, s, c, e, lost, steps) && Run(cfg, s, steps) == Some(t)
    requires t.nodes[c].beat.None? && t.nodes[c].misses < lost
    ensures Flight(cfg, s, c, e, lost, longer) && Run(cfg, s, longer) == Some(BeatLost(cfg, t, c))
  {
    var loaded := Loaded(cfg, t, c, e);
    BeatLoads(cfg, t, c, e);
    BeatFails(cfg, t, c, e);
    FlightSnoc(cfg, s, c, e, lost, steps, t, Side(c, BeatLoad), loaded);
    longer := steps + [Side(c, BeatLoad)];
    FlightSnoc(cfg, s, c, e, lost, longer, loaded, Side(c, BeatFail), BeatLost(cfg, t, c));
    longer := longer + [Side(c, BeatFail)];
  }

  /** A tick loads the entry in flight, and its claim succeeds. */
  lemma BeatSucceeds(cfg: Setup, s: State, c: Name, e: Id, lost: nat, steps: seq<Step>, t: State)
    returns (longer: seq<Step>)
    requires Flight(cfg, s, c, e, lost, steps) && Run(cfg, s, steps) == Some(t) && t.nodes[c].beat.None?
    ensures Flight(cfg, s, c, e, lost, longer) && Run(cfg, s, longer) == Some(BeatGood(cfg, t, c, e))
  {
    var loaded := Loaded(cfg, t, c, e);
    BeatLoads(cfg, t, c, e);
    BeatClaims(cfg, t, c, e);
    FlightSnoc(cfg, s, c, e, lost, steps, t, Side(c, BeatLoad), loaded);
    longer := steps + [Side(c, BeatLoad)];
    FlightSnoc(cfg, s, c, e, lost, longer, loaded, Side(c, BeatClaim), BeatGood(cfg, t, c, e));
    longer := longer + [Side(c, BeatClaim)];
  }

  function Waited(t: State, d: nat): State {
    t.(g := t.g.(now := t.g.now + d))
  }

  /** Time may pass in flight up to the next tick. */
  lemma TimePasses(cfg: Setup, s: State, c: Name, e: Id, lost: nat, steps: seq<Step>, t: State, d: nat)
    requires Flight(cfg, s, c, e, lost, steps) && Run(cfg, s, steps) == Some(t)
    requires t.nodes[c].beat.None? && t.g.now + d <= t.nodes[c].tickBy
    ensures Flight(cfg, s, c, e, lost, steps + [Tick(d)]) && Run(cfg, s, steps + [Tick(d)]) == Some(Waited(t, d))
  {
    FlightSnoc(cfg, s, c, e, lost, steps, t, Tick(d), Waited(t, d));
  }

  lemma OneMoreInterval(every: Time, k: nat)
    ensures (k + 1) * every == k * every + every
  {
  }

  /** One interval and one lost beat more. */
  lemma LossesAdd(cfg: Setup, s: State, c: Name, k: nat)
    requires cfg.beatEvery >= 0 && c in s.nodes
    ensures BeatLost(cfg, Waited(AfterLosses(s, c, cfg.beatEvery, k), cfg.beatEvery), c) ==
            AfterLosses(s, c, cfg.beatEvery, k + 1)
  {
    OneMoreInterval(cfg.beatEvery, k);
    var t := AfterLosses(s, c, cfg.beatEvery, k);
    SetTwice(s.nodes, c, t.nodes[c], AfterLosses(s, c, cfg.beatEvery, k + 1).nodes[c]);
  }

  /** t, just after a tick, can be followed by k intervals of lost heartbeats, and one more interval. */
  lemma {:induction false} LossesFly(cfg: Setup, s: State, c: Name, e: Id, lost: nat, begun: seq<Step>, t: State,
      k: nat)
    returns (steps: seq<Step>)
    requires cfg.beatEvery >= 0 && Flight(cfg, s, c, e, lost, begun) && Run(cfg, s, begun) == Some(t)
    requires t.nodes[c].misses + k <= lost && t.nodes[c].beat.None? && t.nodes[c].tickBy == t.g.now + cfg.beatEvery
    ensures Flight(cfg, s, c, e, lost, steps) && Run(cfg, s, steps) == Some(AfterLosses(t, c, cfg.beatEvery, k))
  {
    if k == 0 {
      steps := begun;
      assert AfterLosses(t, c, cfg.beatEvery, 0).nodes == t.nodes;
    } else {
      steps := LossesFly(cfg, s, c, e, lost, begun, t, k - 1);
      var u := AfterLosses(t, c, cfg.beatEvery, k - 1);
      TimePasses(cfg, s, c, e, lost, steps, u, cfg.beatEvery);
      LossesAdd(cfg, t, c, k - 1);
      steps := BeatIsLost(cfg, s, c, e, lost, steps + [Tick(cfg.beatEvery)], Waited(u, cfg.beatEvery));
    }
  }

  ghost predicate ReachableBy(cfg: Setup, s: State, e: Id, steps: seq<Step>) {
    Run(cfg, s, steps).Some? && var t := Run(cfg, s, steps).value; Claimable(t.g.pel, e, cfg.minIdle, t.g.now)
  }

  /** Some punctual flight with at most `lost` lost heartbeats in a row ends with e in a peer's reach. */
  ghost predicate Exposed(cfg: Setup, s: State, c: Name, e: Id, lost: nat) {
    exists steps :: Flight(cfg, s, c, e, lost, steps) && ReachableBy(cfg, s, e, steps)
  }

  /** From just after a tick: idle as it is there, all tolerated losses, and the interval after the last. */
  lemma ExposedAfterTick(cfg: Setup, s: State, c: Name, e: Id, lost: nat, begun: seq<Step>, t: State)
    requires cfg.beatEvery >= 0 && Flight(cfg, s, c, e, lost, begun) && Run(cfg, s, begun) == Some(t)
    requires t.nodes[c].beat.None? && t.nodes[c].tickBy == t.g.now + cfg.beatEvery && e in t.g.pel
    requires Idle(t.g, e) + (1 + lost - t.nodes[c].misses) * cfg.beatEvery >= cfg.minIdle
    ensures Exposed(cfg, s, c, e, lost)
  {
    var k := lost - t.nodes[c].misses;
    var steps := LossesFly(cfg, s, c, e, lost, begun, t, k);
    var u := AfterLosses(t, c, cfg.beatEvery, k);
    TimePasses(cfg, s, c, e, lost, steps, u, cfg.beatEvery);
    OneMoreInterval(cfg.beatEvery, k);
    assert ReachableBy(cfg, s, e, steps + [Tick(cfg.beatEvery)]);
  }

  /** A good heartbeat first, and then all tolerated losses. */
  lemma ExposedAfterGoodBeat(cfg: Setup, s: State, c: Name, e: Id, idle: Time, lost: nat)
    requires cfg.beatEvery >= 0 && Published(cfg, s, c, e, idle) && e in s.g.pel && s.nodes[c].beat.None?
    requires (1 + lost) * cfg.beatEvery >= cfg.minIdle
    ensures Exposed(cfg, s, c, e, lost)
  {
    assert Run(cfg, s, []) == Some(s);
    var steps := BeatSucceeds(cfg, s, c, e, lost, [], s);
    ExposedAfterTick(cfg, s, c, e, lost, steps, BeatGood(cfg, s, c, e));
  }

  /** Nothing but the wait. */
  lemma ExposedByWaiting(cfg: Setup, s: State, c: Name, e: Id, idle: Time, lost: nat, d: nat)
    requires Published(cfg, s, c, e, idle) && e in s.g.pel && idle + d >= cfg.minIdle
    requires Flight(cfg, s, c, e, lost, [Tick(d)]) && Run(cfg, s, [Tick(d)]) == Some(Waited(s, d))
    ensures Exposed(cfg, s, c, e, lost)
  {
    assert ReachableBy(cfg, s, e, [Tick(d)]);
  }

  /** The wait, and the first lost heartbeat after it. */
  lemma ExposedByLosses(cfg: Setup, s: State, c: Name, e: Id, idle: Time, lost: nat, d: nat)
    requires cfg.beatEvery >= 0 && Published(cfg, s, c, e, idle) && e in s.g.pel && s.nodes[c].beat.None?
    requires lost > 0 && d == s.nodes[c].tickBy - s.g.now && idle + d + lost * cfg.beatEvery >= cfg.minIdle
    requires Flight(cfg, s, c, e, lost, [Tick(d)]) && Run(cfg, s, [Tick(d)]) == Some(Waited(s, d))
    ensures Exposed(cfg, s, c, e, lost)
  {
    var steps := BeatIsLost(cfg, s, c, e, lost, [Tick(d)], Waited(s, d));
    ExposedAfterTick(cfg, s, c, e, lost, steps, BeatLost(cfg, Waited(s, d), c));
  }

  /** No good heartbeat at all: the wait to the next tick, and then all tolerated losses. */
  lemma ExposedWithoutBeat(cfg: Setup, s: State, c: Name, e: Id, idle: Time, lost: nat)
    requires cfg.beatEvery >= 0 && Published(cfg, s, c, e, idle) && e in s.g.pel && s.nodes[c].beat.None?
    requires idle + (s.nodes[c].tickBy - s.g.now) + lost * cfg.beatEvery >= cfg.minIdle
    ensures Exposed(cfg, s, c, e, lost)
  {
    assert Run(cfg, s, []) == Some(s);
    var d := s.nodes[c].tickBy - s.g.now;
    TimePasses(cfg, s, c, e, lost, [], s, d);
    assert [] + [Tick(d)] == [Tick(d)];
    if lost == 0 {
      ExposedByWaiting(cfg, s, c, e, idle, lost, d);
    } else {
      ExposedByLosses(cfg, s, c, e, idle, lost, d);
    }
  }

  /**
   The bound is exact, whatever the ticker's phase. Some punctual flight with at most `lost` losses in a row lets
   a peer take the entry if and only if it does so without any good heartbeat, or right after one: when its idle
   time at the next tick plus `lost` intervals, or 1 + `lost` intervals, reach reclaimMinIdle.
   */
  lemma HeartbeatBoundIsExact(cfg: Setup, s: State, c: Name, e: Id, idle: Time, lost: nat)
    requires cfg.beatEvery >= 0 && Published(cfg, s, c, e, idle) && e in s.g.pel && s.nodes[c].beat.None?
    ensures Exposed(cfg, s, c, e, lost) <==>
            || idle + (s.nodes[c].tickBy - s.g.now) + lost * cfg.beatEvery >= cfg.minIdle
            || (1 + lost) * cfg.beatEvery >= cfg.minIdle
  {
    OneMoreInterval(cfg.beatEvery, lost);
    if (1 + lost) * cfg.beatEvery >= cfg.minIdle {
      ExposedAfterGoodBeat(cfg, s, c, e, idle, lost);
    } else if idle + (s.nodes[c].tickBy - s.g.now) + lost * cfg.beatEvery >= cfg.minIdle {
      ExposedWithoutBeat(cfg, s, c, e, idle, lost);
    } else {
      forall steps | Flight(cfg, s, c, e, lost, steps) ensures !ReachableBy(cfg, s, e, steps) {
        NeverClaimable(cfg, s, c, e, idle, lost, steps);
      }
    }
  }

  /** A ticker that is never late stays on time from the moment its process starts. */
  lemma {:induction false} PunctualStaysOnTime(cfg: Setup, c: Name, steps: seq<Step>)
    requires cfg.beatEvery >= 0 && PunctualRun(cfg, INIT, c, steps)
    ensures var t := Run(cfg, INIT, steps).value; c in t.nodes ==> OnTime(cfg, t.g, t.nodes[c])
  {
    if steps != [] {
      PunctualStaysOnTime(cfg, c, steps[..|steps| - 1]);
      OnTimeStep(cfg, Run(cfg, INIT, steps[..|steps| - 1]).value, c, steps[|steps| - 1]);
    }
  }

  lemma OnTimeStep(cfg: Setup, s: State, c: Name, step: Step)
    requires cfg.beatEvery >= 0 && Enabled(s, step) && Punctual(s, c, step)
    requires c in s.nodes ==> OnTime(cfg, s.g, s.nodes[c])
    ensures var t := Apply(cfg, s, step); c in t.nodes ==> OnTime(cfg, t.g, t.nodes[c])
  {
  }

  /** So every entry a punctual process starts to handle is published in the sense above. */
  lemma ProcessPublishes(cfg: Setup, c: Name, steps: seq<Step>, step: Step)
    requires cfg.beatEvery >= 0 && PunctualRun(cfg, INIT, c, steps + [step])
    requires step.Main? && step.c == c && step.m.Process?
    ensures var before, t := Run(cfg, INIT, steps).value, Run(cfg, INIT, steps + [step]).value;
            var e := before.nodes[c].phase.batch[0];
            before.g.log[e].Some? ==> Published(cfg, t, c, e, Idle(t.g, e))
  {
    var all := steps + [step];
    assert all[..|all| - 1] == steps;
    PunctualStaysOnTime(cfg, c, all);
    AckedWasHandled(cfg, steps);
    TakeoversAreSpaced(cfg, all);
  }
}
