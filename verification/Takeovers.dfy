/** Two takeovers of one entry by peerReclaim are at least reclaimMinIdle apart, however stale the lists are. */
module Takeovers {
  import opened Wrappers
  import opened PendingList
  import opened Protocol
  import opened Conservation

  /** No entry was last claimed in the future. */
  ghost predicate Past(g: Group) {
    forall id :: id in g.pel ==> g.pel[id].since <= g.now
  }

  ghost predicate Spaced(steals: seq<Steal>, gap: Time) {
    forall i, j :: 0 <= i < j < |steals| && steals[i].id == steals[j].id ==> steals[j].at - steals[i].at >= gap
  }

  /** Since an entry's last takeover, its idle clock has not been set back. */
  ghost predicate Remembered(g: Group) {
    forall i :: 0 <= i < |g.steals| ==>
      && g.steals[i].id < g.cursor && g.steals[i].at <= g.now
      && (g.steals[i].id in g.pel ==> g.pel[g.steals[i].id].since >= g.steals[i].at)
  }

  ghost predicate Orderly(cfg: Setup, g: Group) {
    Past(g) && Remembered(g) && Spaced(g.steals, cfg.minIdle)
  }

  /** The page a process is about to claim names no entry twice. */
  predicate PageDistinct(n: Node) {
    n.scan.ScanListed? ==> Distinct(n.scan.ids)
  }

  lemma {:induction false} ClaimedDistinct(pel: Pel, ids: seq<Id>, minIdle: Time, now: Time)
    requires Distinct(ids)
    ensures Distinct(Claimed(pel, ids, minIdle, now))
  {
    if ids != [] {
      ClaimedDistinct(pel, ids[1..], minIdle, now);
      var rest := Claimed(pel, ids[1..], minIdle, now);
      assert forall i :: 0 <= i < |rest| ==> rest[i] in rest;
      assert ids[0] !in ids[1..];
    }
  }

  lemma MainOrderly(cfg: Setup, g: Group, c: Name, p: Phase, m: MainStep)
    requires Orderly(cfg, g) && MainEnabled(g, p, m)
    ensures Orderly(cfg, MainMove(cfg, g, c, p, m).g)
  {
  }

  /** Taking entries over that were idle for `gap` keeps takeovers that far apart. */
  lemma TakeoverSpaced(g: Group, claimed: seq<Id>, c: Name, gap: Time)
    requires Remembered(g) && Spaced(g.steals, gap) && Distinct(claimed)
    requires forall i :: 0 <= i < |claimed| ==> Claimable(g.pel, claimed[i], gap, g.now)
    ensures Spaced(g.steals + Steals(claimed, c, g.now), gap)
  {
  }

  lemma TakeoverRemembered(g: Group, ids: seq<Id>, c: Name, gap: Time)
    requires Past(g) && Remembered(g) && forall id :: id in g.pel ==> id < g.cursor
    ensures var claimed := Claimed(g.pel, ids, gap, g.now);
            Remembered(g.(pel := Claim(g.pel, ids, c, gap, g.now), steals := g.steals + Steals(claimed, c, g.now)))
  {
    var claimed := Claimed(g.pel, ids, gap, g.now);
    assert forall i :: 0 <= i < |claimed| ==> claimed[i] in claimed;
  }

  lemma SideOrderly(cfg: Setup, g: Group, c: Name, n: Node, b: SideStep)
    requires Orderly(cfg, g) && SideEnabled(g, n, b) && PageDistinct(n)
    requires forall id :: id in g.pel ==> id < g.cursor
    ensures Orderly(cfg, g.(pel := SidePel(cfg, g, c, n, b), steals := g.steals + SideSteals(cfg, g, c, n, b)))
    ensures PageDistinct(SideNode(cfg, g, c, n, b))
  {
    if b.ScanClaim? {
      var claimed := Claimed(g.pel, n.scan.ids, cfg.minIdle, g.now);
      ClaimedDistinct(g.pel, n.scan.ids, cfg.minIdle, g.now);
      assert forall i :: 0 <= i < |claimed| ==> claimed[i] in claimed;
      TakeoverSpaced(g, claimed, c, cfg.minIdle);
      TakeoverRemembered(g, n.scan.ids, c, cfg.minIdle);
    } else {
      assert g.steals + [] == g.steals;
      if b.ScanList? {
        assert Distinct(IdlePage(cfg, g, n.scan.from));
      }
    }
  }

  /** The history misses no takeover: an entry that changes hands in a peerReclaim claim is in it. */
  lemma TakeoversAreLogged(cfg: Setup, g: Group, c: Name, n: Node, id: Id)
    requires SideEnabled(g, n, ScanClaim) && id in g.pel && g.pel[id].owner != c
    ensures SidePel(cfg, g, c, n, ScanClaim)[id].owner == c <==>
            Steal(id, c, g.now) in SideSteals(cfg, g, c, n, ScanClaim)
  {
    var claimed := Claimed(g.pel, n.scan.ids, cfg.minIdle, g.now);
    if id in claimed {
      var i :| 0 <= i < |claimed| && claimed[i] == id;
      assert Steals(claimed, c, g.now)[i] == Steal(id, c, g.now);
    }
  }

  ghost predicate OrderlyState(cfg: Setup, s: State) {
    Orderly(cfg, s.g) && forall c :: c in s.nodes ==> PageDistinct(s.nodes[c])
  }

  lemma StepOrderly(cfg: Setup, s: State, step: Step)
    requires OrderlyState(cfg, s) && SoundState(s) && Enabled(s, step)
    ensures OrderlyState(cfg, Apply(cfg, s, step))
  {
    match step {
      case Main(c, m) => MainOrderly(cfg, s.g, c, s.nodes[c].phase, m);
      case Side(c, b) => SideOrderly(cfg, s.g, c, s.nodes[c], b);
      case _ =>
    }
  }

  /**
   In every run of any processes, two takeovers of one entry by peerReclaim are at least
   reclaimMinIdle apart, whatever heartbeats and self-claims come between and however stale
   the claimed pages are.
   */
  lemma {:induction false} TakeoversAreSpaced(cfg: Setup, steps: seq<Step>)
    requires Run(cfg, INIT, steps).Some?
    ensures OrderlyState(cfg, Run(cfg, INIT, steps).value)
    ensures Spaced(Run(cfg, INIT, steps).value.g.steals, cfg.minIdle)
  {
    if steps != [] {
      var before := steps[..|steps| - 1];
      TakeoversAreSpaced(cfg, before);
      AckedWasHandled(cfg, before);
      StepOrderly(cfg, Run(cfg, INIT, before).value, steps[|steps| - 1]);
    }
  }
}
