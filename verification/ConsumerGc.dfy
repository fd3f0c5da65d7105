/**
 gcConsumers over whole runs (internal/consume/consume.go:372-399): XINFO and DELCONSUMER are two
 commands, so conservation depends on what the victim gains in between.
 */
module ConsumerGc {
  import opened Wrappers
  import opened Events
  import opened PendingList
  import opened Protocol
  import opened Conservation

  /** The state after the first k steps. */
  ghost function StateAt(cfg: Setup, steps: seq<Step>, k: nat): State
    requires k <= |steps| && Run(cfg, INIT, steps).Some?
  {
    PrefixRuns(cfg, steps, k);
    Run(cfg, INIT, steps[..k]).value
  }

  lemma PrefixRuns(cfg: Setup, steps: seq<Step>, k: nat)
    requires k <= |steps| && Run(cfg, INIT, steps).Some?
    ensures Run(cfg, INIT, steps[..k]).Some?
    ensures Run(cfg, Run(cfg, INIT, steps[..k]).value, steps[k..]) == Run(cfg, INIT, steps)
  {
    assert steps == steps[..k] + steps[k..];
    RunConcat(cfg, INIT, steps[..k], steps[k..]);
  }

  lemma StateAfter(cfg: Setup, steps: seq<Step>, k: nat)
    requires k < |steps| && Run(cfg, INIT, steps).Some?
    ensures Enabled(StateAt(cfg, steps, k), steps[k])
    ensures StateAt(cfg, steps, k + 1) == Apply(cfg, StateAt(cfg, steps, k), steps[k])
  {
    PrefixRuns(cfg, steps, k + 1);
    assert steps[..k + 1][..k] == steps[..k];
  }

  ghost predicate ConservedUpTo(cfg: Setup, steps: seq<Step>, n: nat)
    requires n <= |steps| && Run(cfg, INIT, steps).Some?
  {
    forall k :: 0 <= k <= n ==> Conserved(StateAt(cfg, steps, k).g)
  }

  /** Once conserved, the next state is conserved exactly when the step loses nothing. */
  lemma NextConserved(cfg: Setup, steps: seq<Step>, n: nat)
    requires n < |steps| && Run(cfg, INIT, steps).Some? && Conserved(StateAt(cfg, steps, n).g)
    ensures Conserved(StateAt(cfg, steps, n + 1).g) <==> LosesNothing(cfg, StateAt(cfg, steps, n), steps[n])
  {
    PrefixRuns(cfg, steps, n);
    AckedWasHandled(cfg, steps[..n]);
    StateAfter(cfg, steps, n);
    StepConserves(cfg, StateAt(cfg, steps, n), steps[n]);
  }

  lemma UpToNext(cfg: Setup, steps: seq<Step>, n: nat)
    requires n < |steps| && Run(cfg, INIT, steps).Some?
    ensures ConservedUpTo(cfg, steps, n + 1) <==>
            ConservedUpTo(cfg, steps, n) && Conserved(StateAt(cfg, steps, n + 1).g)
  {
    if ConservedUpTo(cfg, steps, n) && Conserved(StateAt(cfg, steps, n + 1).g) {
      forall k | 0 <= k <= n + 1 ensures Conserved(StateAt(cfg, steps, k).g) {
        if k <= n { assert Conserved(StateAt(cfg, steps, k).g); }
      }
    }
  }

  lemma AlongNext(cfg: Setup, steps: seq<Step>, n: nat)
    requires n < |steps| && Run(cfg, INIT, steps).Some?
    ensures LosesNothingAlong(cfg, INIT, steps[..n + 1]) <==>
            LosesNothingAlong(cfg, INIT, steps[..n]) && LosesNothing(cfg, StateAt(cfg, steps, n), steps[n])
  {
    PrefixRuns(cfg, steps, n);
    assert steps[..n + 1] == steps[..n] + [steps[n]];
    InitSnoc(steps[..n], steps[n]);
  }

  /** Exactly the runs without a losing GC step conserve at every moment. */
  lemma {:induction false} ConservedThroughout(cfg: Setup, steps: seq<Step>, n: nat)
    requires n <= |steps| && Run(cfg, INIT, steps).Some?
    ensures LosesNothingAlong(cfg, INIT, steps[..n]) <==> ConservedUpTo(cfg, steps, n)
  {
    if n == 0 {
      assert StateAt(cfg, steps, 0) == INIT by { assert steps[..0] == []; }
    } else {
      ConservedThroughout(cfg, steps, n - 1);
      AlongNext(cfg, steps, n - 1);
      UpToNext(cfg, steps, n - 1);
      if ConservedUpTo(cfg, steps, n - 1) {
        assert Conserved(StateAt(cfg, steps, n - 1).g);
        NextConserved(cfg, steps, n - 1);
      }
    }
  }

  predicate IsGcInfo(step: Step, c: Name) {
    step.Side? && step.c == c && step.b.GcInfo?
  }

  /** Step j is the last XINFO that c has sent. */
  predicate LastNews(steps: seq<Step>, c: Name, j: nat) {
    j < |steps| && IsGcInfo(steps[j], c) && forall k :: j < k < |steps| ==> !IsGcInfo(steps[k], c)
  }

  /** Only XINFO gives a process lines to look at; a restart forgets them. */
  lemma GcOnlyShrinks(cfg: Setup, s: State, step: Step, c: Name)
    requires Enabled(s, step) && !IsGcInfo(step, c)
    ensures var t := Apply(cfg, s, step);
            c in t.nodes && t.nodes[c].gc != [] ==> c in s.nodes && forall x :: x in t.nodes[c].gc ==>
              x in s.nodes[c].gc
  {
  }

  /** The lines a process still looks at are lines of its last XINFO. */
  lemma {:induction false} GcRemembersNews(cfg: Setup, steps: seq<Step>, c: Name) returns (j: nat)
    requires Run(cfg, INIT, steps).Some?
    requires var s := Run(cfg, INIT, steps).value; c in s.nodes && s.nodes[c].gc != []
    ensures LastNews(steps, c, j)
    ensures forall x :: x in Run(cfg, INIT, steps).value.nodes[c].gc ==> x in steps[j].b.infos
  {
    var last, before := steps[|steps| - 1], steps[..|steps| - 1];
    if IsGcInfo(last, c) {
      j := |steps| - 1;
    } else {
      var s, t := Run(cfg, INIT, before).value, Run(cfg, INIT, steps).value;
      GcOnlyShrinks(cfg, s, last, c);
      assert t.nodes[c].gc[0] in t.nodes[c].gc;
      j := GcRemembersNews(cfg, before, c);
    }
  }

  /** Step i sends a DELCONSUMER, on the news of step j. */
  ghost predicate CollectsOn(cfg: Setup, steps: seq<Step>, i: nat, j: nat)
    requires Run(cfg, INIT, steps).Some?
  {
    j < i < |steps| && Collects(cfg, StateAt(cfg, steps, i), steps[i]) && LastNews(steps[..i], steps[i].c, j)
  }

  /** Whom step i collects. */
  ghost function VictimAt(cfg: Setup, steps: seq<Step>, i: nat): Name
    requires Run(cfg, INIT, steps).Some? && i < |steps| && Collects(cfg, StateAt(cfg, steps, i), steps[i])
  {
    Victim(StateAt(cfg, steps, i), steps[i])
  }

  ghost function OwnedAt(cfg: Setup, steps: seq<Step>, k: nat, c: Name): set<Id>
    requires Run(cfg, INIT, steps).Some? && k <= |steps|
  {
    Owned(StateAt(cfg, steps, k).g.pel, c)
  }

  lemma OwnsNone(infos: seq<Info>, pel: Pel, x: Info)
    requires Truthful(pel, infos) && x in infos && x.pending == 0
    ensures Owned(pel, x.name) == {}
  {
    var i :| 0 <= i < |infos| && infos[i] == x;
    assert |Owned(pel, infos[i].name)| == 0;
  }

  /** Every DELCONSUMER acts on some XINFO of its process, at which the victim owned nothing. */
  lemma VictimOwnedNothing(cfg: Setup, steps: seq<Step>, i: nat) returns (j: nat)
    requires Run(cfg, INIT, steps).Some? && i < |steps| && Collects(cfg, StateAt(cfg, steps, i), steps[i])
    ensures CollectsOn(cfg, steps, i, j) && OwnedAt(cfg, steps, j, VictimAt(cfg, steps, i)) == {}
  {
    var c, s := steps[i].c, StateAt(cfg, steps, i);
    PrefixRuns(cfg, steps, i);
    j := GcRemembersNews(cfg, steps[..i], c);
    var x := s.nodes[c].gc[0];
    assert x in s.nodes[c].gc;
    assert steps[..i][j] == steps[j];
    StateAfter(cfg, steps, j);
    OwnsNone(steps[j].b.infos, StateAt(cfg, steps, j).g.pel, x);
  }

  /** No victim gains an entry between the XINFO and the DELCONSUMER sent on it. */
  ghost predicate VictimsGainNothing(cfg: Setup, steps: seq<Step>)
    requires Run(cfg, INIT, steps).Some?
  {
    forall i, j :: CollectsOn(cfg, steps, i, j) ==>
      OwnedAt(cfg, steps, i, VictimAt(cfg, steps, i)) <= OwnedAt(cfg, steps, j, VictimAt(cfg, steps, i))
  }

  /** The entries the victim has gained between its news and its end. */
  ghost function Gained(cfg: Setup, steps: seq<Step>, i: nat, j: nat): set<Id>
    requires Run(cfg, INIT, steps).Some? && CollectsOn(cfg, steps, i, j)
  {
    OwnedAt(cfg, steps, i, VictimAt(cfg, steps, i)) - OwnedAt(cfg, steps, j, VictimAt(cfg, steps, i))
  }

  /** What the victim of step i owns is exactly what it has gained, so the step loses what of that is unhandled. */
  lemma LossIsGain(cfg: Setup, steps: seq<Step>, i: nat)
    requires Run(cfg, INIT, steps).Some? && i < |steps| && Collects(cfg, StateAt(cfg, steps, i), steps[i])
    ensures exists j :: CollectsOn(cfg, steps, i, j) &&
              (LosesNothing(cfg, StateAt(cfg, steps, i), steps[i]) <==>
                Gained(cfg, steps, i, j) <= StateAt(cfg, steps, i).g.handled)
  {
    var j := VictimOwnedNothing(cfg, steps, i);
    var s, v := StateAt(cfg, steps, i), VictimAt(cfg, steps, i);
    assert forall id :: id in s.g.pel && s.g.pel[id].owner == v <==> id in Owned(s.g.pel, v);
    assert Gained(cfg, steps, i, j) == Owned(s.g.pel, v);
  }

  lemma {:induction false} LosesNothingStepwise(cfg: Setup, steps: seq<Step>)
    requires Run(cfg, INIT, steps).Some?
    requires forall i :: 0 <= i < |steps| ==> LosesNothing(cfg, StateAt(cfg, steps, i), steps[i])
    ensures LosesNothingAlong(cfg, INIT, steps)
  {
    if steps != [] {
      var before := steps[..|steps| - 1];
      PrefixRuns(cfg, steps, |steps| - 1);
      forall i | 0 <= i < |before| ensures LosesNothing(cfg, StateAt(cfg, before, i), before[i]) {
        assert before[..i] == steps[..i] && LosesNothing(cfg, StateAt(cfg, steps, i), steps[i]);
      }
      LosesNothingStepwise(cfg, before);
      assert LosesNothing(cfg, StateAt(cfg, steps, |steps| - 1), steps[|steps| - 1]);
    }
  }

  /**
   At-least-once for runs with consumer GC: if no victim gains a pending entry between XINFO and
   DELCONSUMER, each delivered entry is at every moment pending or handled.
   */
  lemma ConservedUnlessVictimGains(cfg: Setup, steps: seq<Step>)
    requires Run(cfg, INIT, steps).Some? && VictimsGainNothing(cfg, steps)
    ensures ConservedUpTo(cfg, steps, |steps|)
  {
    forall i | 0 <= i < |steps| ensures LosesNothing(cfg, StateAt(cfg, steps, i), steps[i]) {
      if Collects(cfg, StateAt(cfg, steps, i), steps[i]) {
        var j := VictimOwnedNothing(cfg, steps, i);
        var s, v := StateAt(cfg, steps, i), VictimAt(cfg, steps, i);
        assert OwnedAt(cfg, steps, i, v) == {};
        assert forall id :: id in s.g.pel && s.g.pel[id].owner == v ==> id in Owned(s.g.pel, v);
      }
    }
    LosesNothingStepwise(cfg, steps);
    ConservedThroughout(cfg, steps, |steps|);
    assert steps[..|steps|] == steps;
  }

  /** Between the XINFO and the DELCONSUMER the victim's own process takes no step. */
  ghost predicate VictimsStopped(cfg: Setup, steps: seq<Step>)
    requires Run(cfg, INIT, steps).Some?
  {
    forall i, j, k :: CollectsOn(cfg, steps, i, j) && j < k < i ==> !TakenBy(steps[k], VictimAt(cfg, steps, i))
  }

  /** What the pending == 0 guard buys: collecting consumers that have stopped loses nothing, whatever the others do. */
  lemma ConservedIfVictimsStopped(cfg: Setup, steps: seq<Step>)
    requires Run(cfg, INIT, steps).Some? && VictimsStopped(cfg, steps)
    ensures ConservedUpTo(cfg, steps, |steps|)
  {
    forall i, j | CollectsOn(cfg, steps, i, j)
      ensures OwnedAt(cfg, steps, i, VictimAt(cfg, steps, i)) <= OwnedAt(cfg, steps, j, VictimAt(cfg, steps, i))
    {
      StoppedBetween(cfg, steps, i, j);
    }
    ConservedUnlessVictimGains(cfg, steps);
  }

  lemma StoppedBetween(cfg: Setup, steps: seq<Step>, i: nat, j: nat)
    requires Run(cfg, INIT, steps).Some? && CollectsOn(cfg, steps, i, j)
    requires forall k :: j < k < i ==> !TakenBy(steps[k], VictimAt(cfg, steps, i))
    ensures OwnedAt(cfg, steps, i, VictimAt(cfg, steps, i)) <= OwnedAt(cfg, steps, j, VictimAt(cfg, steps, i))
  {
    PrefixRuns(cfg, steps, i);
    PrefixRuns(cfg, steps[..i], j);
    assert steps[..i][..j] == steps[..j] && steps[..i][j] == steps[j];
    var between := steps[..i][j..];
    forall k | 0 <= k < |between| ensures !TakenBy(between[k], VictimAt(cfg, steps, i)) {
      assert between[k] == steps[j + k];
    }
    StoppedConsumerGainsNothing(cfg, StateAt(cfg, steps, j), between, VictimAt(cfg, steps, i));
  }

  /**
   A run that loses a well-formed entry: b has listed its entries and is quiet for gcTimeout; a collects it on stale
   news.
   */
  function Witness(cfg: Setup, evt: Event, k: nat): State
    requires cfg.gcTimeout >= 0
  {
    var idle := Node(Top, None, cfg.beatEvery, 0, NoScan, []);
    var told := idle.(gc := [Info("b", cfg.gcTimeout, 0)]);
    var reading := idle.(phase := Reading);
    var working := idle.(phase := Working([0], Again));
    var later := INIT.g.(now := cfg.gcTimeout);
    var appended := later.(log := [Some(evt)]);
    var read := appended.(cursor := 1, pel := map[0 := Pending("b", cfg.gcTimeout)]);
    match k
    case 0 => INIT
    case 1 => State(INIT.g, map["a" := idle])
    case 2 => State(INIT.g, map["a" := idle, "b" := idle])
    case 3 => State(INIT.g, map["a" := idle, "b" := reading])
    case 4 => State(later, map["a" := idle, "b" := reading])
    case 5 => State(later, map["a" := told, "b" := reading])
    case 6 => State(appended, map["a" := told, "b" := reading])
    case 7 => State(read, map["a" := told, "b" := working])
    case 8 => State(read.(pel := map[]), map["a" := idle, "b" := working])
    case _ => State(read.(pel := map[]), map["a" := idle])
  }

  lemma WitnessStep(cfg: Setup, evt: Event, k: nat, step: Step)
    requires cfg.gcTimeout >= 0 && Reachable(cfg, Witness(cfg, evt, k)) && Enabled(Witness(cfg, evt, k), step)
    requires Apply(cfg, Witness(cfg, evt, k), step) == Witness(cfg, evt, k + 1)
    ensures Reachable(cfg, Witness(cfg, evt, k + 1))
  {
    ReachableStep(cfg, Witness(cfg, evt, k), step);
  }

  lemma WitnessBegins(cfg: Setup, evt: Event)
    requires cfg.gcTimeout >= 0
    ensures Reachable(cfg, Witness(cfg, evt, 3))
  {
    assert Run(cfg, INIT, []) == Some(INIT);
    WitnessStep(cfg, evt, 0, Start("a"));
    WitnessStep(cfg, evt, 1, Start("b"));
    WitnessStep(cfg, evt, 2, Main("b", ListOwn));
  }

  lemma WitnessIsTold(cfg: Setup, evt: Event)
    requires cfg.gcTimeout >= 0
    ensures Reachable(cfg, Witness(cfg, evt, 5))
  {
    WitnessBegins(cfg, evt);
    WitnessStep(cfg, evt, 3, Tick(cfg.gcTimeout));
    assert Owned(INIT.g.pel, "b") == {};
    WitnessStep(cfg, evt, 4, Side("a", GcInfo([Info("b", cfg.gcTimeout, 0)])));
  }

  lemma WitnessReads(cfg: Setup, evt: Event)
    requires cfg.gcTimeout >= 0 && cfg.count > 0
    ensures Reachable(cfg, Witness(cfg, evt, 7))
  {
    WitnessIsTold(cfg, evt);
    WitnessStep(cfg, evt, 5, Append(Some(evt)));
    var now := cfg.gcTimeout;
    assert Range(0, 1) == [0] && Deliver(map[], 0, 1, "b", now) == map[0 := Pending("b", now)];
    WitnessStep(cfg, evt, 6, Main("b", ReadNew));
  }

  lemma WitnessIsCollected(cfg: Setup, evt: Event)
    requires cfg.gcTimeout >= 0 && cfg.count > 0
    ensures Reachable(cfg, Witness(cfg, evt, 8))
  {
    WitnessReads(cfg, evt);
    assert DelConsumer(map[0 := Pending("b", cfg.gcTimeout)], "b") == map[];
    assert [Info("b", cfg.gcTimeout, 0)][1..] == [];
    WitnessStep(cfg, evt, 7, Side("a", GcNext(true)));
  }

  /**
   The check-then-act gap: under every setup, and for any event, there is a run in which a consumer that was
   idle for gcTimeout reads that event between XINFO and DELCONSUMER and then crashes. The entry is lost for good.
   */
  lemma GcCanLoseAnEntry(cfg: Setup, evt: Event)
    requires cfg.gcTimeout >= 0 && cfg.count > 0
    ensures exists s :: Reachable(cfg, s) && Lost(s, 0) && s.g.log == [Some(evt)]
  {
    WitnessIsCollected(cfg, evt);
    WitnessStep(cfg, evt, 8, Crash("b"));
    assert Lost(Witness(cfg, evt, 9), 0);
  }
}
