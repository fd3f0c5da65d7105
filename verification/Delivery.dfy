/** End to end: what an acknowledgement upstream guarantees downstream, through crashes and interleavings. */
module Delivery {
  import opened Wrappers
  import opened Events
  import opened PendingList
  import opened Pipeline
  import opened Protocol
  import opened Conservation

  predicate Parsed(g: Group, id: Id) {
    id < |g.log| && g.log[id].Some?
  }

  /** The effect x of entry id is among the first n logged ones. */
  predicate LoggedBefore(g: Group, n: nat, id: Id, x: Effect) {
    n <= |g.effects| && Logged(id, x) in g.effects[..n]
  }

  /**
   `seen` is entry id's event as the stages after Enrich work on it, the enrichment being one the runner produced for
   id.
   */
  ghost predicate Enriched(cfg: Setup, g: Group, n: nat, id: Id, seen: Event)
    requires Parsed(g, id)
  {
    if cfg.handler.Enrich?
    then seen.enrichment.Some? && LoggedBefore(g, n, id, Ran(seen.enrichment.value)) &&
      seen == g.log[id].value.(enrichment := seen.enrichment)
    else seen == g.log[id].value
  }

  /** The k-th logged effect follows the effects it depends on. */
  ghost predicate EffectInOrder(cfg: Setup, g: Group, k: nat)
    requires k < |g.effects|
  {
    var id := g.effects[k].id;
    && Parsed(g, id)
    && match g.effects[k].effect
       case Ran(fields) => Produced(cfg.handler, g.log[id].value, fields)
       case Handled(e) => Enriched(cfg, g, k, id, e)
       case Xadd(stream, e) => EmitTarget(cfg.handler) == Some(stream) && LoggedBefore(g, k, id, Handled(e))
  }

  ghost predicate EffectsInOrder(cfg: Setup, g: Group) {
    forall k :: 0 <= k < |g.effects| ==> EffectInOrder(cfg, g, k)
  }

  /** The last stage of the chain has happened for id. */
  ghost predicate Finished(cfg: Setup, g: Group, id: Id) {
    exists k :: 0 <= k < |g.effects| && g.effects[k].id == id && LastStage(cfg, g.effects[k].effect)
  }

  predicate LastStage(cfg: Setup, x: Effect) {
    if EmitTarget(cfg.handler).Some? then x.Xadd? else x.Handled?
  }

  /** A call of which the first n effects have happened. */
  ghost predicate CallUnderWay(cfg: Setup, g: Group, id: Id, todo: seq<Effect>, reply: Reply, fx: seq<Effect>)
    requires Parsed(g, id)
  {
    && |todo| <= |fx| && todo == fx[|fx| - |todo|..]
    && Staged(cfg.handler, g.log[id].value, fx)
    && (reply.Nil? ==> Complete(cfg.handler, fx))
    && forall k :: 0 <= k < |fx| - |todo| ==> Logged(id, fx[k]) in g.effects
  }

  ghost predicate PhaseFaithful(cfg: Setup, g: Group, p: Phase) {
    match p
    case Calling(id, todo, reply, _, _) => Parsed(g, id) && exists fx :: CallUnderWay(cfg, g, id, todo, reply, fx)
    case Acking(id, _, _) => Parsed(g, id) && Finished(cfg, g, id)
    case _ => true
  }

  ghost predicate Faithful(cfg: Setup, g: Group) {
    && EffectsInOrder(cfg, g)
    && forall id :: id in g.handled ==> Parsed(g, id) && Finished(cfg, g, id)
  }

  /** History only grows, so what other processes rely on stays. */
  predicate Later(g: Group, h: Group) {
    g.log <= h.log && g.effects <= h.effects
  }

  lemma FaithfulLater(cfg: Setup, g: Group, h: Group, p: Phase)
    requires PhaseFaithful(cfg, g, p) && Later(g, h)
    ensures PhaseFaithful(cfg, h, p)
  {
    match p {
      case Calling(id, todo, reply, _, _) =>
        var fx :| CallUnderWay(cfg, g, id, todo, reply, fx);
        assert forall x :: x in g.effects ==> x in h.effects by {
          assert h.effects == g.effects + h.effects[|g.effects|..];
        }
        assert CallUnderWay(cfg, h, id, todo, reply, fx);
      case Acking(id, _, _) => FinishedLater(cfg, g, h, id);
      case _ =>
    }
  }

  lemma FinishedLater(cfg: Setup, g: Group, h: Group, id: Id)
    requires Finished(cfg, g, id) && Later(g, h)
    ensures Finished(cfg, h, id)
  {
    var k :| 0 <= k < |g.effects| && g.effects[k].id == id && LastStage(cfg, g.effects[k].effect);
    assert h.effects[k] == g.effects[k];
  }

  lemma EffectLater(cfg: Setup, g: Group, h: Group, k: nat)
    requires k < |g.effects| && EffectInOrder(cfg, g, k) && Later(g, h)
    ensures EffectInOrder(cfg, h, k)
  {
    assert h.effects[..k] == g.effects[..k];
  }

  /** The next effect of a call under way comes after those it depends on. */
  lemma ActInOrder(cfg: Setup, g: Group, id: Id, todo: seq<Effect>, reply: Reply, fx: seq<Effect>)
    requires Parsed(g, id) && CallUnderWay(cfg, g, id, todo, reply, fx) && todo != [] && EffectsInOrder(cfg, g)
    ensures var h := g.(effects := g.effects + [Logged(id, todo[0])]);
            EffectsInOrder(cfg, h) && CallUnderWay(cfg, h, id, todo[1..], reply, fx)
  {
    var h := g.(effects := g.effects + [Logged(id, todo[0])]);
    var n := |fx| - |todo|;
    assert todo[0] == fx[n] && StagedAt(cfg.handler, g.log[id].value, fx, n);
    assert h.effects[..|g.effects|] == g.effects;
    forall k | 0 <= k < |h.effects| ensures EffectInOrder(cfg, h, k) {
      if k < |g.effects| {
        EffectLater(cfg, g, h, k);
      } else {
        match fx[n] {
          case Ran(_) =>
          case Handled(seen) =>
            assert SeenAs(cfg.handler, g.log[id].value, seen, fx[..n]);
            if cfg.handler.Enrich? { assert fx[..n][0] == fx[0] && Logged(id, fx[0]) in g.effects; }
          case Xadd(_, e) => assert Logged(id, fx[n - 1]) in g.effects;
        }
      }
    }
  }

  /** A call that returns nil has had its last stage logged. */
  lemma NilMeansFinished(cfg: Setup, g: Group, id: Id, reply: Reply, fx: seq<Effect>)
    requires Parsed(g, id) && CallUnderWay(cfg, g, id, [], reply, fx) && reply.Nil?
    ensures Finished(cfg, g, id)
  {
    var x := fx[|fx| - 1];
    assert Logged(id, x) in g.effects;
    var k :| 0 <= k < |g.effects| && g.effects[k] == Logged(id, x);
    assert LastStage(cfg, g.effects[k].effect);
  }

  lemma CallStarts(cfg: Setup, g: Group, id: Id, luck: Luck)
    requires Parsed(g, id) && Composed(cfg.handler)
    ensures var o := Handle(cfg.handler, g.log[id].value, luck); CallUnderWay(cfg, g, id, o.effects, o.reply, o.effects)
  {
    StagesInOrder(cfg.handler, g.log[id].value, luck);
    var fx := Handle(cfg.handler, g.log[id].value, luck).effects;
    assert fx == fx[0..];
  }

  /** A step that logs nothing keeps the order of what is logged. */
  lemma EffectsCarry(cfg: Setup, g: Group, h: Group)
    requires EffectsInOrder(cfg, g) && Later(g, h) && h.effects == g.effects
    ensures EffectsInOrder(cfg, h)
  {
    forall k | 0 <= k < |h.effects| ensures EffectInOrder(cfg, h, k) { EffectLater(cfg, g, h, k); }
  }

  lemma MainFaithful(cfg: Setup, g: Group, c: Name, p: Phase, m: MainStep)
    requires Composed(cfg.handler) && Faithful(cfg, g) && PhaseFaithful(cfg, g, p) && MainEnabled(g, p, m)
    ensures var move := MainMove(cfg, g, c, p, m);
            Faithful(cfg, move.g) && Later(g, move.g) &&
              (move.phase.Some? ==> PhaseFaithful(cfg, move.g, move.phase.value))
  {
    var move := MainMove(cfg, g, c, p, m);
    match m {
      case Process(luck) => if g.log[p.batch[0]].Some? { CallStarts(cfg, move.g, p.batch[0], luck); }
      case Retry(luck) => CallStarts(cfg, move.g, p.id, luck);
      case Act =>
        var fx :| CallUnderWay(cfg, g, p.id, p.todo, p.reply, fx);
        ActInOrder(cfg, g, p.id, p.todo, p.reply, fx);
      case Return =>
        var fx :| CallUnderWay(cfg, g, p.id, p.todo, p.reply, fx);
        if p.reply.Nil? { NilMeansFinished(cfg, g, p.id, p.reply, fx); }
      case _ =>
    }
    if !m.Act? { EffectsCarry(cfg, g, move.g); }
    forall id | id in move.g.handled ensures Parsed(move.g, id) && Finished(cfg, move.g, id) {
      FinishedLater(cfg, g, move.g, id);
    }
  }

  ghost predicate FaithfulState(cfg: Setup, s: State) {
    && Faithful(cfg, s.g)
    && (forall c :: c in s.nodes ==> PhaseFaithful(cfg, s.g, s.nodes[c].phase))
    && s.g.acked <= s.g.handled
  }

  /** Steps other than the main loop's log nothing. */
  lemma OtherStepsCarry(cfg: Setup, s: State, step: Step)
    requires Faithful(cfg, s.g) && Enabled(s, step) && !step.Main?
    ensures var h := NextGroup(cfg, s, step);
            && Faithful(cfg, h) && Later(s.g, h) && h.acked == s.g.acked
            && h.handled == s.g.handled
  {
    var h := NextGroup(cfg, s, step);
    EffectsCarry(cfg, s.g, h);
    forall id | id in h.handled ensures Parsed(h, id) && Finished(cfg, h, id) { FinishedLater(cfg, s.g, h, id); }
  }

  lemma SidePhase(cfg: Setup, s: State, step: Step)
    requires Enabled(s, step) && !step.Main?
    ensures var t := Apply(cfg, s, step);
            forall c :: c in t.nodes ==> t.nodes[c].phase.Top? || (c in s.nodes && t.nodes[c].phase == s.nodes[c].phase)
  {
    if step.Side? { SideKeepsKeys(cfg, s.g, step.c, s.nodes[step.c], step.b); }
  }

  lemma StepFaithful(cfg: Setup, s: State, step: Step)
    requires Composed(cfg.handler) && FaithfulState(cfg, s) && Enabled(s, step)
    ensures Faithful(cfg, Apply(cfg, s, step).g)
    ensures forall c :: c in Apply(cfg, s, step).nodes ==>
            PhaseFaithful(cfg, Apply(cfg, s, step).g, Apply(cfg, s, step).nodes[c].phase)
  {
    var t := Apply(cfg, s, step);
    if step.Main? {
      MainFaithful(cfg, s.g, step.c, s.nodes[step.c].phase, step.m);
    } else {
      OtherStepsCarry(cfg, s, step);
      SidePhase(cfg, s, step);
    }
    forall c | c in t.nodes ensures PhaseFaithful(cfg, t.g, t.nodes[c].phase) {
      if c in s.nodes { FaithfulLater(cfg, s.g, t.g, s.nodes[c].phase); }
    }
  }

  lemma {:induction false} RunsFaithful(cfg: Setup, steps: seq<Step>)
    requires Composed(cfg.handler) && Run(cfg, INIT, steps).Some?
    ensures FaithfulState(cfg, Run(cfg, INIT, steps).value)
  {
    if steps != [] {
      var before := steps[..|steps| - 1];
      RunsFaithful(cfg, before);
      StepFaithful(cfg, Run(cfg, INIT, before).value, steps[|steps| - 1]);
    }
    AckedWasHandled(cfg, steps);
  }

  /**
   The k-th logged effect is an append, to the binding's target, of entry id's event with an enrichment produced for
   id.
   */
  ghost predicate AppendsFor(cfg: Setup, g: Group, k: nat, id: Id)
    requires Parsed(g, id)
  {
    && k < |g.effects| && g.effects[k].id == id && g.effects[k].effect.Xadd?
    && EmitTarget(cfg.handler) == Some(g.effects[k].effect.stream)
    && LoggedBefore(g, k, id, Handled(g.effects[k].effect.evt))
    && Enriched(cfg, g, k, id, g.effects[k].effect.evt)
  }

  /**
   In every reachable state, for a binding with an emit target: each acknowledged entry has been
   appended downstream, with its own event and an enrichment the runner produced for it.
   */
  lemma AckedWasDelivered(cfg: Setup, steps: seq<Step>, id: Id)
    requires Composed(cfg.handler) && EmitTarget(cfg.handler).Some?
    requires Run(cfg, INIT, steps).Some? && id in Run(cfg, INIT, steps).value.g.acked
    ensures var g := Run(cfg, INIT, steps).value.g; Parsed(g, id) && exists k :: AppendsFor(cfg, g, k, id)
  {
    RunsFaithful(cfg, steps);
    var g := Run(cfg, INIT, steps).value.g;
    var k :| 0 <= k < |g.effects| && g.effects[k].id == id && LastStage(cfg, g.effects[k].effect);
    NoOrphanEmits(cfg, steps, k);
    assert AppendsFor(cfg, g, k, id);
  }

  /**
   Conversely, every downstream entry comes after a base-handler success on that very event, even when XADD replies
   are lost and retried.
   */
  lemma NoOrphanEmits(cfg: Setup, steps: seq<Step>, k: nat)
    requires Composed(cfg.handler) && Run(cfg, INIT, steps).Some?
    requires k < |Run(cfg, INIT, steps).value.g.effects| && Run(cfg, INIT, steps).value.g.effects[k].effect.Xadd?
    ensures var g := Run(cfg, INIT, steps).value.g; Parsed(g, g.effects[k].id) && AppendsFor(cfg, g, k, g.effects[k].id)
  {
    RunsFaithful(cfg, steps);
    var g := Run(cfg, INIT, steps).value.g;
    var id, e := g.effects[k].id, g.effects[k].effect.evt;
    assert EffectInOrder(cfg, g, k);
    var j :| 0 <= j < k && g.effects[..k][j] == Logged(id, Handled(e));
    assert g.effects[j] == Logged(id, Handled(e)) && EffectInOrder(cfg, g, j);
    assert g.effects[..j] <= g.effects[..k];
    assert forall x :: x in g.effects[..j] ==> x in g.effects[..k] by {
      assert g.effects[..k] == g.effects[..j] + g.effects[j..k];
    }
  }
}
