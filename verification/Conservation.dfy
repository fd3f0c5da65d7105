/** At-least-once: no interleaving loses an entry, except a consumer GC that comes too late. */
module Conservation {
  import opened Wrappers
  import opened PendingList
  import opened Pipeline
  import opened Protocol

  /** Every delivered entry is pending with its one owner, or its handler has returned nil. */
  ghost predicate Conserved(g: Group) {
    forall id: Id :: id < g.cursor ==> id in g.pel || id in g.handled
  }

  /** Only delivered entries are pending or handled; an acked entry was handled and is never pending again. */
  ghost predicate Sound(g: Group) {
    && g.cursor <= |g.log|
    && (forall id :: id in g.pel || id in g.handled ==> id < g.cursor)
    && (forall id :: id in g.acked ==> id in g.handled && id !in g.pel)
  }

  ghost predicate Below(ids: seq<Id>, cursor: Id) {
    forall i :: 0 <= i < |ids| ==> ids[i] < cursor
  }

  /** A process works on delivered entries only, and sends an ack only after a nil return. */
  ghost predicate SoundPhase(g: Group, p: Phase) {
    match p
    case Working(batch, _) => Below(batch, g.cursor)
    case Calling(id, _, _, rest, _) => id < g.cursor && Below(rest, g.cursor)
    case Backoff(id, rest, _) => id < g.cursor && Below(rest, g.cursor)
    case Acking(id, rest, _) => id < g.cursor && Below(rest, g.cursor) && id in g.handled
    case _ => true
  }

  ghost predicate SoundState(s: State) {
    Sound(s.g) && forall c :: c in s.nodes ==> SoundPhase(s.g, s.nodes[c].phase)
  }

  /** What one process does to the group never unsettles another one. */
  ghost predicate Grows(g: Group, h: Group) {
    g.cursor <= h.cursor && g.handled <= h.handled
  }

  lemma PhaseStaysSound(g: Group, h: Group, p: Phase)
    requires SoundPhase(g, p) && Grows(g, h)
    ensures SoundPhase(h, p)
  {
  }

  lemma MainSound(cfg: Setup, g: Group, c: Name, p: Phase, m: MainStep)
    requires Sound(g) && SoundPhase(g, p) && MainEnabled(g, p, m)
    ensures var move := MainMove(cfg, g, c, p, m);
            Sound(move.g) && Grows(g, move.g) && (move.phase.Some? ==> SoundPhase(move.g, move.phase.value))
  {
    if m.ClaimOwn? {
      var claimed := Claimed(g.pel, p.ids, 0, g.now);
      assert forall i :: 0 <= i < |claimed| ==> claimed[i] in claimed;
    }
  }

  lemma SideKeepsKeys(cfg: Setup, g: Group, c: Name, n: Node, b: SideStep)
    requires SideEnabled(g, n, b)
    ensures SidePel(cfg, g, c, n, b).Keys <= g.pel.Keys
    ensures SideNode(cfg, g, c, n, b).phase == n.phase
  {
  }

  lemma StepSound(cfg: Setup, s: State, step: Step)
    requires SoundState(s) && Enabled(s, step)
    ensures SoundState(Apply(cfg, s, step))
  {
    var t := Apply(cfg, s, step);
    match step {
      case Main(c, m) => MainSound(cfg, s.g, c, s.nodes[c].phase, m);
      case Side(c, b) => SideKeepsKeys(cfg, s.g, c, s.nodes[c], b);
      case _ =>
    }
    assert Sound(t.g) && Grows(s.g, t.g);
    forall c | c in t.nodes ensures SoundPhase(t.g, t.nodes[c].phase) {
      if c in s.nodes { PhaseStaysSound(s.g, t.g, s.nodes[c].phase); }
    }
  }

  /** In every reachable state, with any number of processes: acked entries were handled, and none is pending again. */
  lemma {:induction false} AckedWasHandled(cfg: Setup, steps: seq<Step>)
    requires Run(cfg, INIT, steps).Some?
    ensures SoundState(Run(cfg, INIT, steps).value)
  {
    if steps != [] {
      var before := steps[..|steps| - 1];
      AckedWasHandled(cfg, before);
      StepSound(cfg, Run(cfg, INIT, before).value, steps[|steps| - 1]);
    }
  }

  /** This step is a DELCONSUMER that gcConsumers sends. */
  predicate Collects(cfg: Setup, s: State, step: Step) {
    && step.Side? && step.b.GcNext? && step.b.ok && step.c in s.nodes && s.nodes[step.c].gc != []
    && Collectable(cfg.gcTimeout, s.nodes[step.c].gc[0], step.c)
  }

  function Victim(s: State, step: Step): Name
    requires step.Side? && step.c in s.nodes && s.nodes[step.c].gc != []
  {
    s.nodes[step.c].gc[0].name
  }

  /** The victim of a DELCONSUMER owns nothing whose handler has not yet succeeded. */
  ghost predicate LosesNothing(cfg: Setup, s: State, step: Step) {
    Collects(cfg, s, step) ==> forall id :: id in s.g.pel && s.g.pel[id].owner == Victim(s, step) ==> id in s.g.handled
  }

  ghost predicate LosesNothingAlong(cfg: Setup, s: State, steps: seq<Step>) {
    steps == [] ||
    (&& LosesNothingAlong(cfg, s, steps[..|steps| - 1])
     && var t := Run(cfg, s, steps[..|steps| - 1]); t.Some? ==> LosesNothing(cfg, t.value, steps[|steps| - 1]))
  }

  lemma MainConserves(cfg: Setup, g: Group, c: Name, p: Phase, m: MainStep)
    requires Conserved(g) && SoundPhase(g, p) && MainEnabled(g, p, m)
    ensures Conserved(MainMove(cfg, g, c, p, m).g)
  {
  }

  /** For one step: GC is the only step that can lose an entry, and it does exactly when its victim gained one. */
  lemma StepConserves(cfg: Setup, s: State, step: Step)
    requires Conserved(s.g) && SoundState(s) && Enabled(s, step)
    ensures Conserved(Apply(cfg, s, step).g) <==> LosesNothing(cfg, s, step)
  {
    match step {
      case Main(c, m) => MainConserves(cfg, s.g, c, s.nodes[c].phase, m);
      case _ =>
    }
  }

  /** At-least-once: in every reachable state each delivered entry is pending or was handled. */
  lemma {:induction false} AtLeastOnce(cfg: Setup, steps: seq<Step>)
    requires Run(cfg, INIT, steps).Some? && LosesNothingAlong(cfg, INIT, steps)
    ensures Conserved(Run(cfg, INIT, steps).value.g)
  {
    if steps != [] {
      var before := steps[..|steps| - 1];
      AtLeastOnce(cfg, before);
      AckedWasHandled(cfg, before);
      StepConserves(cfg, Run(cfg, INIT, before).value, steps[|steps| - 1]);
    }
  }

  predicate TakenBy(step: Step, c: Name) {
    (step.Main? || step.Side?) && step.c == c
  }

  lemma OwnedByOthers(cfg: Setup, g: Group, c: Name, p: Phase, m: MainStep, other: Name)
    requires MainEnabled(g, p, m) && c != other
    ensures Owned(MainMove(cfg, g, c, p, m).g.pel, other) <= Owned(g.pel, other)
  {
  }

  /** Only its own commands give a consumer entries. */
  lemma OwnsByOwnStepsOnly(cfg: Setup, s: State, step: Step, c: Name)
    requires Enabled(s, step) && !TakenBy(step, c)
    ensures Owned(Apply(cfg, s, step).g.pel, c) <= Owned(s.g.pel, c)
  {
    match step {
      case Main(d, m) => OwnedByOthers(cfg, s.g, d, s.nodes[d].phase, m, c);
      case _ =>
    }
  }

  lemma {:induction false} StoppedConsumerGainsNothing(cfg: Setup, s: State, steps: seq<Step>, c: Name)
    requires Run(cfg, s, steps).Some?
    requires forall i :: 0 <= i < |steps| ==> !TakenBy(steps[i], c)
    ensures Owned(Run(cfg, s, steps).value.g.pel, c) <= Owned(s.g.pel, c)
  {
    if steps != [] {
      var before := steps[..|steps| - 1];
      StoppedConsumerGainsNothing(cfg, s, before, c);
      OwnsByOwnStepsOnly(cfg, Run(cfg, s, before).value, steps[|steps| - 1], c);
    }
  }

  predicate Holds(p: Phase, id: Id) {
    match p
    case Working(batch, _) => id in batch
    case Calling(i, _, _, rest, _) => id == i || id in rest
    case Backoff(i, rest, _) => id == i || id in rest
    case Acking(i, rest, _) => id == i || id in rest
    case _ => false
  }

  /** The entry was delivered and not handled, and neither the PEL nor any process knows it any more. */
  ghost predicate Lost(s: State, id: Id) {
    && LostIn(s.g, id)
    && forall c :: c in s.nodes ==> !Holds(s.nodes[c].phase, id)
  }

  predicate LostIn(g: Group, id: Id) {
    id < g.cursor && id !in g.pel && id !in g.handled
  }

  lemma MainKeepsLost(cfg: Setup, g: Group, c: Name, p: Phase, m: MainStep, id: Id)
    requires MainEnabled(g, p, m) && LostIn(g, id) && !Holds(p, id)
    ensures var move := MainMove(cfg, g, c, p, m);
            LostIn(move.g, id) && (move.phase.Some? ==> !Holds(move.phase.value, id))
  {
  }

  /** Nothing brings a lost entry back. */
  lemma {:induction false} LostForever(cfg: Setup, s: State, steps: seq<Step>, id: Id)
    requires Lost(s, id) && Run(cfg, s, steps).Some?
    ensures Lost(Run(cfg, s, steps).value, id)
  {
    if steps != [] {
      var before, last := steps[..|steps| - 1], steps[|steps| - 1];
      LostForever(cfg, s, before, id);
      var t := Run(cfg, s, before).value;
      match last {
        case Main(c, m) => MainKeepsLost(cfg, t.g, c, t.nodes[c].phase, m, id);
        case Side(c, b) => SideKeepsKeys(cfg, t.g, c, t.nodes[c], b);
        case _ =>
      }
    }
  }
}
