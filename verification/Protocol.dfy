/**
 The consumer group as a transition system (internal/consume/consume.go): any number of
 processes, each with its main loop and its reclaim, GC and heartbeat loops, interleaved at the
 grain of one Redis command or one handler effect. Everything a process only remembers (a page of
 XPENDING, a page of XINFO, a loaded in-flight id, a batch) is part of the state, so it may be stale
 when it is used. A process that is not in `nodes` is down; a crash drops all it remembered.
 */
module Protocol {
  import opened Wrappers
  import opened Events
  import opened PendingList
  import opened Pipeline

  datatype Setup = Setup(
    count: nat,          // page size of XREADGROUP, XPENDING and XCLAIM
    minIdle: Time,       // reclaimMinIdle
    gcTimeout: Time,     // consumerGCTimeout
    beatEvery: Time,     // heartbeatInterval
    failLoud: bool,      // OnFatal returns an error (the only policy shipped), or nil
    handler: Handler)

  /** What follows a batch: selfReclaim or the main loop starts over, or XREADGROUP is next. */
  datatype After = Again | Read

  datatype Phase =
    | Top                                                    // about to list the own PEL
    | SelfListed(ids: seq<Id>, full: bool)                   // about to claim that list
    | Reading                                                // about to XREADGROUP
    | Working(batch: seq<Id>, after: After)                  // about to process batch[0]
    | Calling(id: Id, todo: seq<Effect>, reply: Reply, rest: seq<Id>, after: After)
    | Backoff(id: Id, rest: seq<Id>, after: After)           // waiting to call the handler again
    | Acking(id: Id, rest: seq<Id>, after: After)            // handler returned nil, XACK not yet confirmed

  /** The peerReclaim loop: idle, about to list from a cursor, or holding a page still to claim. */
  datatype Scan = NoScan | ScanAt(from: Id) | ScanListed(ids: seq<Id>, next: Option<Id>)

  datatype Node = Node(
    phase: Phase,
    beat: Option<Id>,    // the in-flight id the heartbeat has loaded and not yet claimed
    tickBy: Time,        // the heartbeat ticker fires again no later than this
    misses: nat,         // heartbeats of the in-flight entry that failed since its last good one
    scan: Scan,
    gc: seq<Info>)       // XINFO lines gcConsumers has still to look at

  datatype Steal = Steal(id: Id, thief: Name, at: Time)
  datatype Logged = Logged(id: Id, effect: Effect)

  /** The Redis side, which outlives the processes, and the history of the run, read by no step. */
  datatype Group = Group(
    log: seq<Option<Event>>,   // the stream, each entry as Parse sees it; None is a malformed envelope
    cursor: Id,                // the group's cursor: entries below it have been delivered
    pel: Pel,
    now: Time,
    calls: seq<Id>,            // history: handler calls, by entry
    effects: seq<Logged>,      // history: what those calls did
    handled: set<Id>,          // history: entries whose handler has returned nil
    acked: set<Id>,            // history
    steals: seq<Steal>)        // history: entries peerReclaim took over

  datatype State = State(g: Group, nodes: map<Name, Node>)

  /** Steps of the serial main loop: Run, selfReclaim, process. */
  datatype MainStep =
    | ListOwn
    | ClaimOwn
    | ReadNew
    | Process(luck: Luck)     // parse the next entry of the batch and call the handler
    | Retry(luck: Luck)
    | Act                     // the running call's next effect happens
    | Return
    | AckOk
    | AckReplyLost
    | Leave                   // the batch is done

  /** Steps of the background loops: heartbeat, peerReclaim, gcConsumers. */
  datatype SideStep =
    | BeatLoad
    | BeatClaim
    | BeatFail
    | ScanStart
    | ScanList
    | ScanClaim
    | ScanFail
    | GcInfo(infos: seq<Info>)
    | GcNext(ok: bool)

  datatype Step =
    | Append(entry: Option<Event>)
    | Tick(d: nat)
    | Start(c: Name)
    | Crash(c: Name)          // crash, cancellation, or a fatal error return
    | Main(c: Name, m: MainStep)
    | Side(c: Name, b: SideStep)

  const INIT := State(Group([], 0, map[], 0, [], [], {}, {}, []), map[])

  function InFlight(p: Phase): Option<Id> {
    match p
    case Calling(id, _, _, _, _) => Some(id)
    case Backoff(id, _, _) => Some(id)
    case Acking(id, _, _) => Some(id)
    case _ => None
  }

  function OwnPage(cfg: Setup, g: Group, c: Name): seq<Id> {
    List(g.pel, 0, g.cursor, cfg.count, Query(Some(c), 0, g.now))
  }

  function IdlePage(cfg: Setup, g: Group, from: Id): seq<Id> {
    List(g.pel, from, g.cursor, cfg.count, Query(None, cfg.minIdle, g.now))
  }

  function Steals(ids: seq<Id>, thief: Name, at: Time): seq<Steal> {
    seq(|ids|, i requires 0 <= i < |ids| => Steal(ids[i], thief, at))
  }

  function Min(a: nat, b: nat): nat { if a < b then a else b }

  /** A move of the main loop: the group afterwards, and the next phase unless the process stops. */
  datatype Move = Move(g: Group, phase: Option<Phase>)

  /** OnFatal: fail loud stops the process; a policy that returns nil leaves the entry unacked and goes on. */
  function Fatal(cfg: Setup, g: Group, rest: seq<Id>, after: After): Move {
    Move(g, if cfg.failLoud then None else Some(Working(rest, after)))
  }

  /** The handler is called on entry id; what the call will do and answer is fixed by luck. */
  function Call(cfg: Setup, g: Group, id: Id, evt: Event, luck: Luck, rest: seq<Id>, after: After): Move {
    var o := Handle(cfg.handler, evt, luck);
    Move(g.(calls := g.calls + [id]), Some(Calling(id, o.effects, o.reply, rest, after)))
  }

  predicate MainEnabled(g: Group, p: Phase, m: MainStep) {
    match m
    case ListOwn => p.Top?
    case ClaimOwn => p.SelfListed?
    case ReadNew => p.Reading?
    case Process(_) => p.Working? && p.batch != [] && p.batch[0] < |g.log|
    case Retry(_) => p.Backoff? && p.id < |g.log| && g.log[p.id].Some?
    case Act => p.Calling? && p.todo != []
    case Return => p.Calling? && p.todo == []
    case AckOk => p.Acking?
    case AckReplyLost => p.Acking?
    case Leave => p.Working? && p.batch == []
  }

  function MainMove(cfg: Setup, g: Group, c: Name, p: Phase, m: MainStep): Move
    requires MainEnabled(g, p, m)
  {
    match m
    case ListOwn =>
      var ids := OwnPage(cfg, g, c);
      Move(g, Some(if ids == [] then Reading else SelfListed(ids, |ids| >= cfg.count)))
    case ClaimOwn =>
      Move(g.(pel := Claim(g.pel, p.ids, c, 0, g.now)),
           Some(Working(Claimed(g.pel, p.ids, 0, g.now), if p.full then Again else Read)))
    case ReadNew =>
      var end := Min(g.cursor + cfg.count, if g.cursor < |g.log| then |g.log| else g.cursor);
      Move(g.(pel := Deliver(g.pel, g.cursor, end, c, g.now), cursor := end),
        Some(Working(Range(g.cursor, end), Again)))
    case Process(luck) =>
      (match g.log[p.batch[0]]
       case None => Fatal(cfg, g, p.batch[1..], p.after)
       case Some(evt) => Call(cfg, g, p.batch[0], evt, luck, p.batch[1..], p.after))
    case Retry(luck) => Call(cfg, g, p.id, g.log[p.id].value, luck, p.rest, p.after)
    case Act => Move(g.(effects := g.effects + [Logged(p.id, p.todo[0])]), Some(p.(todo := p.todo[1..])))
    case Return =>
      (match p.reply
       case Nil => Move(g.(handled := g.handled + {p.id}), Some(Acking(p.id, p.rest, p.after)))
       case Transient => Move(g, Some(Backoff(p.id, p.rest, p.after)))
       case _ => Fatal(cfg, g, p.rest, p.after))
    case AckOk => Move(g.(pel := Ack(g.pel, p.id), acked := g.acked + {p.id}), Some(Working(p.rest, p.after)))
    case AckReplyLost => Move(g.(pel := Ack(g.pel, p.id), acked := g.acked + {p.id}), Some(p))
    case Leave => Move(g, Some(if p.after.Again? then Top else Reading))
  }

  /** XINFO CONSUMERS counts pending entries correctly when it runs; idle times are the server's business. */
  predicate Truthful(pel: Pel, infos: seq<Info>) {
    forall i :: 0 <= i < |infos| ==> infos[i].pending == |Owned(pel, infos[i].name)|
  }

  predicate SideEnabled(g: Group, n: Node, b: SideStep) {
    match b
    case BeatLoad => n.beat.None?
    case BeatClaim => n.beat.Some?
    case BeatFail => n.beat.Some?
    case ScanStart => n.scan.NoScan?
    case ScanList => n.scan.ScanAt?
    case ScanClaim => n.scan.ScanListed?
    case ScanFail => true
    case GcInfo(infos) => n.gc == [] && Truthful(g.pel, infos)
    case GcNext(_) => n.gc != []
  }

  /** What a background step leaves of the pending list. */
  function SidePel(cfg: Setup, g: Group, c: Name, n: Node, b: SideStep): Pel
    requires SideEnabled(g, n, b)
  {
    match b
    case BeatClaim => Claim(g.pel, [n.beat.value], c, 0, g.now)
    case ScanClaim => Claim(g.pel, n.scan.ids, c, cfg.minIdle, g.now)
    case GcNext(ok) => if ok && Collectable(cfg.gcTimeout, n.gc[0], c) then DelConsumer(g.pel, n.gc[0].name) else g.pel
    case _ => g.pel
  }

  function SideSteals(cfg: Setup, g: Group, c: Name, n: Node, b: SideStep): seq<Steal>
    requires SideEnabled(g, n, b)
  {
    if b.ScanClaim? then Steals(Claimed(g.pel, n.scan.ids, cfg.minIdle, g.now), c, g.now) else []
  }

  /** What a background step leaves of what the process remembers. */
  function SideNode(cfg: Setup, g: Group, c: Name, n: Node, b: SideStep): Node
    requires SideEnabled(g, n, b)
  {
    match b
    case BeatLoad => n.(beat := InFlight(n.phase), tickBy := g.now + cfg.beatEvery)
    case BeatClaim => n.(beat := None, misses := if n.beat == InFlight(n.phase) then 0 else n.misses)
    case BeatFail => n.(beat := None, misses := if n.beat == InFlight(n.phase) then n.misses + 1 else n.misses)
    case ScanStart => n.(scan := ScanAt(0))
    case ScanList =>
      var page := IdlePage(cfg, g, n.scan.from);
      n.(scan :=
        if page == [] then NoScan
        else ScanListed(Foreign(g.pel, page, c), if |page| < cfg.count then None else Some(page[|page| - 1] + 1)))
    case ScanClaim => n.(scan := if n.scan.next.None? then NoScan else ScanAt(n.scan.next.value))
    case ScanFail => n.(scan := NoScan)
    case GcInfo(infos) => n.(gc := infos)
    case GcNext(_) => n.(gc := n.gc[1..])
  }

  predicate Enabled(s: State, step: Step) {
    match step
    case Append(_) => true
    case Tick(_) => true
    case Start(c) => c !in s.nodes
    case Crash(c) => c in s.nodes
    case Main(c, m) => c in s.nodes && MainEnabled(s.g, s.nodes[c].phase, m)
    case Side(c, b) => c in s.nodes && SideEnabled(s.g, s.nodes[c], b)
  }

  function NextGroup(cfg: Setup, s: State, step: Step): Group
    requires Enabled(s, step)
  {
    match step
    case Append(entry) => s.g.(log := s.g.log + [entry])
    case Tick(d) => s.g.(now := s.g.now + d)
    case Main(c, m) => MainMove(cfg, s.g, c, s.nodes[c].phase, m).g
    case Side(c, b) =>
      s.g.(pel := SidePel(cfg, s.g, c, s.nodes[c], b), steals := s.g.steals + SideSteals(cfg, s.g, c, s.nodes[c], b))
    case _ => s.g
  }

  /** What the acting process remembers afterwards; None when it is down. */
  function NextNode(cfg: Setup, s: State, step: Step): Option<Node>
    requires Enabled(s, step)
  {
    match step
    case Start(c) => Some(Node(Top, None, s.g.now + cfg.beatEvery, 0, NoScan, []))
    case Main(c, m) =>
      (match MainMove(cfg, s.g, c, s.nodes[c].phase, m).phase
       case None => None
       case Some(p) => Some(s.nodes[c].(phase := p, misses := if m.Process? then 0 else s.nodes[c].misses)))
    case Side(c, b) => Some(SideNode(cfg, s.g, c, s.nodes[c], b))
    case _ => None
  }

  function Actor(step: Step): Option<Name> {
    match step
    case Append(_) => None
    case Tick(_) => None
    case Start(c) => Some(c)
    case Crash(c) => Some(c)
    case Main(c, _) => Some(c)
    case Side(c, _) => Some(c)
  }

  function Apply(cfg: Setup, s: State, step: Step): State
    requires Enabled(s, step)
  {
    var actor := Actor(step);
    var n := NextNode(cfg, s, step);
    State(NextGroup(cfg, s, step),
          if actor.None? then s.nodes else if n.None? then s.nodes - {actor.value} else s.nodes[actor.value := n.value])
  }

  /** The state a list of steps leads to; None when some step is not possible where it stands. */
  function Run(cfg: Setup, s: State, steps: seq<Step>): Option<State> {
    if steps == [] then Some(s) else
      var last := steps[|steps| - 1];
      match Run(cfg, s, steps[..|steps| - 1])
      case None => None
      case Some(t) => if Enabled(t, last) then Some(Apply(cfg, t, last)) else None
  }

  lemma {:induction false} RunConcat(cfg: Setup, s: State, a: seq<Step>, b: seq<Step>)
    ensures Run(cfg, s, a + b) == match Run(cfg, s, a) case None => None case Some(t) => Run(cfg, t, b)
  {
    if b == [] {
      assert a + b == a;
    } else {
      RunConcat(cfg, s, a, b[..|b| - 1]);
      assert (a + b)[..|a + b| - 1] == a + b[..|b| - 1];
    }
  }

  ghost predicate Reachable(cfg: Setup, s: State) {
    exists steps :: Run(cfg, INIT, steps) == Some(s)
  }

  lemma ReachableStep(cfg: Setup, s: State, step: Step)
    requires Reachable(cfg, s) && Enabled(s, step)
    ensures Reachable(cfg, Apply(cfg, s, step))
  {
    var steps :| Run(cfg, INIT, steps) == Some(s);
    assert (steps + [step])[..|steps|] == steps;
    assert Run(cfg, INIT, steps + [step]) == Some(Apply(cfg, s, step));
  }
}
