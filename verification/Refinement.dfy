/**
 The transition system does what the code's loops do (internal/consume/consume.go): what the process and retry loops
 do to an entry is a run of the protocol's steps, with the same calls, the same effect on the pending list, and
 the matching end. The consumer's methods take these steps along with their own.
 */
module Refinement {
  import opened Wrappers
  import opened Events
  import opened PendingList
  import opened Pipeline
  import opened Protocol
  import opened Recovery

  /** What becomes of an XACK attempt. */
  datatype AckFate = Acked | AckedReplyLost | NotAcked

  /** How a loop returns: nil, ctx.Err(), the error of OnFatal, or a Redis error. */
  datatype Exit = Nothing | Cancelled | FailedLoud | RedisError

  /** n calls on one entry. */
  function Repeat(id: Id, n: nat): seq<Id> {
    seq(n, i => id)
  }

  /** Nothing but the call log and the effects has changed. */
  predicate OnlyCalled(g: Group, h: Group, id: Id, n: nat) {
    h == g.(calls := g.calls + Repeat(id, n), effects := h.effects)
  }

  lemma RepeatOnce(calls: seq<Id>, id: Id, n: nat)
    ensures calls + Repeat(id, n) + [id] == calls + Repeat(id, n + 1)
    ensures calls + [id] == calls + Repeat(id, 1) && calls + Repeat(id, 0) == calls
  {
  }

  /** The first call. */
  lemma FirstCall(cfg: Setup, s: State, c: Name, id: Id, rest: seq<Id>, after: After, luck: Luck) returns (t: State)
    requires At(s, c, Working([id] + rest, after)) && id < |s.g.log| && s.g.log[id].Some?
    ensures Leads(cfg, s, t) && OnlyCalled(s.g, t.g, id, 1)
    ensures At(t, c, Calling(id, [], Handle(cfg.handler, s.g.log[id].value, luck).reply, rest, after))
  {
    assert ([id] + rest)[1..] == rest;
    LeadsNowhere(cfg, s);
    LeadsOn(cfg, s, s, Main(c, Process(luck)));
    var u := Apply(cfg, s, Main(c, Process(luck)));
    t := ActAll(cfg, u, c);
    LeadsThrough(cfg, s, u, t);
    RepeatOnce(s.g.calls, id, 0);
  }

  /** A transient failure, and the call after it. */
  lemma NextCall(cfg: Setup, s: State, c: Name, id: Id, rest: seq<Id>, after: After, luck: Luck) returns (t: State)
    requires At(s, c, Calling(id, [], Transient, rest, after)) && id < |s.g.log| && s.g.log[id].Some?
    ensures Leads(cfg, s, t) && t.g == s.g.(calls := s.g.calls + [id], effects := t.g.effects)
    ensures At(t, c, Calling(id, [], Handle(cfg.handler, s.g.log[id].value, luck).reply, rest, after))
  {
    LeadsNowhere(cfg, s);
    LeadsOn(cfg, s, s, Main(c, Return));
    var u := Apply(cfg, s, Main(c, Return));
    LeadsOn(cfg, s, u, Main(c, Retry(luck)));
    var v := Apply(cfg, u, Main(c, Retry(luck)));
    t := ActAll(cfg, v, c);
    LeadsThrough(cfg, s, v, t);
  }

  /** What the n-th handler call answers, if it is made on this event. */
  function ReplyTo(handler: Handler, evt: Event, luck: nat -> Luck, n: nat): Reply {
    Handle(handler, evt, luck(n)).reply
  }

  /** The retry loop. */
  lemma {:induction false} CallsAreARun(cfg: Setup, s: State, c: Name, id: Id, rest: seq<Id>, after: After,
      luck: nat -> Luck, from: nat, end: nat)
    returns (t: State)
    requires At(s, c, Working([id] + rest, after)) && id < |s.g.log| && s.g.log[id].Some? && from < end
    requires forall n :: from <= n < end - 1 ==> ReplyTo(cfg.handler, s.g.log[id].value, luck, n).Transient?
    ensures Leads(cfg, s, t) && OnlyCalled(s.g, t.g, id, end - from)
    ensures At(t, c, Calling(id, [], ReplyTo(cfg.handler, s.g.log[id].value, luck, end - 1), rest, after))
    decreases end - from
  {
    if from + 1 == end {
      t := FirstCall(cfg, s, c, id, rest, after, luck(from));
    } else {
      var u := CallsAreARun(cfg, s, c, id, rest, after, luck, from, end - 1);
      t := NextCall(cfg, u, c, id, rest, after, luck(end - 1));
      LeadsThrough(cfg, s, u, t);
      RepeatOnce(s.g.calls, id, end - 1 - from);
    }
  }

  /** Some attempt from..end took effect. */
  predicate Took(ackFate: nat -> AckFate, from: nat, end: nat) {
    exists n :: from <= n < end && ackFate(n) != NotAcked
  }

  function AckedIf(pel: Pel, id: Id, took: bool): Pel {
    if took then Ack(pel, id) else pel
  }

  /** The ack loop: an attempt that gets lost is no step, one whose reply gets lost removes the entry all the same. */
  lemma {:induction false} AcksAreARun(cfg: Setup, s: State, c: Name, id: Id, rest: seq<Id>, after: After,
      ackFate: nat -> AckFate, from: nat, end: nat)
    returns (t: State)
    requires At(s, c, Acking(id, rest, after)) && from <= end
    requires forall n :: from <= n < end - 1 ==> ackFate(n) != Acked
    ensures Leads(cfg, s, t) && t.g == s.g.(pel := AckedIf(s.g.pel, id, Took(ackFate, from, end)), acked := t.g.acked)
    ensures At(t, c, if from < end && ackFate(end - 1) == Acked then Working(rest, after) else Acking(id, rest, after))
    decreases end - from
  {
    if from == end {
      LeadsNowhere(cfg, s);
      t := s;
    } else {
      var u := AcksAreARun(cfg, s, c, id, rest, after, ackFate, from, end - 1);
      t := OneAttempt(cfg, u, c, id, rest, after, ackFate(end - 1));
      LeadsThrough(cfg, s, u, t);
      assert Took(ackFate, from, end) <==> Took(ackFate, from, end - 1) || ackFate(end - 1) != NotAcked;
    }
  }

  lemma OneAttempt(cfg: Setup, s: State, c: Name, id: Id, rest: seq<Id>, after: After, fate: AckFate)
    returns (t: State)
    requires At(s, c, Acking(id, rest, after))
    ensures Leads(cfg, s, t) && t.g == s.g.(pel := AckedIf(s.g.pel, id, fate != NotAcked), acked := t.g.acked)
    ensures At(t, c, if fate == Acked then Working(rest, after) else Acking(id, rest, after))
  {
    LeadsNowhere(cfg, s);
    match fate {
      case Acked =>
        LeadsOn(cfg, s, s, Main(c, AckOk));
        t := Apply(cfg, s, Main(c, AckOk));
      case AckedReplyLost =>
        LeadsOn(cfg, s, s, Main(c, AckReplyLost));
        t := Apply(cfg, s, Main(c, AckReplyLost));
      case NotAcked => t := s;
    }
  }

  /** What Consumer.Process promises about its calls and ack attempts, and how it returned. */
  predicate Processed(cfg: Setup, log: seq<Option<Event>>, id: Id, luck: nat -> Luck, n0: nat, n1: nat,
      ackFate: nat -> AckFate, a0: nat, a1: nat, r: Exit)
    requires id < |log|
  {
    if log[id].None? then n1 == n0 && a1 == a0 && r == Fatally(cfg) else
      && n0 < n1 && (forall n :: n0 <= n < n1 - 1 ==> ReplyTo(cfg.handler, log[id].value, luck, n).Transient?)
      && (forall n :: a0 <= n < a1 - 1 ==> ackFate(n) != Acked)
      && match ReplyTo(cfg.handler, log[id].value, luck, n1 - 1)
         case Nil => a0 < a1 && r == if ackFate(a1 - 1) == Acked then Nothing else Cancelled
         case Transient => a1 == a0 && r == Cancelled
         case _ => a1 == a0 && r == Fatally(cfg)
  }

  function Fatally(cfg: Setup): Exit {
    if cfg.failLoud then FailedLoud else Nothing
  }

  /** Where the process is after it: done with the entry, stopped, or still at it when the context ended. */
  predicate Matches(t: State, c: Name, id: Id, rest: seq<Id>, after: After, r: Exit) {
    match r
    case Nothing => At(t, c, Working(rest, after))
    case FailedLoud => c !in t.nodes
    case _ => c in t.nodes && InFlight(t.nodes[c].phase) == Some(id)
  }

  lemma FatalCall(cfg: Setup, s: State, c: Name, id: Id, rest: seq<Id>, after: After, reply: Reply) returns (t: State)
    requires At(s, c, Calling(id, [], reply, rest, after)) && (reply.Poison? || reply.Panic?)
    ensures Leads(cfg, s, t) && t.g == s.g && Matches(t, c, id, rest, after, Fatally(cfg))
  {
    LeadsNowhere(cfg, s);
    LeadsOn(cfg, s, s, Main(c, Return));
    t := Apply(cfg, s, Main(c, Return));
  }

  lemma Malformed(cfg: Setup, s: State, c: Name, id: Id, rest: seq<Id>, after: After, luck: Luck) returns (t: State)
    requires At(s, c, Working([id] + rest, after)) && id < |s.g.log| && s.g.log[id].None?
    ensures Leads(cfg, s, t) && t.g == s.g && Matches(t, c, id, rest, after, Fatally(cfg))
  {
    assert ([id] + rest)[1..] == rest;
    LeadsNowhere(cfg, s);
    LeadsOn(cfg, s, s, Main(c, Process(luck)));
    t := Apply(cfg, s, Main(c, Process(luck)));
  }

  /** A nil return, and the ack attempts after it. */
  lemma Succeeded(cfg: Setup, s: State, c: Name, id: Id, rest: seq<Id>, after: After,
      ackFate: nat -> AckFate, a0: nat, a1: nat)
    returns (t: State)
    requires At(s, c, Calling(id, [], Nil, rest, after)) && a0 < a1
    requires forall n :: a0 <= n < a1 - 1 ==> ackFate(n) != Acked
    ensures Leads(cfg, s, t) && t.g.log == s.g.log && t.g.cursor == s.g.cursor && t.g.now == s.g.now
    ensures t.g.calls == s.g.calls && t.g.pel == AckedIf(s.g.pel, id, Took(ackFate, a0, a1)) && id in t.g.handled
    ensures At(t, c, if ackFate(a1 - 1) == Acked then Working(rest, after) else Acking(id, rest, after))
  {
    LeadsNowhere(cfg, s);
    LeadsOn(cfg, s, s, Main(c, Return));
    var u := Apply(cfg, s, Main(c, Return));
    t := AcksAreARun(cfg, u, c, id, rest, after, ackFate, a0, a1);
    LeadsThrough(cfg, s, u, t);
  }

  /** Whatever the script answers, what Process does is a run of the protocol. */
  lemma ProcessIsARun(cfg: Setup, s: State, c: Name, id: Id, rest: seq<Id>, after: After, luck: nat -> Luck, n0: nat,
      n1: nat, ackFate: nat -> AckFate, a0: nat, a1: nat, r: Exit)
    returns (t: State)
    requires At(s, c, Working([id] + rest, after)) && id < |s.g.log|
    requires Processed(cfg, s.g.log, id, luck, n0, n1, ackFate, a0, a1, r)
    ensures Leads(cfg, s, t) && SameStream(s.g, t.g) && Matches(t, c, id, rest, after, r)
    ensures t.g.calls == s.g.calls + Repeat(id, n1 - n0) && t.g.pel == AckedIf(s.g.pel, id, Took(ackFate, a0, a1))
    ensures a0 < a1 ==> id in t.g.handled
  {
    if s.g.log[id].None? {
      t := Malformed(cfg, s, c, id, rest, after, luck(0));
      RepeatOnce(s.g.calls, id, 0);
    } else {
      var u := CallsAreARun(cfg, s, c, id, rest, after, luck, n0, n1);
      var reply := ReplyTo(cfg.handler, s.g.log[id].value, luck, n1 - 1);
      match reply {
        case Nil => t := Succeeded(cfg, u, c, id, rest, after, ackFate, a0, a1);
        case Transient =>
          LeadsNowhere(cfg, u);
          t := u;
        case _ => t := FatalCall(cfg, u, c, id, rest, after, reply);
      }
      LeadsThrough(cfg, s, u, t);
    }
  }

  // ---- single steps ----

  /** Whatever holds of s and is kept by every step holds of t: t is where some run from s leads. */
  ghost predicate Follows(cfg: Setup, s: State, t: State) {
    forall P: State -> bool :: P(s) && Kept(cfg, P) ==> P(t)
  }

  ghost predicate Kept(cfg: Setup, P: State -> bool) {
    forall u, step :: P(u) && Enabled(u, step) ==> P(Apply(cfg, u, step))
  }

  lemma FollowsIsLeads(cfg: Setup, s: State, t: State)
    ensures Follows(cfg, s, t) <==> Leads(cfg, s, t)
  {
    if Leads(cfg, s, t) {
      var steps :| Run(cfg, s, steps) == Some(t);
      forall P: State -> bool | P(s) && Kept(cfg, P) ensures P(t) { KeptAlong(cfg, s, steps, t, P); }
    }
    if Follows(cfg, s, t) {
      var P := (u: State) => Leads(cfg, s, u);
      LeadsNowhere(cfg, s);
      forall u, step | P(u) && Enabled(u, step) ensures P(Apply(cfg, u, step)) { LeadsOn(cfg, s, u, step); }
      assert P(s) && Kept(cfg, P);
    }
  }

  lemma {:induction false} KeptAlong(cfg: Setup, s: State, steps: seq<Step>, t: State, P: State -> bool)
    requires Run(cfg, s, steps) == Some(t) && P(s) && Kept(cfg, P)
    ensures P(t)
  {
    if steps != [] {
      var last := |steps| - 1;
      KeptAlong(cfg, s, steps[..last], Run(cfg, s, steps[..last]).value, P);
    }
  }

  /** What holds of every reachable state holds of where a consumer that has started in one ends up. */
  lemma ReachableThroughout(cfg: Setup, s: State, t: State)
    requires Reachable(cfg, s) && Follows(cfg, s, t)
    ensures Reachable(cfg, t)
  {
    FollowsIsLeads(cfg, s, t);
    ReachableOn(cfg, s, t);
  }

  lemma FollowsOn(cfg: Setup, s: State, t: State, step: Step)
    requires Follows(cfg, s, t) && Enabled(t, step)
    ensures Follows(cfg, s, Apply(cfg, t, step))
  {
    FollowsIsLeads(cfg, s, t);
    LeadsOn(cfg, s, t, step);
    FollowsIsLeads(cfg, s, Apply(cfg, t, step));
  }

  lemma FollowsThrough(cfg: Setup, s: State, t: State, u: State)
    requires Follows(cfg, s, t) && Leads(cfg, t, u)
    ensures Follows(cfg, s, u)
  {
    FollowsIsLeads(cfg, t, u);
  }

  /** The process works on the first entry of its batch. */
  lemma FollowProcess(cfg: Setup, s0: State, s: State, c: Name, id: Id, rest: seq<Id>, after: After, luck: nat -> Luck,
      n0: nat, n1: nat, ackFate: nat -> AckFate, a0: nat, a1: nat, r: Exit)
    returns (t: State)
    requires Follows(cfg, s0, s) && At(s, c, Working([id] + rest, after)) && id < |s.g.log|
    requires Processed(cfg, s.g.log, id, luck, n0, n1, ackFate, a0, a1, r)
    ensures Follows(cfg, s0, t) && SameStream(s.g, t.g) && Matches(t, c, id, rest, after, r)
    ensures t.g.calls == s.g.calls + Repeat(id, n1 - n0) && t.g.pel == AckedIf(s.g.pel, id, Took(ackFate, a0, a1))
  {
    t := ProcessIsARun(cfg, s, c, id, rest, after, luck, n0, n1, ackFate, a0, a1, r);
    FollowsThrough(cfg, s0, s, t);
  }

  /** A step of the main loop that goes on. */
  lemma TakeMain(cfg: Setup, s0: State, s: State, c: Name, m: MainStep) returns (t: State)
    requires Follows(cfg, s0, s) && c in s.nodes && MainEnabled(s.g, s.nodes[c].phase, m)
    requires MainMove(cfg, s.g, c, s.nodes[c].phase, m).phase.Some?
    ensures Follows(cfg, s0, t)
    ensures var move := MainMove(cfg, s.g, c, s.nodes[c].phase, m); t.g == move.g && At(t, c, move.phase.value)
  {
    FollowsOn(cfg, s0, s, Main(c, m));
    t := Apply(cfg, s, Main(c, m));
  }

  /** The main loop has not moved. */
  predicate SamePhase(s: State, t: State, c: Name) {
    c in s.nodes && c in t.nodes && s.nodes[c].phase == t.nodes[c].phase
  }

  /** A step of a background loop. */
  lemma TakeSide(cfg: Setup, s0: State, s: State, c: Name, b: SideStep) returns (t: State)
    requires Follows(cfg, s0, s) && c in s.nodes && SideEnabled(s.g, s.nodes[c], b)
    ensures Follows(cfg, s0, t) && SamePhase(s, t, c) && t.nodes[c] == SideNode(cfg, s.g, c, s.nodes[c], b)
    ensures t.g == s.g.(pel := SidePel(cfg, s.g, c, s.nodes[c], b), steals := t.g.steals)
  {
    FollowsOn(cfg, s0, s, Side(c, b));
    t := Apply(cfg, s, Side(c, b));
  }

  /** peerReclaim lists a page. */
  lemma TakeScanList(cfg: Setup, s0: State, s: State, c: Name, page: seq<Id>) returns (t: State)
    requires Follows(cfg, s0, s) && c in s.nodes && s.nodes[c].scan.ScanAt?
    requires page == IdlePage(cfg, s.g, s.nodes[c].scan.from)
    ensures Follows(cfg, s0, t) && SamePhase(s, t, c) && t.g == s.g.(steals := t.g.steals)
    ensures t.nodes[c].scan == ScanOf(cfg, s.g, c, page)
  {
    t := TakeSide(cfg, s0, s, c, ScanList);
  }

  /** What peerReclaim makes of a page. */
  function ScanOf(cfg: Setup, g: Group, c: Name, page: seq<Id>): Scan {
    if page == [] then NoScan
    else ScanListed(Foreign(g.pel, page, c), if |page| < cfg.count then None else Some(page[|page| - 1] + 1))
  }

  /** The process ends. */
  lemma Stop(cfg: Setup, s0: State, s: State, c: Name) returns (t: State)
    requires Follows(cfg, s0, s)
    ensures Follows(cfg, s0, t) && t.g == s.g && c !in t.nodes
  {
    t := s;
    if c in s.nodes {
      FollowsOn(cfg, s0, s, Crash(c));
      t := Apply(cfg, s, Crash(c));
    }
  }
}
