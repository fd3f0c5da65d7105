/**
 No reachable state is a dead end (internal/consume/consume.go): a process that starts now can take over a
 pending entry, handle it and acknowledge it, whatever the processes before it have left behind.
 */
module Recovery {
  import opened Wrappers
  import opened Events
  import opened PendingList
  import opened OwnEntries
  import opened Pipeline
  import opened Protocol
  import opened Conservation
  import opened Takeovers

  ghost predicate Leads(cfg: Setup, s: State, t: State) {
    exists steps :: Run(cfg, s, steps) == Some(t)
  }

  lemma LeadsNowhere(cfg: Setup, s: State)
    ensures Leads(cfg, s, s)
  {
    assert Run(cfg, s, []) == Some(s);
  }

  lemma LeadsOn(cfg: Setup, s: State, t: State, step: Step)
    requires Leads(cfg, s, t) && Enabled(t, step)
    ensures Leads(cfg, s, Apply(cfg, t, step))
  {
    var steps :| Run(cfg, s, steps) == Some(t);
    assert (steps + [step])[..|steps|] == steps;
    assert Run(cfg, s, steps + [step]) == Some(Apply(cfg, t, step));
  }

  lemma LeadsThrough(cfg: Setup, s: State, t: State, u: State)
    requires Leads(cfg, s, t) && Leads(cfg, t, u)
    ensures Leads(cfg, s, u)
  {
    var a :| Run(cfg, s, a) == Some(t);
    var b :| Run(cfg, t, b) == Some(u);
    RunConcat(cfg, s, a, b);
    assert Run(cfg, s, a + b) == Some(u);
  }

  /** The entry is well-formed, and every column its enrich rules bind has a value. */
  predicate Curable(cfg: Setup, log: seq<Option<Event>>, x: Id) {
    x < |log| && log[x].Some? && Bindable(cfg.handler, log[x].value)
  }

  function Own(g: Group, p: Name): seq<Id> {
    OwnIds(g.pel, p, 0, g.cursor)
  }

  /** The stream, the cursor and the clock are the same. */
  predicate SameStream(g: Group, h: Group) {
    g.log == h.log && g.cursor == h.cursor && g.now == h.now
  }

  ghost predicate Settled(g: Group) {
    g.cursor <= |g.log| && forall id :: id in g.pel ==> id < g.cursor && g.pel[id].since <= g.now
  }

  predicate At(s: State, p: Name, phase: Phase) {
    p in s.nodes && s.nodes[p].phase == phase
  }

  /** The effects of the running call happen one by one. */
  lemma {:induction false} ActAll(cfg: Setup, s: State, p: Name) returns (t: State)
    requires p in s.nodes && s.nodes[p].phase.Calling?
    ensures Leads(cfg, s, t) && t.g == s.g.(effects := t.g.effects)
    ensures At(t, p, s.nodes[p].phase.(todo := []))
    decreases |s.nodes[p].phase.todo|
  {
    LeadsNowhere(cfg, s);
    t := s;
    if s.nodes[p].phase.todo != [] {
      LeadsOn(cfg, s, s, Main(p, Act));
      var u := Apply(cfg, s, Main(p, Act));
      t := ActAll(cfg, u, p);
      LeadsThrough(cfg, s, u, t);
    }
  }

  /** Return nil, and a confirmed ack. */
  lemma ReturnAndAck(cfg: Setup, s: State, p: Name, x: Id, rest: seq<Id>, after: After) returns (t: State)
    requires At(s, p, Calling(x, [], Nil, rest, after))
    ensures Leads(cfg, s, t) && SameStream(s.g, t.g) && t.g.pel == Ack(s.g.pel, x) && t.g.acked == s.g.acked + {x}
    ensures At(t, p, Working(rest, after))
  {
    LeadsNowhere(cfg, s);
    LeadsOn(cfg, s, s, Main(p, Return));
    var u := Apply(cfg, s, Main(p, Return));
    LeadsOn(cfg, s, u, Main(p, AckOk));
    t := Apply(cfg, u, Main(p, AckOk));
  }

  lemma CallHead(cfg: Setup, s: State, p: Name, batch: seq<Id>, after: After, luck: Luck) returns (t: State)
    requires At(s, p, Working(batch, after)) && batch != [] && batch[0] < |s.g.log| && s.g.log[batch[0]].Some?
    requires Handle(cfg.handler, s.g.log[batch[0]].value, luck).reply.Nil?
    ensures Leads(cfg, s, t) && SameStream(s.g, t.g) && t.g.pel == s.g.pel && t.g.acked == s.g.acked
    ensures var fx := Handle(cfg.handler, s.g.log[batch[0]].value, luck).effects;
            At(t, p, Calling(batch[0], fx, Nil, batch[1..], after))
  {
    LeadsNowhere(cfg, s);
    LeadsOn(cfg, s, s, Main(p, Process(luck)));
    t := Apply(cfg, s, Main(p, Process(luck)));
  }

  /** A curable entry at the head of the batch can be handled and acknowledged. */
  lemma ServeHead(cfg: Setup, s: State, p: Name, batch: seq<Id>, after: After) returns (t: State)
    requires Composed(cfg.handler)
    requires At(s, p, Working(batch, after)) && batch != [] && Curable(cfg, s.g.log, batch[0])
    ensures Leads(cfg, s, t) && SameStream(s.g, t.g) && t.g.pel == Ack(s.g.pel, batch[0]) &&
            t.g.acked == s.g.acked + {batch[0]}
    ensures At(t, p, Working(batch[1..], after))
  {
    CanSucceed(cfg.handler, s.g.log[batch[0]].value);
    var luck :| Handle(cfg.handler, s.g.log[batch[0]].value, luck).reply.Nil?;
    var u := CallHead(cfg, s, p, batch, after, luck);
    var v := ActAll(cfg, u, p);
    LeadsThrough(cfg, s, u, v);
    t := ReturnAndAck(cfg, v, p, batch[0], batch[1..], after);
    LeadsThrough(cfg, s, v, t);
  }

  lemma {:induction false} OwnHeadIsLeast(pel: Pel, p: Name, from: Id, end: Id, id: Id)
    requires id in OwnIds(pel, p, from, end)
    ensures OwnIds(pel, p, from, end)[0] <= id
    decreases end - from
  {
    if !(from in pel && pel[from].owner == p) { OwnHeadIsLeast(pel, p, from + 1, end, id); }
  }

  /** The own entries are listed. */
  lemma ListFirst(cfg: Setup, s: State, p: Name) returns (t: State, ids: seq<Id>)
    requires cfg.count > 0 && At(s, p, Top) && Settled(s.g) && Own(s.g, p) != []
    ensures Leads(cfg, s, t) && t.g == s.g && At(t, p, SelfListed(ids, |ids| >= cfg.count))
    ensures ids != [] && ids <= Own(s.g, p) && (|ids| < cfg.count ==> ids == Own(s.g, p))
  {
    ids := OwnPage(cfg, s.g, p);
    PageOfOwn(s.g.pel, p, 0, s.g.cursor, cfg.count, Query(Some(p), 0, s.g.now));
    LeadsNowhere(cfg, s);
    LeadsOn(cfg, s, s, Main(p, ListOwn));
    t := Apply(cfg, s, Main(p, ListOwn));
  }

  /** Then the list is claimed. */
  lemma ClaimNext(cfg: Setup, s: State, p: Name, ids: seq<Id>, full: bool) returns (t: State)
    requires At(s, p, SelfListed(ids, full)) && Settled(s.g) && ids <= Own(s.g, p)
    ensures Leads(cfg, s, t) && SameStream(s.g, t.g) && Settled(t.g) && t.g.acked == s.g.acked
    ensures Own(t.g, p) == Own(s.g, p) && At(t, p, Working(ids, if full then Again else Read))
  {
    ClaimOwnHead(s.g.pel, ids, p, s.g.cursor, s.g.now);
    LeadsNowhere(cfg, s);
    LeadsOn(cfg, s, s, Main(p, ClaimOwn));
    t := Apply(cfg, s, Main(p, ClaimOwn));
  }

  lemma ListAndClaim(cfg: Setup, s: State, p: Name) returns (t: State, ids: seq<Id>, after: After)
    requires cfg.count > 0 && At(s, p, Top) && Settled(s.g) && Own(s.g, p) != []
    ensures Leads(cfg, s, t) && SameStream(s.g, t.g) && Settled(t.g) && t.g.acked == s.g.acked
    ensures Own(t.g, p) == Own(s.g, p)
    ensures At(t, p, Working(ids, after)) && ids != [] && ids <= Own(t.g, p) && (after.Read? ==> ids == Own(t.g, p))
  {
    var u;
    u, ids := ListFirst(cfg, s, p);
    t := ClaimNext(cfg, u, p, ids, |ids| >= cfg.count);
    LeadsThrough(cfg, s, u, t);
    after := if |ids| >= cfg.count then Again else Read;
  }

  /** p is about to work towards e: the batch in hand begins its queue, and all of its queue up to e can be handled. */
  ghost predicate Ready(cfg: Setup, s: State, p: Name, e: Id) {
    && p in s.nodes && Settled(s.g) && e in Own(s.g, p)
    && (forall x :: x in Own(s.g, p) && x <= e ==> Curable(cfg, s.g.log, x))
    && match s.nodes[p].phase
       case Top => true
       case Working(batch, after) => batch <= Own(s.g, p) && (after.Read? ==> batch == Own(s.g, p))
       case _ => false
  }

  function Rank(p: Phase): nat {
    if p.Top? then 1 else if p.Working? && p.batch == [] then 2 else 0
  }

  /** The queue without its head. */
  lemma QueueAdvances(g: Group, h: Group, p: Name, e: Id)
    requires Settled(g) && SameStream(g, h) && e in Own(g, p) && h.pel == Ack(g.pel, Own(g, p)[0])
    ensures Own(g, p)[0] <= e && Settled(h) && Own(h, p) == Own(g, p)[1..]
    ensures forall x :: x in Own(h, p) ==> x in Own(g, p)
    ensures e != Own(g, p)[0] ==> e in Own(h, p)
  {
    var own := Own(g, p);
    OwnHeadIsLeast(g.pel, p, 0, g.cursor, e);
    OwnIdsAck(g.pel, p, 0, g.cursor);
    assert own == [own[0]] + own[1..];
  }

  lemma ServeQueue(cfg: Setup, s: State, p: Name, e: Id) returns (t: State)
    requires Composed(cfg.handler) && Ready(cfg, s, p, e) && s.nodes[p].phase.Working? && s.nodes[p].phase.batch != []
    ensures Leads(cfg, s, t)
    ensures e in t.g.acked || (Ready(cfg, t, p, e) && |Own(t.g, p)| < |Own(s.g, p)|)
  {
    var batch, own := s.nodes[p].phase.batch, Own(s.g, p);
    OwnHeadIsLeast(s.g.pel, p, 0, s.g.cursor, e);
    assert batch[0] == own[0] && own[0] in own;
    t := ServeHead(cfg, s, p, batch, s.nodes[p].phase.after);
    QueueAdvances(s.g, t.g, p, e);
  }

  lemma {:induction false} Drain(cfg: Setup, s: State, p: Name, e: Id) returns (t: State)
    requires Composed(cfg.handler) && cfg.count > 0 && Ready(cfg, s, p, e)
    ensures Leads(cfg, s, t) && e in t.g.acked
    decreases |Own(s.g, p)|, Rank(s.nodes[p].phase)
  {
    var u: State;
    if s.nodes[p].phase.Top? {
      var ids, after;
      u, ids, after := ListAndClaim(cfg, s, p);
      t := Drain(cfg, u, p, e);
    } else if s.nodes[p].phase.batch == [] {
      LeadsNowhere(cfg, s);
      LeadsOn(cfg, s, s, Main(p, Leave));
      u := Apply(cfg, s, Main(p, Leave));
      t := Drain(cfg, u, p, e);
    } else {
      u := ServeQueue(cfg, s, p, e);
      t := u;
      LeadsNowhere(cfg, u);
      if e !in u.g.acked { t := Drain(cfg, u, p, e); }
    }
    LeadsThrough(cfg, s, u, t);
  }

  /** p scans from a cursor, with everything stealable below it taken over. */
  ghost predicate Scanning(cfg: Setup, s: State, p: Name, pel: Pel, from: Id) {
    && At(s, p, Top) && s.nodes[p].scan == ScanAt(from) && from <= s.g.cursor
    && s.g.pel == TakeOverBelow(pel, p, cfg.minIdle, s.g.now, from)
    && forall id :: id in pel ==> id < s.g.cursor
  }

  /** What a page is followed by: the scan goes on behind it, or is over with everything taken. */
  ghost predicate Scanned(cfg: Setup, s: State, t: State, p: Name, pel: Pel, next: Id) {
    && Leads(cfg, s, t) && SameStream(s.g, t.g) && At(t, p, Top) && next <= s.g.cursor
    && t.g.pel == TakeOverBelow(pel, p, cfg.minIdle, s.g.now, next)
    && (next == s.g.cursor || t.nodes[p].scan == ScanAt(next))
  }

  lemma EmptyPage(cfg: Setup, s: State, p: Name, pel: Pel, from: Id) returns (t: State)
    requires cfg.count > 0 && Scanning(cfg, s, p, pel, from) && IdlePage(cfg, s.g, from) == []
    ensures Scanned(cfg, s, t, p, pel, s.g.cursor)
  {
    PageTakesOver(pel, p, cfg.minIdle, s.g.now, from, s.g.cursor, cfg.count);
    ClaimNothing(s.g.pel, p, cfg.minIdle, s.g.now);
    LeadsNowhere(cfg, s);
    LeadsOn(cfg, s, s, Side(p, ScanList));
    t := Apply(cfg, s, Side(p, ScanList));
  }

  /** A page with entries is listed. */
  lemma ListPage(cfg: Setup, s: State, p: Name, from: Id) returns (t: State)
    requires At(s, p, Top) && s.nodes[p].scan == ScanAt(from) && IdlePage(cfg, s.g, from) != []
    ensures Leads(cfg, s, t) && SameStream(s.g, t.g) && t.g.pel == s.g.pel && At(t, p, Top)
    ensures var page := IdlePage(cfg, s.g, from);
            t.nodes[p].scan ==
            ScanListed(Foreign(s.g.pel, page, p), if |page| < cfg.count then None else Some(page[|page| - 1] + 1))
  {
    LeadsNowhere(cfg, s);
    LeadsOn(cfg, s, s, Side(p, ScanList));
    t := Apply(cfg, s, Side(p, ScanList));
  }

  /** What was listed is claimed. */
  lemma ClaimPage(cfg: Setup, s: State, p: Name) returns (t: State)
    requires At(s, p, Top) && s.nodes[p].scan.ScanListed?
    ensures Leads(cfg, s, t) && SameStream(s.g, t.g) && At(t, p, Top)
    ensures t.g.pel == Claim(s.g.pel, s.nodes[p].scan.ids, p, cfg.minIdle, s.g.now)
    ensures t.nodes[p].scan == if s.nodes[p].scan.next.None? then NoScan else ScanAt(s.nodes[p].scan.next.value)
  {
    LeadsNowhere(cfg, s);
    LeadsOn(cfg, s, s, Side(p, ScanClaim));
    t := Apply(cfg, s, Side(p, ScanClaim));
  }

  lemma ScanPage(cfg: Setup, s: State, p: Name, pel: Pel, from: Id) returns (t: State, next: Id)
    requires cfg.count > 0 && Scanning(cfg, s, p, pel, from)
    ensures Scanned(cfg, s, t, p, pel, next) && (next == s.g.cursor || from < next)
  {
    var page := IdlePage(cfg, s.g, from);
    if page == [] {
      next := s.g.cursor;
      t := EmptyPage(cfg, s, p, pel, from);
    } else {
      PageTakesOver(pel, p, cfg.minIdle, s.g.now, from, s.g.cursor, cfg.count);
      next := NextCursor(page, cfg.count, from, s.g.cursor);
      var u := ListPage(cfg, s, p, from);
      t := ClaimPage(cfg, u, p);
      LeadsThrough(cfg, s, u, t);
    }
  }

  lemma {:induction false} ScanAll(cfg: Setup, s: State, p: Name, pel: Pel, from: Id) returns (t: State)
    requires cfg.count > 0 && Scanning(cfg, s, p, pel, from)
    ensures Leads(cfg, s, t) && SameStream(s.g, t.g) && At(t, p, Top)
    ensures t.g.pel == TakeOverBelow(pel, p, cfg.minIdle, s.g.now, s.g.cursor)
    decreases s.g.cursor - from
  {
    var next;
    t, next := ScanPage(cfg, s, p, pel, from);
    if next != s.g.cursor {
      var u := t;
      t := ScanAll(cfg, u, p, pel, next);
      LeadsThrough(cfg, s, u, t);
    }
  }

  /** A new process starts its first peerReclaim after every pending entry has been idle for long enough. */
  lemma StartAndWait(cfg: Setup, s: State, p: Name) returns (t: State)
    requires p !in s.nodes && Settled(s.g)
    ensures Leads(cfg, s, t) && Settled(t.g) && Scanning(cfg, t, p, s.g.pel, 0)
    ensures t.g.pel == s.g.pel && t.g.log == s.g.log && t.g.cursor == s.g.cursor
    ensures forall id :: id in t.g.pel ==> Claimable(t.g.pel, id, cfg.minIdle, t.g.now)
  {
    var d := if cfg.minIdle > 0 then cfg.minIdle else 0;
    LeadsNowhere(cfg, s);
    LeadsOn(cfg, s, s, Start(p));
    var u := Apply(cfg, s, Start(p));
    LeadsOn(cfg, s, u, Tick(d));
    var v := Apply(cfg, u, Tick(d));
    LeadsOn(cfg, s, v, Side(p, ScanStart));
    t := Apply(cfg, v, Side(p, ScanStart));
    TakeOverNothing(s.g.pel, p, cfg.minIdle, t.g.now);
  }

  /** When everything was stealable, p owns everything. */
  lemma OwnsAll(g: Group, h: Group, p: Name, minIdle: Time)
    requires Settled(g) && SameStream(g, h) && h.pel == TakeOverBelow(g.pel, p, minIdle, g.now, g.cursor)
    requires forall id :: id in g.pel ==> Claimable(g.pel, id, minIdle, g.now)
    ensures Settled(h) && forall id :: id in Own(h, p) <==> id in g.pel
  {
  }

  /**
   From every reachable state, an entry that is pending can still be handled and acknowledged, by a process that
   starts only now, provided it and the pending entries before it are well-formed with complete binds.
   */
  lemma Recoverable(cfg: Setup, s: State, e: Id, p: Name) returns (t: State)
    requires Composed(cfg.handler) && cfg.count > 0 && Reachable(cfg, s) && p !in s.nodes
    requires e in s.g.pel && forall x :: x in s.g.pel && x <= e ==> Curable(cfg, s.g.log, x)
    ensures Leads(cfg, s, t) && Reachable(cfg, t) && e in t.g.acked && e in t.g.handled && e !in t.g.pel
  {
    var steps :| Run(cfg, INIT, steps) == Some(s);
    AckedWasHandled(cfg, steps);
    TakeoversAreSpaced(cfg, steps);
    var u := StartAndWait(cfg, s, p);
    var v := ScanAll(cfg, u, p, s.g.pel, 0);
    LeadsThrough(cfg, s, u, v);
    OwnsAll(u.g, v.g, p, cfg.minIdle);
    t := Drain(cfg, v, p, e);
    LeadsThrough(cfg, s, v, t);
    ReachableOn(cfg, s, t);
    var all :| Run(cfg, INIT, all) == Some(t);
    AckedWasHandled(cfg, all);
  }

  lemma ReachableOn(cfg: Setup, s: State, t: State)
    requires Reachable(cfg, s) && Leads(cfg, s, t)
    ensures Reachable(cfg, t)
  {
    var a :| Run(cfg, INIT, a) == Some(s);
    var b :| Run(cfg, s, b) == Some(t);
    RunConcat(cfg, INIT, a, b);
    assert Run(cfg, INIT, a + b) == Some(t);
  }

  /** The reply of a call under way is one the handler can give for some answers of the world. */
  ghost predicate Honest(cfg: Setup, log: seq<Option<Event>>, p: Phase) {
    p.Calling? ==>
      && p.id < |log| && log[p.id].Some?
      && exists luck :: Handle(cfg.handler, log[p.id].value, luck).reply == p.reply
  }

  ghost predicate HonestState(cfg: Setup, s: State) {
    && (forall c :: c in s.nodes ==> Honest(cfg, s.g.log, s.nodes[c].phase))
    && (forall id :: id in s.g.handled ==> Curable(cfg, s.g.log, id))
  }

  lemma CallHonest(cfg: Setup, g: Group, id: Id, luck: Luck, rest: seq<Id>, after: After)
    requires id < |g.log| && g.log[id].Some?
    ensures var move := Call(cfg, g, id, g.log[id].value, luck, rest, after);
            && move.g.log == g.log && move.g.handled == g.handled
            && move.phase.Some? && Honest(cfg, g.log, move.phase.value)
  {
    var p := Call(cfg, g, id, g.log[id].value, luck, rest, after).phase.value;
    assert Handle(cfg.handler, g.log[p.id].value, luck).reply == p.reply;
  }

  lemma ActHonest(cfg: Setup, log: seq<Option<Event>>, p: Phase, q: Phase)
    requires p.Calling? && q.Calling? && p.id == q.id && p.reply == q.reply && Honest(cfg, log, p)
    ensures Honest(cfg, log, q)
  {
  }

  lemma ReturnHonest(cfg: Setup, g: Group, c: Name, p: Phase)
    requires Composed(cfg.handler) && MainEnabled(g, p, Return) && Honest(cfg, g.log, p)
    requires forall id :: id in g.handled ==> Curable(cfg, g.log, id)
    ensures var move := MainMove(cfg, g, c, p, Return);
            && move.g.log == g.log && (move.phase.Some? ==> !move.phase.value.Calling?)
            && forall id :: id in move.g.handled ==> Curable(cfg, g.log, id)
  {
    if p.reply.Nil? {
      var luck :| Handle(cfg.handler, g.log[p.id].value, luck).reply == p.reply;
      assert Handle(cfg.handler, g.log[p.id].value, luck).reply.Nil?;
      CanSucceed(cfg.handler, g.log[p.id].value);
    }
  }

  lemma MainHonest(cfg: Setup, g: Group, c: Name, p: Phase, m: MainStep)
    requires Composed(cfg.handler) && MainEnabled(g, p, m) && Honest(cfg, g.log, p)
    requires forall id :: id in g.handled ==> Curable(cfg, g.log, id)
    ensures var move := MainMove(cfg, g, c, p, m);
            && move.g.log == g.log && (move.phase.Some? ==> Honest(cfg, g.log, move.phase.value))
            && forall id :: id in move.g.handled ==> Curable(cfg, g.log, id)
  {
    match m {
      case Process(luck) =>
        if g.log[p.batch[0]].Some? { CallHonest(cfg, g, p.batch[0], luck, p.batch[1..], p.after); }
      case Retry(luck) => CallHonest(cfg, g, p.id, luck, p.rest, p.after);
      case Act => ActHonest(cfg, g.log, p, MainMove(cfg, g, c, p, Act).phase.value);
      case Return => ReturnHonest(cfg, g, c, p);
      case _ =>
    }
  }

  lemma LongerLogHonest(cfg: Setup, log: seq<Option<Event>>, entry: Option<Event>, p: Phase)
    requires Honest(cfg, log, p)
    ensures Honest(cfg, log + [entry], p)
  {
    if p.Calling? {
      var luck :| Handle(cfg.handler, log[p.id].value, luck).reply == p.reply;
      assert Handle(cfg.handler, (log + [entry])[p.id].value, luck).reply == p.reply;
    }
  }

  lemma AppendHonest(cfg: Setup, s: State, entry: Option<Event>)
    requires HonestState(cfg, s)
    ensures HonestState(cfg, Apply(cfg, s, Append(entry)))
  {
    forall c | c in s.nodes ensures Honest(cfg, s.g.log + [entry], s.nodes[c].phase) {
      LongerLogHonest(cfg, s.g.log, entry, s.nodes[c].phase);
    }
  }

  lemma StepHonest(cfg: Setup, s: State, step: Step)
    requires Composed(cfg.handler) && HonestState(cfg, s) && Enabled(s, step)
    ensures HonestState(cfg, Apply(cfg, s, step))
  {
    match step {
      case Append(entry) => AppendHonest(cfg, s, entry);
      case Main(c, m) => MainHonest(cfg, s.g, c, s.nodes[c].phase, m);
      case Side(c, b) => SideKeepsKeys(cfg, s.g, c, s.nodes[c], b);
      case _ =>
    }
  }

  lemma {:induction false} RunsHonest(cfg: Setup, steps: seq<Step>)
    requires Composed(cfg.handler) && Run(cfg, INIT, steps).Some?
    ensures HonestState(cfg, Run(cfg, INIT, steps).value)
  {
    if steps != [] {
      var before := steps[..|steps| - 1];
      RunsHonest(cfg, before);
      StepHonest(cfg, Run(cfg, INIT, before).value, steps[|steps| - 1]);
    }
  }

  /** The condition is needed: only well-formed entries with complete binds are ever acknowledged. */
  lemma OnlyCurableAcked(cfg: Setup, s: State, id: Id)
    requires Composed(cfg.handler) && Reachable(cfg, s) && id in s.g.acked
    ensures Curable(cfg, s.g.log, id)
  {
    var steps :| Run(cfg, INIT, steps) == Some(s);
    AckedWasHandled(cfg, steps);
    RunsHonest(cfg, steps);
  }
}
