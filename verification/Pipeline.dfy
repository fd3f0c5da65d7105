/**
 The handler chain of one binding: Enrich, then the handler, then EmitAfter
 (cmd/dasher/main.go buildHandler, internal/middleware). What a call does to the
 outside world is a list of effects, so that a crash can cut it anywhere.
 */
module Pipeline {
  import opened Wrappers
  import opened Bindings
  import opened Events
  import opened Lookups

  datatype Handler =
    | Noop
    | Named(name: string)
    | EmitAfter(stream: string, inner: Handler)
    | Enrich(rules: seq<Rule>, inner: Handler)

  datatype BuildError = UnknownHandler(name: string) | UnknownLookup(name: string)

  function ResolveRules(rules: seq<EnrichRule>, catalog: set<string>): Result<seq<Rule>, BuildError> {
    if rules == [] then Ok([])
    else if rules[0].lookup !in catalog then Err(UnknownLookup(rules[0].lookup))
    else
      match ResolveRules(rules[1..], catalog)
      case Err(e) => Err(e)
      case Ok(rest) => Ok([Rule(rules[0].lookup, rules[0].bind, rules[0].into)] + rest)
  }

  function BuildHandler(b: Binding, registry: set<string>, catalog: set<string>): Result<Handler, BuildError> {
    if b.handler != "" && b.handler !in registry then Err(UnknownHandler(b.handler))
    else
      var base := if b.handler == "" then Noop else Named(b.handler);
      var h := if b.emit != "" then EmitAfter(b.emit, base) else base;
      if b.enrich == [] then Ok(h)
      else
        match ResolveRules(b.enrich, catalog)
        case Err(e) => Err(e)
        case Ok(rules) => Ok(Enrich(rules, h))
  }

  datatype Reply = Nil | Poison | Transient | Panic

  /** XADD may take effect and still report an error (a lost reply). */
  datatype XaddReply = Added | AddedReplyLost | NotAdded

  /** One call's luck: what the lookups, the registered handler and XADD answer. */
  datatype Luck = Luck(backend: Backend, base: Reply, xadd: XaddReply)

  datatype Effect =
    | Ran(fields: map<string, Json>)           // the runner produced this enrichment
    | Handled(evt: Event)                      // the base handler returned nil on this event
    | Xadd(stream: string, evt: Event)         // this event was appended downstream

  datatype Outcome = Outcome(effects: seq<Effect>, reply: Reply)

  function Handle(h: Handler, evt: Event, luck: Luck): Outcome {
    match h
    case Noop => Outcome([Handled(evt)], Nil)
    case Named(_) => Outcome(if luck.base.Nil? then [Handled(evt)] else [], luck.base)
    case EmitAfter(stream, inner) =>
      var r := Handle(inner, evt, luck);
      if !r.reply.Nil? then r
      else Outcome(r.effects + (if luck.xadd.NotAdded? then [] else [Xadd(stream, evt)]),
                   if luck.xadd.Added? then Nil else Transient)
    case Enrich(rules, inner) =>
      match RunResultOf(rules, Request(evt.data, evt.prev, luck.backend))
      case Enriched(fields) =>
        var r := Handle(inner, evt.(enrichment := Some(fields)), luck);
        Outcome([Ran(fields)] + r.effects, r.reply)
      case Missed(_) => Outcome([], Poison)
      case Failed => Outcome([], Transient)
  }

  function EmitTarget(h: Handler): Option<string> {
    match h
    case EmitAfter(stream, _) => Some(stream)
    case Enrich(_, inner) => EmitTarget(inner)
    case _ => None
  }

  /** The chains BuildHandler makes: at most one Enrich, outermost, and at most one EmitAfter. */
  predicate Composed(h: Handler) {
    var inner := if h.Enrich? then h.inner else h;
    var base := if inner.EmitAfter? then inner.inner else inner;
    base.Noop? || base.Named?
  }

  /** The handler at the bottom of the chain. */
  function BaseOf(h: Handler): Handler {
    match h
    case EmitAfter(_, inner) => BaseOf(inner)
    case Enrich(_, inner) => BaseOf(inner)
    case _ => h
  }

  /** The rule the runner gets for an entry of the binding's enrich list. */
  predicate SameRule(r: Rule, e: EnrichRule) {
    r.lookup == e.lookup && r.bind == e.bind && r.into == e.into
  }

  lemma BuildHandlerComposes(b: Binding, registry: set<string>, catalog: set<string>)
    ensures var h := BuildHandler(b, registry, catalog);
            && (h.Ok? <==> (b.handler == "" || b.handler in registry)
                           && forall i :: 0 <= i < |b.enrich| ==> b.enrich[i].lookup in catalog)
            && (h.Ok? ==> Composed(h.value) && EmitTarget(h.value) == if b.emit == "" then None else Some(b.emit))
            && (h.Ok? ==> BaseOf(h.value) == if b.handler == "" then Noop else Named(b.handler))
            && (h.Ok? ==> (h.value.Enrich? <==> b.enrich != []))
            && (h.Ok? && h.value.Enrich? ==>
                  && |h.value.rules| == |b.enrich|
                  && forall i :: 0 <= i < |b.enrich| ==> SameRule(h.value.rules[i], b.enrich[i]))
    // An unknown handler is reported before any unknown lookup, and of those the first.
    ensures var h := BuildHandler(b, registry, catalog);
            h.Err? ==>
              if b.handler != "" && b.handler !in registry then h.error == UnknownHandler(b.handler)
              else exists i :: FirstUnknown(b.enrich, catalog, i) && h.error == UnknownLookup(b.enrich[i].lookup)
  {
    ResolveRulesOk(b.enrich, catalog);
    var base := if b.handler == "" then Noop else Named(b.handler);
    assert BaseOf(base) == base && BaseOf(EmitAfter(b.emit, base)) == base;
  }

  predicate FirstUnknown(rules: seq<EnrichRule>, catalog: set<string>, i: int) {
    0 <= i < |rules| && rules[i].lookup !in catalog && forall j :: 0 <= j < i ==> rules[j].lookup in catalog
  }

  lemma {:induction false} ResolveRulesOk(rules: seq<EnrichRule>, catalog: set<string>)
    ensures var r := ResolveRules(rules, catalog);
            && (r.Ok? <==> forall i :: 0 <= i < |rules| ==> rules[i].lookup in catalog)
            && (r.Ok? ==> |r.value| == |rules| && forall i :: 0 <= i < |rules| ==> SameRule(r.value[i], rules[i]))
            && (r.Err? ==> exists i :: FirstUnknown(rules, catalog, i) && r.error == UnknownLookup(rules[i].lookup))
  {
    if rules != [] {
      ResolveRulesOk(rules[1..], catalog);
      assert forall i :: 1 <= i < |rules| ==> rules[i] == rules[1..][i - 1];
      if rules[0].lookup !in catalog {
        assert FirstUnknown(rules, catalog, 0);
      } else if ResolveRules(rules[1..], catalog).Err? {
        var i :| FirstUnknown(rules[1..], catalog, i) &&
                 ResolveRules(rules[1..], catalog).error == UnknownLookup(rules[1..][i].lookup);
        assert FirstUnknown(rules, catalog, i + 1);
      }
    }
  }

  /** The runner, if there is one, enriches the event. */
  predicate Enriches(h: Handler, evt: Event, luck: Luck) {
    h.Enrich? ==> RunResultOf(h.rules, Request(evt.data, evt.prev, luck.backend)).Enriched?
  }

  /** What the base handler answers: Noop always nil. */
  function BaseReply(h: Handler, luck: Luck): Reply {
    if BaseOf(h).Noop? then Nil else luck.base
  }

  /** The enrichment is there and the base handler has succeeded. */
  predicate Succeeds(h: Handler, evt: Event, luck: Luck) {
    Enriches(h, evt, luck) && BaseReply(h, luck).Nil?
  }

  lemma InnerReply(h: Handler, evt: Event, luck: Luck)
    requires Composed(h) && !h.Enrich?
    ensures var o, base := Handle(h, evt, luck), BaseReply(h, luck);
            && o.reply ==
               (if !base.Nil? then base else if EmitTarget(h).Some? && !luck.xadd.Added? then Transient else Nil)
            && (exists x :: x in o.effects && x.Handled?) == base.Nil?
            && (exists x :: x in o.effects && x.Xadd?) == (base.Nil? && EmitTarget(h).Some? && !luck.xadd.NotAdded?)
  {
    var o := Handle(h, evt, luck);
    InnerStages(h, evt, luck);
    if h.EmitAfter? {
      assert Handle(h.inner, evt, luck).effects == if BaseReply(h, luck).Nil? then [Handled(evt)] else [];
      if BaseReply(h, luck).Nil? {
        assert o.effects[0] == Handled(evt);
        if !luck.xadd.NotAdded? { assert o.effects[1] == Xadd(h.stream, evt); }
      }
    } else if BaseReply(h, luck).Nil? {
      assert o.effects[0] == Handled(evt);
    }
  }

  /**
   What a call answers, and what it does, whatever the world answers. It is nil exactly when the runner
   enriches, the base handler succeeds and XADD is confirmed. It is poison exactly when a rule of the
   runner misses or the base handler says so, a panic exactly when the base handler panics, and all
   else is transient. The base handler's success and the append happen exactly when they should,
   the latter also when its reply is lost.
   */
  lemma CallAnswers(h: Handler, evt: Event, luck: Luck)
    requires Composed(h)
    ensures var o, base := Handle(h, evt, luck), BaseReply(h, luck);
            && (o.reply.Nil? <==> Succeeds(h, evt, luck) && (EmitTarget(h).Some? ==> luck.xadd.Added?))
            && (o.reply.Poison? <==> Misses(h, evt, luck) || (Enriches(h, evt, luck) && base.Poison?))
            && (o.reply.Panic? <==> Enriches(h, evt, luck) && base.Panic?)
            && ((exists x :: x in o.effects && x.Handled?) <==> Succeeds(h, evt, luck))
            && ((exists x :: x in o.effects && x.Xadd?) <==>
                Succeeds(h, evt, luck) && EmitTarget(h).Some? && !luck.xadd.NotAdded?)
  {
    if h.Enrich? {
      var run := RunResultOf(h.rules, Request(evt.data, evt.prev, luck.backend));
      if run.Enriched? {
        var seen := evt.(enrichment := Some(run.fields));
        var o, r := Handle(h, evt, luck), Handle(h.inner, seen, luck);
        InnerReply(h.inner, seen, luck);
        assert o.effects == [Ran(run.fields)] + r.effects;
        assert forall x :: x in o.effects <==> x == Ran(run.fields) || x in r.effects;
      }
    } else {
      InnerReply(h, evt, luck);
    }
  }

  /** The runner, if there is one, stops at a miss. */
  predicate Misses(h: Handler, evt: Event, luck: Luck) {
    h.Enrich? && RunResultOf(h.rules, Request(evt.data, evt.prev, luck.backend)).Missed?
  }

  /** Every column that a rule binds has a value in the new row or the old one. */
  predicate Bindable(h: Handler, evt: Event) {
    h.Enrich? ==> forall i, p :: 0 <= i < |h.rules| && p in h.rules[i].bind ==>
      !HasNone(evt.data, h.rules[i].bind[p]) || !HasNone(evt.prev, h.rules[i].bind[p])
  }

  /** Lookups that always answer one row. */
  function Generous(): Backend {
    Backend(text => None, (i, bind) => Rows([map[]]))
  }

  lemma BindComplete(rule: Rule, q: Request)
    ensures BindOf(rule, q).Some? <==>
            forall p :: p in rule.bind ==> !HasNone(q.data, rule.bind[p]) || !HasNone(q.prev, rule.bind[p])
  {
    forall p | p in rule.bind
      ensures ResolveBind(rule.bind[p], q).None? <==> HasNone(q.data, rule.bind[p]) && HasNone(q.prev, rule.bind[p])
    {
      ResolveBindNil(rule.bind[p], q);
    }
  }

  /** A call on the event can succeed, for some answers of the world, exactly when its binds are complete. */
  lemma CanSucceed(h: Handler, evt: Event)
    requires Composed(h)
    ensures (exists luck :: Handle(h, evt, luck).reply.Nil?) <==> Bindable(h, evt)
  {
    if Bindable(h, evt) {
      var luck := Luck(Generous(), Nil, Added);
      if h.Enrich? {
        var q := Request(evt.data, evt.prev, luck.backend);
        forall i | 0 <= i < |h.rules| ensures Hits(h.rules, i, q) { BindComplete(h.rules[i], q); }
        RunnerDenotation(h.rules, q);
      }
      CallAnswers(h, evt, luck);
      assert Handle(h, evt, luck).reply.Nil?;
    }
    if luck :| Handle(h, evt, luck).reply.Nil? {
      CallAnswers(h, evt, luck);
      if h.Enrich? {
        var q := Request(evt.data, evt.prev, luck.backend);
        RunnerDenotation(h.rules, q);
        forall i | 0 <= i < |h.rules| ensures BindOf(h.rules[i], q).Some? { assert Hits(h.rules, i, q); }
        forall i, p | 0 <= i < |h.rules| && p in h.rules[i].bind
          ensures !HasNone(evt.data, h.rules[i].bind[p]) || !HasNone(evt.prev, h.rules[i].bind[p])
        {
          BindComplete(h.rules[i], q);
        }
      }
    }
  }

  /** `seen` is what the stages after Enrich work on, given the effects before them. */
  predicate SeenAs(h: Handler, evt: Event, seen: Event, before: seq<Effect>) {
    if h.Enrich? then |before| == 1 && before[0].Ran? && seen == evt.(enrichment := Some(before[0].fields))
    else before == [] && seen == evt
  }

  /** The binding's rules produce this enrichment for the event, for some answers of the lookups. */
  ghost predicate Produced(h: Handler, evt: Event, fields: map<string, Json>) {
    h.Enrich? && exists backend :: RunResultOf(h.rules, Request(evt.data, evt.prev, backend)) == Enriched(fields)
  }

  /** The k-th effect of a call comes where the chain promises it. */
  ghost predicate StagedAt(h: Handler, evt: Event, fx: seq<Effect>, k: nat)
    requires k < |fx|
  {
    match fx[k]
    case Ran(fields) => k == 0 && Produced(h, evt, fields)
    case Handled(seen) => SeenAs(h, evt, seen, fx[..k])
    case Xadd(stream, e) => k > 0 && fx[k - 1] == Handled(e) && EmitTarget(h) == Some(stream)
  }

  /** Effects in the promised order: enrichment, base handler on the enriched event, emit of that same event. */
  ghost predicate Staged(h: Handler, evt: Event, fx: seq<Effect>) {
    forall k :: 0 <= k < |fx| ==> StagedAt(h, evt, fx, k)
  }

  /** Every stage of the chain has happened. */
  predicate Complete(h: Handler, fx: seq<Effect>) {
    && fx != []
    && (EmitTarget(h).None? ==> fx[|fx| - 1].Handled?)
    && (EmitTarget(h).Some? ==> fx[|fx| - 1].Xadd?)
  }

  /** The chain below Enrich: at most a base success and then an emit of the same event. */
  lemma InnerStages(h: Handler, evt: Event, luck: Luck)
    requires Composed(h) && !h.Enrich?
    ensures var r := Handle(h, evt, luck);
            && (|| r.effects == []
                || r.effects == [Handled(evt)]
                || (h.EmitAfter? && r.effects == [Handled(evt), Xadd(h.stream, evt)]))
            && (r.reply.Nil? ==> |r.effects| == if h.EmitAfter? then 2 else 1)
  {
    if h.EmitAfter? {
      var r := Handle(h.inner, evt, luck);
      assert r.effects == [] || r.effects == [Handled(evt)];
      assert [Handled(evt)] + [Xadd(h.stream, evt)] == [Handled(evt), Xadd(h.stream, evt)];
      assert r.effects + [] == r.effects;
    }
  }

  /** For every luck, a call keeps the promised order, and a nil reply means every stage happened. */
  lemma StagesInOrder(h: Handler, evt: Event, luck: Luck)
    requires Composed(h)
    ensures Staged(h, evt, Handle(h, evt, luck).effects)
    ensures Handle(h, evt, luck).reply.Nil? ==> Complete(h, Handle(h, evt, luck).effects)
  {
    var fx := Handle(h, evt, luck).effects;
    assert fx[..0] == [];
    if h.Enrich? {
      var run := RunResultOf(h.rules, Request(evt.data, evt.prev, luck.backend));
      if run.Enriched? {
        var seen := evt.(enrichment := Some(run.fields));
        InnerStages(h.inner, seen, luck);
        assert fx[..1] == [Ran(run.fields)] && StagedAt(h, evt, fx, 0);
        assert |fx| > 1 ==> fx[1] == Handled(seen) && StagedAt(h, evt, fx, 1);
        assert |fx| > 2 ==> fx[2] == Xadd(h.inner.stream, seen) && StagedAt(h, evt, fx, 2);
      }
    } else {
      InnerStages(h, evt, luck);
      assert |fx| > 0 ==> fx[0] == Handled(evt) && StagedAt(h, evt, fx, 0);
      assert |fx| > 1 ==> fx[1] == Xadd(h.stream, evt) && StagedAt(h, evt, fx, 1);
    }
  }
}
