/** From an upstream acknowledgement to the event a downstream instance reads. */
module EndToEnd {
  import opened Wrappers
  import opened Events
  import opened Pipeline
  import opened PendingList
  import opened Protocol
  import opened Conservation
  import opened Delivery
  import opened JsonText
  import opened JsonValue
  import opened Envelope
  import Rfc3339

  /** The stream's well-formed entries are what Parse makes of their fields. */
  ghost predicate FromEnvelopes(log: seq<Option<Event>>) {
    forall i :: 0 <= i < |log| && log[i].Some? ==> exists id, v :: Decoded(id, v) == Ok(log[i].value)
  }

  /** The enrichments the runner produced are JSON values the envelope can carry. */
  ghost predicate EnrichmentsFit(g: Group) {
    forall k :: 0 <= k < |g.effects| && g.effects[k].effect.Ran? ==> Fitting(g.effects[k].effect.fields)
  }

  predicate Fitting(fields: map<string, Json>) {
    WellFormed(Obj(fields)) && Fits(Obj(fields), MAX_DEPTH)
  }

  lemma BaseIsReadable(log: seq<Option<Event>>, i: nat)
    requires FromEnvelopes(log) && i < |log| && log[i].Some?
    ensures var b := log[i].value;
            && Carried(b) && (Readable(b) <==> 0 <= Rfc3339.YearOf(b.streamedAt) < 10000)
            && Fits(AsJson(b.data), MAX_DEPTH) && Fits(AsJson(NonEmpty(b.prev)), MAX_DEPTH)
  {
    var s, v :| Decoded(s, v) == Ok(log[i].value);
    ParsedIsCarried(s, v);
  }

  lemma RanFits(g: Group, k: nat, id: Id, fields: map<string, Json>)
    requires EnrichmentsFit(g) && LoggedBefore(g, k, id, Ran(fields))
    ensures Fitting(fields)
  {
    var x := Logged(id, Ran(fields));
    var j :| 0 <= j < k && g.effects[..k][j] == x;
    assert g.effects[j] == x;
  }

  /** The appended event is the parsed one with an enrichment that can be carried. */
  lemma AppendedIsReadable(cfg: Setup, g: Group, k: nat, id: Id)
    requires Parsed(g, id) && AppendsFor(cfg, g, k, id) && FromEnvelopes(g.log) && EnrichmentsFit(g)
    ensures var e := g.effects[k].effect.evt;
            Carried(e) && e.streamedAt == g.log[id].value.streamedAt &&
              (Readable(e) <==> 0 <= Rfc3339.YearOf(e.streamedAt) < 10000)
  {
    BaseIsReadable(g.log, id);
    SeenIsReadable(cfg, g, k, id, g.effects[k].effect.evt);
  }

  lemma SeenIsReadable(cfg: Setup, g: Group, k: nat, id: Id, e: Event)
    requires Parsed(g, id) && Enriched(cfg, g, k, id, e) && EnrichmentsFit(g)
    requires var b := g.log[id].value;
             && Carried(b) && (Readable(b) <==> 0 <= Rfc3339.YearOf(b.streamedAt) < 10000)
             && Fits(AsJson(b.data), MAX_DEPTH) && Fits(AsJson(NonEmpty(b.prev)), MAX_DEPTH)
    ensures Carried(e) && e.streamedAt == g.log[id].value.streamedAt &&
            (Readable(e) <==> 0 <= Rfc3339.YearOf(e.streamedAt) < 10000)
  {
    if cfg.handler.Enrich? {
      RanFits(g, k, id, e.enrichment.value);
      EnrichedIsReadable(g.log[id].value, e.enrichment.value);
    }
  }

  lemma EnrichedIsReadable(b: Event, fields: map<string, Json>)
    requires Carried(b) && Fitting(fields) && Fits(AsJson(b.data), MAX_DEPTH) &&
             Fits(AsJson(NonEmpty(b.prev)), MAX_DEPTH)
    ensures var e := b.(enrichment := Some(fields));
            Carried(e) && (Readable(e) <==> 0 <= Rfc3339.YearOf(e.streamedAt) < 10000)
  {
  }

  /** Entry id's k-th effect is an append that any reader of the target stream turns into this event. */
  ghost predicate Arrives(cfg: Setup, g: Group, k: nat, id: Id, newId: string, source: string, d: Event)
    requires Parsed(g, id)
  {
    && AppendsFor(cfg, g, k, id)
    && Decoded(newId, Encoded(g.effects[k].effect.evt, source)) == Ok(d)
    && var b := g.log[id].value;
       && d.op == b.op && d.table == b.table && d.schema == b.schema && d.lsn == b.lsn && d.data == b.data &&
          d.prev == NonEmpty(b.prev)
       && d.streamedAt == Instant(b.streamedAt.seconds, 0) && d.source == source
       && (if cfg.handler.Enrich?
           then exists fields ::
                  && d.enrichment == NonEmpty(Some(fields))
                  && Logged(id, Ran(fields)) in g.effects[..k] && Produced(cfg.handler, b, fields)
           else d.enrichment == NonEmpty(b.enrichment))
  }

  /** What was appended arrives. */
  lemma AppendedArrives(cfg: Setup, steps: seq<Step>, k: nat, newId: string, source: string)
    requires Composed(cfg.handler) && Run(cfg, INIT, steps).Some?
    requires var g := Run(cfg, INIT, steps).value.g;
             && k < |g.effects| && g.effects[k].effect.Xadd? && FromEnvelopes(g.log) && EnrichmentsFit(g)
             && 0 <= Rfc3339.YearOf(g.effects[k].effect.evt.streamedAt) < 10000
    ensures var g := Run(cfg, INIT, steps).value.g;
            var id := g.effects[k].id;
            Parsed(g, id) && Arrives(cfg, g, k, id, newId, source, Received(g.effects[k].effect.evt, newId, source))
  {
    var g := Run(cfg, INIT, steps).value.g;
    var id, e := g.effects[k].id, g.effects[k].effect.evt;
    NoOrphanEmits(cfg, steps, k);
    AppendedIsReadable(cfg, g, k, id);
    HopRoundTrip(e, newId, source);
    if cfg.handler.Enrich? {
      var fields := e.enrichment.value;
      assert Logged(id, Ran(fields)) in g.effects[..k];
      RanWasProduced(cfg, steps, k, id, fields);
    }
  }

  lemma RanWasProduced(cfg: Setup, steps: seq<Step>, k: nat, id: Id, fields: map<string, Json>)
    requires Composed(cfg.handler) && Run(cfg, INIT, steps).Some?
    requires var g := Run(cfg, INIT, steps).value.g;
             && k <= |g.effects| && Parsed(g, id)
             && Logged(id, Ran(fields)) in g.effects[..k]
    ensures Produced(cfg.handler, Run(cfg, INIT, steps).value.g.log[id].value, fields)
  {
    RunsFaithful(cfg, steps);
    var g := Run(cfg, INIT, steps).value.g;
    var j :| 0 <= j < k && g.effects[..k][j] == Logged(id, Ran(fields));
    assert g.effects[j] == Logged(id, Ran(fields)) && EffectInOrder(cfg, g, j);
  }

  /**
   End to end: in every reachable state, an acknowledged entry of a binding with an emit target has
   been appended downstream, and a reader of that stream gets its operation, table, schema, position,
   row, previous row and time to the second, with an enrichment the runner produced for it.
   */
  lemma AckedArrives(cfg: Setup, steps: seq<Step>, id: Id, newId: string, source: string)
    requires Composed(cfg.handler) && EmitTarget(cfg.handler).Some? && Run(cfg, INIT, steps).Some?
    requires var g := Run(cfg, INIT, steps).value.g;
             && id in g.acked && FromEnvelopes(g.log) && EnrichmentsFit(g)
             && (Parsed(g, id) ==> 0 <= Rfc3339.YearOf(g.log[id].value.streamedAt) < 10000)
    ensures var g := Run(cfg, INIT, steps).value.g;
            Parsed(g, id) && exists k, d :: Arrives(cfg, g, k, id, newId, source, d)
  {
    AckedWasDelivered(cfg, steps, id);
    var g := Run(cfg, INIT, steps).value.g;
    var k :| AppendsFor(cfg, g, k, id);
    AppendedIsReadable(cfg, g, k, id);
    AppendedArrives(cfg, steps, k, newId, source);
  }
}
