/**
 The stream envelope: Producer.Emit writes it (internal/produce/produce.go), Parse reads it
 (internal/event/event.go), and events pass from instance to instance through both.
 */
module Envelope {
  import opened Wrappers
  import opened Events
  import opened Pipeline
  import opened JsonText
  import opened JsonValue
  import Rfc3339

  /** The field names the code knows, and all others. */
  datatype Name = Op | Table | Schema | Lsn | StreamedAt | Data | Source | Old | Enrichment | Other(name: string)

  /** A field value of a stream entry. */
  datatype Value = Text(s: string) | NotText

  type Values = map<Name, Value>

  datatype ParseError = MissingField(name: Name) | BadTimestamp | MalformedJson(name: Name)

  // ---- decoding ----

  function ReqStr(v: Values, k: Name): Result<string, ParseError> {
    if k in v && v[k].Text? then Ok(v[k].s) else Err(MissingField(k))
  }

  /** Numbers are JSON text and the nesting limit is kept, as in every decoded payload. */
  predicate Sendable(f: Fields) {
    f.Some? ==> WellFormed(Obj(f.value)) && Fits(Obj(f.value), MAX_DEPTH)
  }

  /** decodeJSON: the first JSON value of the text; null is the nil map, and what follows is ignored. */
  function DecodeJson(s: string): (r: Option<Fields>)
    ensures r.Some? ==> Sendable(r.value)
  {
    match ParseValue(s, MAX_DEPTH)
    case Some((Obj(m), _)) => ValueRead(s, MAX_DEPTH); Some(Some(m))
    case Some((Null, _)) => Some(None)
    case _ => None
  }

  /** The decoded form of an optional payload; absent, empty and non-text ones are nil. */
  function Optional(v: Values, k: Name): (r: Option<Fields>)
    ensures r.Some? ==> Sendable(r.value)
  {
    if k in v && v[k].Text? && v[k].s != "" then DecodeJson(v[k].s) else Some(None)
  }

  /** What stands in the way of an envelope, in the order the fields are looked at. */
  function Problem(v: Values): Option<ParseError> {
    if ReqStr(v, Op).Err? then Some(MissingField(Op))
    else if ReqStr(v, Table).Err? then Some(MissingField(Table))
    else if ReqStr(v, Schema).Err? then Some(MissingField(Schema))
    else if ReqStr(v, Lsn).Err? then Some(MissingField(Lsn))
    else if ReqStr(v, StreamedAt).Err? then Some(MissingField(StreamedAt))
    else if Rfc3339.Parse(v[StreamedAt].s).None? then Some(BadTimestamp)
    else if ReqStr(v, Data).Err? then Some(MissingField(Data))
    else if DecodeJson(v[Data].s).None? then Some(MalformedJson(Data))
    else if Optional(v, Old).None? then Some(MalformedJson(Old))
    else if Optional(v, Enrichment).None? then Some(MalformedJson(Enrichment))
    else None
  }

  /** The event of an envelope without problems. */
  function EventOf(id: string, v: Values): (e: Event)
    requires Problem(v).None?
    ensures Sendable(e.data) && Sendable(e.prev) && Sendable(e.enrichment)
  {
    Event(id, v[Op].s, v[Table].s, v[Schema].s, v[Lsn].s, Rfc3339.Parse(v[StreamedAt].s).value,
          DecodeJson(v[Data].s).value, Optional(v, Old).value, Optional(v, Enrichment).value,
          if Source in v && v[Source].Text? then v[Source].s else "")
  }

  function Decoded(id: string, v: Values): Result<Event, ParseError> {
    match Problem(v) case Some(e) => Err(e) case None => Ok(EventOf(id, v))
  }

  const BLANK := Event("", "", "", "", "", Instant(0, 0), None, None, None, "")

  /** Parse, field by field. */
  method Parse(id: string, values: Values) returns (r: Result<Event, ParseError>)
    ensures r == Decoded(id, values)
  {
    var e := BLANK.(id := id);
    var s := ReqStr(values, Op);
    if s.Err? { return Err(s.error); }
    e := e.(op := s.value);
    s := ReqStr(values, Table);
    if s.Err? { return Err(s.error); }
    e := e.(table := s.value);
    s := ReqStr(values, Schema);
    if s.Err? { return Err(s.error); }
    e := e.(schema := s.value);
    s := ReqStr(values, Lsn);
    if s.Err? { return Err(s.error); }
    e := e.(lsn := s.value);
    s := ReqStr(values, StreamedAt);
    if s.Err? { return Err(s.error); }
    var at := Rfc3339.Parse(s.value);
    if at.None? { return Err(BadTimestamp); }
    e := e.(streamedAt := at.value);
    s := ReqStr(values, Data);
    if s.Err? { return Err(s.error); }
    var data := DecodeJson(s.value);
    if data.None? { return Err(MalformedJson(Data)); }
    e := e.(data := data.value);
    if Source in values && values[Source].Text? {
      e := e.(source := values[Source].s);
    }
    if Old in values && values[Old].Text? && values[Old].s != "" {
      var prev := DecodeJson(values[Old].s);
      if prev.None? { return Err(MalformedJson(Old)); }
      e := e.(prev := prev.value);
    }
    if Enrichment in values && values[Enrichment].Text? && values[Enrichment].s != "" {
      var enrichment := DecodeJson(values[Enrichment].s);
      if enrichment.None? { return Err(MalformedJson(Enrichment)); }
      e := e.(enrichment := enrichment.value);
    }
    r := Ok(e);
  }

  // ---- encoding ----

  /** json.Marshal refuses a number whose text is not JSON; an empty one it prints as 0. */
  predicate Marshals(j: Json) {
    match j
    case Num(text) => text == "" || IsNumber(text)
    case Arr(items) => forall i :: 0 <= i < |items| ==> Marshals(items[i])
    case Obj(m) => forall k :: k in m ==> Marshals(m[k])
    case _ => true
  }

  function AsJson(f: Fields): Json {
    match f case None => Null case Some(m) => Obj(m)
  }

  /** A map without entries is not sent. */
  function NonEmpty(f: Fields): Fields {
    if f == Some(map[]) then None else f
  }

  predicate Encodable(e: Event) {
    Marshals(AsJson(e.data)) && Marshals(AsJson(NonEmpty(e.prev))) && Marshals(AsJson(NonEmpty(e.enrichment)))
  }

  function WithPayload(v: Values, k: Name, f: Fields): Values {
    if NonEmpty(f).Some? then v[k := Text(PrintOn(AsJson(f), ""))] else v
  }

  /** The fields every entry has. */
  function Basic(e: Event, instanceID: string): Values {
    map[Op := Text(e.op), Table := Text(e.table), Schema := Text(e.schema), Lsn := Text(e.lsn),
        StreamedAt := Text(Rfc3339.Format(e.streamedAt)), Source := Text(instanceID),
        Data := Text(PrintOn(AsJson(e.data), ""))]
  }

  /** The fields of the entry Emit appends. */
  function Encoded(e: Event, instanceID: string): Values {
    WithPayload(WithPayload(Basic(e, instanceID), Old, e.prev), Enrichment, e.enrichment)
  }

  datatype EmitError = Closed | Unmarshalable | RedisError

  class Producer {
    const instanceID: string
    var closed: bool
    var sent: seq<(string, Values)>   // what XADD has appended, by stream key, in order

    constructor (instanceID: string)
      ensures this.instanceID == instanceID && !closed && sent == []
    {
      this.instanceID, closed, sent := instanceID, false, [];
    }

    method Close()
      modifies `closed
      ensures closed
    {
      closed := true;
    }

    /** Emit: at most one entry is appended, with these fields; a lost reply reports an error all the same. */
    method Emit(stream: string, evt: Event, xadd: XaddReply) returns (err: Option<EmitError>)
      modifies `sent
      ensures err == if closed then Some(Closed) else if !Encodable(evt) then Some(Unmarshalable)
                     else if xadd.Added? then None else Some(RedisError)
      ensures sent == if closed || !Encodable(evt) || xadd.NotAdded? then old(sent)
                      else old(sent) + [(stream, Encoded(evt, instanceID))]
    {
      if closed { return Some(Closed); }
      var fields: Values := map[Op := Text(evt.op), Table := Text(evt.table), Schema := Text(evt.schema),
        Lsn := Text(evt.lsn),
                                StreamedAt := Text(Rfc3339.Format(evt.streamedAt)), Source := Text(instanceID)];
      if !Marshals(AsJson(evt.data)) { return Some(Unmarshalable); }
      fields := fields[Data := Text(PrintOn(AsJson(evt.data), ""))];
      if evt.prev.Some? && |evt.prev.value| > 0 {
        if !Marshals(AsJson(evt.prev)) { return Some(Unmarshalable); }
        fields := fields[Old := Text(PrintOn(AsJson(evt.prev), ""))];
      }
      if evt.enrichment.Some? && |evt.enrichment.value| > 0 {
        if !Marshals(AsJson(evt.enrichment)) { return Some(Unmarshalable); }
        fields := fields[Enrichment := Text(PrintOn(AsJson(evt.enrichment), ""))];
      }
      if !xadd.NotAdded? { sent := sent + [(stream, fields)]; }
      err := if xadd.Added? then None else Some(RedisError);
    }
  }

  // ---- the hop ----

  /** Every number is JSON text, as in every decoded event. */
  predicate Carried(e: Event) {
    WellFormed(AsJson(e.data)) && WellFormed(AsJson(e.prev)) && WellFormed(AsJson(e.enrichment))
  }

  /** What the reader of the envelope can take: a four-digit UTC year and payloads nested at most 10000 deep. */
  predicate Readable(e: Event) {
    && 0 <= Rfc3339.YearOf(e.streamedAt) < 10000
    && Fits(AsJson(e.data), MAX_DEPTH) && Fits(AsJson(NonEmpty(e.prev)), MAX_DEPTH) &&
       Fits(AsJson(NonEmpty(e.enrichment)), MAX_DEPTH)
  }

  /** The event as the next instance sees it. */
  function Received(e: Event, id: string, source: string): Event {
    Event(id, e.op, e.table, e.schema, e.lsn, Instant(e.streamedAt.seconds, 0), e.data, NonEmpty(e.prev),
      NonEmpty(e.enrichment), source)
  }

  lemma {:induction false} WellFormedMarshals(j: Json)
    requires WellFormed(j)
    ensures Marshals(j)
    decreases j
  {
    match j
    case Arr(items) => forall i | 0 <= i < |items| ensures Marshals(items[i]) { WellFormedMarshals(items[i]); }
    case Obj(m) => forall k | k in m ensures Marshals(m[k]) { WellFormedMarshals(m[k]); }
    case _ =>
  }

  /** A payload comes back as it was, or not at all when it is nested too deeply. */
  lemma PayloadRoundTrip(f: Fields)
    requires WellFormed(AsJson(f))
    ensures DecodeJson(PrintOn(AsJson(f), "")) == if Fits(AsJson(f), MAX_DEPTH) then Some(f) else None
    ensures PrintOn(AsJson(f), "") != ""
  {
    Begins(AsJson(f), "");
    if Fits(AsJson(f), MAX_DEPTH) {
      ValueRoundTrip(AsJson(f), "", MAX_DEPTH);
    } else {
      TooDeep(AsJson(f), "", MAX_DEPTH);
    }
  }

  lemma OptionalRoundTrip(v: Values, k: Name, f: Fields)
    requires WellFormed(AsJson(f)) && k !in v
    ensures Optional(WithPayload(v, k, f), k) == if Fits(AsJson(NonEmpty(f)), MAX_DEPTH)
            then Some(NonEmpty(f)) else None
  {
    if NonEmpty(f).Some? { PayloadRoundTrip(f); }
  }

  /**
   The envelope round trip: an event with decoded payloads is always appended, and it is read back,
   complete, exactly when it is readable. Lost are only the sub-second part of the timestamp, the
   difference between an empty and a nil previous row or enrichment, and the emitter's own source.
   */
  lemma HopRoundTrip(e: Event, id: string, source: string)
    requires Carried(e)
    ensures Encodable(e)
    ensures Decoded(id, Encoded(e, source)).Ok? <==> Readable(e)
    ensures Readable(e) ==> Decoded(id, Encoded(e, source)) == Ok(Received(e, id, source))
  {
    WellFormedMarshals(AsJson(e.data));
    WellFormedMarshals(AsJson(e.prev));
    WellFormedMarshals(AsJson(e.enrichment));
    FieldsBack(e, source);
    PayloadRoundTrip(e.data);
    Rfc3339.RoundTrip(e.streamedAt);
    BasicReads(Encoded(e, source), e, source);
    ReadsBack(Encoded(e, source), e, id, source);
  }

  /** The entry's plain fields and payloads read as those of e, as far as they can be read. */
  predicate Reads(v: Values, e: Event, source: string) {
    && ReqStr(v, Op) == Ok(e.op) && ReqStr(v, Table) == Ok(e.table) && ReqStr(v, Schema) == Ok(e.schema) &&
       ReqStr(v, Lsn) == Ok(e.lsn)
    && ReqStr(v, StreamedAt) == Ok(Rfc3339.Format(e.streamedAt)) && ReqStr(v, Source) == Ok(source)
    && ReqStr(v, Data) == Ok(PrintOn(AsJson(e.data), ""))
    && Optional(v, Old) == (if Fits(AsJson(NonEmpty(e.prev)), MAX_DEPTH) then Some(NonEmpty(e.prev)) else None)
    && Optional(v, Enrichment) ==
       (if Fits(AsJson(NonEmpty(e.enrichment)), MAX_DEPTH) then Some(NonEmpty(e.enrichment)) else None)
  }

  lemma BasicReads(v: Values, e: Event, source: string)
    requires forall k :: k in Basic(e, source) ==> k in v && v[k] == Basic(e, source)[k]
    ensures ReqStr(v, Op) == Ok(e.op) && ReqStr(v, Table) == Ok(e.table) && ReqStr(v, Schema) == Ok(e.schema) &&
            ReqStr(v, Lsn) == Ok(e.lsn)
    ensures ReqStr(v, StreamedAt) == Ok(Rfc3339.Format(e.streamedAt)) && ReqStr(v, Source) == Ok(source)
    ensures ReqStr(v, Data) == Ok(PrintOn(AsJson(e.data), ""))
  {
    var b := Basic(e, source);
    assert Op in b && Table in b && Schema in b && Lsn in b && StreamedAt in b && Source in b && Data in b;
  }

  lemma ReadsBack(v: Values, e: Event, id: string, source: string)
    requires Reads(v, e, source)
    requires Rfc3339.Parse(Rfc3339.Format(e.streamedAt)) ==
             if 0 <= Rfc3339.YearOf(e.streamedAt) < 10000 then Some(Instant(e.streamedAt.seconds, 0)) else None
    requires DecodeJson(PrintOn(AsJson(e.data), "")) == if Fits(AsJson(e.data), MAX_DEPTH) then Some(e.data) else None
    ensures Decoded(id, v).Ok? <==> Readable(e)
    ensures Readable(e) ==> Decoded(id, v) == Ok(Received(e, id, source))
  {
  }

  lemma PayloadKeeps(v: Values, k: Name, f: Fields, x: Name)
    requires x in v && x != k
    ensures x in WithPayload(v, k, f) && WithPayload(v, k, f)[x] == v[x]
  {
  }

  lemma BasicKept(e: Event, source: string, k: Name)
    requires k in Basic(e, source)
    ensures k in Encoded(e, source) && Encoded(e, source)[k] == Basic(e, source)[k]
  {
    var v := Basic(e, source);
    PayloadKeeps(v, Old, e.prev, k);
    PayloadKeeps(WithPayload(v, Old, e.prev), Enrichment, e.enrichment, k);
  }

  lemma NoPayloadYet(e: Event, source: string)
    ensures Old !in Basic(e, source) && Enrichment !in WithPayload(Basic(e, source), Old, e.prev)
  {
  }

  /** What the fields of the entry read as. */
  lemma FieldsBack(e: Event, source: string)
    requires WellFormed(AsJson(e.prev)) && WellFormed(AsJson(e.enrichment))
    ensures var v := Encoded(e, source);
            && (forall k :: k in Basic(e, source) ==> k in v && v[k] == Basic(e, source)[k])
            && Optional(v, Old) == (if Fits(AsJson(NonEmpty(e.prev)), MAX_DEPTH) then Some(NonEmpty(e.prev)) else None)
            && Optional(v, Enrichment) ==
               (if Fits(AsJson(NonEmpty(e.enrichment)), MAX_DEPTH) then Some(NonEmpty(e.enrichment)) else None)
  {
    forall k | k in Basic(e, source) ensures k in Encoded(e, source) && Encoded(e, source)[k] == Basic(e, source)[k] {
      BasicKept(e, source, k);
    }
    OldBack(e, source);
    NoPayloadYet(e, source);
    OptionalRoundTrip(WithPayload(Basic(e, source), Old, e.prev), Enrichment, e.enrichment);
  }

  lemma OldBack(e: Event, source: string)
    requires WellFormed(AsJson(e.prev))
    ensures Optional(Encoded(e, source), Old) == if Fits(AsJson(NonEmpty(e.prev)), MAX_DEPTH)
            then Some(NonEmpty(e.prev)) else None
  {
    var v := Basic(e, source);
    var w := WithPayload(v, Old, e.prev);
    NoPayloadYet(e, source);
    OptionalRoundTrip(v, Old, e.prev);
    OtherPayload(w, Enrichment, e.enrichment, Old);
    SameOptional(w, Encoded(e, source), Old);
  }

  lemma OtherPayload(v: Values, k: Name, f: Fields, x: Name)
    requires x != k
    ensures x in v <==> x in WithPayload(v, k, f)
    ensures x in v ==> WithPayload(v, k, f)[x] == v[x]
  {
  }

  lemma SameOptional(v: Values, w: Values, k: Name)
    requires k in v <==> k in w
    requires k in v ==> v[k] == w[k]
    ensures Optional(v, k) == Optional(w, k)
  {
  }

  /** What Parse returns can be carried on; only a timestamp whose zone moves it out of the four-digit years cannot. */
  lemma ParsedIsCarried(id: string, v: Values)
    requires Decoded(id, v).Ok?
    ensures var e := Decoded(id, v).value;
            && Carried(e) && (Readable(e) <==> 0 <= Rfc3339.YearOf(e.streamedAt) < 10000)
            && Fits(AsJson(e.data), MAX_DEPTH) && Fits(AsJson(NonEmpty(e.prev)), MAX_DEPTH)
  {
    SendableIsCarried(EventOf(id, v));
  }

  lemma SendableIsCarried(e: Event)
    requires Sendable(e.data) && Sendable(e.prev) && Sendable(e.enrichment)
    ensures Carried(e) && (Readable(e) <==> 0 <= Rfc3339.YearOf(e.streamedAt) < 10000)
    ensures Fits(AsJson(e.data), MAX_DEPTH) && Fits(AsJson(NonEmpty(e.prev)), MAX_DEPTH)
  {
    PayloadIsCarried(e.data);
    PayloadIsCarried(e.prev);
    PayloadIsCarried(e.enrichment);
  }

  lemma PayloadIsCarried(f: Fields)
    requires Sendable(f)
    ensures WellFormed(AsJson(f)) && Fits(AsJson(f), MAX_DEPTH) && Fits(AsJson(NonEmpty(f)), MAX_DEPTH)
  {
  }

  /** One instance after another: each emits what it read, under its own id and the reader's entry id. */
  function Chain(e: Event, hops: seq<(string, string)>): Result<Event, ParseError> {
    if hops == [] then Ok(e) else
      match Chain(e, hops[..|hops| - 1])
      case Err(err) => Err(err)
      case Ok(d) => Decoded(hops[|hops| - 1].1, Encoded(d, hops[|hops| - 1].0))
  }

  /** A second hop changes no more than the ids: chains of any length deliver what one hop delivers. */
  lemma {:induction false} ChainPreserves(e: Event, hops: seq<(string, string)>)
    requires Carried(e) && Readable(e) && hops != []
    ensures Chain(e, hops) == Ok(Received(e, hops[|hops| - 1].1, hops[|hops| - 1].0))
  {
    var before, last := hops[..|hops| - 1], hops[|hops| - 1];
    if before == [] {
      HopRoundTrip(e, last.1, last.0);
    } else {
      ChainPreserves(e, before);
      var d := Chain(e, before).value;
      ReceivedStaysReadable(e, before[|before| - 1].1, before[|before| - 1].0);
      HopRoundTrip(d, last.1, last.0);
    }
  }

  lemma ReceivedStaysReadable(e: Event, id: string, source: string)
    requires Carried(e) && Readable(e)
    ensures var d := Received(e, id, source);
            && Carried(d) && Readable(d)
            && forall i, s :: Received(d, i, s) == Received(e, i, s)
  {
  }
}
