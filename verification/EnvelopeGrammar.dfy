/**
 Which envelopes Parse takes, and what it makes of them, by the grammars of JSON and of timestamps: whatever
 program has written the entry, with its white space, its escapes, its offsets and its fractions.
 */
module EnvelopeGrammar {
  import opened Wrappers
  import opened Events
  import opened JsonText
  import opened Envelope
  import JsonGrammar
  import Rfc3339
  import JsonValue
  import Timestamps

  /** The text starts with JSON for this payload: an object, or null for the nil map. */
  ghost predicate Payload(s: string, f: Fields) {
    exists rest :: JsonGrammar.StandsFor(s, 10_000, AsJson(f), rest)
  }

  lemma PayloadIsExact(s: string, f: Fields)
    ensures DecodeJson(s) == Some(f) <==> Payload(s, f)
  {
    if DecodeJson(s) == Some(f) {
      var rest := JsonValue.ParseValue(s, MAX_DEPTH).value.1;
      JsonGrammar.ReaderIsExact(s, MAX_DEPTH, AsJson(f), rest);
    } else if Payload(s, f) {
      var rest :| JsonGrammar.StandsFor(s, 10_000, AsJson(f), rest);
      JsonGrammar.ReaderIsExact(s, MAX_DEPTH, AsJson(f), rest);
    }
  }

  predicate IsText(v: Values, k: Name) { k in v && v[k].Text? }

  /** An absent, empty or non-text payload is nil. */
  ghost predicate OptionalPayload(v: Values, k: Name, f: Fields) {
    if IsText(v, k) && v[k].s != "" then Payload(v[k].s, f) else f == None
  }

  lemma OptionalIsExact(v: Values, k: Name, f: Fields)
    ensures Optional(v, k) == Some(f) <==> OptionalPayload(v, k, f)
  {
    if IsText(v, k) { PayloadIsExact(v[k].s, f); }
  }

  /** The entry carries this event: field by field. */
  ghost predicate Carries(id: string, v: Values, e: Event) {
    && e.id == id && IsText(v, Op) && IsText(v, Table) && IsText(v, Schema) && IsText(v, Lsn)
    && e.op == v[Op].s && e.table == v[Table].s && e.schema == v[Schema].s && e.lsn == v[Lsn].s
    && IsText(v, StreamedAt) && Timestamps.StandsFor(v[StreamedAt].s, e.streamedAt)
    && IsText(v, Data) && Payload(v[Data].s, e.data)
    && OptionalPayload(v, Old, e.prev) && OptionalPayload(v, Enrichment, e.enrichment)
    && e.source == (if IsText(v, Source) then v[Source].s else "")
  }

  /** The same with the readers' answers. */
  predicate Reads(id: string, v: Values, e: Event) {
    && e.id == id && IsText(v, Op) && IsText(v, Table) && IsText(v, Schema) && IsText(v, Lsn)
    && e.op == v[Op].s && e.table == v[Table].s && e.schema == v[Schema].s && e.lsn == v[Lsn].s
    && IsText(v, StreamedAt) && Rfc3339.Parse(v[StreamedAt].s) == Some(e.streamedAt)
    && IsText(v, Data) && DecodeJson(v[Data].s) == Some(e.data)
    && Optional(v, Old) == Some(e.prev) && Optional(v, Enrichment) == Some(e.enrichment)
    && e.source == (if IsText(v, Source) then v[Source].s else "")
  }

  lemma DecodedReads(id: string, v: Values, e: Event)
    ensures Decoded(id, v) == Ok(e) <==> Reads(id, v, e)
  {
    if Reads(id, v, e) {
      assert Problem(v).None?;
      assert EventOf(id, v) == e;
    } else if Problem(v).None? {
      assert EventOf(id, v) != e;
    }
  }

  lemma ReadsCarried(id: string, v: Values, e: Event)
    ensures Reads(id, v, e) <==> Carries(id, v, e)
  {
    if IsText(v, StreamedAt) { Timestamps.ParseIsExact(v[StreamedAt].s, e.streamedAt); }
    if IsText(v, Data) { PayloadIsExact(v[Data].s, e.data); }
    OptionalIsExact(v, Old, e.prev);
    OptionalIsExact(v, Enrichment, e.enrichment);
  }

  /** Parse gives the event that the entry carries, and an error only when there is none. */
  lemma ParseIsExact(id: string, v: Values, e: Event)
    ensures Decoded(id, v) == Ok(e) <==> Carries(id, v, e)
  {
    DecodedReads(id, v, e);
    ReadsCarried(id, v, e);
  }

  /** The order in which fields are looked at. */
  const ORDER: seq<Name> := [Op, Table, Schema, Lsn, StreamedAt, Data, Old, Enrichment]

  /** A field that is as it should be. */
  ghost predicate Good(v: Values, k: Name) {
    match k
    case StreamedAt => IsText(v, k) && exists at :: Timestamps.StandsFor(v[k].s, at)
    case Data => IsText(v, k) && exists f :: Payload(v[k].s, f)
    case Old => exists f :: OptionalPayload(v, k, f)
    case Enrichment => exists f :: OptionalPayload(v, k, f)
    case _ => IsText(v, k)
  }

  /** What is reported of a field that is not. */
  function Complaint(v: Values, k: Name): ParseError {
    if k != Old && k != Enrichment && !IsText(v, k) then MissingField(k)
    else if k == StreamedAt then BadTimestamp else MalformedJson(k)
  }

  /** The same with the readers' answers. */
  predicate Readable(v: Values, k: Name) {
    match k
    case StreamedAt => IsText(v, k) && Rfc3339.Parse(v[k].s).Some?
    case Data => IsText(v, k) && DecodeJson(v[k].s).Some?
    case Old => Optional(v, k).Some?
    case Enrichment => Optional(v, k).Some?
    case _ => IsText(v, k)
  }

  lemma GoodIsReadable(v: Values, k: Name)
    ensures Good(v, k) <==> Readable(v, k)
  {
    match k
    case StreamedAt => if IsText(v, k) {
      forall at ensures Rfc3339.Parse(v[k].s) == Some(at) <==> Timestamps.StandsFor(v[k].s, at) {
        Timestamps.ParseIsExact(v[k].s, at);
      }
    }
    case Data => if IsText(v, k) {
      forall f ensures DecodeJson(v[k].s) == Some(f) <==> Payload(v[k].s, f) { PayloadIsExact(v[k].s, f); }
    }
    case _ => forall f ensures Optional(v, k) == Some(f) <==> OptionalPayload(v, k, f) { OptionalIsExact(v, k, f); }
  }

  lemma FirstUnreadable(v: Values, i: nat)
    requires i < |ORDER| && !Readable(v, ORDER[i]) && forall j :: 0 <= j < i ==> Readable(v, ORDER[j])
    ensures Problem(v) == Some(Complaint(v, ORDER[i]))
  {
    assert ORDER[0] == Op && ORDER[1] == Table && ORDER[2] == Schema && ORDER[3] == Lsn && ORDER[4] == StreamedAt;
    assert ORDER[5] == Data && ORDER[6] == Old && ORDER[7] == Enrichment;
  }

  /** The first field that is not as it should be is the one complained of. */
  lemma FirstComplaint(id: string, v: Values, i: nat)
    requires i < |ORDER| && !Good(v, ORDER[i]) && forall j :: 0 <= j < i ==> Good(v, ORDER[j])
    ensures Decoded(id, v) == Err(Complaint(v, ORDER[i]))
  {
    GoodIsReadable(v, ORDER[i]);
    forall j | 0 <= j < i ensures Readable(v, ORDER[j]) { GoodIsReadable(v, ORDER[j]); }
    FirstUnreadable(v, i);
  }
}
