/** The event one stream entry stands for, and the JSON values it carries. */
module Events {
  import opened Wrappers

  /** A decoded JSON value. A number keeps its source text (UseNumber), so nothing is rounded. */
  datatype Json =
    | Null
    | Bool(b: bool)
    | Num(text: string)
    | Str(s: string)
    | Arr(items: seq<Json>)
    | Obj(fields: map<string, Json>)

  /** A Go map[string]any: None is the nil map, which the code tells apart from an empty one. */
  type Fields = Option<map<string, Json>>

  /** An instant: whole seconds since 0000-01-01T00:00:00Z, and nanoseconds. */
  datatype Instant = Instant(seconds: int, nanos: nat)

  datatype Event = Event(
    id: string, op: string, table: string, schema: string, lsn: string, streamedAt: Instant,
    data: Fields, prev: Fields, enrichment: Fields, source: string)
}
