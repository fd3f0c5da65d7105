/** Bind resolution and the rule runner (internal/lookup/bind.go, runner.go). */
module Lookups {
  import opened Wrappers
  import opened Decimals
  import opened Events

  const MIN_INT64 := -0x8000_0000_0000_0000
  const MAX_INT64 := 0x7fff_ffff_ffff_ffff

  /** What a query parameter can hold after normalizeNumber; never nil. A float is kept as its %v text. */
  datatype Param =
    | Int64(i: int)
    | Float64(shown: string)
    | Flag(b: bool)
    | Text(s: string)
    | Composite(j: Json)

  type Binds = map<string, Param>
  type Row = map<string, Json>

  datatype LookupReply = Rows(rows: seq<Row>) | LookupError

  datatype Rule = Rule(lookup: string, bind: map<string, string>, into: string)

  datatype RunResult = Enriched(fields: map<string, Json>) | Missed(lookup: string) | Failed

  /** What the code cannot compute itself: strconv.ParseFloat followed by %v, and the lookups' answers. */
  datatype Backend = Backend(floatText: string -> Option<string>, answer: (nat, Binds) -> LookupReply)

  /** The event's new row, its previous row, and the backend they are resolved against. */
  datatype Request = Request(data: Fields, prev: Fields, backend: Backend)

  /** strconv.ParseInt(text, 10, 64). */
  function ParseInt64(text: string): (r: Option<int>)
    ensures r.Some? ==> MIN_INT64 <= r.value <= MAX_INT64
  {
    var signed := text != [] && (text[0] == '-' || text[0] == '+');
    var digits := if signed then text[1..] else text;
    if digits == [] || !AllDigits(digits) then None else
      var n: int := Digits(digits);
      var v := if signed && text[0] == '-' then -n else n;
      if MIN_INT64 <= v <= MAX_INT64 then Some(v) else None
  }

  predicate SpelledAs(text: string, v: int, sign: string, digits: string) {
    && (sign == "" || sign == "+" || sign == "-") && digits != "" && AllDigits(digits)
    && text == sign + digits && var n: int := Digits(digits); v == if sign == "-" then -n else n
  }

  /** The text is v in decimal, with an optional sign. */
  ghost predicate Spells(text: string, v: int) {
    exists sign, digits :: SpelledAs(text, v, sign, digits)
  }

  /** A text is an int64 exactly when it spells one in range; otherwise it is malformed or out of range. */
  lemma ParseInt64IsExact(text: string, v: int)
    ensures ParseInt64(text) == Some(v) <==> Spells(text, v) && MIN_INT64 <= v <= MAX_INT64
  {
    if ParseInt64(text) == Some(v) {
      var n := if text[0] == '-' || text[0] == '+' then 1 else 0;
      assert text == text[..n] + text[n..];
      assert n == 1 ==> text[..n] == [text[0]];
      assert SpelledAs(text, v, text[..n], text[n..]);
    } else if Spells(text, v) {
      var sign, digits :| SpelledAs(text, v, sign, digits);
      assert text[|sign|..] == digits;
    }
  }

  /** What %v prints of an int64 is parsed back to it. */
  lemma DecimalIsParsed(v: int)
    requires MIN_INT64 <= v <= MAX_INT64
    ensures ParseInt64(Decimal(v)) == Some(v)
  {
    assert Decimal(v) == (if v < 0 then "-" else "") + DecimalNat(if v < 0 then -v else v);
    assert SpelledAs(Decimal(v), v, if v < 0 then "-" else "", DecimalNat(if v < 0 then -v else v));
    ParseInt64IsExact(Decimal(v), v);
  }

  /** None is Go's nil. */
  function NormalizeNumber(v: Json, backend: Backend): Option<Param> {
    match v
    case Null => None
    case Bool(b) => Some(Flag(b))
    case Str(s) => Some(Text(s))
    case Num(text) =>
      (match ParseInt64(text)
       case Some(i) => Some(Int64(i))
       case None =>
         match backend.floatText(text)
         case Some(shown) => Some(Float64(shown))
         case None => Some(Text(text)))
    case _ => Some(Composite(v))
  }

  function Column(col: string, fields: Fields): Json {
    if fields.Some? && col in fields.value then fields.value[col] else Null
  }

  function ResolveBind(col: string, q: Request): Option<Param> {
    var v := Column(col, q.data);
    NormalizeNumber(if v.Null? then Column(col, q.prev) else v, q.backend)
  }

  /** The whole bind map of a rule, or None when some column resolves to nil. */
  function BindOf(rule: Rule, q: Request): Option<Binds> {
    if exists p :: p in rule.bind && ResolveBind(rule.bind[p], q).None? then None
    else Some(map p | p in rule.bind :: ResolveBind(rule.bind[p], q).value)
  }

  /** Rule i goes through: its bind is complete and its lookup answers exactly one row. */
  predicate Hits(rules: seq<Rule>, i: nat, q: Request)
    requires i < |rules|
  {
    var bind := BindOf(rules[i], q);
    bind.Some? && var reply := q.backend.answer(i, bind.value); reply.Rows? && |reply.rows| == 1
  }

  function RowAt(rules: seq<Rule>, i: nat, q: Request): Row
    requires i < |rules| && Hits(rules, i, q)
  {
    q.backend.answer(i, BindOf(rules[i], q).value).rows[0]
  }

  /** How the run ends at rule i, the first that does not go through. */
  function Stop(rules: seq<Rule>, i: nat, q: Request): RunResult
    requires i < |rules|
  {
    var bind := BindOf(rules[i], q);
    if bind.Some? && q.backend.answer(i, bind.value).LookupError? then Failed else Missed(rules[i].lookup)
  }

  /** The fold Run computes, from rule i on, over the enrichment built so far. */
  function RunFrom(rules: seq<Rule>, i: nat, acc: map<string, Json>, q: Request): RunResult
    requires i <= |rules|
    decreases |rules| - i
  {
    if i == |rules| then Enriched(acc)
    else if !Hits(rules, i, q) then Stop(rules, i, q)
    else RunFrom(rules, i + 1, acc[rules[i].into := Obj(RowAt(rules, i, q))], q)
  }

  function RunResultOf(rules: seq<Rule>, q: Request): RunResult {
    RunFrom(rules, 0, map[], q)
  }

  /** The inner loop of Run: the bind map of one rule, or None as soon as some column resolves to nil. */
  method BuildBind(rule: Rule, q: Request) returns (built: Option<Binds>)
    ensures built == BindOf(rule, q)
  {
    var bind: Binds, params := map[], rule.bind.Keys;
    while params != {}
      invariant params <= rule.bind.Keys
      invariant bind.Keys == rule.bind.Keys - params
      invariant forall p :: p in bind ==> ResolveBind(rule.bind[p], q) == Some(bind[p])
      decreases params
    {
      var param :| param in params;  // map iteration: any order
      var v := ResolveBind(rule.bind[param], q);
      if v.None? { return None; }
      bind := bind[param := v.value];
      params := params - {param};
    }
    assert bind == map p | p in rule.bind :: ResolveBind(rule.bind[p], q).value;
    built := Some(bind);
  }

  /** Runner.Run. `asked` is the list of binds handed to the lookups, in order. */
  method Run(rules: seq<Rule>, q: Request) returns (r: RunResult, asked: seq<Binds>)
    ensures r == RunResultOf(rules, q)
    // The lookups asked are those of a prefix of the rules; on success all of them.
    ensures |asked| <= |rules|
    ensures forall j :: 0 <= j < |asked| ==> BindOf(rules[j], q) == Some(asked[j])
    ensures forall j :: 0 <= j < |asked| - 1 ==> Hits(rules, j, q)
    ensures r.Enriched? ==> |asked| == |rules|
    // A rule whose bind is incomplete never reaches its lookup.
    ensures |asked| < |rules| ==>
              (asked == [] || Hits(rules, |asked| - 1, q) ==> BindOf(rules[|asked|], q).None?)
  {
    var result: map<string, Json> := map[];
    asked := [];
    var i := 0;
    while i < |rules|
      invariant 0 <= i <= |rules| && |asked| == i
      invariant RunResultOf(rules, q) == RunFrom(rules, i, result, q)
      invariant forall j :: 0 <= j < i ==> BindOf(rules[j], q) == Some(asked[j])
      invariant forall j :: 0 <= j < i ==> Hits(rules, j, q)
    {
      var rule := rules[i];
      var built := BuildBind(rule, q);
      if built.None? {
        return Missed(rule.lookup), asked;
      }
      var bind := built.value;
      var reply := q.backend.answer(i, bind);
      asked := asked + [bind];
      if reply.LookupError? {
        return Failed, asked;
      }
      if |reply.rows| != 1 {
        return Missed(rule.lookup), asked;
      }
      result := result[rule.into := Obj(reply.rows[0])];
      i := i + 1;
    }
    r := Enriched(result);
  }

  /** i is the last rule that writes its key. */
  predicate LastWriter(rules: seq<Rule>, i: nat) {
    i < |rules| && forall j :: i < j < |rules| ==> rules[j].into != rules[i].into
  }

  /** Some rule from i on writes `into`. */
  predicate WrittenFrom(rules: seq<Rule>, i: nat, into: string) {
    exists j :: i <= j < |rules| && rules[j].into == into
  }

  /** A fold that succeeds has taken every rule, and each key holds its last rule's row, or what was there before. */
  lemma {:induction false} RunFromEnriched(rules: seq<Rule>, i: nat, acc: map<string, Json>, q: Request)
    requires i <= |rules|
    requires RunFrom(rules, i, acc, q).Enriched?
    ensures forall j :: i <= j < |rules| ==> Hits(rules, j, q)
    ensures var m := RunFrom(rules, i, acc, q).fields;
            && (forall k :: k in m <==> k in acc || WrittenFrom(rules, i, k))
            && (forall k :: k in acc && !WrittenFrom(rules, i, k) ==> m[k] == acc[k])
            && (forall j :: i <= j < |rules| && LastWriter(rules, j) ==>
                  rules[j].into in m && m[rules[j].into] == Obj(RowAt(rules, j, q)))
    decreases |rules| - i
  {
    if i < |rules| {
      var acc' := acc[rules[i].into := Obj(RowAt(rules, i, q))];
      RunFromEnriched(rules, i + 1, acc', q);
      var m := RunFrom(rules, i, acc, q).fields;
      forall k ensures WrittenFrom(rules, i, k) <==> k == rules[i].into || WrittenFrom(rules, i + 1, k) {
        if WrittenFrom(rules, i, k) && k != rules[i].into {
          var j :| i <= j < |rules| && rules[j].into == k;
          assert i + 1 <= j < |rules| && rules[j].into == k;
        }
      }
      if LastWriter(rules, i) {
        assert !WrittenFrom(rules, i + 1, rules[i].into);
        assert m[rules[i].into] == acc'[rules[i].into];
      }
    }
  }

  /**
   What Run means, without the loop: it enriches exactly when every rule goes through; then each
   target key holds the single row of the last rule that names it, and there are no other keys.
   Otherwise the first rule that does not go through decides: a lookup error is retried, and an
   incomplete bind or any other number of rows is poison under that lookup's name.
   */
  lemma RunnerDenotation(rules: seq<Rule>, q: Request)
    ensures var r := RunResultOf(rules, q);
            && (r.Enriched? <==> forall i :: 0 <= i < |rules| ==> Hits(rules, i, q))
            && (r.Enriched? ==>
                  && (forall k :: k in r.fields <==> WrittenFrom(rules, 0, k))
                  && forall j :: 0 <= j < |rules| && LastWriter(rules, j) ==>
                       rules[j].into in r.fields && r.fields[rules[j].into] == Obj(RowAt(rules, j, q)))
            && (!r.Enriched? ==> exists i: nat :: FirstMiss(rules, i, q) && EndsAt(rules, i, q, r))
  {
    if RunResultOf(rules, q).Enriched? {
      RunFromEnriched(rules, 0, map[], q);
    } else {
      RunFromStops(rules, 0, map[], q);
      var i: nat :| FirstMiss(rules, i, q) && RunResultOf(rules, q) == Stop(rules, i, q);
      assert EndsAt(rules, i, q, RunResultOf(rules, q));
    }
  }

  /** How a run ends at rule i. */
  predicate EndsAt(rules: seq<Rule>, i: nat, q: Request, r: RunResult)
    requires i < |rules|
  {
    match BindOf(rules[i], q)
    case None => r == Missed(rules[i].lookup)
    case Some(bind) =>
      match q.backend.answer(i, bind)
      case LookupError => r == Failed
      case Rows(rows) => |rows| != 1 && r == Missed(rules[i].lookup)
  }

  predicate FirstMiss(rules: seq<Rule>, i: nat, q: Request) {
    i < |rules| && !Hits(rules, i, q) && forall j :: 0 <= j < i ==> Hits(rules, j, q)
  }

  lemma {:induction false} RunFromStops(rules: seq<Rule>, i: nat, acc: map<string, Json>, q: Request)
    requires i <= |rules|
    requires forall j :: 0 <= j < i ==> Hits(rules, j, q)
    requires !RunFrom(rules, i, acc, q).Enriched?
    ensures exists k: nat :: FirstMiss(rules, k, q) && RunFrom(rules, i, acc, q) == Stop(rules, k, q)
    decreases |rules| - i
  {
    if Hits(rules, i, q) {
      RunFromStops(rules, i + 1, acc[rules[i].into := Obj(RowAt(rules, i, q))], q);
    } else {
      assert FirstMiss(rules, i, q);
    }
  }

  /** The row has this value for the column. */
  predicate HasValue(fields: Fields, col: string, v: Json) {
    fields.Some? && col in fields.value && fields.value[col] == v && !v.Null?
  }

  /** The row is missing, or has no value for the column, or null. */
  predicate HasNone(fields: Fields, col: string) {
    fields.None? || col !in fields.value || fields.value[col].Null?
  }

  /** The parameter stands for the value; a number is an int64 if it spells one, else a float, else its text. */
  ghost predicate StandsFor(r: Param, v: Json, backend: Backend) {
    match v
    case Null => false
    case Bool(b) => r == Flag(b)
    case Str(s) => r == Text(s)
    case Num(text) =>
      && (r.Int64? ==> Spells(text, r.i) && MIN_INT64 <= r.i <= MAX_INT64)
      && (!r.Int64? ==>
            && (forall i :: Spells(text, i) ==> !(MIN_INT64 <= i <= MAX_INT64))
            && var shown := backend.floatText(text);
               if shown.Some? then r == Float64(shown.value) else r == Text(text))
    case _ => r == Composite(v)
  }

  lemma NormalizedStandsFor(v: Json, backend: Backend)
    requires !v.Null?
    ensures NormalizeNumber(v, backend).Some? && StandsFor(NormalizeNumber(v, backend).value, v, backend)
  {
    if v.Num? {
      forall i ensures ParseInt64(v.text) == Some(i) <==> Spells(v.text, i) && MIN_INT64 <= i <= MAX_INT64 {
        ParseInt64IsExact(v.text, i);
      }
    }
  }

  /** A column is bound to its new value, whatever the old row holds. */
  lemma BindIsNewValue(col: string, q: Request, v: Json)
    requires HasValue(q.data, col, v)
    ensures ResolveBind(col, q).Some? && StandsFor(ResolveBind(col, q).value, v, q.backend)
    ensures forall prev :: ResolveBind(col, q.(prev := prev)) == ResolveBind(col, q)
  {
    NormalizedStandsFor(v, q.backend);
  }

  /** Only when the new row has none, it is bound to its old value. */
  lemma BindIsOldValue(col: string, q: Request, v: Json)
    requires HasNone(q.data, col) && HasValue(q.prev, col, v)
    ensures ResolveBind(col, q).Some? && StandsFor(ResolveBind(col, q).value, v, q.backend)
  {
    NormalizedStandsFor(v, q.backend);
  }

  /** A column is nil exactly when neither row has a value for it. */
  lemma ResolveBindNil(col: string, q: Request)
    ensures ResolveBind(col, q).None? <==> HasNone(q.data, col) && HasNone(q.prev, col)
  {
  }
}
