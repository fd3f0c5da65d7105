/** JSON values: Marshal and Decode, and the round trip between them. */
module JsonValue {
  import opened Wrappers
  import opened SortedKeys
  import opened Events
  import opened JsonText

  /** Marshal's text of a value, followed by `rest`. Object keys come sorted. */
  function PrintOn(j: Json, rest: string): string
    decreases j
  {
    match j
    case Null => "null" + rest
    case Bool(b) => if b then "true" + rest else "false" + rest
    case Num(text) => (if text == "" then "0" else text) + rest
    case Str(s) => QuoteOn(s, rest)
    case Arr(items) => if items == [] then "[]" + rest else ['['] + ItemsOn(j, 0, rest)
    case Obj(m) => if m == map[] then "{}" + rest else ['{'] + MembersOn(j, Sorted(m.Keys), rest)
  }

  function ItemsOn(j: Json, i: nat, rest: string): string
    requires j.Arr? && i < |j.items|
    decreases j, |j.items| - i
  {
    PrintOn(j.items[i], if i + 1 == |j.items| then [']'] + rest else [','] + ItemsOn(j, i + 1, rest))
  }

  function MembersOn(j: Json, keys: seq<string>, rest: string): string
    requires j.Obj? && keys != [] && forall k :: k in keys ==> k in j.fields
    decreases j, |keys|
  {
    var tail := if |keys| == 1 then ['}'] + rest else [','] + MembersOn(j, keys[1..], rest);
    QuoteOn(keys[0], [':'] + PrintOn(j.fields[keys[0]], tail))
  }

  predicate IsSpace(c: char) { c in " \t\r\n" }

  function SkipSpace(s: string): (r: string)
    ensures |r| <= |s|
    ensures s != "" && !IsSpace(s[0]) ==> r == s
  {
    if s != "" && IsSpace(s[0]) then SkipSpace(s[1..]) else s
  }

  /** The text after a literal word. */
  function After(s: string, word: string): (r: Option<string>)
    requires word != ""
    ensures r.Some? ==> |r.value| < |s|
  {
    if |word| <= |s| && s[..|word|] == word then Some(s[|word|..]) else None
  }

  function WithRest(j: Json, rest: Option<string>): (r: Option<(Json, string)>)
    ensures r.Some? ==> r.value.0 == j && rest == Some(r.value.1)
  {
    match rest case None => None case Some(t) => Some((j, t))
  }

  /** null, true, false, a number or a string. */
  function ParseScalar(s: string): (r: Option<(Json, string)>)
    requires s != ""
    ensures r.Some? ==> |r.value.1| < |s|
  {
    if s[0] == '"' then (match ParseChars(s[1..]) case None => None case Some((str, rest)) => Some((Str(str), rest)))
    else if s[0] == 'n' then WithRest(Null, After(s, "null"))
    else if s[0] == 't' then WithRest(Bool(true), After(s, "true"))
    else if s[0] == 'f' then WithRest(Bool(false), After(s, "false"))
    else match ParseNumber(s) case None => None case Some((t, rest)) => Some((Num(t), rest))
  }

  /** One value and the text after it; `depth` more containers may be opened. */
  function ParseValue(text: string, depth: nat): (r: Option<(Json, string)>)
    ensures r.Some? ==> |r.value.1| < |text|
    decreases |text|, 1
  {
    var s := SkipSpace(text);
    if s == "" then None
    else if s[0] == '[' then (if depth == 0 then None else ParseArray(s[1..], depth - 1))
    else if s[0] == '{' then (if depth == 0 then None else ParseObject(s[1..], depth - 1))
    else ParseScalar(s)
  }

  /** An array after its opening bracket. */
  function ParseArray(text: string, depth: nat): (r: Option<(Json, string)>)
    ensures r.Some? ==> |r.value.1| <= |text|
    decreases |text|, 3
  {
    var s := SkipSpace(text);
    if s != "" && s[0] == ']' then Some((Arr([]), s[1..])) else
      match ParseItems(text, depth) case None => None case Some((items, rest)) => Some((Arr(items), rest))
  }

  /** An object after its opening brace. */
  function ParseObject(text: string, depth: nat): (r: Option<(Json, string)>)
    ensures r.Some? ==> |r.value.1| <= |text|
    decreases |text|, 3
  {
    var s := SkipSpace(text);
    if s != "" && s[0] == '}' then Some((Obj(map[]), s[1..])) else
      match ParseMembers(text, depth) case None => None case Some((m, rest)) => Some((Obj(m), rest))
  }

  /** The items of an array up to its closing bracket. */
  function ParseItems(text: string, depth: nat): (r: Option<(seq<Json>, string)>)
    ensures r.Some? ==> |r.value.1| < |text|
    decreases |text|, 2
  {
    match ParseValue(text, depth)
    case None => None
    case Some((v, afterValue)) =>
      var s := SkipSpace(afterValue);
      if s == "" then None
      else if s[0] == ']' then Some(([v], s[1..]))
      else if s[0] != ',' then None
      else match ParseItems(s[1..], depth)
           case None => None
           case Some((more, rest)) => Some(([v] + more, rest))
  }

  /** A key and the text after its colon. */
  function ParseKey(text: string): (r: Option<(string, string)>)
    ensures r.Some? ==> |r.value.1| < |text|
  {
    var s := SkipSpace(text);
    if s == "" || s[0] != '"' then None else
      match ParseChars(s[1..])
      case None => None
      case Some((k, afterKey)) =>
        var c := SkipSpace(afterKey);
        if c == "" || c[0] != ':' then None else Some((k, c[1..]))
  }

  /** The members of an object up to its closing brace; a repeated key keeps its last value. */
  function ParseMembers(text: string, depth: nat): (r: Option<(map<string, Json>, string)>)
    ensures r.Some? ==> |r.value.1| < |text|
    decreases |text|, 2
  {
    match ParseKey(text)
    case None => None
    case Some((k, afterColon)) =>
      match ParseValue(afterColon, depth)
      case None => None
      case Some((v, afterValue)) =>
        var s := SkipSpace(afterValue);
        if s == "" then None
        else if s[0] == '}' then Some((map[k := v], s[1..]))
        else if s[0] != ',' then None
        else match ParseMembers(s[1..], depth)
             case None => None
             case Some((more, rest)) => Some((map[k := v] + more, rest))
  }

  /** Every number is JSON text: what Decode yields, and what Marshal accepts unchanged. */
  predicate WellFormed(j: Json) {
    match j
    case Num(text) => IsNumber(text)
    case Arr(items) => forall i :: 0 <= i < |items| ==> WellFormed(items[i])
    case Obj(m) => forall k :: k in m ==> WellFormed(m[k])
    case _ => true
  }

  /** No more than `depth` containers inside one another. */
  predicate Fits(j: Json, depth: nat)
    decreases j
  {
    match j
    case Arr(items) => depth > 0 && forall i :: 0 <= i < |items| ==> Fits(items[i], depth - 1)
    case Obj(m) => depth > 0 && forall k :: k in m ==> Fits(m[k], depth - 1)
    case _ => true
  }

  /** How the text of a value begins. */
  lemma Begins(j: Json, rest: string)
    requires WellFormed(j)
    ensures var s := PrintOn(j, rest);
            s != "" && !IsSpace(s[0]) && s[0] != ']' && s[0] != '}' &&
            (j.Str? <==> s[0] == '"') && (j.Arr? <==> s[0] == '[') && (j.Obj? <==> s[0] == '{') &&
            (j.Null? <==> s[0] == 'n') && (j.Bool? <==> s[0] == 't' || s[0] == 'f')
  {
    match j
    case Num(text) => assert (text + rest)[0] == text[0];
    case Obj(_) => assert PrintOn(j, rest)[0] == '{';
    case _ =>
  }

  lemma Words(rest: string)
    ensures After("null" + rest, "null") == Some(rest)
    ensures After("true" + rest, "true") == Some(rest)
    ensures After("false" + rest, "false") == Some(rest)
  {
    WordThen("null", rest);
    WordThen("true", rest);
    WordThen("false", rest);
  }

  lemma WordThen(word: string, rest: string)
    requires word != ""
    ensures After(word + rest, word) == Some(rest)
  {
    assert (word + rest)[..|word|] == word && (word + rest)[|word|..] == rest;
  }

  /** The map restricted to a list of its keys. */
  function Restrict(m: map<string, Json>, keys: seq<string>): map<string, Json>
    requires forall k :: k in keys ==> k in m
  {
    map k | k in keys :: m[k]
  }

  lemma RestrictCons(m: map<string, Json>, keys: seq<string>)
    requires keys != [] && forall k :: k in keys ==> k in m
    ensures map[keys[0] := m[keys[0]]] + Restrict(m, keys[1..]) == Restrict(m, keys)
  {
    assert forall k :: k in keys <==> k == keys[0] || k in keys[1..];
  }

  lemma KeyRoundTrip(k: string, rest: string)
    ensures ParseKey(QuoteOn(k, [':'] + rest)) == Some((k, rest))
  {
    CharsRoundTrip(k, [':'] + rest);
    assert QuoteOn(k, [':'] + rest)[1..] == CharsOn(k, ['"'] + ([':'] + rest));
    assert ([':'] + rest)[1..] == rest;
  }

  lemma LastItem(text: string, v: Json, rest: string, depth: nat)
    requires ParseValue(text, depth) == Some((v, [']'] + rest))
    ensures ParseItems(text, depth) == Some(([v], rest))
  {
    assert ([']'] + rest)[1..] == rest;
  }

  lemma NextItem(text: string, v: Json, tail: string, depth: nat)
    requires ParseValue(text, depth) == Some((v, [','] + tail)) && ParseItems(tail, depth).Some?
    ensures ParseItems(text, depth) == Some(([v] + ParseItems(tail, depth).value.0, ParseItems(tail, depth).value.1))
  {
    assert ([','] + tail)[1..] == tail;
  }

  lemma LastMember(text: string, k: string, after: string, v: Json, rest: string, depth: nat)
    requires ParseKey(text) == Some((k, after)) && ParseValue(after, depth) == Some((v, ['}'] + rest))
    ensures ParseMembers(text, depth) == Some((map[k := v], rest))
  {
    assert (['}'] + rest)[1..] == rest;
  }

  lemma CommaThen(tail: string)
    ensures SkipSpace([','] + tail) == [','] + tail && ([','] + tail)[1..] == tail
  {
  }

  lemma NextMember(text: string, k: string, after: string, v: Json, tail: string, depth: nat, more: map<string, Json>,
      rest: string)
    requires ParseKey(text) == Some((k, after)) && ParseValue(after, depth) == Some((v, [','] + tail))
    requires ParseMembers(tail, depth) == Some((more, rest))
    ensures ParseMembers(text, depth) == Some((map[k := v] + more, rest))
  {
    CommaThen(tail);
  }

  lemma {:induction false} LastItemRoundTrip(j: Json, i: nat, rest: string, depth: nat)
    requires j.Arr? && i + 1 == |j.items| && WellFormed(j) && Fits(j, depth + 1)
    ensures ParseItems(ItemsOn(j, i, rest), depth) == Some(([j.items[i]], rest))
    decreases j, |j.items| - i, 0
  {
    ValueRoundTrip(j.items[i], [']'] + rest, depth);
    LastItem(ItemsOn(j, i, rest), j.items[i], rest, depth);
  }

  lemma {:induction false} NextItemRoundTrip(j: Json, i: nat, rest: string, depth: nat, more: seq<Json>)
    requires j.Arr? && i + 1 < |j.items| && WellFormed(j) && Fits(j, depth + 1)
    requires ParseItems(ItemsOn(j, i + 1, rest), depth) == Some((more, rest))
    ensures ParseItems(ItemsOn(j, i, rest), depth) == Some(([j.items[i]] + more, rest))
    decreases j, |j.items| - i, 0
  {
    var tail := ItemsOn(j, i + 1, rest);
    ValueRoundTrip(j.items[i], [','] + tail, depth);
    NextItem(ItemsOn(j, i, rest), j.items[i], tail, depth);
  }

  lemma ItemsFrom(items: seq<Json>, i: nat)
    requires i < |items|
    ensures items[i..] == [items[i]] + items[i + 1..]
    ensures i + 1 == |items| ==> items[i..] == [items[i]]
  {
  }

  lemma {:induction false} ItemsRoundTrip(j: Json, i: nat, rest: string, depth: nat)
    requires j.Arr? && i < |j.items| && WellFormed(j) && Fits(j, depth + 1)
    ensures ParseItems(ItemsOn(j, i, rest), depth) == Some((j.items[i..], rest))
    decreases j, |j.items| - i, 1
  {
    if i + 1 == |j.items| {
      LastItemRoundTrip(j, i, rest, depth);
      ItemsFrom(j.items, i);
    } else {
      ItemsRoundTrip(j, i + 1, rest, depth);
      NextItemRoundTrip(j, i, rest, depth, j.items[i + 1..]);
      ItemsFrom(j.items, i);
    }
  }

  lemma {:induction false} LastMemberRoundTrip(j: Json, keys: seq<string>, rest: string, depth: nat)
    requires j.Obj? && |keys| == 1 && (forall k :: k in keys ==> k in j.fields) && WellFormed(j) && Fits(j, depth + 1)
    ensures ParseMembers(MembersOn(j, keys, rest), depth) == Some((map[keys[0] := j.fields[keys[0]]], rest))
    decreases j, |keys|, 0
  {
    var k, v := keys[0], j.fields[keys[0]];
    MembersKey(j, keys, rest, ['}'] + rest);
    ValueRoundTrip(v, ['}'] + rest, depth);
    LastMember(MembersOn(j, keys, rest), k, PrintOn(v, ['}'] + rest), v, rest, depth);
  }

  lemma {:induction false} NextMemberRoundTrip(j: Json, keys: seq<string>, rest: string, depth: nat,
      more: map<string, Json>)
    requires j.Obj? && |keys| > 1 && (forall k :: k in keys ==> k in j.fields) && WellFormed(j) && Fits(j, depth + 1)
    requires ParseMembers(MembersOn(j, keys[1..], rest), depth) == Some((more, rest))
    ensures ParseMembers(MembersOn(j, keys, rest), depth) == Some((map[keys[0] := j.fields[keys[0]]] + more, rest))
    decreases j, |keys|, 0
  {
    var k, v, tail := keys[0], j.fields[keys[0]], MembersOn(j, keys[1..], rest);
    MembersKey(j, keys, rest, [','] + tail);
    ValueRoundTrip(v, [','] + tail, depth);
    NextMember(MembersOn(j, keys, rest), k, PrintOn(v, [','] + tail), v, tail, depth, more, rest);
  }

  lemma {:induction false} MembersRoundTrip(j: Json, keys: seq<string>, rest: string, depth: nat)
    requires j.Obj? && keys != [] && (forall k :: k in keys ==> k in j.fields) && WellFormed(j) && Fits(j, depth + 1)
    ensures ParseMembers(MembersOn(j, keys, rest), depth) == Some((Restrict(j.fields, keys), rest))
    decreases j, |keys|, 1
  {
    RestrictCons(j.fields, keys);
    if |keys| == 1 {
      LastMemberRoundTrip(j, keys, rest, depth);
      RestrictOne(j.fields, keys);
    } else {
      MembersRoundTrip(j, keys[1..], rest, depth);
      NextMemberRoundTrip(j, keys, rest, depth, Restrict(j.fields, keys[1..]));
    }
  }

  lemma MembersKey(j: Json, keys: seq<string>, rest: string, tail: string)
    requires j.Obj? && keys != [] && forall k :: k in keys ==> k in j.fields
    requires tail == if |keys| == 1 then ['}'] + rest else [','] + MembersOn(j, keys[1..], rest)
    ensures ParseKey(MembersOn(j, keys, rest)) == Some((keys[0], PrintOn(j.fields[keys[0]], tail)))
  {
    KeyRoundTrip(keys[0], PrintOn(j.fields[keys[0]], tail));
  }

  lemma RestrictOne(m: map<string, Json>, keys: seq<string>)
    requires |keys| == 1 && keys[0] in m
    ensures Restrict(m, keys) == map[keys[0] := m[keys[0]]]
  {
  }

  lemma ArrayText(text: string, depth: nat)
    requires text != "" && !IsSpace(text[0]) && text[0] != ']' && depth > 0
    ensures ParseValue(['['] + text, depth) ==
            match ParseItems(text, depth - 1) case None => None case Some((items, rest)) => Some((Arr(items), rest))
  {
    assert (['['] + text)[1..] == text;
  }

  lemma ObjectText(text: string, depth: nat)
    requires text != "" && !IsSpace(text[0]) && text[0] != '}' && depth > 0
    ensures ParseValue(['{'] + text, depth) ==
            match ParseMembers(text, depth - 1) case None => None case Some((m, rest)) => Some((Obj(m), rest))
  {
    assert (['{'] + text)[1..] == text;
  }

  lemma EmptyText(rest: string, depth: nat)
    requires depth > 0
    ensures ParseValue("[]" + rest, depth) == Some((Arr([]), rest))
    ensures ParseValue("{}" + rest, depth) == Some((Obj(map[]), rest))
  {
    var s, t := "[]" + rest, "{}" + rest;
    assert s[1..] == [']'] + rest && s[1..][1..] == rest;
    assert t[1..] == ['}'] + rest && t[1..][1..] == rest;
  }

  /** A printed value is read back, and the text after it is left over. */
  lemma {:induction false} ValueRoundTrip(j: Json, rest: string, depth: nat)
    requires WellFormed(j) && Fits(j, depth) && Stops(rest)
    ensures ParseValue(PrintOn(j, rest), depth) == Some((j, rest))
    decreases j
  {
    Begins(j, rest);
    var s := PrintOn(j, rest);
    match j
    case Null => Words(rest);
    case Bool(_) => Words(rest);
    case Num(text) => NumberRoundTrip(text, rest);
    case Str(str) => CharsRoundTrip(str, rest);
    case Arr(items) => ArrayRoundTrip(j, rest, depth);
    case Obj(m) => ObjectRoundTrip(j, rest, depth);
  }

  lemma {:induction false} ArrayRoundTrip(j: Json, rest: string, depth: nat)
    requires j.Arr? && WellFormed(j) && Fits(j, depth) && Stops(rest)
    ensures ParseValue(PrintOn(j, rest), depth) == Some((j, rest))
    decreases j, |j.items| + 2
  {
    if j.items == [] {
      EmptyText(rest, depth);
    } else {
      FilledArray(j, rest, depth);
    }
  }

  lemma ItemsBegin(j: Json, rest: string)
    requires j.Arr? && j.items != [] && WellFormed(j)
    ensures var s := ItemsOn(j, 0, rest); s != "" && !IsSpace(s[0]) && s[0] != ']'
  {
    Begins(j.items[0], if 1 == |j.items| then [']'] + rest else [','] + ItemsOn(j, 1, rest));
  }

  lemma {:induction false} FilledArray(j: Json, rest: string, depth: nat)
    requires j.Arr? && j.items != [] && WellFormed(j) && Fits(j, depth)
    ensures ParseValue(['['] + ItemsOn(j, 0, rest), depth) == Some((j, rest))
    decreases j, |j.items| + 1
  {
    ItemsRoundTrip(j, 0, rest, depth - 1);
    ItemsBegin(j, rest);
    ArrayText(ItemsOn(j, 0, rest), depth);
    assert j.items[0..] == j.items;
  }

  lemma {:induction false} ObjectRoundTrip(j: Json, rest: string, depth: nat)
    requires j.Obj? && WellFormed(j) && Fits(j, depth) && Stops(rest)
    ensures ParseValue(PrintOn(j, rest), depth) == Some((j, rest))
    decreases j, |j.fields| + 2
  {
    if j.fields == map[] {
      EmptyText(rest, depth);
    } else {
      SortedNotEmpty(j.fields);
      FilledObject(j, Sorted(j.fields.Keys), rest, depth);
    }
  }

  lemma {:induction false} FilledObject(j: Json, keys: seq<string>, rest: string, depth: nat)
    requires j.Obj? && keys != [] && (forall k :: k in keys <==> k in j.fields) && WellFormed(j) && Fits(j, depth)
    ensures ParseValue(['{'] + MembersOn(j, keys, rest), depth) == Some((j, rest))
    decreases j, |keys| + 1
  {
    MembersRoundTrip(j, keys, rest, depth - 1);
    ObjectText(MembersOn(j, keys, rest), depth);
    RestrictAll(j.fields, keys);
  }

  lemma SortedNotEmpty(m: map<string, Json>)
    ensures m != map[] <==> Sorted(m.Keys) != []
  {
    assert m.Keys == {} <==> m == map[];
  }

  lemma RestrictAll(m: map<string, Json>, keys: seq<string>)
    requires forall k :: k in keys <==> k in m
    ensures Restrict(m, keys) == m
  {
  }

  lemma NoItem(text: string, depth: nat)
    requires match ParseValue(text, depth)
             case None => true
             case Some((_, tail)) => tail != "" && tail[0] == ',' && ParseItems(tail[1..], depth).None?
    ensures ParseItems(text, depth).None?
  {
  }

  lemma NoMember(text: string, after: string, depth: nat)
    requires ParseKey(text).Some? && ParseKey(text).value.1 == after
    requires match ParseValue(after, depth)
             case None => true
             case Some((_, tail)) => tail != "" && tail[0] == ',' && ParseMembers(tail[1..], depth).None?
    ensures ParseMembers(text, depth).None?
  {
  }

  lemma {:induction false} ItemsTooDeep(j: Json, i: nat, x: nat, rest: string, depth: nat)
    requires j.Arr? && i <= x < |j.items| && WellFormed(j) && !Fits(j.items[x], depth)
    ensures ParseItems(ItemsOn(j, i, rest), depth).None?
    decreases j, |j.items| - i
  {
    var tail := if i + 1 == |j.items| then [']'] + rest else [','] + ItemsOn(j, i + 1, rest);
    if Fits(j.items[i], depth) {
      ItemsTooDeep(j, i + 1, x, rest, depth);
      ValueRoundTrip(j.items[i], tail, depth);
      assert tail[1..] == ItemsOn(j, i + 1, rest);
    } else {
      TooDeep(j.items[i], tail, depth);
    }
    NoItem(ItemsOn(j, i, rest), depth);
  }

  lemma {:induction false} MembersTooDeep(j: Json, keys: seq<string>, x: nat, rest: string, depth: nat)
    requires j.Obj? && x < |keys| && (forall k :: k in keys ==> k in j.fields) && WellFormed(j) &&
             !Fits(j.fields[keys[x]], depth)
    ensures ParseMembers(MembersOn(j, keys, rest), depth).None?
    decreases j, |keys|
  {
    var k := keys[0];
    var tail := if |keys| == 1 then ['}'] + rest else [','] + MembersOn(j, keys[1..], rest);
    var text := PrintOn(j.fields[k], tail);
    KeyRoundTrip(k, text);
    if Fits(j.fields[k], depth) {
      MembersTooDeep(j, keys[1..], x - 1, rest, depth);
      ValueRoundTrip(j.fields[k], tail, depth);
      assert tail[1..] == MembersOn(j, keys[1..], rest);
    } else {
      TooDeep(j.fields[k], tail, depth);
    }
    NoMember(MembersOn(j, keys, rest), text, depth);
  }

  /** A value nested too deeply is printed all the same, and not read back. */
  lemma {:induction false} TooDeep(j: Json, rest: string, depth: nat)
    requires WellFormed(j) && !Fits(j, depth) && Stops(rest)
    ensures ParseValue(PrintOn(j, rest), depth).None?
    decreases j
  {
    Begins(j, rest);
    if depth > 0 && j.Arr? {
      var x :| 0 <= x < |j.items| && !Fits(j.items[x], depth - 1);
      ItemsBegin(j, rest);
      ItemsTooDeep(j, 0, x, rest, depth - 1);
      ArrayText(ItemsOn(j, 0, rest), depth);
    } else if depth > 0 {
      var k :| k in j.fields && !Fits(j.fields[k], depth - 1);
      SortedNotEmpty(j.fields);
      ObjectTooDeep(j, Sorted(j.fields.Keys), k, rest, depth);
    }
  }

  lemma {:induction false} ObjectTooDeep(j: Json, keys: seq<string>, k: string, rest: string, depth: nat)
    requires j.Obj? && depth > 0 && k in keys && (forall x :: x in keys ==> x in j.fields) && WellFormed(j) &&
             !Fits(j.fields[k], depth - 1)
    ensures ParseValue(['{'] + MembersOn(j, keys, rest), depth).None?
    decreases j, |keys| + 1
  {
    var x :| 0 <= x < |keys| && keys[x] == k;
    MembersTooDeep(j, keys, x, rest, depth - 1);
    ObjectText(MembersOn(j, keys, rest), depth);
  }

  lemma {:induction false} ItemsRead(text: string, depth: nat)
    requires ParseItems(text, depth).Some?
    ensures var items := ParseItems(text, depth).value.0;
            forall i :: 0 <= i < |items| ==> WellFormed(items[i]) && Fits(items[i], depth)
    decreases |text|, 2
  {
    ValueRead(text, depth);
    var s := SkipSpace(ParseValue(text, depth).value.1);
    if s[0] == ',' { ItemsRead(s[1..], depth); }
  }

  lemma {:induction false} MembersRead(text: string, depth: nat)
    requires ParseMembers(text, depth).Some?
    ensures var m := ParseMembers(text, depth).value.0; forall k :: k in m ==> WellFormed(m[k]) && Fits(m[k], depth)
    decreases |text|, 2
  {
    var after := ParseKey(text).value.1;
    ValueRead(after, depth);
    var s := SkipSpace(ParseValue(after, depth).value.1);
    if s[0] == ',' { MembersRead(s[1..], depth); }
  }

  /** What is read has numbers in JSON text and is nested no deeper than the limit. */
  lemma {:induction false} ValueRead(text: string, depth: nat)
    requires ParseValue(text, depth).Some?
    ensures var j := ParseValue(text, depth).value.0; WellFormed(j) && Fits(j, depth)
    decreases |text|, 1
  {
    var s := SkipSpace(text);
    if s[0] == '[' {
      ArrayRead(s[1..], depth - 1);
    } else if s[0] == '{' {
      ObjectRead(s[1..], depth - 1);
    } else {
      ScalarRead(s);
    }
  }

  lemma ScalarRead(s: string)
    requires s != "" && ParseScalar(s).Some?
    ensures var j := ParseScalar(s).value.0; !j.Arr? && !j.Obj? && WellFormed(j)
  {
    if ParseNumber(s).Some? { NumberRead(s); }
  }

  lemma {:induction false} ArrayRead(text: string, depth: nat)
    requires ParseArray(text, depth).Some?
    ensures var j := ParseArray(text, depth).value.0; WellFormed(j) && Fits(j, depth + 1)
    decreases |text|, 3
  {
    var s := SkipSpace(text);
    if !(s != "" && s[0] == ']') { ItemsRead(text, depth); }
  }

  lemma {:induction false} ObjectRead(text: string, depth: nat)
    requires ParseObject(text, depth).Some?
    ensures var j := ParseObject(text, depth).value.0; WellFormed(j) && Fits(j, depth + 1)
    decreases |text|, 3
  {
    var s := SkipSpace(text);
    if !(s != "" && s[0] == '}') { MembersRead(text, depth); }
  }
}
