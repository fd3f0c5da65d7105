/**
 JSON texts as sections 2 to 7 of RFC 8259 define them: a syntax tree with its white space, its text and the
 value it stands for. The reader accepts exactly these texts, up to its nesting limit, and gives these values.
 */
module JsonGrammar {
  import opened Wrappers
  import opened Events
  import opened JsonText
  import opened JsonValue
  import opened JsonLexical

  datatype Tree =
    | NullTree
    | TrueTree
    | FalseTree
    | NumTree(number: Numeral)
    | StrTree(pieces: seq<Piece>)
    | NoItems(blank: string)
    | ArrTree(items: Items)
    | NoMembers(blank: string)
    | ObjTree(members: Members)

  /** One item with the white space around it, and the items after a comma. */
  datatype Items = Items(before: string, value: Tree, after: string, more: Option<Items>)

  /** One member with the white space around its key and its value, and the members after a comma. */
  datatype Members = Members(before: string, key: seq<Piece>, beforeColon: string, afterColon: string, value: Tree,
                             after: string, more: Option<Members>)

  /** By the grammar, with no more than `depth` arrays and objects inside one another. */
  predicate ValidTree(t: Tree, depth: nat) {
    match t
    case NumTree(n) => ValidNumeral(n)
    case StrTree(ps) => ValidPieces(ps)
    case NoItems(b) => depth > 0 && Blank(b)
    case ArrTree(xs) => depth > 0 && ValidItems(xs, depth - 1)
    case NoMembers(b) => depth > 0 && Blank(b)
    case ObjTree(ms) => depth > 0 && ValidMembers(ms, depth - 1)
    case _ => true
  }

  predicate ValidItems(xs: Items, depth: nat) {
    && Blank(xs.before) && Blank(xs.after)
    && ValidTree(xs.value, depth) && (xs.more.Some? ==> ValidItems(xs.more.value, depth))
  }

  predicate ValidMembers(ms: Members, depth: nat) {
    && Blank(ms.before) && Blank(ms.beforeColon) && Blank(ms.afterColon) && Blank(ms.after) && ValidPieces(ms.key)
    && ValidTree(ms.value, depth) && (ms.more.Some? ==> ValidMembers(ms.more.value, depth))
  }

  /** The text of a tree, followed by `rest`. */
  function TreeOn(t: Tree, rest: string): string {
    match t
    case NullTree => "null" + rest
    case TrueTree => "true" + rest
    case FalseTree => "false" + rest
    case NumTree(n) => NumeralText(n) + rest
    case StrTree(ps) => ['"'] + LiteralOn(ps, rest)
    case NoItems(b) => ['['] + (b + ([']'] + rest))
    case ArrTree(xs) => ['['] + ItemsText(xs, rest)
    case NoMembers(b) => ['{'] + (b + (['}'] + rest))
    case ObjTree(ms) => ['{'] + MembersText(ms, rest)
  }

  function ItemsText(xs: Items, rest: string): string
    decreases xs, 1
  {
    xs.before + TreeOn(xs.value, xs.after + ItemsTail(xs, rest))
  }

  function ItemsTail(xs: Items, rest: string): (s: string)
    ensures s != "" && (s[0] == ']' || s[0] == ',')
    decreases xs, 0
  {
    if xs.more.None? then [']'] + rest else [','] + ItemsText(xs.more.value, rest)
  }

  function MembersText(ms: Members, rest: string): string
    decreases ms, 2
  {
    ms.before + (['"'] + LiteralOn(ms.key, ms.beforeColon + ([':'] + (ms.afterColon + MemberText(ms, rest)))))
  }

  function MemberText(ms: Members, rest: string): string
    decreases ms, 1
  {
    TreeOn(ms.value, ms.after + MembersTail(ms, rest))
  }

  function MembersTail(ms: Members, rest: string): (s: string)
    ensures s != "" && (s[0] == '}' || s[0] == ',')
    decreases ms, 0
  {
    if ms.more.None? then ['}'] + rest else [','] + MembersText(ms.more.value, rest)
  }

  /** The value of a tree: strings and numbers as above; of two members with one key the later one stays. */
  function ValueOf(t: Tree): Json {
    match t
    case NullTree => Null
    case TrueTree => Bool(true)
    case FalseTree => Bool(false)
    case NumTree(n) => Num(NumeralText(n))
    case StrTree(ps) => Str(Spelled(ps))
    case NoItems(_) => Arr([])
    case ArrTree(xs) => Arr(ItemValues(xs))
    case NoMembers(_) => Obj(map[])
    case ObjTree(ms) => Obj(MemberValues(ms, map[]))
  }

  function ItemValues(xs: Items): seq<Json> {
    if xs.more.None? then [ValueOf(xs.value)] else [ValueOf(xs.value)] + ItemValues(xs.more.value)
  }

  /** The members put into a map one after the other. */
  function MemberValues(ms: Members, m: map<string, Json>): map<string, Json>
    decreases ms
  {
    var n := m[Spelled(ms.key) := ValueOf(ms.value)];
    if ms.more.None? then n else MemberValues(ms.more.value, n)
  }

  // ---- every text by the grammar is read ----

  predicate IsNum(c: char) { c == '-' || '0' <= c <= '9' }

  lemma NumeralStarts(n: Numeral, rest: string)
    requires ValidNumeral(n)
    ensures var s := NumeralText(n) + rest; s != "" && IsNum(s[0])
  {
  }

  /** How the text of a tree starts. */
  lemma TreeStarts(t: Tree, rest: string, depth: nat)
    requires ValidTree(t, depth)
    ensures var s := TreeOn(t, rest);
            && s != "" && s[0] == match t
                                  case NullTree => 'n'
                                  case TrueTree => 't'
                                  case FalseTree => 'f'
                                  case NumTree(n) => s[0]
                                  case StrTree(_) => '"'
                                  case NoItems(_) => '['
                                  case ArrTree(_) => '['
                                  case _ => '{'
    ensures t.NumTree? ==> IsNum(TreeOn(t, rest)[0])
  {
    if t.NumTree? { NumeralStarts(t.number, rest); }
  }

  /** White space before a value makes no difference. */
  lemma ValueAfterBlank(ws: string, s: string, depth: nat)
    requires Blank(ws) && s != "" && !IsWs(s[0])
    ensures ParseValue(ws + s, depth) == ParseValue(s, depth)
  {
    BlankIsSkipped(ws, s);
  }

  /** Text that begins with white space or with one of these characters cannot continue a number. */
  lemma TailStops(ws: string, s: string)
    requires Blank(ws) && s != "" && s[0] in ",]}"
    ensures Stops(ws + s) && SkipSpace(ws + s) == s
  {
    BlankIsSkipped(ws, s);
  }

  lemma LiteralTreeRead(ps: seq<Piece>, rest: string, depth: nat)
    requires ValidPieces(ps)
    ensures ParseValue(['"'] + LiteralOn(ps, rest), depth) == Some((Str(Spelled(ps)), rest))
  {
    LiteralRead(ps, rest);
    assert (['"'] + LiteralOn(ps, rest))[1..] == LiteralOn(ps, rest);
  }

  lemma NumberLeaf(s: string, t: string, rest: string, depth: nat)
    requires s != "" && IsNum(s[0]) && ParseNumber(s) == Some((t, rest))
    ensures ParseValue(s, depth) == Some((Num(t), rest))
  {
  }

  lemma NumberTextRead(t: string, rest: string, depth: nat)
    requires IsNumber(t) && Stops(rest) && t != "" && IsNum(t[0])
    ensures ParseValue(t + rest, depth) == Some((Num(t), rest))
  {
    NumberRoundTrip(t, rest);
    NumberLeaf(t + rest, t, rest, depth);
  }

  lemma LeafRead(t: Tree, rest: string, depth: nat)
    requires ValidTree(t, depth) && !t.ArrTree? && !t.ObjTree? && (t.NumTree? ==> Stops(rest))
    ensures ParseValue(TreeOn(t, rest), depth) == Some((ValueOf(t), rest))
  {
    match t
    case NumTree(n) =>
      NumeralStarts(n, "");
      NumeralRead(n);
      NumberTextRead(NumeralText(n), rest, depth);
    case StrTree(ps) => LiteralTreeRead(ps, rest, depth);
    case NoItems(b) => EmptyRead(t, b, rest, depth);
    case NoMembers(b) => EmptyRead(t, b, rest, depth);
    case _ => Words(rest);
  }

  lemma EmptyRead(t: Tree, b: string, rest: string, depth: nat)
    requires t == NoItems(b) || t == NoMembers(b)
    requires ValidTree(t, depth)
    ensures ParseValue(TreeOn(t, rest), depth) == Some((ValueOf(t), rest))
  {
    var s := TreeOn(t, rest);
    var close := if t.NoItems? then ']' else '}';
    assert s[1..] == b + ([close] + rest);
    BlankIsSkipped(b, [close] + rest);
    assert ([close] + rest)[1..] == rest;
  }

  /** A value by the grammar is read, whatever white space there is, and the text after it is left over. */
  lemma {:induction false} TreeRead(ws: string, t: Tree, rest: string, depth: nat)
    requires Blank(ws) && ValidTree(t, depth) && (t.NumTree? ==> Stops(rest))
    ensures ParseValue(ws + TreeOn(t, rest), depth) == Some((ValueOf(t), rest))
    decreases t, 3
  {
    TreeStarts(t, rest, depth);
    ValueAfterBlank(ws, TreeOn(t, rest), depth);
    match t
    case ArrTree(xs) => ArrayTextRead(xs, rest, depth - 1);
    case ObjTree(ms) => ObjectTextRead(ms, rest, depth - 1);
    case _ => LeafRead(t, rest, depth);
  }

  lemma Bracketed(s: string, items: seq<Json>, rest: string, depth: nat)
    requires ParseItems(s, depth) == Some((items, rest)) && SkipSpace(s) != "" && SkipSpace(s)[0] != ']'
    ensures ParseValue(['['] + s, depth + 1) == Some((Arr(items), rest))
  {
    assert (['['] + s)[1..] == s;
  }

  lemma Braced(s: string, m: map<string, Json>, rest: string, depth: nat)
    requires ParseMembers(s, depth) == Some((m, rest)) && SkipSpace(s) != "" && SkipSpace(s)[0] != '}'
    ensures ParseValue(['{'] + s, depth + 1) == Some((Obj(m), rest))
  {
    assert (['{'] + s)[1..] == s;
  }

  lemma {:induction false} ArrayTextRead(xs: Items, rest: string, depth: nat)
    requires ValidItems(xs, depth)
    ensures ParseValue(['['] + ItemsText(xs, rest), depth + 1) == Some((Arr(ItemValues(xs)), rest))
    decreases xs, 2
  {
    var after := xs.after + ItemsTail(xs, rest);
    TreeStarts(xs.value, after, depth);
    BlankIsSkipped(xs.before, TreeOn(xs.value, after));
    ItemsTextRead(xs, rest, depth);
    Bracketed(ItemsText(xs, rest), ItemValues(xs), rest, depth);
  }

  lemma {:induction false} ItemsTextRead(xs: Items, rest: string, depth: nat)
    requires ValidItems(xs, depth)
    ensures ParseItems(ItemsText(xs, rest), depth) == Some((ItemValues(xs), rest))
    decreases xs, 1
  {
    var tail := ItemsTail(xs, rest);
    TailStops(xs.after, tail);
    TreeRead(xs.before, xs.value, xs.after + tail, depth);
    if xs.more.Some? {
      ItemsTextRead(xs.more.value, rest, depth);
      assert tail[1..] == ItemsText(xs.more.value, rest);
    } else {
      assert tail[1..] == rest;
    }
  }

  lemma KeyRead(ms: Members, rest: string, depth: nat)
    requires ValidMembers(ms, depth)
    ensures var s := SkipSpace(MembersText(ms, rest)); s != "" && s[0] == '"'
    ensures ParseKey(MembersText(ms, rest)) == Some((Spelled(ms.key), ms.afterColon + MemberText(ms, rest)))
  {
    var after := ms.afterColon + MemberText(ms, rest);
    var key := LiteralOn(ms.key, ms.beforeColon + ([':'] + after));
    BlankIsSkipped(ms.before, ['"'] + key);
    assert (['"'] + key)[1..] == key;
    LiteralRead(ms.key, ms.beforeColon + ([':'] + after));
    BlankIsSkipped(ms.beforeColon, [':'] + after);
    assert ([':'] + after)[1..] == after;
  }

  lemma {:induction false} ObjectTextRead(ms: Members, rest: string, depth: nat)
    requires ValidMembers(ms, depth)
    ensures ParseValue(['{'] + MembersText(ms, rest), depth + 1) == Some((Obj(MemberValues(ms, map[])), rest))
    decreases ms, 2
  {
    var s := MembersText(ms, rest);
    KeyRead(ms, rest, depth);
    MembersTextRead(ms, map[], rest, depth);
    var m := ParseMembers(s, depth).value.0;
    assert map[] + m == m;
    Braced(s, m, rest, depth);
  }

  /** Later members over earlier ones. */
  lemma {:induction false} MembersTextRead(ms: Members, m: map<string, Json>, rest: string, depth: nat)
    requires ValidMembers(ms, depth)
    ensures var r := ParseMembers(MembersText(ms, rest), depth);
            r.Some? && r.value.1 == rest && m + r.value.0 == MemberValues(ms, m)
    decreases ms, 1
  {
    var tail, k, v := MembersTail(ms, rest), Spelled(ms.key), ValueOf(ms.value);
    KeyRead(ms, rest, depth);
    TailStops(ms.after, tail);
    TreeRead(ms.afterColon, ms.value, ms.after + tail, depth);
    if ms.more.Some? {
      MembersTextRead(ms.more.value, m[k := v], rest, depth);
      assert tail[1..] == MembersText(ms.more.value, rest);
      PutFirst(m, k, v, ParseMembers(tail[1..], depth).value.0);
    } else {
      assert tail[1..] == rest;
      PutFirst(m, k, v, map[]);
    }
  }

  lemma PutFirst(m: map<string, Json>, k: string, v: Json, more: map<string, Json>)
    ensures m + (map[k := v] + more) == m[k := v] + more
    ensures m + map[k := v] == m[k := v]
  {
  }

  // ---- every text that is read is by the grammar ----

  lemma WordSound(s: string, word: string)
    requires word != "" && After(s, word).Some?
    ensures s == word + After(s, word).value
  {
  }

  lemma ScalarSound(s: string) returns (t: Tree)
    requires s != "" && ParseScalar(s).Some?
    ensures ValidTree(t, 0) && ParseScalar(s).value.0 == ValueOf(t) && s == TreeOn(t, ParseScalar(s).value.1)
  {
    if s[0] == '"' {
      var ps := LiteralSound(s[1..]);
      t := StrTree(ps);
    } else if s[0] == 'n' {
      WordSound(s, "null");
      t := NullTree;
    } else if s[0] == 't' {
      WordSound(s, "true");
      t := TrueTree;
    } else if s[0] == 'f' {
      WordSound(s, "false");
      t := FalseTree;
    } else {
      var n := NumeralSound(s);
      t := NumTree(n);
    }
  }

  /** A text that is read is white space and a tree's text; the value that is given is the tree's. */
  lemma {:induction false} TreeSound(text: string, depth: nat) returns (ws: string, t: Tree)
    requires ParseValue(text, depth).Some?
    ensures Blank(ws) && ValidTree(t, depth)
    ensures var (v, rest) := ParseValue(text, depth).value; v == ValueOf(t) && text == ws + TreeOn(t, rest)
    decreases |text|, 1
  {
    ws := SkippedIsBlank(text);
    t := ValueSound(SkipSpace(text), depth);
  }

  lemma {:induction false} ValueSound(s: string, depth: nat) returns (t: Tree)
    requires s != "" && SkipSpace(s) == s && ParseValue(s, depth).Some?
    ensures ValidTree(t, depth)
    ensures var (v, rest) := ParseValue(s, depth).value; v == ValueOf(t) && s == TreeOn(t, rest)
    decreases |s|, 0
  {
    Split(s, 1);
    if s[0] == '[' {
      t := ArraySound(s[1..], depth - 1);
    } else if s[0] == '{' {
      t := ObjectSound(s[1..], depth - 1);
    } else {
      t := ScalarSound(s);
    }
  }

  lemma EmptySound(s: string, close: char) returns (ws: string)
    requires SkipSpace(s) != "" && SkipSpace(s)[0] == close
    ensures Blank(ws) && s == ws + ([close] + SkipSpace(s)[1..])
  {
    ws := SkippedIsBlank(s);
    Split(SkipSpace(s), 1);
  }

  lemma {:induction false} ArraySound(s: string, depth: nat) returns (t: Tree)
    requires ParseArray(s, depth).Some?
    ensures ValidTree(t, depth + 1)
    ensures var (v, rest) := ParseArray(s, depth).value; v == ValueOf(t) && ['['] + s == TreeOn(t, rest)
    decreases |s|, 4
  {
    var c := SkipSpace(s);
    if c != "" && c[0] == ']' {
      var ws := EmptySound(s, ']');
      t := NoItems(ws);
    } else {
      var xs := FilledArraySound(s, ParseItems(s, depth).value.0, ParseItems(s, depth).value.1, depth);
      t := ArrTree(xs);
    }
  }

  lemma {:induction false} FilledArraySound(s: string, items: seq<Json>, rest: string, depth: nat) returns (xs: Items)
    requires ParseItems(s, depth) == Some((items, rest))
    ensures ValidItems(xs, depth) && items == ItemValues(xs) && s == ItemsText(xs, rest)
    decreases |s|, 3
  {
    xs := ItemsSound(s, rest, depth);
    ItemsTextRead(xs, rest, depth);
  }

  lemma {:induction false} ObjectSound(s: string, depth: nat) returns (t: Tree)
    requires ParseObject(s, depth).Some?
    ensures ValidTree(t, depth + 1)
    ensures var (v, rest) := ParseObject(s, depth).value; v == ValueOf(t) && ['{'] + s == TreeOn(t, rest)
    decreases |s|, 4
  {
    var c := SkipSpace(s);
    if c != "" && c[0] == '}' {
      var ws := EmptySound(s, '}');
      t := NoMembers(ws);
    } else {
      var ms := FilledObjectSound(s, ParseMembers(s, depth).value.0, ParseMembers(s, depth).value.1, depth);
      t := ObjTree(ms);
    }
  }

  lemma {:induction false} FilledObjectSound(s: string, m: map<string, Json>, rest: string, depth: nat)
    returns (ms: Members)
    requires ParseMembers(s, depth) == Some((m, rest))
    ensures ValidMembers(ms, depth) && m == MemberValues(ms, map[]) && s == MembersText(ms, rest)
    decreases |s|, 3
  {
    ms := MembersSound(s, rest, depth);
    MembersTextRead(ms, map[], rest, depth);
    assert map[] + m == m;
  }

  /** What comes after an item. */
  lemma ItemThen(text: string, rest: string, depth: nat)
    requires ParseItems(text, depth).Some? && ParseItems(text, depth).value.1 == rest
    ensures ParseValue(text, depth).Some?
    ensures var s := SkipSpace(ParseValue(text, depth).value.1);
            || s == [']'] + rest
            || (s != "" && s == [','] + s[1..] && ParseItems(s[1..], depth).Some? &&
                ParseItems(s[1..], depth).value.1 == rest)
  {
    Split(SkipSpace(ParseValue(text, depth).value.1), 1);
  }

  lemma {:induction false} ItemsSound(text: string, rest: string, depth: nat) returns (xs: Items)
    requires ParseItems(text, depth).Some? && ParseItems(text, depth).value.1 == rest
    ensures ValidItems(xs, depth) && text == ItemsText(xs, rest)
    decreases |text|, 2
  {
    ItemThen(text, rest, depth);
    var before, t := TreeSound(text, depth);
    var afterValue := ParseValue(text, depth).value.1;
    var after := SkippedIsBlank(afterValue);
    var s := SkipSpace(afterValue);
    if s == [']'] + rest {
      xs := Items(before, t, after, None);
    } else {
      var more := ItemsSound(s[1..], rest, depth);
      xs := Items(before, t, after, Some(more));
    }
    assert s == ItemsTail(xs, rest);
  }

  /** What comes after a member. */
  lemma MemberThen(text: string, rest: string, depth: nat)
    requires ParseMembers(text, depth).Some? && ParseMembers(text, depth).value.1 == rest
    ensures ParseKey(text).Some? && ParseValue(ParseKey(text).value.1, depth).Some?
    ensures var s := SkipSpace(ParseValue(ParseKey(text).value.1, depth).value.1);
            || s == ['}'] + rest
            || (s != "" && s == [','] + s[1..] && ParseMembers(s[1..], depth).Some? &&
                ParseMembers(s[1..], depth).value.1 == rest)
  {
    Split(SkipSpace(ParseValue(ParseKey(text).value.1, depth).value.1), 1);
  }

  lemma {:induction false} MembersSound(text: string, rest: string, depth: nat) returns (ms: Members)
    requires ParseMembers(text, depth).Some? && ParseMembers(text, depth).value.1 == rest
    ensures ValidMembers(ms, depth) && text == MembersText(ms, rest)
    decreases |text|, 2
  {
    MemberThen(text, rest, depth);
    var before, key, beforeColon := KeySound(text);
    var afterKey := ParseKey(text).value.1;
    var afterColon, t := TreeSound(afterKey, depth);
    var afterValue := ParseValue(afterKey, depth).value.1;
    var after := SkippedIsBlank(afterValue);
    var s := SkipSpace(afterValue);
    if s == ['}'] + rest {
      ms := Members(before, key, beforeColon, afterColon, t, after, None);
    } else {
      var more := MembersSound(s[1..], rest, depth);
      ms := Members(before, key, beforeColon, afterColon, t, after, Some(more));
    }
    assert s == MembersTail(ms, rest);
  }

  /** What comes after a key. */
  lemma KeyThen(text: string, k: string, rest: string)
    requires ParseKey(text) == Some((k, rest))
    ensures var s := SkipSpace(text);
            && s != "" && s == ['"'] + s[1..] && ParseChars(s[1..]).Some?
            && SkipSpace(ParseChars(s[1..]).value.1) == [':'] + rest
  {
    Split(SkipSpace(text), 1);
    Split(SkipSpace(ParseChars(SkipSpace(text)[1..]).value.1), 1);
  }

  lemma KeySound(text: string) returns (before: string, key: seq<Piece>, beforeColon: string)
    requires ParseKey(text).Some?
    ensures Blank(before) && ValidPieces(key) && Blank(beforeColon)
    ensures text == before + (['"'] + LiteralOn(key, beforeColon + ([':'] + ParseKey(text).value.1)))
  {
    KeyThen(text, ParseKey(text).value.0, ParseKey(text).value.1);
    before := SkippedIsBlank(text);
    key := LiteralSound(SkipSpace(text)[1..]);
    beforeColon := SkippedIsBlank(ParseChars(SkipSpace(text)[1..]).value.1);
  }

  /** Some text by the grammar stands for the value, with this text after it. */
  ghost predicate StandsFor(text: string, depth: nat, v: Json, rest: string) {
    exists ws, t :: Blank(ws) && ValidTree(t, depth) && ValueOf(t) == v && text == ws + TreeOn(t, rest)
  }

  /** What is read is what the grammar says. A number ends where nothing goes on with it. */
  lemma ReaderIsExact(text: string, depth: nat, v: Json, rest: string)
    requires v.Num? ==> Stops(rest)
    ensures ParseValue(text, depth) == Some((v, rest)) <==> StandsFor(text, depth, v, rest)
  {
    if ParseValue(text, depth) == Some((v, rest)) {
      var ws, t := TreeSound(text, depth);
    } else if StandsFor(text, depth, v, rest) {
      var ws, t :| Blank(ws) && ValidTree(t, depth) && ValueOf(t) == v && text == ws + TreeOn(t, rest);
      TreeRead(ws, t, rest, depth);
    }
  }
}
