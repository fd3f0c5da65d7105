/** The cache key of a bind map (internal/lookup/cache.go MakeCacheKey): when two binds can share one. */
module CacheKey {
  import opened Wrappers
  import opened Decimals
  import opened SortedKeys
  import opened Events
  import opened Lookups

  /** One parameter as the key shows it: its name, the %T of its value and the %v of its value. */
  datatype Field = Field(name: string, typ: string, shown: string)

  /** %T of a bind value. */
  function TypeName(p: Param): string {
    match p
    case Int64(_) => "int64"
    case Float64(_) => "float64"
    case Flag(_) => "bool"
    case Text(_) => "string"
    case Composite(j) => if j.Obj? then "map[string]interface {}" else "[]interface {}"
  }

  /** %v of a JSON value: maps by key, elements separated by a space. */
  function ShownJson(j: Json): string
    decreases j
  {
    match j
    case Null => "<nil>"
    case Bool(b) => if b then "true" else "false"
    case Num(text) => text
    case Str(s) => s
    case Arr(items) => "[" + ShownItems(j, 0) + "]"
    case Obj(m) => "map[" + ShownMembers(j, Sorted(m.Keys)) + "]"
  }

  function ShownItems(j: Json, i: nat): string
    requires j.Arr? && i <= |j.items|
    decreases j, |j.items| - i
  {
    if i == |j.items| then "" else (if i == 0 then "" else " ") + ShownJson(j.items[i]) + ShownItems(j, i + 1)
  }

  function ShownMembers(j: Json, keys: seq<string>): string
    requires j.Obj? && forall k :: k in keys ==> k in j.fields
    decreases j, |keys|
  {
    if keys == [] then "" else
      keys[0] + ":" + ShownJson(j.fields[keys[0]]) + (if |keys| == 1 then "" else " ") + ShownMembers(j, keys[1..])
  }

  /** %v of a bind value. */
  function Shown(p: Param): string {
    match p
    case Int64(i) => Decimal(i)
    case Float64(shown) => shown
    case Flag(b) => if b then "true" else "false"
    case Text(s) => s
    case Composite(j) => ShownJson(j)
  }

  /** No value is a map or a slice. */
  predicate Scalar(m: Binds) {
    forall k :: k in m ==> !m[k].Composite?
  }

  /** The text up to the value: |name=type: */
  function Head(name: string, typ: string): string {
    "|" + (name + "=" + (typ + ":"))
  }

  function Print(fs: seq<Field>): string {
    if fs == [] then "" else Head(fs[0].name, fs[0].typ) + (fs[0].shown + Print(fs[1..]))
  }

  function FieldOf(m: Binds, k: string): Field
    requires k in m
  {
    Field(k, TypeName(m[k]), Shown(m[k]))
  }

  function Fields(m: Binds, keys: seq<string>): (r: seq<Field>)
    requires forall k :: k in keys ==> k in m
  {
    seq(|keys|, i requires 0 <= i < |keys| => FieldOf(m, keys[i]))
  }

  /** The key as a function of the map alone. */
  function Key(m: Binds): string {
    Print(Fields(m, Sorted(m.Keys)))
  }

  lemma {:induction false} PrintSnoc(fs: seq<Field>, f: Field)
    ensures Print(fs + [f]) == Print(fs) + (Head(f.name, f.typ) + f.shown)
  {
    if fs == [] {
      assert [] + [f] == [f] && [f][1..] == [];
      assert f.shown + "" == f.shown;
      assert "" + (Head(f.name, f.typ) + f.shown) == Head(f.name, f.typ) + f.shown;
    } else {
      PrintSnoc(fs[1..], f);
      assert (fs + [f])[1..] == fs[1..] + [f];
      var h, tail := Head(fs[0].name, fs[0].typ), Head(f.name, f.typ) + f.shown;
      Reassociate(h, fs[0].shown, Print(fs[1..]), tail);
    }
  }

  lemma Reassociate(a: string, b: string, c: string, d: string)
    ensures a + (b + (c + d)) == (a + (b + c)) + d
  {
  }

  lemma SnocDistinct(keys: seq<string>, k: string)
    requires NoRepeats(keys) && k !in keys
    ensures NoRepeats(keys + [k]) && forall x :: x in keys + [k] <==> x in keys || x == k
  {
    var more := keys + [k];
    forall i, j | 0 <= i < j < |more| ensures more[i] != more[j] {
      assert more[i] == keys[i] && keys[i] in keys;
    }
  }

  /** MakeCacheKey: whatever order the map is walked in, the key is the same. */
  method MakeCacheKey(bind: Binds) returns (key: string)
    ensures key == Key(bind)
  {
    var keys: seq<string>, left := [], bind.Keys;
    while left != {}
      invariant left <= bind.Keys
      invariant forall k :: k in keys <==> k in bind.Keys - left
      invariant NoRepeats(keys)
      decreases left
    {
      var k :| k in left;  // map iteration: any order
      SnocDistinct(keys, k);
      keys, left := keys + [k], left - {k};
    }
    keys := Sort(keys);
    SortedUnique(keys, Sorted(bind.Keys));
    key := Concatenate(bind, keys);
  }

  /** One fmt.Sprintf per key, in the given order. */
  method Concatenate(bind: Binds, keys: seq<string>) returns (key: string)
    requires forall k :: k in keys ==> k in bind
    ensures key == Print(Fields(bind, keys))
  {
    key := "";
    var i := 0;
    while i < |keys|
      invariant 0 <= i <= |keys| && key == Printed(bind, keys, i)
    {
      PrintedStep(bind, keys, i);
      key := key + Spelled(FieldOf(bind, keys[i]));
      i := i + 1;
    }
    assert Fields(bind, keys)[..i] == Fields(bind, keys);
  }

  function Spelled(f: Field): string {
    Head(f.name, f.typ) + f.shown
  }

  function Printed(bind: Binds, keys: seq<string>, i: nat): string
    requires (forall k :: k in keys ==> k in bind) && i <= |keys|
  {
    Print(Fields(bind, keys)[..i])
  }

  lemma PrintedStep(bind: Binds, keys: seq<string>, i: nat)
    requires (forall k :: k in keys ==> k in bind) && i < |keys|
    ensures Printed(bind, keys, i + 1) == Printed(bind, keys, i) + Spelled(FieldOf(bind, keys[i]))
  {
    var fs := Fields(bind, keys);
    PrintSnoc(fs[..i], fs[i]);
    assert fs[..i + 1] == fs[..i] + [fs[i]];
  }

  /** The text before the first c, and the text after it. */
  function Cut(s: string, c: char): (string, string) {
    if s == [] then ("", "") else if s[0] == c then ("", s[1..]) else
      var (before, after) := Cut(s[1..], c);
      ([s[0]] + before, after)
  }

  /** The text before the first c, and the text from it on. */
  function Until(s: string, c: char): (r: (string, string))
    ensures |r.1| <= |s|
  {
    if s == [] || s[0] == c then ("", s) else
      var (before, rest) := Until(s[1..], c);
      ([s[0]] + before, rest)
  }

  predicate Lacks(s: string, c: char) { forall i :: 0 <= i < |s| ==> s[i] != c }

  lemma {:induction false} CutAt(a: string, c: char, rest: string)
    requires Lacks(a, c)
    ensures Cut(a + ([c] + rest), c) == (a, rest)
  {
    var s := a + ([c] + rest);
    if a == [] {
      assert s == [c] + rest;
    } else {
      CutAt(a[1..], c, rest);
      assert s[1..] == a[1..] + ([c] + rest);
      assert a == [a[0]] + a[1..];
    }
  }

  lemma {:induction false} UntilAt(a: string, c: char, rest: string)
    requires Lacks(a, c) && (rest == [] || rest[0] == c)
    ensures Until(a + rest, c) == (a, rest)
  {
    if a == [] {
      assert a + rest == rest;
    } else {
      UntilAt(a[1..], c, rest);
      assert (a + rest)[1..] == a[1..] + rest;
      assert a == [a[0]] + a[1..];
    }
  }

  lemma CutShortens(s: string, c: char)
    ensures |Cut(s, c).1| <= |s|
  {
  }

  /** The inverse of Print. */
  function Parse(s: string): seq<Field>
    decreases |s|
  {
    if s == [] then [] else
      var (name, afterName) := Cut(s[1..], '=');
      var (typ, afterType) := Cut(afterName, ':');
      var (shown, rest) := Until(afterType, '|');
      CutShortens(s[1..], '=');
      CutShortens(afterName, ':');
      [Field(name, typ, shown)] + Parse(rest)
  }

  /** A field that can be read back: no '=' in its name, no '|' in its value. */
  predicate Legible(f: Field) {
    Lacks(f.name, '=') && Lacks(f.typ, ':') && Lacks(f.shown, '|')
  }

  lemma HeadThen(name: string, typ: string, rest: string)
    ensures Head(name, typ) + rest == ['|'] + (name + (['='] + (typ + ([':'] + rest))))
  {
    var a := typ + ":";
    assert a + rest == typ + ([':'] + rest);
    assert (name + "=" + a) + rest == name + (['='] + (a + rest));
  }

  lemma {:induction false} ParsePrint(fs: seq<Field>)
    requires forall i :: 0 <= i < |fs| ==> Legible(fs[i])
    ensures Parse(Print(fs)) == fs
  {
    if fs != [] {
      var f, rest := fs[0], Print(fs[1..]);
      ParsePrint(fs[1..]);
      HeadThen(f.name, f.typ, f.shown + rest);
      CutAt(f.name, '=', f.typ + ([':'] + (f.shown + rest)));
      CutAt(f.typ, ':', f.shown + rest);
      UntilAt(f.shown, '|', rest);
      assert fs == [f] + fs[1..];
    }
  }

  lemma TypeLacksColon(p: Param)
    ensures Lacks(TypeName(p), ':')
  {
  }

  lemma DecimalInjective(i: int, j: int)
    requires Decimal(i) == Decimal(j)
    ensures i == j
  {
    if i < 0 { FirstIsDigit(-i); Strip(i); } else { FirstIsDigit(i); }
    if j < 0 { FirstIsDigit(-j); Strip(j); } else { FirstIsDigit(j); }
  }

  lemma Strip(i: int)
    requires i < 0
    ensures Decimal(i)[0] == '-' && Decimal(i)[1..] == DecimalNat(-i)
  {
  }

  lemma FirstIsDigit(n: nat)
    ensures DecimalNat(n)[0] != '-' && Digits(DecimalNat(n)) == n
  {
  }

  lemma ShownInjective(p: Param, q: Param)
    requires !p.Composite? && !q.Composite? && TypeName(p) == TypeName(q) && Shown(p) == Shown(q)
    ensures p == q
  {
    TypesDiffer(p, q);
    if p.Int64? { DecimalInjective(p.i, q.i); }
  }

  lemma TypesDiffer(p: Param, q: Param)
    requires !p.Composite? && !q.Composite? && TypeName(p) == TypeName(q)
    ensures p.Int64? == q.Int64? && p.Float64? == q.Float64? && p.Flag? == q.Flag? && p.Text? == q.Text?
  {
    assert |TypeName(p)| == |TypeName(q)|;
    assert TypeName(p)[0] == TypeName(q)[0];
  }

  /** The guard: no '=' in a parameter name (an identifier has none) and no '|' in a rendered value. */
  predicate Readable(m: Binds) {
    forall k :: k in m ==> Lacks(k, '=') && Lacks(Shown(m[k]), '|')
  }

  lemma FieldOfInjective(m: Binds, n: Binds, k: string, l: string)
    requires Scalar(m) && Scalar(n) && k in m && l in n && FieldOf(m, k) == FieldOf(n, l)
    ensures k == l && m[k] == n[l]
  {
    ShownInjective(m[k], n[l]);
  }

  lemma FieldsAt(m: Binds, n: Binds, keys: seq<string>, names: seq<string>, i: nat)
    requires Scalar(m) && Scalar(n) && (forall k :: k in keys ==> k in m) && (forall k :: k in names ==> k in n)
    requires Fields(m, keys) == Fields(n, names) && i < |keys|
    ensures |keys| == |names| && keys[i] == names[i] && m[keys[i]] == n[keys[i]]
  {
    var fs, gs := Fields(m, keys), Fields(n, names);
    assert |fs| == |keys| && |gs| == |names|;
    assert fs[i] == FieldOf(m, keys[i]) && gs[i] == FieldOf(n, names[i]);
    FieldOfInjective(m, n, keys[i], names[i]);
  }

  /** Equal field lists come from equal maps. */
  lemma FieldsInjective(m: Binds, n: Binds, keys: seq<string>, names: seq<string>)
    requires Scalar(m) && Scalar(n) && (forall k :: k in keys <==> k in m) && (forall k :: k in names <==> k in n)
    requires Fields(m, keys) == Fields(n, names)
    ensures m == n
  {
    assert |Fields(m, keys)| == |keys| && |Fields(n, names)| == |names|;
    forall i | 0 <= i < |keys| ensures keys[i] == names[i] && m[keys[i]] == n[keys[i]] {
      FieldsAt(m, n, keys, names, i);
    }
    assert keys == names;
    forall k | k in m ensures k in n && m[k] == n[k] {
      assert k in keys;
    }
    assert m.Keys == n.Keys;
  }

  /** Two readable binds with one key are one bind. */
  lemma KeyInjective(m: Binds, n: Binds)
    requires Scalar(m) && Scalar(n) && Readable(m) && Readable(n)
    requires Key(m) == Key(n)
    ensures m == n
  {
    KeyReadsBack(m);
    KeyReadsBack(n);
    FieldsInjective(m, n, Sorted(m.Keys), Sorted(n.Keys));
  }

  /** The key of a readable bind can be parsed back into its parameters. */
  lemma KeyReadsBack(m: Binds)
    requires Readable(m)
    ensures Parse(Key(m)) == Fields(m, Sorted(m.Keys))
  {
    var keys := Sorted(m.Keys);
    forall i | 0 <= i < |keys| ensures Legible(Fields(m, keys)[i]) {
      assert keys[i] in m;
      TypeLacksColon(m[keys[i]]);
    }
    ParsePrint(Fields(m, keys));
  }

  /** With one fixed parameter no guard is needed. */
  lemma KeyOfOne(m: Binds, p: string)
    requires m.Keys == {p}
    ensures Key(m) == Head(p, TypeName(m[p])) + Shown(m[p])
  {
    var keys := Sorted(m.Keys);
    assert |keys| == 1 && keys[0] in keys;
    assert keys == [p];
    PrintSnoc([], FieldOf(m, p));
    assert Fields(m, keys) == [] + [FieldOf(m, p)];
  }

  lemma OneParameterInjective(m: Binds, n: Binds, p: string)
    requires Scalar(m) && Scalar(n) && m.Keys == {p} && n.Keys == {p}
    requires Key(m) == Key(n)
    ensures m == n
  {
    KeyOfOne(m, p);
    KeyOfOne(n, p);
    var t, u := TypeName(m[p]), TypeName(n[p]);
    HeadThen(p, t, Shown(m[p]));
    HeadThen(p, u, Shown(n[p]));
    DropFront(p, t + ([':'] + Shown(m[p])), u + ([':'] + Shown(n[p])));
    TypeLacksColon(m[p]);
    TypeLacksColon(n[p]);
    CutAt(t, ':', Shown(m[p]));
    CutAt(u, ':', Shown(n[p]));
    ShownInjective(m[p], n[p]);
  }

  lemma DropFront(p: string, a: string, b: string)
    requires ['|'] + (p + (['='] + a)) == ['|'] + (p + (['='] + b))
    ensures a == b
  {
    var s, t := ['|'] + (p + (['='] + a)), ['|'] + (p + (['='] + b));
    assert s[|p| + 2..] == a && t[|p| + 2..] == b;
  }

  /** No two different scalar binds with exactly these parameters share a key. */
  ghost predicate InjectiveOn(params: set<string>) {
    forall m: Binds, n: Binds |
      m.Keys == params && n.Keys == params && Scalar(m) && Scalar(n) && Key(m) == Key(n) :: m == n
  }

  /** Text values that move a piece of the key from one parameter into the other. */
  function Shifted(params: set<string>, p: string, text: string): Binds {
    map k | k in params :: if k == p then Text(text) else Text("")
  }

  lemma PrintTwo(f: Field, g: Field, rest: seq<Field>)
    ensures Print([f, g] + rest) == Head(f.name, f.typ) + (f.shown + (Head(g.name, g.typ) + (g.shown + Print(rest))))
  {
    var fs := [f, g] + rest;
    assert fs[1..] == [g] + rest && fs[1..][1..] == rest;
  }

  lemma ShiftedFields(params: set<string>, keys: seq<string>, p: string, text: string)
    requires |keys| >= 2 && p in keys[..2] && keys[0] != keys[1] && Increasing(keys)
    requires forall k :: k in keys <==> k in params
    ensures var m := Shifted(params, p, text);
            Scalar(m) && m.Keys == params &&
            Fields(m, keys) == [Field(keys[0], "string", if p == keys[0] then text else ""),
                                Field(keys[1], "string", if p == keys[1] then text else "")] +
                               seq(|keys| - 2, i requires 0 <= i < |keys| - 2 => Field(keys[i + 2], "string", ""))
  {
    var m := Shifted(params, p, text);
    forall i | 0 <= i < |keys|
      ensures keys[i] in m && FieldOf(m, keys[i]) == Field(keys[i], "string", if p == keys[i] then text else "")
    {
    }
    assert p == keys[0] || p == keys[1];
  }

  lemma KeyOfShifted(params: set<string>, keys: seq<string>)
    requires |params| >= 2 && keys == Sorted(params)
    ensures var sep := Head(keys[1], "string");
            var m, n := Shifted(params, keys[0], sep), Shifted(params, keys[1], sep);
            m.Keys == n.Keys == params && Scalar(m) && Scalar(n) && Key(m) == Key(n)
  {
    var sep := Head(keys[1], "string");
    var rest := seq(|keys| - 2, i requires 0 <= i < |keys| - 2 => Field(keys[i + 2], "string", ""));
    ShiftedFields(params, keys, keys[0], sep);
    ShiftedFields(params, keys, keys[1], sep);
    PrintTwo(Field(keys[0], "string", sep), Field(keys[1], "string", ""), rest);
    PrintTwo(Field(keys[0], "string", ""), Field(keys[1], "string", sep), rest);
    EmptyFront(Print(rest));
    EmptyFront(sep + (sep + Print(rest)));
  }

  lemma EmptyFront(s: string)
    ensures "" + s == s
  {
  }

  /**
   Without the guard the key is injective exactly on binds of at most one parameter: with two or
   more, a string value that spells the separator of the next parameter makes two binds collide.
   */
  lemma KeyInjectivityIsExact(params: set<string>)
    ensures InjectiveOn(params) <==> |params| <= 1
  {
    if |params| == 0 {
      assert forall m: Binds, n: Binds | m.Keys == params && n.Keys == params :: m == n;
    } else if |params| == 1 {
      var p :| p in params;
      assert params == {p} by { assert |params - {p}| == 0; }
      forall m: Binds, n: Binds | m.Keys == params && n.Keys == params && Scalar(m) && Scalar(n) && Key(m) == Key(n)
        ensures m == n
      {
        OneParameterInjective(m, n, p);
      }
    } else {
      var keys := Sorted(params);
      KeyOfShifted(params, keys);
      var sep := Head(keys[1], "string");
      var m, n := Shifted(params, keys[0], sep), Shifted(params, keys[1], sep);
      assert keys[0] in params && m[keys[0]] != n[keys[0]];
    }
  }

  /** No two different binds at all with exactly these parameters share a key. */
  ghost predicate InjectiveOnAny(params: set<string>) {
    forall m: Binds, n: Binds | m.Keys == params && n.Keys == params && Key(m) == Key(n) :: m == n
  }

  function WithList(params: set<string>, items: seq<Json>): Binds {
    map k | k in params :: Composite(Arr(items))
  }

  lemma ListsLookAlike()
    ensures ShownJson(Arr([Str("a b")])) == ShownJson(Arr([Str("a"), Str("b")]))
  {
    var one, two := Arr([Str("a b")]), Arr([Str("a"), Str("b")]);
    assert ShownItems(one, 1) == "" && ShownItems(two, 2) == "";
    assert ShownItems(one, 0) == "" + "a b" + "";
    assert ShownItems(two, 1) == " " + "b" + "";
    assert ShownItems(two, 0) == "" + "a" + ShownItems(two, 1);
    assert "" + "a b" + "" == "a b" == "" + "a" + (" " + "b" + "");
  }

  lemma ListsCollide(params: set<string>, keys: seq<string>, i: nat)
    requires i < |keys| && keys[i] in params
    ensures FieldOf(WithList(params, [Str("a b")]), keys[i]) == FieldOf(WithList(params, [Str("a"), Str("b")]), keys[i])
  {
    ListsLookAlike();
  }

  lemma WithListKeys(params: set<string>, keys: seq<string>)
    requires keys == Sorted(params)
    ensures Key(WithList(params, [Str("a b")])) == Key(WithList(params, [Str("a"), Str("b")]))
  {
    var m, n := WithList(params, [Str("a b")]), WithList(params, [Str("a"), Str("b")]);
    assert m.Keys == params && n.Keys == params;
    forall i | 0 <= i < |keys| ensures FieldOf(m, keys[i]) == FieldOf(n, keys[i]) {
      ListsCollide(params, keys, i);
    }
    assert Fields(m, keys) == Fields(n, keys);
  }

  /** With values that are lists or maps one parameter is enough for two binds to collide. */
  lemma CompositesCollide(params: set<string>)
    ensures InjectiveOnAny(params) <==> params == {}
  {
    if params == {} {
      assert forall m: Binds, n: Binds | m.Keys == params && n.Keys == params :: m == n;
    } else {
      var p :| p in params;
      var m, n := WithList(params, [Str("a b")]), WithList(params, [Str("a"), Str("b")]);
      WithListKeys(params, Sorted(params));
      assert m.Keys == params && n.Keys == params;
      assert |[Str("a b")]| != |[Str("a"), Str("b")]|;
      assert m[p] != n[p];
    }
  }
}
