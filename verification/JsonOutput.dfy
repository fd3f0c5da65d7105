/** What json.Marshal writes has no character that a browser or a line reader could take for its own. */
module JsonOutput {
  import opened Wrappers
  import opened Decimals
  import opened SortedKeys
  import opened Events
  import opened JsonText
  import opened JsonValue
  import opened JsonLexical

  /** No control character, no HTML character, no line or paragraph separator. */
  predicate Harmless(c: char) {
    c as int >= 0x20 && c != '<' && c != '>' && c != '&' && c as int != 0x2028 && c as int != 0x2029
  }

  predicate HarmlessText(s: string) {
    forall i :: 0 <= i < |s| ==> Harmless(s[i])
  }

  lemma EscapeIsHarmless(c: char)
    ensures HarmlessText(Escape(c))
  {
    if NeedsHex(c) {
      var n := c as int;
      HexIsHarmless(n / 4096);
      HexIsHarmless(n / 256 % 16);
      HexIsHarmless(n / 16 % 16);
      HexIsHarmless(n % 16);
    }
  }

  lemma HexIsHarmless(n: nat)
    requires n < 16
    ensures Harmless(HexDigit(n))
  {
  }

  lemma {:induction false} CharsAreHarmless(s: string, rest: string)
    requires HarmlessText(rest)
    ensures HarmlessText(CharsOn(s, rest))
  {
    if s != "" {
      EscapeIsHarmless(s[0]);
      CharsAreHarmless(s[1..], rest);
    }
  }

  lemma ExpIsHarmless(x: Option<Exponent>)
    requires x.Some? ==> ValidExponent(x.value)
    ensures HarmlessText(ExpText(x))
  {
  }

  lemma JoinedIsHarmless(a: string, b: string, c: string, d: string)
    requires HarmlessText(a) && HarmlessText(b) && HarmlessText(c) && HarmlessText(d)
    ensures HarmlessText(a + b + c + d)
  {
  }

  lemma NumberIsHarmless(t: string)
    requires IsNumber(t)
    ensures HarmlessText(t)
  {
    NumbersAreExact(t);
    var n :| ValidNumeral(n) && NumeralText(n) == t;
    ExpIsHarmless(n.exp);
    JoinedIsHarmless(if n.minus then "-" else "", n.whole, FracText(n.frac), ExpText(n.exp));
  }

  /** What is written is harmless wherever it is put. */
  lemma {:induction false} PrintedIsHarmless(j: Json, rest: string)
    requires WellFormed(j) && HarmlessText(rest)
    ensures HarmlessText(PrintOn(j, rest))
    decreases j
  {
    match j
    case Num(t) => NumberIsHarmless(t);
    case Str(s) => CharsAreHarmless(s, ['"'] + rest);
    case Arr(items) => if items != [] { ItemsAreHarmless(j, 0, rest); }
    case Obj(m) => if m != map[] {
      SortedNotEmpty(m);
      MembersAreHarmless(j, Sorted(m.Keys), rest);
    }
    case _ =>
  }

  lemma {:induction false} ItemsAreHarmless(j: Json, i: nat, rest: string)
    requires j.Arr? && i < |j.items| && WellFormed(j) && HarmlessText(rest)
    ensures HarmlessText(ItemsOn(j, i, rest))
    decreases j, |j.items| - i
  {
    if i + 1 < |j.items| { ItemsAreHarmless(j, i + 1, rest); }
    PrintedIsHarmless(j.items[i], if i + 1 == |j.items| then [']'] + rest else [','] + ItemsOn(j, i + 1, rest));
  }

  lemma {:induction false} MembersAreHarmless(j: Json, keys: seq<string>, rest: string)
    requires j.Obj? && keys != [] && (forall k :: k in keys ==> k in j.fields) && WellFormed(j) && HarmlessText(rest)
    ensures HarmlessText(MembersOn(j, keys, rest))
    decreases j, |keys|
  {
    if |keys| > 1 { MembersAreHarmless(j, keys[1..], rest); }
    var tail := if |keys| == 1 then ['}'] + rest else [','] + MembersOn(j, keys[1..], rest);
    PrintedIsHarmless(j.fields[keys[0]], tail);
    CharsAreHarmless(keys[0], ['"'] + ([':'] + PrintOn(j.fields[keys[0]], tail)));
  }
}
