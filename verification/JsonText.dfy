/**
 JSON text as the envelope carries it: encoding/json's Marshal of a decoded value, and the Decoder
 with UseNumber (sections 6 and 7 of RFC 8259 for numbers and strings). Strings are Unicode scalars.
 Printers take the text that follows, so printing and parsing meet without re-association.
 */
module JsonText {
  import opened Wrappers
  import opened Decimals
  import opened Events

  const MAX_DEPTH := 10000

  // ---- strings ----

  function HexDigit(n: nat): char
    requires n < 16
  {
    if n < 10 then '0' + n as char else 'a' + (n - 10) as char
  }

  function HexValue(c: char): Option<nat> {
    if '0' <= c <= '9' then Some(c as int - '0' as int)
    else if 'a' <= c <= 'f' then Some(c as int - 'a' as int + 10)
    else if 'A' <= c <= 'F' then Some(c as int - 'A' as int + 10)
    else None
  }

  function Hex4(n: nat): string
    requires n < 0x10000
  {
    [HexDigit(n / 4096), HexDigit(n / 256 % 16), HexDigit(n / 16 % 16), HexDigit(n % 16)]
  }

  function ParseHex4(s: string): (r: Option<nat>)
    ensures r.Some? ==> r.value < 0x10000 && |s| >= 4
  {
    if |s| < 4 || HexValue(s[0]).None? || HexValue(s[1]).None? || HexValue(s[2]).None? || HexValue(s[3]).None? then None
    else
      var high := HexValue(s[0]).value * 16 + HexValue(s[1]).value;
      Some((high * 16 + HexValue(s[2]).value) * 16 + HexValue(s[3]).value)
  }

  /**
   Characters Marshal writes as \uXXXX: control characters without a short form, HTML characters, U+2028 and U+2029.
   */
  predicate NeedsHex(c: char) {
    (c < ' ' && c !in "\n\r\t" && c != 8 as char && c != 12 as char) || c in "<>&" || c == 0x2028 as char ||
      c == 0x2029 as char
  }

  function Escape(c: char): string {
    if c == '"' then "\\\"" else if c == '\\' then "\\\\"
    else if c == '\n' then "\\n" else if c == '\r' then "\\r" else if c == '\t' then "\\t"
    else if c == 8 as char then "\\b" else if c == 12 as char then "\\f"
    else if NeedsHex(c) then "\\u" + Hex4(c as int)
    else [c]
  }

  function CharsOn(s: string, rest: string): string {
    if s == "" then rest else Escape(s[0]) + CharsOn(s[1..], rest)
  }

  function QuoteOn(s: string, rest: string): string {
    ['"'] + CharsOn(s, ['"'] + rest)
  }

  /** A UTF-16 code unit to a scalar; an unpaired surrogate becomes U+FFFD. */
  function Scalar(n: nat): char
    requires n < 0x10000
  {
    if 0xD800 <= n < 0xE000 then 0xFFFD as char else n as char
  }

  /** The scalar a surrogate pair stands for. */
  function Paired(hi: nat, lo: nat): char
    requires 0xD800 <= hi < 0xDC00 && 0xDC00 <= lo < 0xE000
  {
    ((hi - 0xD800) * 0x400 + (lo - 0xDC00) + 0x10000) as char
  }

  /** One character after a backslash, and the text after it. */
  function Unescape(s: string): (r: Option<(char, string)>)
    ensures r.Some? ==> |r.value.1| < |s|
  {
    if s == "" then None
    else if s[0] in "\"\\/" then Some((s[0], s[1..]))
    else if s[0] == 'n' then Some(('\n', s[1..])) else if s[0] == 'r' then Some(('\r', s[1..]))
    else if s[0] == 't' then Some(('\t', s[1..])) else if s[0] == 'b' then Some((8 as char, s[1..]))
    else if s[0] == 'f' then Some((12 as char, s[1..]))
    else if s[0] != 'u' then None
    else
      match ParseHex4(s[1..])
      case None => None
      case Some(hi) =>
        var tail := s[5..];
        var lo := if |tail| >= 2 && tail[0] == '\\' && tail[1] == 'u' then ParseHex4(tail[2..]) else None;
        if 0xD800 <= hi < 0xDC00 && lo.Some? && 0xDC00 <= lo.value < 0xE000 then Some((Paired(hi, lo.value), tail[6..]))
        else Some((Scalar(hi), tail))
  }

  /** The rest of a string literal after its opening quote. */
  function ParseChars(s: string): (r: Option<(string, string)>)
    ensures r.Some? ==> |r.value.1| < |s|
    decreases |s|
  {
    if s == "" || s[0] < ' ' then None
    else if s[0] == '"' then Some(("", s[1..]))
    else
      var one := if s[0] == '\\' then Unescape(s[1..]) else Some((s[0], s[1..]));
      match one
      case None => None
      case Some((c, tail)) =>
        match ParseChars(tail)
        case None => None
        case Some((more, rest)) => Some(([c] + more, rest))
  }

  lemma Hex4RoundTrip(n: nat, rest: string)
    requires n < 0x10000
    ensures ParseHex4(Hex4(n) + rest) == Some(n)
  {
    HexDigitRoundTrip(n / 4096);
    HexDigitRoundTrip(n / 256 % 16);
    HexDigitRoundTrip(n / 16 % 16);
    HexDigitRoundTrip(n % 16);
    HexDigitsAddUp(n);
  }

  lemma HexDigitsAddUp(n: nat)
    ensures ((n / 4096 * 16 + n / 256 % 16) * 16 + n / 16 % 16) * 16 + n % 16 == n
  {
    assert n / 16 / 16 == n / 256 && n / 256 / 16 == n / 4096;
  }

  lemma HexDigitRoundTrip(n: nat)
    requires n < 16
    ensures HexValue(HexDigit(n)) == Some(n)
  {
  }

  lemma UnescapeHex(c: char, rest: string)
    requires NeedsHex(c)
    ensures Unescape(['u'] + (Hex4(c as int) + rest)) == Some((c, rest))
  {
    var s := ['u'] + (Hex4(c as int) + rest);
    assert s[1..] == Hex4(c as int) + rest && s[5..] == rest;
    Hex4RoundTrip(c as int, rest);
  }

  /** Each character is read back from its escape. */
  lemma EscapeRoundTrip(c: char, tail: string)
    ensures var s := Escape(c) + tail;
            s != "" && s[0] >= ' ' && s[0] != '"' &&
            (if s[0] == '\\' then Unescape(s[1..]) else Some((s[0], s[1..]))) == Some((c, tail))
  {
    var s := Escape(c) + tail;
    if NeedsHex(c) {
      assert s[1..] == ['u'] + (Hex4(c as int) + tail);
      UnescapeHex(c, tail);
    } else if |Escape(c)| == 1 {
      assert s[1..] == tail;
    } else {
      assert s[1..][0] == Escape(c)[1] && s[1..][1..] == tail;
    }
  }

  lemma {:induction false} CharsRoundTrip(s: string, rest: string)
    ensures ParseChars(CharsOn(s, ['"'] + rest)) == Some((s, rest))
  {
    if s == "" {
      assert (['"'] + rest)[1..] == rest;
    } else {
      EscapeRoundTrip(s[0], CharsOn(s[1..], ['"'] + rest));
      CharsRoundTrip(s[1..], rest);
      assert s == [s[0]] + s[1..];
    }
  }

  // ---- numbers ----

  /** The longest run of digits at the front, and the text after it. */
  function TakeDigits(s: string): (r: (string, string))
    ensures |s| == |r.0| + |r.1|
  {
    if s == "" || !IsDigit(s[0]) then ("", s) else
      var (ds, rest) := TakeDigits(s[1..]);
      ([s[0]] + ds, rest)
  }

  /** int = zero / ( digit1-9 *DIGIT ) */
  function TakeInt(s: string): (r: Option<(string, string)>)
    ensures r.Some? ==> |r.value.1| < |s|
  {
    if s == "" || !IsDigit(s[0]) then None
    else if s[0] == '0' then Some(("0", s[1..]))
    else Some(TakeDigits(s))
  }

  /** [ "." 1*DIGIT ] */
  function TakeFrac(s: string): (r: Option<(string, string)>)
    ensures r.Some? ==> |r.value.1| <= |s|
  {
    if s == "" || s[0] != '.' then Some(("", s)) else
      var (ds, rest) := TakeDigits(s[1..]);
      if ds == "" then None else Some((['.'] + ds, rest))
  }

  predicate IsSign(c: char) { c == '+' || c == '-' }

  /** [ ( "e" / "E" ) [ "+" / "-" ] 1*DIGIT ] */
  function TakeExp(s: string): (r: Option<(string, string)>)
    ensures r.Some? ==> |r.value.1| <= |s|
  {
    if s == "" || (s[0] != 'e' && s[0] != 'E') then Some(("", s)) else
      var n := if |s| > 1 && IsSign(s[1]) then 2 else 1;
      var (ds, rest) := TakeDigits(s[n..]);
      if ds == "" then None else Some((s[..n] + ds, rest))
  }

  /** A number's text and the text after it. */
  function ParseNumber(s: string): (r: Option<(string, string)>)
    ensures r.Some? ==> |r.value.1| < |s|
  {
    var sign := if s != "" && s[0] == '-' then "-" else "";
    match TakeInt(s[|sign|..])
    case None => None
    case Some((i, afterInt)) =>
      match TakeFrac(afterInt)
      case None => None
      case Some((f, afterFrac)) =>
        match TakeExp(afterFrac)
        case None => None
        case Some((e, rest)) => Some((sign + i + f + e, rest))
  }

  /** A whole JSON number. */
  predicate IsNumber(t: string) { ParseNumber(t) == Some((t, "")) }

  /** Text that cannot continue a number. */
  predicate Stops(rest: string) {
    rest == "" || (!IsDigit(rest[0]) && rest[0] !in ".eE+-")
  }

  lemma {:induction false} DigitsThen(s: string, rest: string)
    requires Stops(rest)
    ensures TakeDigits(s + rest) == (TakeDigits(s).0, TakeDigits(s).1 + rest)
  {
    if s == "" || !IsDigit(s[0]) {
      assert s == "" ==> s + rest == rest;
    } else {
      DigitsThen(s[1..], rest);
      assert (s + rest)[1..] == s[1..] + rest;
    }
  }

  lemma IntThen(s: string, rest: string)
    requires Stops(rest) && TakeInt(s).Some?
    ensures TakeInt(s + rest) == Some((TakeInt(s).value.0, TakeInt(s).value.1 + rest))
  {
    DigitsThen(s, rest);
    assert (s + rest)[1..] == s[1..] + rest;
  }

  lemma FracThen(s: string, rest: string)
    requires Stops(rest) && TakeFrac(s).Some?
    ensures TakeFrac(s + rest) == Some((TakeFrac(s).value.0, TakeFrac(s).value.1 + rest))
  {
    if s == "" {
      assert s + rest == rest;
    } else {
      DigitsThen(s[1..], rest);
      assert (s + rest)[1..] == s[1..] + rest;
    }
  }

  lemma ExpThen(s: string, rest: string)
    requires Stops(rest) && TakeExp(s).Some?
    ensures TakeExp(s + rest) == Some((TakeExp(s).value.0, TakeExp(s).value.1 + rest))
  {
    if s == "" {
      assert s + rest == rest;
    } else if s[0] == 'e' || s[0] == 'E' {
      var n := if |s| > 1 && IsSign(s[1]) then 2 else 1;
      DigitsThen(s[n..], rest);
      assert (s + rest)[n..] == s[n..] + rest && (s + rest)[..n] == s[..n];
    }
  }

  /** A number is read back whole when the text after it cannot continue it. */
  lemma NumberRoundTrip(t: string, rest: string)
    requires IsNumber(t) && Stops(rest)
    ensures ParseNumber(t + rest) == Some((t, rest))
  {
    var sign := if t[0] == '-' then "-" else "";
    var body := t[|sign|..];
    assert (t + rest)[0] == t[0] && (t + rest)[|sign|..] == body + rest;
    IntThen(body, rest);
    var (i, afterInt) := TakeInt(body).value;
    FracThen(afterInt, rest);
    var (f, afterFrac) := TakeFrac(afterInt).value;
    ExpThen(afterFrac, rest);
    assert TakeExp(afterFrac).value.1 + rest == rest;
  }

  lemma {:induction false} DigitsTaken(s: string)
    ensures var (ds, rest) := TakeDigits(s);
            && AllDigits(ds) && (rest != "" ==> !IsDigit(rest[0])) && (ds != "" ==> s != "" && ds[0] == s[0])
  {
    if s != "" && IsDigit(s[0]) { DigitsTaken(s[1..]); }
  }

  lemma {:induction false} DigitsAgain(ds: string, rest: string)
    requires AllDigits(ds) && (rest != "" ==> !IsDigit(rest[0]))
    ensures TakeDigits(ds + rest) == (ds, rest)
  {
    if ds == "" {
      assert ds + rest == rest;
    } else {
      DigitsAgain(ds[1..], rest);
      assert (ds + rest)[1..] == ds[1..] + rest && ds == [ds[0]] + ds[1..];
    }
  }

  lemma IntAgain(s: string, rest: string)
    requires TakeInt(s).Some? && (rest != "" ==> !IsDigit(rest[0]))
    ensures var i := TakeInt(s).value.0; i != "" && IsDigit(i[0]) && TakeInt(i + rest) == Some((i, rest))
  {
    DigitsTaken(s);
    var i := TakeInt(s).value.0;
    if s[0] == '0' {
      assert ("0" + rest)[1..] == rest;
    } else {
      DigitsAgain(i, rest);
    }
  }

  lemma FracAgain(s: string, rest: string)
    requires TakeFrac(s).Some? && (rest != "" ==> rest[0] == 'e' || rest[0] == 'E')
    ensures var f := TakeFrac(s).value.0;
            (f + rest != "" ==> !IsDigit((f + rest)[0])) && TakeFrac(f + rest) == Some((f, rest))
  {
    var f := TakeFrac(s).value.0;
    if f == "" {
      assert f + rest == rest;
    } else {
      var ds := TakeDigits(s[1..]).0;
      DigitsTaken(s[1..]);
      DigitsAgain(ds, rest);
      assert (f + rest)[1..] == ds + rest;
    }
  }

  lemma ExpAgain(s: string)
    requires TakeExp(s).Some?
    ensures var e := TakeExp(s).value.0; (e != "" ==> e[0] == 'e' || e[0] == 'E') && TakeExp(e) == Some((e, ""))
  {
    if s != "" && (s[0] == 'e' || s[0] == 'E') {
      var n := if |s| > 1 && IsSign(s[1]) then 2 else 1;
      var ds, e := TakeDigits(s[n..]).0, TakeExp(s).value.0;
      DigitsTaken(s[n..]);
      DigitsAgain(ds, "");
      assert ds + "" == ds && e[n..] == ds && e[..n] == s[..n];
    }
  }

  /** The text of a number that was read is a number. */
  lemma NumberRead(s: string)
    requires ParseNumber(s).Some?
    ensures IsNumber(ParseNumber(s).value.0)
  {
    var sign := if s != "" && s[0] == '-' then "-" else "";
    var (i, afterInt) := TakeInt(s[|sign|..]).value;
    var (f, afterFrac) := TakeFrac(afterInt).value;
    var (e, rest) := TakeExp(afterFrac).value;
    ExpAgain(afterFrac);
    FracAgain(afterInt, e);
    IntAgain(s[|sign|..], f + e);
    NumberParts(sign, i, f, e);
  }

  lemma NumberParts(sign: string, i: string, f: string, e: string)
    requires sign == "" || sign == "-"
    requires i != "" && IsDigit(i[0]) && TakeInt(i + (f + e)) == Some((i, f + e))
    requires TakeFrac(f + e) == Some((f, e)) && TakeExp(e) == Some((e, ""))
    ensures IsNumber(sign + i + f + e)
  {
    Regroup(sign, i, f, e);
    SignedNumber(sign, i, f, e, sign + i + f + e);
  }

  lemma Regroup(a: string, b: string, c: string, d: string)
    ensures a + b + c + d == a + (b + (c + d))
  {
  }

  lemma SignedNumber(sign: string, i: string, f: string, e: string, t: string)
    requires (sign == "" || sign == "-") && i != "" && IsDigit(i[0]) && t == sign + (i + (f + e)) == sign + i + f + e
    requires TakeInt(i + (f + e)) == Some((i, f + e)) && TakeFrac(f + e) == Some((f, e)) && TakeExp(e) == Some((e, ""))
    ensures IsNumber(t)
  {
    SignFirst(sign, i + (f + e));
  }

  lemma SignFirst(sign: string, body: string)
    requires (sign == "" || sign == "-") && body != "" && IsDigit(body[0])
    ensures var t := sign + body;
            (if t != "" && t[0] == '-' then "-" else "") == sign && t[|sign|..] == body
  {
  }
}
