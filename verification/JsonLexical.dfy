/**
 The lexical grammar of sections 2, 6 and 7 of RFC 8259: white space, string literals and numbers, and what
 they stand for. The reader takes exactly these.
 */
module JsonLexical {
  import opened Wrappers
  import opened Decimals
  import opened JsonText
  import opened JsonValue

  // ---- white space ----

  predicate IsWs(c: char) {
    c as int == 0x20 || c as int == 0x09 || c as int == 0x0A || c as int == 0x0D
  }

  predicate Blank(s: string) {
    forall i :: 0 <= i < |s| ==> IsWs(s[i])
  }

  lemma {:induction false} BlankIsSkipped(ws: string, s: string)
    requires Blank(ws) && s != "" && !IsWs(s[0])
    ensures SkipSpace(ws + s) == s
  {
    if ws == "" {
      assert ws + s == s;
    } else {
      BlankIsSkipped(ws[1..], s);
      assert (ws + s)[1..] == ws[1..] + s;
    }
  }

  lemma {:induction false} SkippedIsBlank(s: string) returns (ws: string)
    ensures Blank(ws) && s == ws + SkipSpace(s) && (SkipSpace(s) != "" ==> !IsWs(SkipSpace(s)[0]))
  {
    ws := "";
    if s != "" && IsSpace(s[0]) {
      var more := SkippedIsBlank(s[1..]);
      ws := [s[0]] + more;
      assert s == [s[0]] + s[1..];
    }
  }

  // ---- strings ----

  type Place = i: nat | i < 8

  type CodeUnit = n: nat | n < 0x10000

  /** A character as it is, a two-character escape by its place in the table, or a code unit in four hex digits. */
  datatype Piece = Raw(c: char) | Short(i: Place) | Hex(unit: CodeUnit, digits: string)

  const LETTERS := "\"\\/bfnrt"
  const MEANT := ['"', '\\', '/', 8 as char, 12 as char, '\n', '\r', '\t']

  predicate HexFor(c: char, n: nat) {
    n < 16 && (c == "0123456789abcdef"[n] || c == "0123456789ABCDEF"[n])
  }

  predicate HexText(ds: string, n: CodeUnit) {
    && |ds| == 4 && HexFor(ds[0], n / 4096)
    && HexFor(ds[1], n / 256 % 16) && HexFor(ds[2], n / 16 % 16) && HexFor(ds[3], n % 16)
  }

  predicate ValidPiece(p: Piece) {
    match p
    case Raw(c) => c as int >= 0x20 && c != '"' && c != '\\'
    case Short(_) => true
    case Hex(n, ds) => HexText(ds, n)
  }

  predicate ValidPieces(ps: seq<Piece>) {
    forall i :: 0 <= i < |ps| ==> ValidPiece(ps[i])
  }

  function PieceText(p: Piece): string {
    match p
    case Raw(c) => [c]
    case Short(i) => ['\\', LETTERS[i]]
    case Hex(_, ds) => ['\\', 'u'] + ds
  }

  /** A string literal's text after its opening quote. */
  function LiteralOn(ps: seq<Piece>, rest: string): (s: string)
    ensures s != ""
  {
    if ps == [] then ['"'] + rest else PieceText(ps[0]) + LiteralOn(ps[1..], rest)
  }

  predicate IsHigh(p: Piece) { p.Hex? && 0xD800 <= p.unit < 0xDC00 }

  predicate IsLow(p: Piece) { p.Hex? && 0xDC00 <= p.unit < 0xE000 }

  /** Two code units side by side that stand for one scalar. */
  predicate IsPair(ps: seq<Piece>) { |ps| > 1 && IsHigh(ps[0]) && IsLow(ps[1]) }

  /** A lone surrogate stands for U+FFFD. */
  function Alone(p: Piece): char {
    match p
    case Raw(c) => c
    case Short(i) => MEANT[i]
    case Hex(n, _) => if IsHigh(p) || IsLow(p) then 0xFFFD as char else n as char
  }

  /** The string that the pieces spell. */
  function Spelled(ps: seq<Piece>): string {
    if ps == [] then ""
    else if IsPair(ps) then [Paired(ps[0].unit, ps[1].unit)] + Spelled(ps[2..])
    else [Alone(ps[0])] + Spelled(ps[1..])
  }

  /** Section 7's surrogate pairs are UTF-16: each scalar beyond U+FFFF has exactly one. */
  lemma PairsAreUtf16(hi: nat, lo: nat, c: char)
    requires 0xD800 <= hi < 0xDC00 && 0xDC00 <= lo < 0xE000
    ensures Paired(hi, lo) == c <==>
            c as int >= 0x10000 &&
            hi == 0xD800 + (c as int - 0x10000) / 0x400 && lo == 0xDC00 + (c as int - 0x10000) % 0x400
  {
  }

  lemma HexIsExact(c: char, n: nat)
    ensures HexValue(c) == Some(n) <==> HexFor(c, n)
  {
    if n < 16 {
      assert "0123456789abcdef"[n] == HexDigit(n);
    }
  }

  lemma HexDigitsRead(s: string, a: nat, b: nat, c: nat, d: nat)
    requires |s| >= 4 && HexFor(s[0], a) && HexFor(s[1], b) && HexFor(s[2], c) && HexFor(s[3], d)
    ensures ParseHex4(s) == Some(((a * 16 + b) * 16 + c) * 16 + d)
  {
    HexIsExact(s[0], a);
    HexIsExact(s[1], b);
    HexIsExact(s[2], c);
    HexIsExact(s[3], d);
  }

  lemma HexRead(ds: string, n: CodeUnit, rest: string)
    requires HexText(ds, n)
    ensures ParseHex4(ds + rest) == Some(n)
  {
    HexDigitsRead(ds + rest, n / 4096, n / 256 % 16, n / 16 % 16, n % 16);
    HexDigitsAddUp(n);
  }

  lemma BaseSixteen(n: nat, a: nat, b: nat, c: nat, d: nat)
    requires a < 16 && b < 16 && c < 16 && d < 16 && n == ((a * 16 + b) * 16 + c) * 16 + d
    ensures n < 0x10000 && n / 4096 == a && n / 256 % 16 == b && n / 16 % 16 == c && n % 16 == d
  {
  }

  lemma HexOf(ds: string, n: nat, a: nat, b: nat, c: nat, d: nat)
    requires |ds| == 4 && HexFor(ds[0], a) && HexFor(ds[1], b) && HexFor(ds[2], c) && HexFor(ds[3], d)
    requires n == ((a * 16 + b) * 16 + c) * 16 + d
    ensures n < 0x10000 && HexText(ds, n)
  {
    BaseSixteen(n, a, b, c, d);
  }

  /** ParseHex4, digit by digit. */
  lemma HexDigitsOf(s: string, n: nat) returns (a: nat, b: nat, c: nat, d: nat)
    requires ParseHex4(s) == Some(n)
    ensures |s| >= 4 && HexFor(s[0], a) && HexFor(s[1], b) && HexFor(s[2], c) && HexFor(s[3], d)
    ensures n == ((a * 16 + b) * 16 + c) * 16 + d
  {
    HexDigitSound(s[0]);
    HexDigitSound(s[1]);
    HexDigitSound(s[2]);
    HexDigitSound(s[3]);
    a, b, c, d := HexValue(s[0]).value, HexValue(s[1]).value, HexValue(s[2]).value, HexValue(s[3]).value;
  }

  lemma HexSound(s: string, n: nat)
    requires ParseHex4(s) == Some(n)
    ensures |s| >= 4 && n < 0x10000 && HexText(s[..4], n)
  {
    var a, b, c, d := HexDigitsOf(s, n);
    HexOf(s[..4], n, a, b, c, d);
  }

  lemma HexDigitSound(c: char)
    requires HexValue(c).Some?
    ensures HexFor(c, HexValue(c).value)
  {
    HexIsExact(c, HexValue(c).value);
  }

  /** The code unit, if any, that the text goes on with. */
  function NextUnit(s: string): Option<nat> {
    if |s| >= 2 && s[0] == '\\' && s[1] == 'u' then ParseHex4(s[2..]) else None
  }

  lemma UnitAhead(ps: seq<Piece>, rest: string)
    requires ValidPieces(ps)
    ensures NextUnit(LiteralOn(ps, rest)) == if ps != [] && ps[0].Hex? then Some(ps[0].unit) else None
  {
    if ps != [] {
      var s, tail := LiteralOn(ps, rest), LiteralOn(ps[1..], rest);
      if ps[0].Hex? {
        assert s[2..] == ps[0].digits + tail;
        HexRead(ps[0].digits, ps[0].unit, tail);
      }
    }
  }

  lemma UnitText(p: Piece, tail: string)
    requires p.Hex? && |p.digits| == 4
    ensures var s := (PieceText(p) + tail)[1..]; |s| >= 5 && s[0] == 'u' && s[1..] == p.digits + tail && s[5..] == tail
  {
    assert (PieceText(p) + tail)[1..] == ['u'] + (p.digits + tail);
  }

  lemma UnescapeUnit(s: string, n: nat, tail: string)
    requires |s| >= 5 && s[0] == 'u' && ParseHex4(s[1..]) == Some(n) && s[5..] == tail
    ensures var lo := NextUnit(tail);
            Unescape(s) ==
            if 0xD800 <= n < 0xDC00 && lo.Some? && 0xDC00 <= lo.value < 0xE000
            then Some((Paired(n, lo.value), tail[6..])) else Some((Scalar(n), tail))
  {
  }

  lemma UnitRead(p: Piece, tail: string)
    requires p.Hex? && ValidPiece(p)
    ensures var lo := NextUnit(tail);
            Unescape((PieceText(p) + tail)[1..]) ==
            if IsHigh(p) && lo.Some? && 0xDC00 <= lo.value < 0xE000 then Some((Paired(p.unit, lo.value), tail[6..]))
            else Some((Alone(p), tail))
  {
    UnitText(p, tail);
    HexRead(p.digits, p.unit, tail);
    UnescapeUnit((PieceText(p) + tail)[1..], p.unit, tail);
  }

  lemma ShortRead(p: Piece, tail: string)
    requires p.Short? && ValidPiece(p)
    ensures Unescape((PieceText(p) + tail)[1..]) == Some((Alone(p), tail))
  {
    assert (PieceText(p) + tail)[1..] == [LETTERS[p.i]] + tail;
    assert ([LETTERS[p.i]] + tail)[1..] == tail;
  }

  /** Every literal by the grammar is read. */
  lemma {:induction false} LiteralRead(ps: seq<Piece>, rest: string)
    requires ValidPieces(ps)
    ensures ParseChars(LiteralOn(ps, rest)) == Some((Spelled(ps), rest))
    decreases |ps|
  {
    if ps == [] {
      assert (['"'] + rest)[1..] == rest;
    } else {
      var p, tail := ps[0], LiteralOn(ps[1..], rest);
      LiteralRead(ps[1..], rest);
      match p {
        case Raw(_) => assert (PieceText(p) + tail)[1..] == tail;
        case Short(_) => ShortRead(p, tail);
        case Hex(_, _) =>
          if IsPair(ps) { LiteralRead(ps[2..], rest); }
          UnitThen(ps, rest);
      }
    }
  }

  lemma UnitThen(ps: seq<Piece>, rest: string)
    requires ValidPieces(ps) && ps != [] && ps[0].Hex?
    requires ParseChars(LiteralOn(ps[1..], rest)) == Some((Spelled(ps[1..]), rest))
    requires IsPair(ps) ==> ParseChars(LiteralOn(ps[2..], rest)) == Some((Spelled(ps[2..]), rest))
    ensures ParseChars(LiteralOn(ps, rest)) == Some((Spelled(ps), rest))
  {
    var tail := LiteralOn(ps[1..], rest);
    UnitRead(ps[0], tail);
    UnitAhead(ps[1..], rest);
    if IsPair(ps) { PairAhead(ps, rest); }
  }

  lemma PairAhead(ps: seq<Piece>, rest: string)
    requires ValidPieces(ps) && IsPair(ps)
    ensures LiteralOn(ps[1..], rest)[6..] == LiteralOn(ps[2..], rest)
  {
    assert ps[1..][1..] == ps[2..];
  }

  lemma AddAlone(p: Piece, ps: seq<Piece>, rest: string)
    requires ValidPiece(p) && ValidPieces(ps) && !IsPair([p] + ps)
    ensures ValidPieces([p] + ps) && Spelled([p] + ps) == [Alone(p)] + Spelled(ps)
    ensures LiteralOn([p] + ps, rest) == PieceText(p) + LiteralOn(ps, rest)
  {
    assert ([p] + ps)[1..] == ps;
  }

  lemma AddPair(p: Piece, q: Piece, ps: seq<Piece>, rest: string)
    requires ValidPiece(p) && ValidPiece(q) && ValidPieces(ps) && IsHigh(p) && IsLow(q)
    ensures ValidPieces([p, q] + ps) && Spelled([p, q] + ps) == [Paired(p.unit, q.unit)] + Spelled(ps)
    ensures LiteralOn([p, q] + ps, rest) == PieceText(p) + (PieceText(q) + LiteralOn(ps, rest))
  {
    assert [p, q] + ps == [p] + ([q] + ps) && ([p, q] + ps)[2..] == ps && ([p, q] + ps)[1..] == [q] + ps;
    assert ([q] + ps)[1..] == ps;
  }

  /** The text of a code unit, cut off. */
  lemma CutUnit(s: string, n: nat) returns (p: Piece)
    requires NextUnit(s) == Some(n)
    ensures |s| >= 6 && ValidPiece(p) && p.Hex? && p.unit == n && s == PieceText(p) + s[6..]
  {
    HexSound(s[2..], n);
    p := Hex(n, s[2..][..4]);
    Split(s[2..], 4);
  }

  lemma Split(s: string, i: nat)
    requires i <= |s|
    ensures s == s[..i] + s[i..]
  {
  }

  lemma ShortSound(s: string) returns (i: nat)
    requires s != "" && s[0] != 'u' && Unescape(s).Some?
    ensures i < 8 && s[0] == LETTERS[i] && Unescape(s) == Some((MEANT[i], s[1..]))
  {
    i := if s[0] == '"' then 0 else if s[0] == '\\' then 1 else if s[0] == '/' then 2 else if s[0] == 'b' then 3
         else if s[0] == 'f' then 4 else if s[0] == 'n' then 5 else if s[0] == 'r' then 6 else 7;
  }

  /** Every literal that is read is one by the grammar. */
  lemma {:induction false} LiteralSound(s: string) returns (ps: seq<Piece>)
    requires ParseChars(s).Some?
    ensures ValidPieces(ps) && ParseChars(s).value.0 == Spelled(ps) && s == LiteralOn(ps, ParseChars(s).value.1)
    decreases |s|
  {
    if s[0] == '"' {
      ps := [];
    } else if s[0] != '\\' {
      var more := LiteralSound(s[1..]);
      AddAlone(Raw(s[0]), more, ParseChars(s).value.1);
      ps := [Raw(s[0])] + more;
      Split(s, 1);
    } else if s[1] != 'u' {
      var i := ShortSound(s[1..]);
      assert s[1..][1..] == s[2..];
      var more := LiteralSound(s[2..]);
      AddAlone(Short(i), more, ParseChars(s).value.1);
      ps := [Short(i)] + more;
      Split(s, 2);
    } else {
      ps := UnitSound(s);
    }
  }

  lemma {:induction false} UnitSound(s: string) returns (ps: seq<Piece>)
    requires ParseChars(s).Some? && |s| > 1 && s[0] == '\\' && s[1] == 'u'
    ensures ValidPieces(ps) && ParseChars(s).value.0 == Spelled(ps) && s == LiteralOn(ps, ParseChars(s).value.1)
    decreases |s|, 0
  {
    UnitTaken(s);
    var tail, rest := s[6..], ParseChars(s).value.1;
    var p := CutUnit(s, NextUnit(s).value);
    if IsHigh(p) && NextUnit(tail).Some? && 0xDC00 <= NextUnit(tail).value < 0xE000 {
      var q := CutUnit(tail, NextUnit(tail).value);
      var more := LiteralSound(tail[6..]);
      AddPair(p, q, more, rest);
      ps := [p, q] + more;
    } else {
      var more := LiteralSound(tail);
      UnitAhead(more, rest);
      AddAlone(p, more, rest);
      ps := [p] + more;
    }
  }

  lemma UnitTaken(s: string)
    requires |s| > 1 && s[0] == '\\' && s[1] == 'u' && Unescape(s[1..]).Some?
    ensures |s| >= 6 && ParseHex4(s[2..]).Some?
    ensures var n, lo := ParseHex4(s[2..]).value, NextUnit(s[6..]);
            Unescape(s[1..]) ==
            if 0xD800 <= n < 0xDC00 && lo.Some? && 0xDC00 <= lo.value < 0xE000
            then Some((Paired(n, lo.value), s[6..][6..])) else Some((Scalar(n), s[6..]))
  {
    assert s[1..][1..] == s[2..];
    assert |s| >= 6 && s[1..][5..] == s[6..];
    UnescapeUnit(s[1..], ParseHex4(s[2..]).value, s[6..]);
  }

  // ---- numbers ----

  datatype Exponent = Exponent(mark: char, sign: string, digits: string)

  datatype Numeral = Numeral(minus: bool, whole: string, frac: Option<string>, exp: Option<Exponent>)

  /** number = [ minus ] int [ frac ] [ exp ]: no leading zero, and digits wherever they are asked for. */
  predicate ValidNumeral(n: Numeral) {
    && AllDigits(n.whole) && n.whole != "" && (n.whole[0] == '0' ==> n.whole == "0")
    && (n.frac.Some? ==> AllDigits(n.frac.value) && n.frac.value != "")
    && (n.exp.Some? ==> ValidExponent(n.exp.value))
  }

  predicate ValidExponent(x: Exponent) {
    x.mark in "eE" && (x.sign == "" || x.sign == "+" || x.sign == "-") && AllDigits(x.digits) && x.digits != ""
  }

  function FracText(f: Option<string>): string {
    match f case None => "" case Some(ds) => ['.'] + ds
  }

  function ExpText(x: Option<Exponent>): string {
    match x case None => "" case Some(e) => [e.mark] + e.sign + e.digits
  }

  function NumeralText(n: Numeral): string {
    (if n.minus then "-" else "") + n.whole + FracText(n.frac) + ExpText(n.exp)
  }

  lemma WholeRead(ds: string, rest: string)
    requires AllDigits(ds) && ds != "" && (ds[0] == '0' ==> ds == "0") && (rest != "" ==> !IsDigit(rest[0]))
    ensures TakeInt(ds + rest) == Some((ds, rest))
  {
    DigitsAgain(ds, rest);
    assert (ds + rest)[0] == ds[0] && (ds == "0" ==> (ds + rest)[1..] == rest);
  }

  lemma FracRead(f: Option<string>, rest: string)
    requires f.Some? ==> AllDigits(f.value) && f.value != ""
    requires rest != "" ==> rest[0] in "eE"
    ensures TakeFrac(FracText(f) + rest) == Some((FracText(f), rest))
    ensures FracText(f) + rest != "" ==> !IsDigit((FracText(f) + rest)[0])
  {
    match f
    case None => assert FracText(f) + rest == rest;
    case Some(ds) =>
      DigitsAgain(ds, rest);
      assert (FracText(f) + rest)[1..] == ds + rest;
  }

  lemma ExpRead(x: Option<Exponent>)
    requires x.Some? ==> ValidExponent(x.value)
    ensures TakeExp(ExpText(x)) == Some((ExpText(x), "")) && (ExpText(x) != "" ==> ExpText(x)[0] in "eE")
  {
    match x
    case None =>
    case Some(e) =>
      var s, n := ExpText(x), 1 + |e.sign|;
      DigitsAgain(e.digits, "");
      assert e.digits + "" == e.digits && s[n..] == e.digits && s[..n] == [e.mark] + e.sign;
  }

  lemma NumeralRead(n: Numeral)
    requires ValidNumeral(n)
    ensures IsNumber(NumeralText(n))
  {
    var sign, f, e := if n.minus then "-" else "", FracText(n.frac), ExpText(n.exp);
    ExpRead(n.exp);
    FracRead(n.frac, e);
    WholeRead(n.whole, f + e);
    NumberParts(sign, n.whole, f, e);
  }

  lemma {:induction false} DigitsCut(s: string)
    ensures s == TakeDigits(s).0 + TakeDigits(s).1
  {
    if s != "" && IsDigit(s[0]) {
      DigitsCut(s[1..]);
      Split(s, 1);
    }
  }

  lemma WholeSound(s: string)
    requires TakeInt(s).Some?
    ensures var (i, rest) := TakeInt(s).value;
            s == i + rest && AllDigits(i) && i != "" && (i[0] == '0' ==> i == "0")
  {
    DigitsTaken(s);
    DigitsCut(s);
    Split(s, 1);
  }

  lemma FracSound(s: string) returns (f: Option<string>)
    requires TakeFrac(s).Some?
    ensures TakeFrac(s).value.0 == FracText(f) && s == FracText(f) + TakeFrac(s).value.1
    ensures f.Some? ==> AllDigits(f.value) && f.value != ""
  {
    f := None;
    if s != "" && s[0] == '.' {
      var (ds, rest) := TakeDigits(s[1..]);
      DigitsTaken(s[1..]);
      DigitsCut(s[1..]);
      Split(s, 1);
      Join(['.'], ds, rest);
      f := Some(ds);
    }
  }

  lemma ExpSound(s: string) returns (x: Option<Exponent>)
    requires TakeExp(s).Some?
    ensures TakeExp(s).value.0 == ExpText(x) && s == ExpText(x) + TakeExp(s).value.1
    ensures x.Some? ==> ValidExponent(x.value)
  {
    x := None;
    if s != "" && s[0] in "eE" {
      var n := if |s| > 1 && IsSign(s[1]) then 2 else 1;
      var (ds, rest) := TakeDigits(s[n..]);
      DigitsTaken(s[n..]);
      DigitsCut(s[n..]);
      Split(s, n);
      Join(s[..n], ds, rest);
      assert s[..n] == [s[0]] + s[1..n];
      x := Some(Exponent(s[0], s[1..n], ds));
    }
  }

  lemma Join(a: string, b: string, c: string)
    ensures a + b + c == a + (b + c)
  {
  }

  lemma JoinFive(a: string, b: string, c: string, d: string, e: string)
    ensures a + b + c + d + e == a + (b + (c + (d + e)))
  {
  }

  lemma NumeralSound(s: string) returns (n: Numeral)
    requires ParseNumber(s).Some?
    ensures ValidNumeral(n)
    ensures ParseNumber(s).value.0 == NumeralText(n) && s == NumeralText(n) + ParseNumber(s).value.1
  {
    var sign := if s != "" && s[0] == '-' then "-" else "";
    Split(s, |sign|);
    WholeSound(s[|sign|..]);
    var (i, afterInt) := TakeInt(s[|sign|..]).value;
    var f := FracSound(afterInt);
    var afterFrac := TakeFrac(afterInt).value.1;
    var x := ExpSound(afterFrac);
    JoinFive(sign, i, FracText(f), ExpText(x), TakeExp(afterFrac).value.1);
    n := Numeral(sign == "-", i, f, x);
  }

  ghost predicate IsNumeral(t: string) {
    exists n :: ValidNumeral(n) && NumeralText(n) == t
  }

  /** The text kept of a number is a number by the grammar, and every one of those can be kept. */
  lemma NumbersAreExact(t: string)
    ensures IsNumber(t) <==> IsNumeral(t)
  {
    if IsNumber(t) {
      var n := NumeralSound(t);
    } else if IsNumeral(t) {
      var n :| ValidNumeral(n) && NumeralText(n) == t;
      NumeralRead(n);
    }
  }
}
