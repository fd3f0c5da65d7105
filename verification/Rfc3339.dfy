/** The streamed_at timestamp: time.Format and time.Parse with time.RFC3339 (section 5.6 of RFC 3339). */
module Rfc3339 {
  import opened Wrappers
  import opened Decimals
  import opened Events
  import opened Calendar

  const DAY := 86400

  function Digit(n: nat): char
    requires n < 10
  {
    '0' + n as char
  }

  function Pad4(n: nat): string
    requires n < 10000
  {
    [Digit(n / 1000), Digit(n / 100 % 10), Digit(n / 10 % 10), Digit(n % 10)]
  }

  /** A year has four digits, or more, or a sign. */
  function YearText(y: int): string {
    if 0 <= y < 10000 then Pad4(y)
    else if y >= 10000 then DecimalNat(y)
    else ['-'] + (if -y < 10000 then Pad4(-y) else DecimalNat(-y))
  }

  function YearOf(t: Instant): int { DateOf(t.seconds / DAY).year }

  /** The text after the year. */
  function AfterYear(d: Date, c: nat): string
    requires IsDate(d) && c < DAY
  {
    ['-', Digit(d.month / 10), Digit(d.month % 10), '-', Digit(d.day / 10), Digit(d.day % 10),
     'T', Digit(c / 36000), Digit(c / 3600 % 10), ':', Digit(c / 600 % 6), Digit(c / 60 % 10),
     ':', Digit(c / 10 % 6), Digit(c % 10), 'Z']
  }

  /** The text of a date and a time of day. */
  function Stamp(d: Date, c: nat): string
    requires IsDate(d) && c < DAY
  {
    YearText(d.year) + AfterYear(d, c)
  }

  /** t.UTC().Format(time.RFC3339): whole seconds, in UTC. */
  function Format(t: Instant): string {
    Stamp(DateOf(t.seconds / DAY), t.seconds % DAY)
  }

  /** Two digits at position i, as a number. */
  function Two(s: string, i: nat): (r: Option<nat>)
    ensures r.Some? ==> r.value < 100
  {
    if i + 2 <= |s| && IsDigit(s[i]) && IsDigit(s[i + 1])
    then Some((s[i] as int - '0' as int) * 10 + (s[i + 1] as int - '0' as int)) else None
  }

  function Four(s: string): Option<nat> {
    if Two(s, 0).Some? && Two(s, 2).Some? then Some(Two(s, 0).value * 100 + Two(s, 2).value) else None
  }

  predicate Is(s: string, i: nat, c: char) { i < |s| && s[i] == c }

  /** The date at the front of the text. */
  function ParseDate(s: string): (r: Option<Date>)
    ensures r.Some? ==> IsDate(r.value) && 0 <= r.value.year
  {
    var y, m, d := Four(s), Two(s, 5), Two(s, 8);
    if y.None? || m.None? || d.None? || !Is(s, 4, '-') || !Is(s, 7, '-') then None
    else if IsDate(Date(y.value, m.value, d.value)) then Some(Date(y.value, m.value, d.value))
    else None
  }

  /** The hour has one digit or two: time.Parse takes both. */
  function TakeHour(s: string): (r: Option<(nat, string)>) {
    if s == "" || !IsDigit(s[0]) then None
    else if Two(s, 0).Some? then Some((Two(s, 0).value, s[2..]))
    else Some((s[0] as int - '0' as int, s[1..]))
  }

  /** The time of day in seconds, and the text after it. */
  function TakeClock(s: string): (r: Option<(nat, string)>)
    ensures r.Some? ==> r.value.0 < DAY
  {
    match TakeHour(s)
    case None => None
    case Some((h, rest)) =>
      var m, sec := Two(rest, 1), Two(rest, 4);
      if m.None? || sec.None? || !Is(rest, 0, ':') || !Is(rest, 3, ':') then None
      else if h < 24 && m.value < 60 && sec.value < 60 then Some((h * 3600 + m.value * 60 + sec.value, rest[6..]))
      else None
  }

  /** The digits at the front. */
  function Run(s: string): (n: nat)
    ensures n <= |s| && forall i :: 0 <= i < n ==> IsDigit(s[i])
  {
    if s == "" || !IsDigit(s[0]) then 0 else 1 + Run(s[1..])
  }

  /** A fraction's first nine digits as nanoseconds. */
  function Nanos(digits: string, place: nat): nat
    requires AllDigits(digits)
  {
    if digits == "" || place == 0 then 0 else
      var d: nat := digits[0] as int - '0' as int;
      assert d * place >= 0;
      d * place + Nanos(digits[1..], place / 10)
  }

  /** The optional fraction, after a period or a comma, in nanoseconds, and the text after it. */
  function TakeFraction(s: string): (nat, string) {
    var n := if s != "" && (s[0] == '.' || s[0] == ',') then Run(s[1..]) else 0;
    if n == 0 then (0, s) else (Nanos(s[1..][..n], 100_000_000), s[1..][n..])
  }

  /** Z, or an offset east of UTC in seconds; 24 hours and 60 minutes are let through. */
  function ParseZone(s: string): Option<int> {
    if s == "Z" then Some(0)
    else if |s| == 6 && (s[0] == '+' || s[0] == '-') && s[3] == ':' && Two(s, 1).Some? && Two(s, 4).Some?
            && Two(s, 1).value <= 24 && Two(s, 4).value <= 60 then
      var east := Two(s, 1).value * 3600 + Two(s, 4).value * 60;
      Some(if s[0] == '+' then east else -east)
    else None
  }

  /** time.Parse(time.RFC3339, s). */
  function Parse(s: string): Option<Instant> {
    if ParseDate(s).None? || !Is(s, 10, 'T') then None else
      match TakeClock(s[11..])
      case None => None
      case Some((clock, afterClock)) =>
        var (nanos, zone) := TakeFraction(afterClock);
        match ParseZone(zone)
        case None => None
        case Some(east) => Some(Instant(DaysOf(ParseDate(s).value) * DAY + clock - east, nanos))
  }

  lemma TwoDigits(s: string, i: nat, n: nat)
    requires n < 100 && i + 2 <= |s| && s[i] == Digit(n / 10) && s[i + 1] == Digit(n % 10)
    ensures Two(s, i) == Some(n)
  {
  }

  lemma FourDigits(s: string, y: nat)
    requires y < 10000 && |s| >= 4 && s[0] == Digit(y / 1000) && s[1] == Digit(y / 100 % 10) &&
             s[2] == Digit(y / 10 % 10) && s[3] == Digit(y % 10)
    ensures Four(s) == Some(y)
  {
    YearAddsUp(y);
    TwoDigits(s, 0, y / 100);
    TwoDigits(s, 2, y % 100);
  }

  lemma YearAddsUp(y: nat)
    ensures y / 100 / 10 == y / 1000 && y % 100 / 10 == y / 10 % 10 && y % 100 % 10 == y % 10
  {
    var h, t, u := y / 100, y % 100 / 10, y % 100 % 10;
    DividesTo(y, h * 10 + t, u, 10);
    DividesTo(h * 10 + t, h, t, 10);
    DividesTo(y, h, y % 100, 100);
    DividesTo(y, h / 10, h % 10 * 100 + y % 100, 1000);
  }

  lemma DividesTo(n: nat, q: nat, r: nat, d: nat)
    requires r < d && n == q * d + r
    ensures n / d == q && n % d == r
  {
    if n / d < q {
      MoreIsMore(n / d + 1, q, d);
    } else if n / d > q {
      MoreIsMore(q + 1, n / d, d);
    }
  }

  lemma MoreIsMore(a: nat, b: nat, d: nat)
    requires a <= b
    ensures a * d <= b * d
  {
    var more: nat := b - a;
    assert b * d == a * d + more * d;
  }

  lemma StampDate(s: string, d: Date, c: nat)
    requires IsDate(d) && 0 <= d.year < 10000 && c < DAY && s == Pad4(d.year) + AfterYear(d, c)
    ensures ParseDate(s) == Some(d)
  {
    FourDigits(s, d.year);
    DateFields(s, d);
  }

  lemma DateFields(s: string, d: Date)
    requires IsDate(d) && 0 <= d.year < 10000 && |s| >= 10 && Four(s) == Some(d.year)
    requires s[4] == '-' && s[5] == Digit(d.month / 10) && s[6] == Digit(d.month % 10)
    requires s[7] == '-' && s[8] == Digit(d.day / 10) && s[9] == Digit(d.day % 10)
    ensures ParseDate(s) == Some(d)
  {
    TwoDigits(s, 5, d.month);
    TwoDigits(s, 8, d.day);
  }

  lemma ClockAddsUp(c: nat)
    requires c < DAY
    ensures c / 3600 < 24 && c / 3600 / 10 == c / 36000
    ensures c / 3600 * 3600 + c / 60 % 60 * 60 + c % 60 == c
  {
    assert c / 60 / 60 == c / 3600;
  }

  lemma MinutesAddUp(c: nat)
    ensures c / 60 % 60 / 10 == c / 600 % 6 && c / 60 % 60 % 10 == c / 60 % 10
    ensures c % 60 / 10 == c / 10 % 6 && c % 60 % 10 == c % 10
  {
    SixTen(c);
    SixTen(c / 60);
    assert c / 60 / 10 == c / 600;
  }

  lemma SixTen(m: nat)
    ensures m % 60 / 10 == m / 10 % 6 && m % 60 % 10 == m % 10
  {
  }

  lemma ClockFields(s: string, c: nat)
    requires c < DAY && |s| == 9 && s[8] == 'Z'
    requires s[0] == Digit(c / 36000) && s[1] == Digit(c / 3600 % 10) && s[2] == ':'
    requires s[3] == Digit(c / 600 % 6) && s[4] == Digit(c / 60 % 10) && s[5] == ':'
    requires s[6] == Digit(c / 10 % 6) && s[7] == Digit(c % 10)
    ensures TakeClock(s) == Some((c, "Z"))
  {
    ClockAddsUp(c);
    MinutesAddUp(c);
    TwoDigits(s, 0, c / 3600);
    TwoDigits(s[2..], 1, c / 60 % 60);
    TwoDigits(s[2..], 4, c % 60);
    assert s[2..][6..] == "Z";
  }

  lemma StampClock(s: string, d: Date, c: nat)
    requires IsDate(d) && 0 <= d.year < 10000 && c < DAY && s == Pad4(d.year) + AfterYear(d, c)
    ensures |s| == 20 && s[10] == 'T' && TakeClock(s[11..]) == Some((c, "Z"))
  {
    ClockFields(s[11..], c);
  }

  lemma StampRoundTrip(d: Date, c: nat)
    requires IsDate(d) && 0 <= d.year < 10000 && c < DAY
    ensures Parse(Stamp(d, c)) == Some(Instant(DaysOf(d) * DAY + c, 0))
  {
    var s := Stamp(d, c);
    StampDate(s, d, c);
    StampClock(s, d, c);
  }

  /** A year outside 0 to 9999 is formatted all the same, and not read back. */
  lemma OutOfRange(d: Date, c: nat)
    requires IsDate(d) && !(0 <= d.year < 10000) && c < DAY
    ensures Parse(Stamp(d, c)).None?
  {
    var s := Stamp(d, c);
    if d.year < 0 {
      assert s[0] == '-';
      assert Two(s, 0).None?;
    } else {
      assert Pow10(4) == 10000;
      ManyDigits(d.year, 10000, 4);
      assert s[4] == DecimalNat(d.year)[4];
    }
    assert ParseDate(s).None?;
  }

  /** What is formatted is read back, without its nanoseconds, exactly when the year has four digits. */
  lemma RoundTrip(t: Instant)
    ensures Parse(Format(t)) == if 0 <= YearOf(t) < 10000 then Some(Instant(t.seconds, 0)) else None
  {
    StampOf(t, DateOf(t.seconds / DAY), t.seconds % DAY);
  }

  lemma StampOf(t: Instant, d: Date, c: nat)
    requires IsDate(d) && c < DAY && DaysOf(d) * DAY + c == t.seconds
    ensures Parse(Stamp(d, c)) == if 0 <= d.year < 10000 then Some(Instant(t.seconds, 0)) else None
  {
    if 0 <= d.year < 10000 { StampRoundTrip(d, c); } else { OutOfRange(d, c); }
  }

  lemma {:induction false} ManyDigits(n: nat, least: nat, k: nat)
    requires n >= least && least == Pow10(k)
    ensures |DecimalNat(n)| > k
  {
    if k > 0 { ManyDigits(n / 10, least / 10, k - 1); }
  }

  function Pow10(k: nat): (p: nat)
    ensures p > 0
  {
    if k == 0 then 1 else 10 * Pow10(k - 1)
  }
}
