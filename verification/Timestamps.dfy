/**
 The timestamps that time.Parse(time.RFC3339, s) takes, and the instants they stand for: section 5.6 of RFC 3339,
 with a one-digit hour, a comma before the fraction and an offset of up to 24:60 let through.
 */
module Timestamps {
  import opened Wrappers
  import opened Decimals
  import opened Events
  import opened Calendar
  import opened Rfc3339

  datatype Fraction = Whole | Part(mark: char, digits: string)

  datatype Zone = Utc | Offset(sign: char, hours: string, minutes: string)

  datatype Timestamp = Timestamp(year: string, month: string, day: string, hour: string, minute: string,
                                 second: string, fraction: Fraction, zone: Zone)

  /** So many digits. */
  predicate IsField(s: string, n: nat) { |s| == n && AllDigits(s) }

  function DateIn(t: Timestamp): Date
    requires AllDigits(t.year) && AllDigits(t.month) && AllDigits(t.day)
  {
    Date(Digits(t.year), Digits(t.month), Digits(t.day))
  }

  predicate ValidDate(t: Timestamp) {
    IsField(t.year, 4) && IsField(t.month, 2) && IsField(t.day, 2) && IsDate(DateIn(t))
  }

  predicate ValidClock(t: Timestamp) {
    && (IsField(t.hour, 1) || IsField(t.hour, 2)) && IsField(t.minute, 2) && IsField(t.second, 2)
    && Digits(t.hour) < 24 && Digits(t.minute) < 60 && Digits(t.second) < 60
  }

  predicate ValidFraction(f: Fraction) {
    f.Part? ==> f.mark in ".," && f.digits != "" && AllDigits(f.digits)
  }

  predicate ValidZone(z: Zone) {
    z.Offset? ==>
      && z.sign in "+-" && IsField(z.hours, 2) && IsField(z.minutes, 2)
      && Digits(z.hours) <= 24 && Digits(z.minutes) <= 60
  }

  predicate ValidTimestamp(t: Timestamp) {
    ValidDate(t) && ValidClock(t) && ValidFraction(t.fraction) && ValidZone(t.zone)
  }

  function DateText(t: Timestamp): string {
    t.year + ['-'] + t.month + ['-'] + t.day + ['T']
  }

  function ClockText(t: Timestamp): string {
    t.hour + ([':'] + t.minute + [':'] + t.second)
  }

  function FractionText(f: Fraction): string {
    match f case Whole => "" case Part(mark, ds) => [mark] + ds
  }

  function ZoneText(z: Zone): string {
    match z case Utc => "Z" case Offset(sign, hours, minutes) => [sign] + hours + [':'] + minutes
  }

  function TimestampText(t: Timestamp): string {
    DateText(t) + (ClockText(t) + (FractionText(t.fraction) + ZoneText(t.zone)))
  }

  function ClockIn(t: Timestamp): nat
    requires ValidClock(t)
  {
    Digits(t.hour) * 3600 + Digits(t.minute) * 60 + Digits(t.second)
  }

  /** The fraction in nanoseconds, rounded down. */
  function NanosIn(f: Fraction): nat
    requires ValidFraction(f)
  {
    match f case Whole => 0 case Part(_, ds) => Digits(ds) * 1_000_000_000 / Pow10(|ds|)
  }

  /** Seconds east of UTC. */
  function EastIn(z: Zone): int
    requires ValidZone(z)
  {
    match z
    case Utc => 0
    case Offset(sign, hours, minutes) => (if sign == '-' then -1 else 1) * (Digits(hours) * 3600 + Digits(minutes) * 60)
  }

  function InstantIn(t: Timestamp): Instant
    requires ValidTimestamp(t)
  {
    Instant(DaysOf(DateIn(t)) * 86400 + ClockIn(t) - EastIn(t.zone), NanosIn(t.fraction))
  }

  // ---- fields ----

  lemma DigitsOfTwo(s: string)
    requires IsField(s, 2)
    ensures Digits(s) == (s[0] as int - '0' as int) * 10 + (s[1] as int - '0' as int)
  {
    var d := s[..1];
    assert d[..0] == [] && Digits(d) == Digits(d[..0]) * 10 + (d[0] as int - '0' as int);
  }

  lemma TwoIsDigits(s: string, i: nat)
    requires i + 2 <= |s|
    ensures var ds := s[i..i + 2]; Two(s, i) == if AllDigits(ds) then Some(Digits(ds)) else None
  {
    var ds := s[i..i + 2];
    assert ds[0] == s[i] && ds[1] == s[i + 1];
    if AllDigits(ds) { DigitsOfTwo(ds); }
  }

  lemma FourIsDigits(s: string)
    requires |s| >= 4
    ensures Four(s) == if AllDigits(s[..4]) then Some(Digits(s[..4])) else None
  {
    var y := s[..4];
    TwoIsDigits(s, 0);
    TwoIsDigits(s, 2);
    assert y[..2] == s[0..2] && y[2..] == s[2..4] && y == s[0..2] + s[2..4];
    if AllDigits(y) {
      DigitsOfTwo(s[0..2]);
      DigitsOfTwo(s[2..4]);
      assert y[..3][..2] == s[0..2];
      assert Digits(y) == Digits(y[..3]) * 10 + (y[3] as int - '0' as int);
      assert Digits(y[..3]) == Digits(y[..3][..2]) * 10 + (y[2] as int - '0' as int);
    }
  }

  /** The text with a date at its front, field by field. */
  predicate Dated(s: string, t: Timestamp) {
    && |s| >= 11 && s[..4] == t.year && s[4] == '-' && s[5..7] == t.month && s[7] == '-'
    && s[8..10] == t.day && s[10] == 'T'
  }

  lemma DateLayout(t: Timestamp, s: string, rest: string)
    requires |t.year| == 4 && |t.month| == 2 && |t.day| == 2
    ensures s == DateText(t) + rest <==> Dated(s, t) && s[11..] == rest
  {
    if Dated(s, t) && s[11..] == rest {
      assert s[..4] + [s[4]] + s[5..7] + [s[7]] + s[8..10] + [s[10]] + s[11..] == s;
    }
  }

  lemma DateIsParsed(s: string, t: Timestamp)
    requires Dated(s, t)
    ensures ParseDate(s) == if ValidDate(t) then Some(DateIn(t)) else None
  {
    FourIsDigits(s);
    TwoIsDigits(s, 5);
    TwoIsDigits(s, 8);
  }

  // ---- the time of day ----

  lemma DigitsOfOne(s: string)
    requires IsField(s, 1)
    ensures Digits(s) == s[0] as int - '0' as int
  {
    assert s[..0] == [];
  }

  /** How many digits the hour has. */
  function HourWidth(s: string): nat {
    if |s| >= 2 && IsDigit(s[1]) then 2 else 1
  }

  lemma HourIsDigits(s: string)
    ensures var n := HourWidth(s);
            TakeHour(s) ==
            if n <= |s| && AllDigits(s[..n]) then Some((Digits(s[..n]), s[n..])) else None
  {
    if |s| >= 2 { TwoIsDigits(s, 0); }
    if |s| >= 1 && IsDigit(s[0]) { DigitsOfOne(s[..1]); }
  }

  /** Minute and second, after the hour. */
  predicate Timed(s: string, t: Timestamp) {
    |s| >= 6 && s[0] == ':' && s[1..3] == t.minute && s[3] == ':' && s[4..6] == t.second
  }

  lemma ClockLayout(t: Timestamp, s: string, rest: string)
    requires |t.minute| == 2 && |t.second| == 2
    ensures s == [':'] + t.minute + [':'] + t.second + rest <==> Timed(s, t) && s[6..] == rest
  {
    if Timed(s, t) && s[6..] == rest {
      assert [s[0]] + s[1..3] + [s[3]] + s[4..6] + s[6..] == s;
    }
  }

  lemma ClockIsParsed(s: string, t: Timestamp)
    requires HourWidth(s) <= |s| && s[..HourWidth(s)] == t.hour && Timed(s[HourWidth(s)..], t)
    ensures TakeClock(s) == if ValidClock(t) then Some((ClockIn(t), s[HourWidth(s)..][6..])) else None
  {
    HourIsDigits(s);
    TwoIsDigits(s[HourWidth(s)..], 1);
    TwoIsDigits(s[HourWidth(s)..], 4);
  }

  lemma ClockRead(t: Timestamp, rest: string)
    requires ValidClock(t)
    ensures TakeClock(ClockText(t) + rest) == Some((ClockIn(t), rest))
  {
    var s := ClockText(t) + rest;
    var tail := [':'] + t.minute + [':'] + t.second + rest;
    assert s == t.hour + tail;
    assert HourWidth(s) == |t.hour| && s[..|t.hour|] == t.hour && s[|t.hour|..] == tail;
    ClockLayout(t, tail, rest);
    ClockIsParsed(s, t);
  }

  // ---- the fraction ----

  lemma {:induction false} RunOf(ds: string, rest: string)
    requires AllDigits(ds) && (rest != "" ==> !IsDigit(rest[0]))
    ensures Run(ds + rest) == |ds|
  {
    if ds == "" {
      assert ds + rest == rest;
    } else {
      RunOf(ds[1..], rest);
      assert (ds + rest)[1..] == ds[1..] + rest;
    }
  }

  lemma {:induction false} RunEnds(s: string)
    ensures var n := Run(s); n < |s| ==> !IsDigit(s[n])
  {
    if s != "" && IsDigit(s[0]) { RunEnds(s[1..]); }
  }

  /** The first digit counts most. */
  lemma {:induction false} FirstDigit(ds: string)
    requires ds != "" && AllDigits(ds)
    ensures Digits(ds) == (ds[0] as int - '0' as int) * Pow10(|ds| - 1) + Digits(ds[1..])
  {
    var n := |ds| - 1;
    if n == 0 {
      DigitsOfOne(ds);
    } else {
      FirstDigit(ds[..n]);
      assert ds[..n][1..] == ds[1..][..n - 1] && ds[1..][n - 1] == ds[n];
      ByTen(ds[0] as int - '0' as int, Pow10(n - 1), Digits(ds[1..][..n - 1]), ds[n] as int - '0' as int);
    }
  }

  lemma ByTen(d: int, p: int, r: int, e: int)
    ensures (d * p + r) * 10 + e == d * (10 * p) + (r * 10 + e)
  {
  }

  lemma {:induction false} DigitsBelow(ds: string)
    requires AllDigits(ds)
    ensures Digits(ds) < Pow10(|ds|)
  {
    if ds != "" { DigitsBelow(ds[..|ds| - 1]); }
  }

  lemma AddMultiple(a: nat, x: nat, p: nat)
    requires p > 0
    ensures (a * p + x) / p == a + x / p
  {
    assert x == x / p * p + x % p;
    Distribute(a, x / p, p);
    DividesTo(a * p + x, a + x / p, x % p, p);
  }

  lemma Distribute(a: nat, b: nat, p: nat)
    ensures (a + b) * p == a * p + b * p
  {
  }

  lemma CancelTen(x: nat, p: nat)
    requires p > 0
    ensures 10 * x / (10 * p) == x / p
  {
    var q, r := x / p, x % p;
    assert x == q * p + r;
    TenTimes(q, p, r);
    DividesTo(10 * x, q, 10 * r, 10 * p);
  }

  lemma TenTimes(q: nat, p: nat, r: nat)
    ensures 10 * (q * p + r) == q * (10 * p) + 10 * r
  {
  }

  /** One digit more: d is the first digit, r the number of the others, p = 10^(n-1), k a power of ten. */
  lemma OneDigitMore(d: nat, r: nat, p: nat, k: nat)
    requires p > 0
    ensures (d * p + r) * (10 * k) / (10 * p) == d * k + r * k / p
  {
    assert (d * p + r) * (10 * k) == 10 * ((d * p + r) * k);
    CancelTen((d * p + r) * k, p);
    assert (d * p + r) * k == (d * k) * p + r * k;
    AddMultiple(d * k, r * k, p);
  }

  /** Digit by digit, and as a fraction. */
  lemma {:induction false} NanosAreExact(ds: string, k: nat)
    requires AllDigits(ds)
    ensures Nanos(ds, Pow10(k) / 10) == Digits(ds) * Pow10(k) / Pow10(|ds|)
    decreases |ds|
  {
    if ds == "" {
    } else if k == 0 {
      DigitsBelow(ds);
      DividesTo(Digits(ds), 0, Digits(ds), Pow10(|ds|));
    } else {
      NanosAreExact(ds[1..], k - 1);
      FirstDigit(ds);
      OneDigitMore(ds[0] as int - '0' as int, Digits(ds[1..]), Pow10(|ds| - 1), Pow10(k - 1));
    }
  }

  lemma NanosOf(ds: string)
    requires AllDigits(ds)
    ensures Nanos(ds, 100_000_000) == Digits(ds) * 1_000_000_000 / Pow10(|ds|)
  {
    assert Pow10(3) == 1000 && Pow10(6) == 1000_000 && Pow10(9) == 1_000_000_000;
    NanosAreExact(ds, 9);
  }

  lemma FractionRead(f: Fraction, rest: string)
    requires ValidFraction(f) && rest != "" && !IsDigit(rest[0]) && rest[0] !in ".,"
    ensures TakeFraction(FractionText(f) + rest) == (NanosIn(f), rest)
  {
    var s := FractionText(f) + rest;
    match f
    case Whole => assert s == rest;
    case Part(_, ds) =>
      assert s[1..] == ds + rest && s[1..][..|ds|] == ds && s[1..][|ds|..] == rest;
      RunOf(ds, rest);
      NanosOf(ds);
  }

  lemma FractionSound(s: string) returns (f: Fraction)
    ensures ValidFraction(f) && TakeFraction(s).0 == NanosIn(f) && s == FractionText(f) + TakeFraction(s).1
  {
    var n := if s != "" && s[0] in ".," then Run(s[1..]) else 0;
    if n == 0 {
      f := Whole;
    } else {
      var ds := s[1..][..n];
      f := Part(s[0], ds);
      NanosOf(ds);
      assert s == [s[0]] + ds + s[1..][n..];
    }
  }

  // ---- the offset ----

  lemma ZoneIsParsed(s: string)
    requires |s| == 6 && s[0] in "+-" && s[3] == ':'
    ensures var z := Offset(s[0], s[1..3], s[4..6]);
            ZoneText(z) == s && ParseZone(s) == if ValidZone(z) then Some(EastIn(z)) else None
  {
    TwoIsDigits(s, 1);
    TwoIsDigits(s, 4);
  }

  lemma ZoneRead(z: Zone)
    requires ValidZone(z)
    ensures ParseZone(ZoneText(z)) == Some(EastIn(z))
    ensures var s := ZoneText(z); s != "" && !IsDigit(s[0]) && s[0] !in ".,"
  {
    if z.Offset? {
      var s := ZoneText(z);
      assert s[1..3] == z.hours && s[4..6] == z.minutes;
      ZoneIsParsed(s);
    }
  }

  lemma ZoneSound(s: string) returns (z: Zone)
    requires ParseZone(s).Some?
    ensures ValidZone(z) && ZoneText(z) == s && EastIn(z) == ParseZone(s).value
  {
    if s == "Z" {
      z := Utc;
    } else {
      ZoneIsParsed(s);
      z := Offset(s[0], s[1..3], s[4..6]);
    }
  }

  // ---- the timestamp ----

  lemma TimestampRead(t: Timestamp)
    requires ValidTimestamp(t)
    ensures Parse(TimestampText(t)) == Some(InstantIn(t))
  {
    var s, zone := TimestampText(t), ZoneText(t.zone);
    var rest := FractionText(t.fraction) + zone;
    DateLayout(t, s, ClockText(t) + rest);
    DateIsParsed(s, t);
    ClockRead(t, rest);
    ZoneRead(t.zone);
    FractionRead(t.fraction, zone);
  }

  lemma ClockSound(s: string) returns (t: Timestamp)
    requires TakeClock(s).Some?
    ensures ValidClock(t) && TakeClock(s).value.0 == ClockIn(t) && s == ClockText(t) + TakeClock(s).value.1
  {
    HourIsDigits(s);
    var n := HourWidth(s);
    var tail := s[n..];
    t := Timestamp("", "", "", s[..n], tail[1..3], tail[4..6], Whole, Utc);
    ClockIsParsed(s, t);
    ClockLayout(t, tail, tail[6..]);
    assert s == s[..n] + tail;
  }

  lemma TimestampSound(s: string) returns (t: Timestamp)
    requires Parse(s).Some?
    ensures ValidTimestamp(t) && TimestampText(t) == s && InstantIn(t) == Parse(s).value
  {
    var c := ClockSound(s[11..]);
    var afterClock := TakeClock(s[11..]).value.1;
    var f := FractionSound(afterClock);
    var z := ZoneSound(TakeFraction(afterClock).1);
    t := c.(year := s[..4], month := s[5..7], day := s[8..10], fraction := f, zone := z);
    DateIsParsed(s, t);
    DateLayout(t, s, s[11..]);
  }

  /** The text is a timestamp of this instant. */
  ghost predicate StandsFor(s: string, at: Instant) {
    exists t :: ValidTimestamp(t) && TimestampText(t) == s && InstantIn(t) == at
  }

  /** What is parsed is what the grammar says. */
  lemma ParseIsExact(s: string, at: Instant)
    ensures Parse(s) == Some(at) <==> StandsFor(s, at)
  {
    if Parse(s) == Some(at) {
      var t := TimestampSound(s);
    } else if StandsFor(s, at) {
      var t :| ValidTimestamp(t) && TimestampText(t) == s && InstantIn(t) == at;
      TimestampRead(t);
    }
  }
}
