/** The proleptic Gregorian calendar: days since 0000-01-01 and civil dates. */
module Calendar {

  datatype Date = Date(year: int, month: nat, day: nat)

  predicate IsLeap(y: int) {
    y % 4 == 0 && (y % 100 != 0 || y % 400 == 0)
  }

  function YearLength(y: int): (n: nat)
    ensures n > 0
  {
    if IsLeap(y) then 366 else 365
  }

  function MonthLength(y: int, m: nat): (n: nat)
    ensures n > 0
  {
    if m == 2 then (if IsLeap(y) then 29 else 28) else if m == 4 || m == 6 || m == 9 || m == 11 then 30 else 31
  }

  /** Days from 0000-01-01 to the first day of year y. */
  function DaysBeforeYear(y: int): int
    decreases if y < 0 then -y else y
  {
    if y == 0 then 0
    else if y > 0 then DaysBeforeYear(y - 1) + YearLength(y - 1)
    else DaysBeforeYear(y + 1) - YearLength(y)
  }

  /** Days from the first day of the year to the first day of month m. */
  function DaysBeforeMonth(y: int, m: nat): nat {
    if m <= 1 then 0 else DaysBeforeMonth(y, m - 1) + MonthLength(y, m - 1)
  }

  predicate IsDate(d: Date) {
    1 <= d.month <= 12 && 1 <= d.day <= MonthLength(d.year, d.month)
  }

  function DaysOf(d: Date): int {
    DaysBeforeYear(d.year) + DaysBeforeMonth(d.year, d.month) + (d.day as int - 1)
  }

  /** The year a day falls in, searching from year y. */
  function YearFrom(days: int, y: int): (r: int)
    ensures DaysBeforeYear(r) <= days < DaysBeforeYear(r + 1)
    decreases days < DaysBeforeYear(y),
              if days < DaysBeforeYear(y) then DaysBeforeYear(y) - days else days - DaysBeforeYear(y)
  {
    assert DaysBeforeYear(y + 1) == DaysBeforeYear(y) + YearLength(y);
    assert DaysBeforeYear(y) == DaysBeforeYear(y - 1) + YearLength(y - 1);
    if days < DaysBeforeYear(y) then
      YearFrom(days, y - 1)
    else if days >= DaysBeforeYear(y + 1) then YearFrom(days, y + 1)
    else y
  }

  /** The date of a day of a year, searching from month m. */
  function MonthFrom(y: int, n: nat, m: nat): (d: Date)
    requires 1 <= m <= 12 && DaysBeforeMonth(y, m) <= n < YearLength(y)
    ensures d.year == y && IsDate(d) && DaysBeforeMonth(y, d.month) + d.day - 1 == n
    decreases 12 - m
  {
    YearIsItsMonths(y);
    if n < DaysBeforeMonth(y, m) + MonthLength(y, m) then Date(y, m, n - DaysBeforeMonth(y, m) + 1) else
      assert DaysBeforeMonth(y, m + 1) == DaysBeforeMonth(y, m) + MonthLength(y, m);
      MonthFrom(y, n, m + 1)
  }

  lemma YearIsItsMonths(y: int)
    ensures DaysBeforeMonth(y, 12) + MonthLength(y, 12) == YearLength(y)
  {
    assert DaysBeforeMonth(y, 2) == 31;
    assert DaysBeforeMonth(y, 3) == 31 + MonthLength(y, 2);
    assert DaysBeforeMonth(y, 5) == DaysBeforeMonth(y, 3) + 61;
    assert DaysBeforeMonth(y, 7) == DaysBeforeMonth(y, 5) + 61;
    assert DaysBeforeMonth(y, 9) == DaysBeforeMonth(y, 7) + 62;
    assert DaysBeforeMonth(y, 11) == DaysBeforeMonth(y, 9) + 61;
    assert DaysBeforeMonth(y, 12) == DaysBeforeMonth(y, 11) + 30;
  }

  /** The civil date of a day. */
  function DateOf(days: int): (d: Date)
    ensures IsDate(d) && DaysOf(d) == days
  {
    var y := YearFrom(days, 0);
    assert DaysBeforeYear(y + 1) == DaysBeforeYear(y) + YearLength(y);
    MonthFrom(y, days - DaysBeforeYear(y), 1)
  }

  // ---- closed forms ----

  lemma FloorStep(y: int, n: int)
    requires n > 1
    ensures (y + n) / n == (y + n - 1) / n + if y % n == 0 then 1 else 0
  {
    var q, r := y / n, y % n;
    if r == 0 {
      FloorIs(y + n, n, q + 1, 0);
      FloorIs(y + n - 1, n, q, n - 1);
    } else {
      FloorIs(y + n, n, q + 1, r);
      FloorIs(y + n - 1, n, q + 1, r - 1);
    }
  }

  lemma FloorIs(a: int, n: int, q: int, r: int)
    requires 0 <= r < n && a == n * q + r
    ensures a / n == q
  {
    var p, s := a / n, a % n;
    if p > q { AtLeastOnce(n, p - q); }
    if p < q { AtLeastOnce(n, q - p); }
    assert a == n * p + s && n * (p - q) == n * p - n * q && n * (q - p) == n * q - n * p;
  }

  lemma AtLeastOnce(n: int, k: int)
    requires n > 0 && k > 0
    ensures n * k >= n
  {
  }

  /** The days of the years before: 365 each, and one more for every leap year among them. */
  function YearDays(y: int): int {
    365 * y + (y + 3) / 4 - (y + 99) / 100 + (y + 399) / 400
  }

  lemma NextYear(y: int)
    ensures YearDays(y + 1) == YearDays(y) + YearLength(y)
  {
    FloorStep(y, 4);
    FloorStep(y, 100);
    FloorStep(y, 400);
    if y % 400 == 0 { Divides(y, 100, 4); }
    if y % 100 == 0 { Divides(y, 4, 25); }
  }

  lemma Divides(y: int, n: int, k: int)
    requires n > 0 && k > 0 && n * k > 0 && y % (n * k) == 0
    ensures y % n == 0
  {
    var q := y / (n * k);
    assert y == n * (k * q);
    FloorIs(y, n, k * q, 0);
  }

  lemma {:induction false} YearsAreExact(y: int)
    ensures DaysBeforeYear(y) == YearDays(y)
    decreases if y < 0 then -y else y
  {
    if y > 0 {
      YearsAreExact(y - 1);
      NextYear(y - 1);
    } else if y < 0 {
      YearsAreExact(y + 1);
      NextYear(y);
    }
  }

  /** January and February, and from March on five months of 153 days at a time. */
  lemma MonthsAreExact(y: int, m: nat)
    requires 1 <= m <= 12
    ensures DaysBeforeMonth(y, m) == if m <= 2 then 31 * (m - 1) else YearLength(y) - 306 + (153 * (m - 3) + 2) / 5
  {
    assert DaysBeforeMonth(y, 2) == 31;
    assert DaysBeforeMonth(y, 3) == YearLength(y) - 306;
    assert DaysBeforeMonth(y, 4) == YearLength(y) - 275;
    assert DaysBeforeMonth(y, 5) == YearLength(y) - 245;
    assert DaysBeforeMonth(y, 6) == YearLength(y) - 214;
    assert DaysBeforeMonth(y, 7) == YearLength(y) - 184;
    assert DaysBeforeMonth(y, 8) == YearLength(y) - 153;
    assert DaysBeforeMonth(y, 9) == YearLength(y) - 122;
    assert DaysBeforeMonth(y, 10) == YearLength(y) - 92;
    assert DaysBeforeMonth(y, 11) == YearLength(y) - 61;
    assert DaysBeforeMonth(y, 12) == YearLength(y) - 31;
  }

  /** The Unix epoch, and the length of the Gregorian cycle. */
  lemma Anchors(y: int)
    ensures DaysOf(Date(1970, 1, 1)) == 719_528
    ensures DaysBeforeYear(y + 400) == DaysBeforeYear(y) + 146_097
  {
    YearsAreExact(1970);
    YearsAreExact(y);
    YearsAreExact(y + 400);
    assert (y + 403) / 4 == (y + 3) / 4 + 100;
    assert (y + 499) / 100 == (y + 99) / 100 + 4;
    assert (y + 799) / 400 == (y + 399) / 400 + 1;
  }

  predicate Earlier(d: Date, e: Date) {
    d.year < e.year || (d.year == e.year && (d.month < e.month || (d.month == e.month && d.day < e.day)))
  }

  lemma {:induction false} YearsGrow(y: int, z: int)
    requires y < z
    ensures DaysBeforeYear(y) + YearLength(y) <= DaysBeforeYear(z)
    decreases z - y
  {
    assert DaysBeforeYear(y + 1) == DaysBeforeYear(y) + YearLength(y);
    if y + 1 < z { YearsGrow(y + 1, z); }
  }

  lemma {:induction false} MonthsGrow(y: int, m: nat, n: nat)
    requires 1 <= m < n
    ensures DaysBeforeMonth(y, m) + MonthLength(y, m) <= DaysBeforeMonth(y, n)
  {
    if m + 1 < n { MonthsGrow(y, m, n - 1); }
  }

  lemma DateInYear(d: Date)
    requires IsDate(d)
    ensures DaysBeforeYear(d.year) <= DaysOf(d) < DaysBeforeYear(d.year) + YearLength(d.year)
  {
    YearIsItsMonths(d.year);
    if d.month < 12 { MonthsGrow(d.year, d.month, 12); }
  }

  /** Later dates have larger numbers, so a day has one date. */
  lemma DaysGrow(d: Date, e: Date)
    requires IsDate(d) && IsDate(e) && Earlier(d, e)
    ensures DaysOf(d) < DaysOf(e)
  {
    if d.year < e.year {
      YearsGrow(d.year, e.year);
      DateInYear(d);
      DateInYear(e);
    } else if d.month < e.month {
      MonthsGrow(d.year, d.month, e.month);
    }
  }

  lemma DateOfDay(d: Date)
    requires IsDate(d)
    ensures DateOf(DaysOf(d)) == d
  {
    var e := DateOf(DaysOf(d));
    if Earlier(d, e) { DaysGrow(d, e); }
    if Earlier(e, d) { DaysGrow(e, d); }
  }
}
