/**
 * Timestamps are integers counting milliseconds since 1970-01-01T00:00:00 in one fixed
 * time zone (UTC). A calendar month is a `YearMonth` whose `month` runs from 0 (January)
 * to 11 (December), as JavaScript's `Date.getMonth` numbers them.
 */
module Calendar {

  const DayMs: int := 24 * 60 * 60 * 1000

  datatype YearMonth = YearMonth(year: int, month: int)

  /** Months counted from January of year 0; consecutive calendar months differ by one. */
  function MonthIndex(ym: YearMonth): int
  {
    ym.year * 12 + ym.month
  }

  predicate ValidMonth(ym: YearMonth)
  {
    0 <= ym.month < 12
  }

  /** The month of the proleptic Gregorian date that is `days` days after 1970-01-01. */
  function CivilFromDays(days: int): (ym: YearMonth)
    ensures ValidMonth(ym)
  {
    var z := days + 719468;
    var era := z / 146097;
    var doe := z - era * 146097;
    var yoe := (doe - doe / 1460 + doe / 36524 - doe / 146096) / 365;
    var doy := doe - (365 * yoe + yoe / 4 - yoe / 100);
    var mp := (5 * doy + 2) / 153;
    YearMonth(yoe + era * 400 + (if mp >= 10 then 1 else 0), (mp + 2) % 12)
  }

  /** Days from 1970-01-01 to the given day (`month` 0-based, `day` 1-based). */
  function DaysFromCivil(year: int, month: int, day: int): int
  {
    var y := if month <= 1 then year - 1 else year;
    var era := y / 400;
    var yoe := y - era * 400;
    var mp := if month > 1 then month - 2 else month + 10;
    var doy := (153 * mp + 2) / 5 + day - 1;
    var doe := yoe * 365 + yoe / 4 - yoe / 100 + doy;
    era * 146097 + doe - 719468
  }

  /** `new Date(t).getFullYear()` and `.getMonth()`. */
  function MonthOf(t: int): (ym: YearMonth)
    ensures ValidMonth(ym)
  {
    CivilFromDays(t / DayMs)
  }

  /** The timestamp of midnight on the first day of the month. */
  function StartOfMonth(ym: YearMonth): int
  {
    DaysFromCivil(ym.year, ym.month, 1) * DayMs
  }

  /** The Gregorian leap-year rule, as `Date` applies it to every year. */
  predicate LeapYear(y: int)
  {
    y % 4 == 0 && (y % 100 != 0 || y % 400 == 0)
  }

  /** The length of a calendar month. */
  function DaysInMonth(ym: YearMonth): (n: int)
    requires ValidMonth(ym)
    ensures 28 <= n <= 31
  {
    if ym.month == 1 then (if LeapYear(ym.year) then 29 else 28)
    else if ym.month == 3 || ym.month == 5 || ym.month == 8 || ym.month == 10 then 30
    else 31
  }

  /**
   * Reading the calendar back from any day of a month gives that month: on every valid
   * date, `CivilFromDays` inverts `DaysFromCivil`.
   */
  lemma {:induction false} CivilRoundTrip(year: int, month: int, day: int)
    requires 0 <= month < 12 && 1 <= day <= DaysInMonth(YearMonth(year, month))
    ensures CivilFromDays(DaysFromCivil(year, month, day)) == YearMonth(year, month)
  {
    var y := if month <= 1 then year - 1 else year;
    var era := y / 400;
    var yoe := y - era * 400;
    var mp := if month > 1 then month - 2 else month + 10;
    assert yoe + era * 400 + (if mp >= 10 then 1 else 0) == year;
    assert (mp + 2) % 12 == month;
    if month == 1 {
      LeapPeriodic(era, yoe + 1);
    }
    CivilOfEraDay(era, yoe, mp, day, DaysFromCivil(year, month, day));
  }

  /** Whether a year is a leap year depends only on its place in the 400-year cycle. */
  lemma LeapPeriodic(era: int, k: int)
    ensures LeapYear(era * 400 + k) == LeapYear(k)
  {
    assert era * 400 == (era * 100) * 4 == (era * 4) * 100;
    ModShift(era * 100, k, 4);
    ModShift(era * 4, k, 100);
    ModShift(era, k, 400);
  }

  /** Adding a multiple of `n` leaves the remainder modulo `n` unchanged. */
  lemma ModShift(t: int, x: int, n: int)
    requires n > 0
    ensures (t * n + x) % n == x % n
  {
    var q, r := x / n, x % n;
    assert t * n + x == (t + q) * n + r;
    DivIs(t * n + x, n, t + q);
  }

  /** The length of March-based month `mp` (0 is March, 11 is February), with February at its longest. */
  function MarchMonthDays(mp: int): int
  {
    if mp == 11 then 29 else if mp == 1 || mp == 3 || mp == 6 || mp == 8 then 30 else 31
  }

  /**
   * `CivilFromDays` on day `day` of March-based month `mp` of year `yoe` of era `era`
   * gives that month back, with January and February in the following calendar year.
   */
  lemma {:induction false} CivilOfEraDay(era: int, yoe: int, mp: int, day: int, days: int)
    requires 0 <= yoe < 400 && 0 <= mp < 12 && 1 <= day <= MarchMonthDays(mp)
    requires mp == 11 && day == 29 ==> LeapYear(yoe + 1)
    requires days == era * 146097 + yoe * 365 + yoe / 4 - yoe / 100 + (153 * mp + 2) / 5 + day - 1 - 719468
    ensures CivilFromDays(days) == YearMonth(yoe + era * 400 + (if mp >= 10 then 1 else 0), (mp + 2) % 12)
  {
    var doy := (153 * mp + 2) / 5 + day - 1;
    MonthShift(mp, day);
    YearOfEra(yoe, doy);
    var doe := yoe * 365 + yoe / 4 - yoe / 100 + doy;
    EraSplit(days, era, doe);
    var rYoe := (doe - doe / 1460 + doe / 36524 - doe / 146096) / 365;
    assert rYoe == yoe;
    var rDoy := doe - (365 * rYoe + rYoe / 4 - rYoe / 100);
    assert rDoy == doy;
  }

  /** Splitting a day number into its 400-year era and the day within that era. */
  lemma EraSplit(days: int, era: int, doe: int)
    requires 0 <= doe < 146097 && days + 719468 == era * 146097 + doe
    ensures var yoe := (doe - doe / 1460 + doe / 36524 - doe / 146096) / 365;
      var doy := doe - (365 * yoe + yoe / 4 - yoe / 100);
      var mp := (5 * doy + 2) / 153;
      CivilFromDays(days) == YearMonth(yoe + era * 400 + (if mp >= 10 then 1 else 0), (mp + 2) % 12)
  {
    var z := days + 719468;
    DivIs(z, 146097, era);
  }

  /** The first millisecond of a month falls in that month. */
  lemma MonthOfStart(ym: YearMonth)
    requires ValidMonth(ym)
    ensures MonthOf(StartOfMonth(ym)) == ym
  {
    MonthLength(ym);
    MulMono(DaysFromCivil(ym.year, ym.month, 1) + 1, DaysFromCivil(NextMonth(ym).year, NextMonth(ym).month, 1), DayMs);
    MonthOfRange(ym, StartOfMonth(ym));
  }

  /** The month after `ym`. */
  function NextMonth(ym: YearMonth): (r: YearMonth)
    requires ValidMonth(ym)
    ensures ValidMonth(r) && MonthIndex(r) == MonthIndex(ym) + 1
  {
    if ym.month == 11 then YearMonth(ym.year + 1, 0) else YearMonth(ym.year, ym.month + 1)
  }

  /** Months tile the day line: the next month begins `DaysInMonth(ym)` days after `ym` does. */
  lemma {:induction false} MonthLength(ym: YearMonth)
    requires ValidMonth(ym)
    ensures DaysFromCivil(NextMonth(ym).year, NextMonth(ym).month, 1)
         == DaysFromCivil(ym.year, ym.month, 1) + DaysInMonth(ym)
  {
    if ym.month == 1 {
      FebruaryLength(ym.year);
    }
  }

  /** March 1 follows February 1 by 29 days in a leap year and by 28 otherwise. */
  lemma FebruaryLength(year: int)
    ensures DaysFromCivil(year, 2, 1) == DaysFromCivil(year, 1, 1) + (if LeapYear(year) then 29 else 28)
  {
    var y := year - 1;
    var era := y / 400;
    var yoe := y - era * 400;
    LeapPeriodic(era, yoe + 1);
    if yoe < 399 {
      FebruaryWithinEra(era, yoe, year);
    } else {
      assert year == (era + 1) * 400;
      DivIs(year, 400, era + 1);
      assert year % 4 == 0 && year % 400 == 0;
    }
  }

  /** February followed by March when both fall in one 400-year era. */
  lemma FebruaryWithinEra(era: int, yoe: int, year: int)
    requires 0 <= yoe < 399 && year == era * 400 + yoe + 1
    ensures DaysFromCivil(year, 2, 1) == DaysFromCivil(year, 1, 1) + (if LeapYear(yoe + 1) then 29 else 28)
  {
    DivIs(year - 1, 400, era);
    DivIs(year, 400, era);
    LeapCorrection(yoe);
  }

  /** Going from year `j` to year `j + 1` of an era adds one leap day exactly when `j + 1` is a leap year. */
  lemma LeapCorrection(j: int)
    requires 0 <= j < 399
    ensures (j + 1) / 4 - j / 4 - ((j + 1) / 100 - j / 100) == if LeapYear(j + 1) then 1 else 0
  {
    var k := j + 1;
    var c, q, r := k / 100, k % 100 / 4, k % 100 % 4;
    assert k == 100 * c + 4 * q + r;
    CycleDivisions(c, q, r);
    if r != 0 {
      CycleDivisions(c, q, r - 1);
    } else if q != 0 {
      CycleDivisions(c, q - 1, 3);
    } else {
      CycleDivisions(c - 1, 24, 3);
    }
    assert k % 4 == r && k % 100 == 4 * q + r && k % 400 == k;
  }

  /** Every day from the first of a month up to the first of the next lies in that month. */
  lemma MonthOfDay(ym: YearMonth, d: int)
    requires ValidMonth(ym)
    requires DaysFromCivil(ym.year, ym.month, 1) <= d < DaysFromCivil(NextMonth(ym).year, NextMonth(ym).month, 1)
    ensures CivilFromDays(d) == ym
  {
    MonthLength(ym);
    var day := d - DaysFromCivil(ym.year, ym.month, 1) + 1;
    assert d == DaysFromCivil(ym.year, ym.month, day);
    CivilRoundTrip(ym.year, ym.month, day);
  }

  /** `getMonth()` of every instant from the start of a month up to the start of the next is that month. */
  lemma MonthOfRange(ym: YearMonth, t: int)
    requires ValidMonth(ym) && StartOfMonth(ym) <= t < StartOfMonth(NextMonth(ym))
    ensures MonthOf(t) == ym
  {
    var d := t / DayMs;
    DivIs(t, DayMs, d);
    var a, b := DaysFromCivil(ym.year, ym.month, 1), DaysFromCivil(NextMonth(ym).year, NextMonth(ym).month, 1);
    if d < a {
      MulMono(d + 1, a, DayMs);
    } else if d >= b {
      MulMono(b, d, DayMs);
    }
    MonthOfDay(ym, d);
  }

  lemma MulMono(a: int, b: int, n: int)
    requires a <= b && n >= 0
    ensures a * n <= b * n
  {
    MulNonNeg(b - a, n);
  }

  /**
   * Day `day` of March-based month `mp` is day `doy` of the March-based year, and that
   * day maps back to the month; only the last day of a leap February reaches day 365.
   */
  lemma MonthShift(mp: int, day: int)
    requires 0 <= mp < 12 && 1 <= day <= MarchMonthDays(mp)
    ensures var doy := (153 * mp + 2) / 5 + day - 1;
      && 0 <= doy <= 365
      && (doy == 365 ==> mp == 11 && day == 29)
      && (5 * doy + 2) / 153 == mp
  {
  }

  /**
   * Within a 400-year era, the day `doe` on which day `doy` of year `yoe` falls gives
   * back `yoe` and `doy`. The March-based year `yoe` ends in February of calendar year
   * `yoe + 1`, so it has a day 365 only when that year is a leap year.
   */
  lemma {:induction false} YearOfEra(yoe: int, doy: int)
    requires 0 <= yoe < 400 && 0 <= doy <= 365
    requires doy == 365 ==> LeapYear(yoe + 1)
    ensures var doe := yoe * 365 + yoe / 4 - yoe / 100 + doy;
      && 0 <= doe < 146097
      && (doe - doe / 1460 + doe / 36524 - doe / 146096) / 365 == yoe
      && doe - (365 * yoe + yoe / 4 - yoe / 100) == doy
  {
    var doe := yoe * 365 + yoe / 4 - yoe / 100 + doy;
    if yoe == 399 && doy == 365 {
      assert doe == 146096;
      assert doe / 1460 == 100 && doe / 36524 == 4 && doe / 146096 == 1;
    } else {
      var c, q, r := yoe / 100, yoe % 100 / 4, yoe % 100 % 4;
      assert yoe == 100 * c + 4 * q + r;
      if doy == 365 {
        LeapEndsCentury(yoe, c, q, r);
      }
      YearOfCentury(c, q, r, doy);
    }
  }

  /** A March-based year ending in a leap February is the last of its four-year cycle. */
  lemma LeapEndsCentury(yoe: int, c: int, q: int, r: int)
    requires 0 <= c < 4 && 0 <= q < 25 && 0 <= r < 4 && yoe == 100 * c + 4 * q + r
    requires LeapYear(yoe + 1)
    ensures r == 3 && (q == 24 ==> c == 3)
  {
    assert r == 3 by { DivIs(yoe + 1, 4, 25 * c + q + 1); }
    if q == 24 {
      assert (yoe + 1) % 100 == 0 by { DivIs(yoe + 1, 100, c + 1); }
      assert c == 3 by { DivIs(yoe + 1, 400, 1); }
    }
  }

  /** `YearOfEra` for every day but the era's last leap day, with `yoe` split by century and cycle. */
  lemma {:induction false} YearOfCentury(c: int, q: int, r: int, doy: int)
    requires 0 <= c < 4 && 0 <= q < 25 && 0 <= r < 4 && 0 <= doy <= 365
    requires doy == 365 ==> r == 3 && (q == 24 ==> c == 3)
    requires !(c == 3 && q == 24 && r == 3 && doy == 365)
    ensures var yoe := 100 * c + 4 * q + r;
      var doe := yoe * 365 + yoe / 4 - yoe / 100 + doy;
      && 0 <= doe < 146097
      && (doe - doe / 1460 + doe / 36524 - doe / 146096) / 365 == yoe
      && doe - (365 * yoe + yoe / 4 - yoe / 100) == doy
  {
    var yoe := 100 * c + 4 * q + r;
    CycleDivisions(c, q, r);
    var e := EraDivisions(c, q, r, doy);
    var doe := 36524 * c + 1461 * q + 365 * r + doy;
    assert doe - doe / 1460 + doe / 36524 - doe / 146096 == 365 * yoe + doy - e;
    DivIs(365 * yoe + doy - e, 365, yoe);
  }

  /** The leap-day corrections of year `100 * c + 4 * q + r` of an era. */
  lemma CycleDivisions(c: int, q: int, r: int)
    requires 0 <= c < 4 && 0 <= q < 25 && 0 <= r < 4
    ensures (100 * c + 4 * q + r) / 4 == 25 * c + q && (100 * c + 4 * q + r) / 100 == c
  {
    DivIs(100 * c + 4 * q + r, 4, 25 * c + q);
    DivIs(100 * c + 4 * q + r, 100, c);
  }

  /** The three divisions of the day of the era that `CivilFromDays` uses to find the year. */
  lemma EraDivisions(c: int, q: int, r: int, doy: int) returns (e: int)
    requires 0 <= c < 4 && 0 <= q < 25 && 0 <= r < 4 && 0 <= doy <= 365
    requires doy == 365 ==> r == 3 && (q == 24 ==> c == 3)
    requires !(c == 3 && q == 24 && r == 3 && doy == 365)
    ensures var doe := 36524 * c + 1461 * q + 365 * r + doy;
      && 0 <= doe < 146096
      && doe / 146096 == 0 && doe / 36524 == c && doe / 1460 == 25 * c + q + e
      && (doy == 0 ==> e == 0) && (doy == 365 ==> e == 1)
  {
    var doe := 36524 * c + 1461 * q + 365 * r + doy;
    e := if 24 * c + 365 * r + q + doy >= 1460 then 1 else 0;
    DivIs(doe, 146096, 0);
    DivIs(doe, 36524, c);
    DivIs(doe, 1460, 25 * c + q + e);
  }

  /** Integer division recovers a quotient from bounds on the dividend. */
  lemma DivIs(k: int, n: int, q: int)
    requires n > 0 && q * n <= k < q * n + n
    ensures k / n == q
  {
    var d := k / n;
    assert k == d * n + k % n && 0 <= k % n < n;
    if d > q {
      MulNonNeg(d - q - 1, n);
      Distrib(d - q - 1, q, n);
    } else if d < q {
      MulNonNeg(q - d - 1, n);
      Distrib(q - d - 1, d, n);
    }
  }

  lemma MulNonNeg(a: int, b: int)
    requires a >= 0 && b >= 0
    ensures a * b >= 0
  {
  }

  lemma Distrib(a: int, b: int, n: int)
    ensures (a + b + 1) * n == a * n + b * n + n
  {
  }

  /** `new Date(year, month - i, 1)`: `i` months earlier, the year rolling over as needed. */
  function MonthsBefore(ym: YearMonth, i: int): (r: YearMonth)
    ensures ValidMonth(r)
  {
    var k := MonthIndex(ym) - i;
    YearMonth(k / 12, k % 12)
  }

  lemma MonthsBeforeIndex(ym: YearMonth, i: int)
    ensures MonthIndex(MonthsBefore(ym, i)) == MonthIndex(ym) - i
  {
  }

  /** On valid months, the month index determines the month. */
  lemma {:induction false} MonthIndexInjective(a: YearMonth, b: YearMonth)
    requires ValidMonth(a) && ValidMonth(b) && MonthIndex(a) == MonthIndex(b)
    ensures a == b
  {
    var k := MonthIndex(a);
    assert a.year == k / 12 && a.month == k % 12 by {
      DivModUnique(k, a.year, a.month);
    }
    assert b.year == k / 12 && b.month == k % 12 by {
      DivModUnique(k, b.year, b.month);
    }
  }

  lemma DivModUnique(k: int, q: int, r: int)
    requires k == q * 12 + r && 0 <= r < 12
    ensures k / 12 == q && k % 12 == r
  {
  }

  const MonthsShort: seq<string> :=
    ["Jan", "Feb", "Mar", "Apr", "May", "Jun", "Jul", "Aug", "Sep", "Oct", "Nov", "Dec"]

  function MonthName(month: int): string
    requires 0 <= month < 12
  {
    MonthsShort[month]
  }
}
