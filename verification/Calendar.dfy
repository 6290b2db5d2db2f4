/**
 The proleptic Gregorian calendar as ECMAScript's Date computes it: day numbers counted
 from 1970-01-01, `Date.UTC` with its overflowing day and two-digit-year rule, and the
 decomposition of an instant into calendar fields.
 */
module Calendar {

  const MS_PER_SECOND: int := 1000
  const MS_PER_MINUTE: int := 60 * MS_PER_SECOND
  const MS_PER_HOUR: int := 60 * MS_PER_MINUTE
  const MS_PER_DAY: int := 24 * MS_PER_HOUR

  datatype Civil = Civil(year: int, month: int, day: int)

  /** Calendar fields of an instant; `weekday` counts from Sunday = 0. */
  datatype Parts = Parts(year: int, month: int, day: int,
                         hour: int, minute: int, second: int)

  predicate IsLeap(y: int) {
    y % 4 == 0 && (y % 100 != 0 || y % 400 == 0)
  }

  function DaysInMonth(y: int, m: int): int {
    if m == 2 then (if IsLeap(y) then 29 else 28)
    else if m == 4 || m == 6 || m == 9 || m == 11 then 30
    else 31
  }

  /** Days of year `y` that lie before month `m`; month 13 gives the whole year. */
  function DaysBeforeMonth(y: int, m: int): int
    requires 1 <= m <= 13
  {
    if m == 1 then 0 else DaysBeforeMonth(y, m - 1) + DaysInMonth(y, m - 1)
  }

  function DayFromYear(y: int): int {
    365 * (y - 1970) + (y - 1969) / 4 - (y - 1901) / 100 + (y - 1601) / 400
  }

  /** Day number of a date; a `day` outside the month runs over into its neighbours. */
  function DaysFromCivil(y: int, m: int, d: int): int
    requires 1 <= m <= 12
  {
    DayFromYear(y) + DaysBeforeMonth(y, m) + d - 1
  }

  predicate ValidCivil(c: Civil) {
    1 <= c.month <= 12 && 1 <= c.day <= DaysInMonth(c.year, c.month)
  }

  lemma QuarterStep(y: int)
    ensures (y - 1968) / 4 - (y - 1969) / 4 == if y % 4 == 0 then 1 else 0
  {
  }

  lemma CenturyStep(y: int)
    ensures (y - 1900) / 100 - (y - 1901) / 100 == if y % 100 == 0 then 1 else 0
  {
  }

  lemma FourCenturyStep(y: int)
    ensures (y - 1600) / 400 - (y - 1601) / 400 == if y % 400 == 0 then 1 else 0
  {
  }

  lemma LeapDivisors(y: int)
    ensures y % 400 == 0 ==> y % 100 == 0
    ensures y % 100 == 0 ==> y % 4 == 0
  {
  }

  lemma YearLength(y: int)
    ensures DayFromYear(y + 1) - DayFromYear(y) == if IsLeap(y) then 366 else 365
    ensures DaysBeforeMonth(y, 13) == if IsLeap(y) then 366 else 365
  {
    QuarterStep(y);
    CenturyStep(y);
    FourCenturyStep(y);
    LeapDivisors(y);
    MonthTable(y);
  }

  lemma MonthTable(y: int)
    ensures var l := if IsLeap(y) then 1 else 0;
            && DaysBeforeMonth(y, 2) == 31 && DaysBeforeMonth(y, 3) == 59 + l
            && DaysBeforeMonth(y, 4) == 90 + l && DaysBeforeMonth(y, 5) == 120 + l
            && DaysBeforeMonth(y, 6) == 151 + l && DaysBeforeMonth(y, 7) == 181 + l
            && DaysBeforeMonth(y, 8) == 212 + l && DaysBeforeMonth(y, 9) == 243 + l
            && DaysBeforeMonth(y, 10) == 273 + l && DaysBeforeMonth(y, 11) == 304 + l
            && DaysBeforeMonth(y, 12) == 334 + l && DaysBeforeMonth(y, 13) == 365 + l
  {
    assert DaysBeforeMonth(y, 2) == 31;
    assert DaysBeforeMonth(y, 3) == DaysBeforeMonth(y, 2) + DaysInMonth(y, 2);
    assert DaysBeforeMonth(y, 4) == DaysBeforeMonth(y, 3) + 31;
    assert DaysBeforeMonth(y, 5) == DaysBeforeMonth(y, 4) + 30;
    assert DaysBeforeMonth(y, 6) == DaysBeforeMonth(y, 5) + 31;
    assert DaysBeforeMonth(y, 7) == DaysBeforeMonth(y, 6) + 30;
    assert DaysBeforeMonth(y, 8) == DaysBeforeMonth(y, 7) + 31;
    assert DaysBeforeMonth(y, 9) == DaysBeforeMonth(y, 8) + 31;
    assert DaysBeforeMonth(y, 10) == DaysBeforeMonth(y, 9) + 30;
    assert DaysBeforeMonth(y, 11) == DaysBeforeMonth(y, 10) + 31;
    assert DaysBeforeMonth(y, 12) == DaysBeforeMonth(y, 11) + 30;
    assert DaysBeforeMonth(y, 13) == DaysBeforeMonth(y, 12) + 31;
  }

  lemma {:induction false} YearsAscend(y1: int, y2: int)
    requires y1 <= y2
    ensures DayFromYear(y1) + 365 * (y2 - y1) <= DayFromYear(y2)
    decreases y2 - y1
  {
    if y1 < y2 {
      YearsAscend(y1, y2 - 1);
      YearLength(y2 - 1);
    }
  }

  lemma {:induction false} MonthsAscend(y: int, m1: int, m2: int)
    requires 1 <= m1 <= m2 <= 13
    ensures DaysBeforeMonth(y, m1) + 28 * (m2 - m1) <= DaysBeforeMonth(y, m2)
    decreases m2 - m1
  {
    if m1 < m2 {
      MonthsAscend(y, m1, m2 - 1);
    }
  }

  /** The year a day number falls in, searched upwards from `guess`. */
  function YearFrom(guess: int, day: int): (y: int)
    requires DayFromYear(guess) <= day
    ensures DayFromYear(y) <= day < DayFromYear(y + 1)
    decreases day - DayFromYear(guess)
  {
    YearLength(guess);
    if day < DayFromYear(guess + 1) then guess else YearFrom(guess + 1, day)
  }

  function YearOf(day: int): (y: int)
    ensures DayFromYear(y) <= day < DayFromYear(y + 1)
  {
    YearFrom(1969 + (if day >= 0 then day / 366 else day / 365), day)
  }

  /** The month that day-of-year `n` falls in, searched upwards from `m`. */
  function MonthFrom(y: int, n: int, m: int): (r: int)
    requires 1 <= m <= 12
    requires DaysBeforeMonth(y, m) <= n < DaysBeforeMonth(y, 13)
    ensures 1 <= r <= 12
    ensures DaysBeforeMonth(y, r) <= n < DaysBeforeMonth(y, r + 1)
    decreases 12 - m
  {
    if n < DaysBeforeMonth(y, m + 1) then m else MonthFrom(y, n, m + 1)
  }

  function CivilFromDays(day: int): (c: Civil)
    ensures ValidCivil(c)
    ensures DaysFromCivil(c.year, c.month, c.day) == day
  {
    var y := YearOf(day);
    YearLength(y);
    var n := day - DayFromYear(y);
    var m := MonthFrom(y, n, 1);
    Civil(y, m, n - DaysBeforeMonth(y, m) + 1)
  }

  /** Two valid dates with the same day number are the same date. */
  lemma CivilUnique(a: Civil, b: Civil)
    requires ValidCivil(a) && ValidCivil(b)
    requires DaysFromCivil(a.year, a.month, a.day) == DaysFromCivil(b.year, b.month, b.day)
    ensures a == b
  {
    CivilOrder(a, b);
    CivilOrder(b, a);
  }

  predicate CivilBefore(a: Civil, b: Civil) {
    a.year < b.year || (a.year == b.year && (a.month < b.month || (a.month == b.month && a.day < b.day)))
  }

  /** Day numbers order valid dates exactly as year, month and day do. */
  lemma CivilOrder(a: Civil, b: Civil)
    requires ValidCivil(a) && ValidCivil(b)
    ensures CivilBefore(a, b) <==>
            DaysFromCivil(a.year, a.month, a.day) < DaysFromCivil(b.year, b.month, b.day)
  {
    if CivilBefore(a, b) {
      CivilOrderHalf(a, b);
    } else if CivilBefore(b, a) {
      CivilOrderHalf(b, a);
    }
  }

  lemma CivilOrderHalf(a: Civil, b: Civil)
    requires ValidCivil(a) && ValidCivil(b) && CivilBefore(a, b)
    ensures DaysFromCivil(a.year, a.month, a.day) < DaysFromCivil(b.year, b.month, b.day)
  {
    hide DayFromYear, IsLeap;
    MonthsAscend(a.year, a.month + 1, 13);
    MonthsAscend(b.year, 1, b.month);
    YearLength(a.year);
    if a.year < b.year {
      YearsAscend(a.year + 1, b.year);
    } else if a.month < b.month {
      MonthsAscend(a.year, a.month + 1, b.month);
    }
  }

  /** The calendar fields read back from a date's day number are the date itself. */
  lemma CivilRoundTrip(c: Civil)
    requires ValidCivil(c)
    ensures CivilFromDays(DaysFromCivil(c.year, c.month, c.day)) == c
  {
    CivilUnique(CivilFromDays(DaysFromCivil(c.year, c.month, c.day)), c);
  }

  /** `Date.UTC` reads the years 0 to 99 as 1900 to 1999. */
  function FullYear(y: int): int {
    if 0 <= y <= 99 then 1900 + y else y
  }

  /** `Date.UTC(y, m - 1, d, h, mi, s)` with a month in range and any day. */
  function DateUtc(y: int, m: int, d: int, h: int, mi: int, s: int): int
    requires 1 <= m <= 12
  {
    DaysFromCivil(FullYear(y), m, d) * MS_PER_DAY + h * MS_PER_HOUR + mi * MS_PER_MINUTE + s * MS_PER_SECOND
  }

  function DayNumber(t: int): int {
    t / MS_PER_DAY
  }

  function TimeInDay(t: int): int {
    t % MS_PER_DAY
  }

  /** The UTC calendar fields of instant `t`, sub-second part dropped. */
  function UtcParts(t: int): (p: Parts)
    ensures 1 <= p.month <= 12
  {
    var c := CivilFromDays(DayNumber(t));
    var r := TimeInDay(t);
    Parts(c.year, c.month, c.day, r / MS_PER_HOUR, r / MS_PER_MINUTE % 60, r / MS_PER_SECOND % 60)
  }

  /** Weekday of a day number, Sunday = 0; 1970-01-01 was a Thursday. */
  function WeekdayOf(day: int): (w: int)
    ensures 0 <= w < 7
  {
    (day + 4) % 7
  }

  /** Weekdays go round in sevens, and the first of January 2024 was a Monday. */
  lemma WeekdaysGoRound(day: int)
    ensures WeekdayOf(day + 1) == (if WeekdayOf(day) == 6 then 0 else WeekdayOf(day) + 1)
    ensures WeekdayOf(DaysFromCivil(2024, 1, 1)) == 1
  {
  }

  /** Years of one or two digits are taken as of the last century but one; all others as they are. */
  lemma ShortYears(y: int, m: int, d: int)
    requires 1 <= m <= 12
    ensures 0 <= y < 100 ==> DateUtc(y, m, d, 0, 0, 0) == DateUtc(y + 1900, m, d, 0, 0, 0)
    ensures !(0 <= y < 100) ==> DateUtc(y, m, d, 0, 0, 0) == DaysFromCivil(y, m, d) * 86400000
  {
    hide DaysFromCivil;
  }

  function FromParts(p: Parts): int
    requires 1 <= p.month <= 12
  {
    DateUtc(p.year, p.month, p.day, p.hour, p.minute, p.second)
  }

  /** First instant whose year survives the two-digit-year rule of `Date.UTC`. */
  const YEAR_100: int := DaysFromCivil(100, 1, 1) * MS_PER_DAY

  lemma YearAtLeast100(day: int)
    requires day * MS_PER_DAY >= YEAR_100
    ensures CivilFromDays(day).year >= 100
  {
    var c := CivilFromDays(day);
    if c.year < 100 {
      CivilOrder(c, Civil(100, 1, 1));
      assert false;
    }
  }

  lemma ClockFields(r: int)
    requires 0 <= r < MS_PER_DAY
    ensures r / MS_PER_HOUR * MS_PER_HOUR + r / MS_PER_MINUTE % 60 * MS_PER_MINUTE
            + r / MS_PER_SECOND % 60 * MS_PER_SECOND == r - r % MS_PER_SECOND
    ensures 0 <= r / MS_PER_HOUR < 24 && 0 <= r / MS_PER_MINUTE % 60 < 60 && 0 <= r / MS_PER_SECOND % 60 < 60
  {
    var s := r / 1000;
    var m := s / 60;
    assert r / MS_PER_MINUTE == m;
    assert r / MS_PER_HOUR == m / 60;
    assert s == m * 60 + s % 60;
    assert m == m / 60 * 60 + m % 60;
  }

  /** The day of an instant at or after year 100 also starts there. */
  lemma DayStartAtLeast100(t: int)
    requires t >= YEAR_100
    ensures DayNumber(t) * MS_PER_DAY >= YEAR_100
  {
    assert DayNumber(t) >= DaysFromCivil(100, 1, 1);
  }

  /** Reading an instant's fields and rebuilding it loses exactly its sub-second part. */
  lemma FromUtcParts(t: int)
    requires t >= YEAR_100
    ensures FromParts(UtcParts(t)) == t - t % MS_PER_SECOND
    ensures UtcParts(t).year >= 100
  {
    var day, r := DayNumber(t), TimeInDay(t);
    DayStartAtLeast100(t);
    YearAtLeast100(day);
    ClockFields(r);
    SecondOfDay(t);
  }

  lemma SecondOfDay(t: int)
    ensures t == DayNumber(t) * MS_PER_DAY + TimeInDay(t)
    ensures t % MS_PER_SECOND == TimeInDay(t) % MS_PER_SECOND
  {
    var seconds := DayNumber(t) * 86400 + TimeInDay(t) / MS_PER_SECOND;
    RemainderIs(t, seconds, TimeInDay(t) % MS_PER_SECOND);
  }

  lemma RemainderIs(t: int, q: int, r: int)
    requires t == q * MS_PER_SECOND + r && 0 <= r < MS_PER_SECOND
    ensures t % MS_PER_SECOND == r
  {
  }

  lemma WholeSecondShift(a: int, o: int)
    requires o % MS_PER_SECOND == 0
    ensures (a + o) % MS_PER_SECOND == a % MS_PER_SECOND
    ensures (a - o) % MS_PER_SECOND == a % MS_PER_SECOND
  {
  }

  lemma ClockIsWholeSeconds(days: int, h: int, mi: int, s: int)
    ensures (days * MS_PER_DAY + h * MS_PER_HOUR + mi * MS_PER_MINUTE + s * MS_PER_SECOND) % MS_PER_SECOND == 0
  {
    assert days * MS_PER_DAY + h * MS_PER_HOUR + mi * MS_PER_MINUTE + s * MS_PER_SECOND
        == (days * 86400 + h * 3600 + mi * 60 + s) * MS_PER_SECOND;
  }

  /** `Date.UTC` of whole fields is a whole second. */
  lemma FromPartsWholeSecond(p: Parts)
    requires 1 <= p.month <= 12
    ensures FromParts(p) % MS_PER_SECOND == 0
  {
    ClockIsWholeSeconds(DaysFromCivil(FullYear(p.year), p.month, p.day), p.hour, p.minute, p.second);
  }
}
