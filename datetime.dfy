/**
 * A second-resolution model of java.time.LocalDateTime in the proleptic
 * Gregorian calendar: the six wall-clock fields, the day count behind
 * toEpochSecond(ZoneOffset.UTC), its inverse ofEpochSecond, plusSeconds
 * and the isBefore / isAfter order.
 */
module Time {

  /** The raw fields of a date-time; only the valid ones form a LocalDateTime. */
  datatype DateTimeFields = DateTimeFields(year: int, month: int, day: int, hour: int, minute: int, second: int)

  predicate IsLeapYear(y: int) {
    y % 4 == 0 && (y % 100 != 0 || y % 400 == 0)
  }

  function YearLength(y: int): int {
    if IsLeapYear(y) then 366 else 365
  }

  function DaysInMonth(y: int, m: int): int
    requires 1 <= m <= 12
  {
    if m == 2 then (if IsLeapYear(y) then 29 else 28)
    else if m == 4 || m == 6 || m == 9 || m == 11 then 30
    else 31
  }

  predicate ValidFields(t: DateTimeFields) {
    && 1 <= t.month <= 12
    && 1 <= t.day <= DaysInMonth(t.year, t.month)
    && 0 <= t.hour < 24
    && 0 <= t.minute < 60
    && 0 <= t.second < 60
  }

  /** A LocalDateTime without its nano-of-second: a valid calendar date and time of day. */
  type LocalDateTime = t: DateTimeFields | ValidFields(t) witness DateTimeFields(1970, 1, 1, 0, 0, 0)

  /** The raw fields of a calendar date; only the valid ones form a LocalDate. */
  datatype DateFields = DateFields(year: int, month: int, day: int)

  /** A java.time.LocalDate. */
  type LocalDate = d: DateFields | 1 <= d.month <= 12 && 1 <= d.day <= DaysInMonth(d.year, d.month)
    witness DateFields(1970, 1, 1)

  const SecondsPerDay := 86400
  const DaysPerEra := 146097          // days in 400 Gregorian years
  const EpochDayNumber := 719528      // day number of 1970-01-01, counted from 0000-01-01

  /** Days from 0000-01-01 to y-01-01 (negative for years before 0). */
  function DaysBeforeYear(y: int): int {
    365 * y + (y + 3) / 4 - (y + 99) / 100 + (y + 399) / 400
  }

  /** Days from the first of January to the first of month m of year y. */
  function DaysBeforeMonth(y: int, m: int): int
    requires 1 <= m <= 12
  {
    var leap := if IsLeapYear(y) && m > 2 then 1 else 0;
    leap +
    if m == 1 then 0 else if m == 2 then 31 else if m == 3 then 59 else if m == 4 then 90
    else if m == 5 then 120 else if m == 6 then 151 else if m == 7 then 181
    else if m == 8 then 212 else if m == 9 then 243 else if m == 10 then 273
    else if m == 11 then 304 else 334
  }

  /** Days from 0000-01-01 to the given date. */
  function DayNumber(y: int, m: int, d: int): int
    requires 1 <= m <= 12
  {
    DaysBeforeYear(y) + DaysBeforeMonth(y, m) + d - 1
  }

  /** LocalDateTime.toEpochSecond(ZoneOffset.UTC): seconds since 1970-01-01T00:00:00. */
  function ToEpochSecond(t: LocalDateTime): int {
    (DayNumber(t.year, t.month, t.day) - EpochDayNumber) * SecondsPerDay
      + t.hour * 3600 + t.minute * 60 + t.second
  }

  lemma DaysBeforeNextYear(y: int)
    ensures DaysBeforeYear(y + 1) == DaysBeforeYear(y) + YearLength(y)
  {
    NextQuotients(y);
    assert DaysBeforeYear(y + 1) - DaysBeforeYear(y) ==
      365 + (if y % 4 == 0 then 1 else 0) - (if y % 100 == 0 then 1 else 0) + (if y % 400 == 0 then 1 else 0);
  }

  /** Going from year y to y + 1 crosses a multiple of 4, 100 or 400 exactly when y is one. */
  lemma NextQuotients(y: int)
    ensures (y + 4) / 4 == (y + 3) / 4 + (if y % 4 == 0 then 1 else 0)
    ensures (y + 100) / 100 == (y + 99) / 100 + (if y % 100 == 0 then 1 else 0)
    ensures (y + 400) / 400 == (y + 399) / 400 + (if y % 400 == 0 then 1 else 0)
    ensures y % 100 == 0 ==> y % 4 == 0
    ensures y % 400 == 0 ==> y % 100 == 0
  {
    NextQuotient4(y);
    NextQuotient100(y);
    NextQuotient400(y);
    var q := y / 400;
    assert y == 400 * q + y % 400;
    assert y == 100 * (4 * q + (y % 400) / 100) + (y % 400) % 100;
  }

  lemma NextQuotient4(y: int)
    ensures (y + 4) / 4 == (y + 3) / 4 + (if y % 4 == 0 then 1 else 0)
  {
  }

  lemma NextQuotient100(y: int)
    ensures (y + 100) / 100 == (y + 99) / 100 + (if y % 100 == 0 then 1 else 0)
  {
  }

  lemma NextQuotient400(y: int)
    ensures (y + 400) / 400 == (y + 399) / 400 + (if y % 400 == 0 then 1 else 0)
  {
  }

  lemma DivShift4(a: int, k: int)
    ensures (a + 4 * k) / 4 == a / 4 + k && (a + 4 * k) % 4 == a % 4
  {
  }

  lemma DivShift100(a: int, k: int)
    ensures (a + 100 * k) / 100 == a / 100 + k && (a + 100 * k) % 100 == a % 100
  {
  }

  lemma DivShift400(a: int, k: int)
    ensures (a + 400 * k) / 400 == a / 400 + k && (a + 400 * k) % 400 == a % 400
  {
  }

  /** The calendar repeats every 400 years, which hold DaysPerEra days. */
  lemma DaysBeforeEra(q: int, r: int)
    ensures DaysBeforeYear(400 * q + r) == DaysPerEra * q + DaysBeforeYear(r)
    ensures IsLeapYear(400 * q + r) == IsLeapYear(r)
  {
    DivShift4(r + 3, 100 * q);
    DivShift100(r + 99, 4 * q);
    DivShift400(r + 399, q);
    DivShift4(r, 100 * q);
    DivShift100(r, 4 * q);
    DivShift400(r, q);
  }

  /** Years are laid end to end: a later year starts after an earlier one ends. */
  lemma {:induction false} DaysBeforeYearMonotone(a: int, b: int)
    requires a < b
    ensures DaysBeforeYear(a) + YearLength(a) <= DaysBeforeYear(b)
    decreases b - a
  {
    DaysBeforeNextYear(a);
    if a + 1 < b {
      DaysBeforeYearMonotone(a + 1, b);
    }
  }

  lemma YearPositionUnique(a: int, x: int, b: int, z: int)
    requires 0 <= x < YearLength(a) && 0 <= z < YearLength(b)
    requires DaysBeforeYear(a) + x == DaysBeforeYear(b) + z
    ensures a == b && x == z
  {
    if a < b {
      DaysBeforeYearMonotone(a, b);
    } else if b < a {
      DaysBeforeYearMonotone(b, a);
    }
  }

  lemma DaysBeforeNextMonth(y: int, m: int)
    requires 1 <= m < 12
    ensures DaysBeforeMonth(y, m + 1) == DaysBeforeMonth(y, m) + DaysInMonth(y, m)
  {
  }

  lemma MonthsFillYear(y: int)
    ensures DaysBeforeMonth(y, 12) + DaysInMonth(y, 12) == YearLength(y)
  {
  }

  lemma MonthMonotone(y: int, a: int, b: int)
    requires 1 <= a < b <= 12
    ensures DaysBeforeMonth(y, a) + DaysInMonth(y, a) <= DaysBeforeMonth(y, b)
  {
  }

  lemma MonthPositionUnique(y: int, a: int, x: int, b: int, z: int)
    requires 1 <= a <= 12 && 1 <= b <= 12
    requires 1 <= x <= DaysInMonth(y, a) && 1 <= z <= DaysInMonth(y, b)
    requires DaysBeforeMonth(y, a) + x == DaysBeforeMonth(y, b) + z
    ensures a == b && x == z
  {
    if a < b {
      MonthMonotone(y, a, b);
    } else if b < a {
      MonthMonotone(y, b, a);
    }
  }

  /** The year (at or after y) containing day rem counted from the start of year y, and the day within it. */
  function FindYear(rem: int, y: int): (r: (int, int))
    requires rem >= 0
    ensures r.0 >= y && 0 <= r.1 < YearLength(r.0)
    ensures DaysBeforeYear(r.0) + r.1 == DaysBeforeYear(y) + rem
    decreases rem
  {
    if rem < YearLength(y) then (y, rem)
    else
      DaysBeforeNextYear(y);
      FindYear(rem - YearLength(y), y + 1)
  }

  /** The month (at or after m) containing day-of-year doy (counted from 0) and the day-of-month. */
  function FindMonth(y: int, doy: int, m: int): (r: (int, int))
    requires 1 <= m <= 12 && DaysBeforeMonth(y, m) <= doy < YearLength(y)
    ensures m <= r.0 <= 12 && 1 <= r.1 <= DaysInMonth(y, r.0)
    ensures DaysBeforeMonth(y, r.0) + r.1 - 1 == doy
    decreases 12 - m
  {
    if m == 12 || doy < DaysBeforeMonth(y, m) + DaysInMonth(y, m) then
      MonthsFillYear(y);
      (m, doy - DaysBeforeMonth(y, m) + 1)
    else
      DaysBeforeNextMonth(y, m);
      FindMonth(y, doy, m + 1)
  }

  /** The date whose day number (from 0000-01-01) is n, as (year, month, day). */
  function DateOfDayNumber(n: int): (r: (int, int, int))
    ensures 1 <= r.1 <= 12 && 1 <= r.2 <= DaysInMonth(r.0, r.1)
    ensures DayNumber(r.0, r.1, r.2) == n
  {
    var era, doe := n / DaysPerEra, n % DaysPerEra;
    var (yoe, doy) := FindYear(doe, 0);
    var y := 400 * era + yoe;
    DaysBeforeEra(era, yoe);
    var (m, d) := FindMonth(y, doy, 1);
    (y, m, d)
  }

  /** LocalDateTime.ofEpochSecond(e, 0, ZoneOffset.UTC). */
  function FromEpochSecond(e: int): (t: LocalDateTime)
    ensures ToEpochSecond(t) == e
  {
    var days, sod := e / SecondsPerDay, e % SecondsPerDay;
    var (y, m, d) := DateOfDayNumber(days + EpochDayNumber);
    TimeOfDay(sod);
    DateTimeFields(y, m, d, sod / 3600, sod % 3600 / 60, sod % 60)
  }

  /** A second of the day split into hour, minute and second. */
  lemma TimeOfDay(sod: int)
    requires 0 <= sod < SecondsPerDay
    ensures 0 <= sod / 3600 < 24 && 0 <= sod % 3600 / 60 < 60 && 0 <= sod % 60 < 60
    ensures sod / 3600 * 3600 + sod % 3600 / 60 * 60 + sod % 60 == sod
  {
  }

  lemma DayOfYearBounds(y: int, m: int, d: int)
    requires 1 <= m <= 12 && 1 <= d <= DaysInMonth(y, m)
    ensures 0 <= DaysBeforeMonth(y, m) + d - 1 < YearLength(y)
  {
    if m < 12 {
      MonthMonotone(y, m, 12);
    }
    MonthsFillYear(y);
  }

  lemma DayNumberUnique(y: int, m: int, d: int, y': int, m': int, d': int)
    requires 1 <= m <= 12 && 1 <= d <= DaysInMonth(y, m)
    requires 1 <= m' <= 12 && 1 <= d' <= DaysInMonth(y', m')
    requires DayNumber(y, m, d) == DayNumber(y', m', d')
    ensures y == y' && m == m' && d == d'
  {
    DayOfYearBounds(y, m, d);
    DayOfYearBounds(y', m', d');
    YearPositionUnique(y, DaysBeforeMonth(y, m) + d - 1, y', DaysBeforeMonth(y', m') + d' - 1);
    MonthPositionUnique(y, m, d, m', d');
  }

  /** Two date-times with the same epoch second are the same date-time. */
  lemma EpochSecondInjective(a: LocalDateTime, b: LocalDateTime)
    requires ToEpochSecond(a) == ToEpochSecond(b)
    ensures a == b
  {
    var sa := a.hour * 3600 + a.minute * 60 + a.second;
    var sb := b.hour * 3600 + b.minute * 60 + b.second;
    var na := DayNumber(a.year, a.month, a.day) - EpochDayNumber;
    var nb := DayNumber(b.year, b.month, b.day) - EpochDayNumber;
    assert 0 <= sa < SecondsPerDay && 0 <= sb < SecondsPerDay;
    assert na == nb;
    DayNumberUnique(a.year, a.month, a.day, b.year, b.month, b.day);
  }

  /** ofEpochSecond undoes toEpochSecond. */
  lemma {:induction false} FromToEpochSecond(t: LocalDateTime)
    ensures FromEpochSecond(ToEpochSecond(t)) == t
  {
    EpochSecondInjective(FromEpochSecond(ToEpochSecond(t)), t);
  }

  /** LocalDate.atTime(hour, minute, second), i.e. LocalDateTime.of(date, LocalTime.of(...)). */
  function AtTime(d: LocalDate, hour: int, minute: int, second: int): (t: LocalDateTime)
    requires 0 <= hour < 24 && 0 <= minute < 60 && 0 <= second < 60
    ensures t.year == d.year && t.month == d.month && t.day == d.day
    ensures t.hour == hour && t.minute == minute && t.second == second
  {
    DateTimeFields(d.year, d.month, d.day, hour, minute, second)
  }

  /** LocalDate.atStartOfDay(). */
  function AtStartOfDay(d: LocalDate): (t: LocalDateTime)
    ensures t == AtTime(d, 0, 0, 0)
  {
    AtTime(d, 0, 0, 0)
  }

  /** LocalDate.plusDays(1). */
  function NextDay(d: LocalDate): (r: LocalDate)
    ensures DayNumber(r.year, r.month, r.day) == DayNumber(d.year, d.month, d.day) + 1
  {
    var (y, m, dd) := DateOfDayNumber(DayNumber(d.year, d.month, d.day) + 1);
    DateFields(y, m, dd)
  }

  /** LocalDateTime.plusSeconds(k): the date-time k seconds later, carrying into minutes, hours, days, months and years. */
  function PlusSeconds(t: LocalDateTime, k: int): (r: LocalDateTime)
    ensures ToEpochSecond(r) == ToEpochSecond(t) + k
  {
    FromEpochSecond(ToEpochSecond(t) + k)
  }

  /** Adding zero seconds changes nothing. */
  lemma PlusZero(t: LocalDateTime)
    ensures PlusSeconds(t, 0) == t
  {
    FromToEpochSecond(t);
  }

  /** Adding a non-zero number of seconds always moves the date-time. */
  lemma PlusSecondsMoves(t: LocalDateTime, k: int)
    requires k != 0
    ensures PlusSeconds(t, k) != t
  {
    assert ToEpochSecond(PlusSeconds(t, k)) != ToEpochSecond(t);
  }

  /** LocalDateTime.isBefore: lexicographic on (year, month, day, hour, minute, second). */
  predicate IsBefore(a: LocalDateTime, b: LocalDateTime) {
    if a.year != b.year then a.year < b.year
    else if a.month != b.month then a.month < b.month
    else if a.day != b.day then a.day < b.day
    else if a.hour != b.hour then a.hour < b.hour
    else if a.minute != b.minute then a.minute < b.minute
    else a.second < b.second
  }

  /** LocalDateTime.isAfter. */
  predicate IsAfter(a: LocalDateTime, b: LocalDateTime) {
    IsBefore(b, a)
  }

  lemma DayNumberLexMonotone(a: LocalDateTime, b: LocalDateTime)
    requires (a.year, a.month, a.day) != (b.year, b.month, b.day)
    requires a.year < b.year || (a.year == b.year && (a.month < b.month || (a.month == b.month && a.day < b.day)))
    ensures DayNumber(a.year, a.month, a.day) < DayNumber(b.year, b.month, b.day)
  {
    DayOfYearBounds(a.year, a.month, a.day);
    DayOfYearBounds(b.year, b.month, b.day);
    if a.year < b.year {
      DaysBeforeYearMonotone(a.year, b.year);
    } else if a.month < b.month {
      MonthMonotone(a.year, a.month, b.month);
    }
  }

  lemma BeforeImpliesEarlierEpoch(a: LocalDateTime, b: LocalDateTime)
    requires IsBefore(a, b)
    ensures ToEpochSecond(a) < ToEpochSecond(b)
  {
    if (a.year, a.month, a.day) != (b.year, b.month, b.day) {
      DayNumberLexMonotone(a, b);
    }
  }

  /** isBefore agrees with the order of epoch seconds, so it is a strict total order. */
  lemma {:induction false} BeforeIffEarlierEpoch(a: LocalDateTime, b: LocalDateTime)
    ensures IsBefore(a, b) <==> ToEpochSecond(a) < ToEpochSecond(b)
  {
    if IsBefore(a, b) {
      BeforeImpliesEarlierEpoch(a, b);
    } else if a == b {
    } else {
      assert IsBefore(b, a);
      BeforeImpliesEarlierEpoch(b, a);
    }
  }

  /** The carry of the test's third photo: 2024-05-30 21:03:59 plus one and two seconds. */
  lemma ExampleMinuteCarry()
    ensures PlusSeconds(DateTimeFields(2024, 5, 30, 21, 3, 59), 1) == DateTimeFields(2024, 5, 30, 21, 4, 0)
    ensures PlusSeconds(DateTimeFields(2024, 5, 30, 21, 3, 59), 2) == DateTimeFields(2024, 5, 30, 21, 4, 1)
  {
    var t: LocalDateTime := DateTimeFields(2024, 5, 30, 21, 3, 59);
    var a: LocalDateTime := DateTimeFields(2024, 5, 30, 21, 4, 0);
    var b: LocalDateTime := DateTimeFields(2024, 5, 30, 21, 4, 1);
    EpochSecondInjective(PlusSeconds(t, 1), a);
    EpochSecondInjective(PlusSeconds(t, 2), b);
  }
}
