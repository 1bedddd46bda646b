/**
 The proleptic Gregorian calendar with a year 0, and epoch milliseconds: what ArangoDB's
 DATE_TIMESTAMP and DATE_ISO8601 convert between, and the dates
 Appendix E of XML Schema Part 2 computes with.
 */
module Calendar {

  datatype Date = Date(year: int, month: int, day: int)
  datatype Moment = Moment(date: Date, hour: int, minute: int, second: int, milli: int)

  predicate Leap(year: int) {
    year % 4 == 0 && (year % 100 != 0 || year % 400 == 0)
  }

  function YearLength(year: int): int {
    if Leap(year) then 366 else 365
  }

  function DaysInMonth(year: int, month: int): int {
    if month == 2 then (if Leap(year) then 29 else 28)
    else if month == 4 || month == 6 || month == 9 || month == 11 then 30
    else 31
  }

  predicate ValidDate(c: Date) {
    1 <= c.month <= 12 && 1 <= c.day <= DaysInMonth(c.year, c.month)
  }

  predicate ValidMoment(m: Moment) {
    && ValidDate(m.date)
    && 0 <= m.hour < 24 && 0 <= m.minute < 60 && 0 <= m.second < 60 && 0 <= m.milli < 1000
  }

  /** Days from 0000-01-01 to the first of January of `year`. */
  function DaysBeforeYear(year: int): int {
    365 * year + (year + 3) / 4 - (year + 99) / 100 + (year + 399) / 400
  }

  /** Days of the year before the month; from March on the months repeat 31, 30, 31, 30, 31. */
  function DaysBeforeMonth(year: int, month: int): int {
    if month <= 2 then 31 * (month - 1)
    else (153 * (month - 3) + 2) / 5 + if Leap(year) then 60 else 59
  }

  /** Days from 0000-01-01 to the date; the day may lie outside its month. */
  function DayNumber(c: Date): int
    requires 1 <= c.month <= 12
  {
    DaysBeforeYear(c.year) + DaysBeforeMonth(c.year, c.month) + c.day - 1
  }

  /** The closed form adds up the lengths of the months. */
  lemma MonthStep(year: int, month: int)
    requires 1 <= month <= 12
    ensures DaysBeforeMonth(year, month + 1) == DaysBeforeMonth(year, month) + DaysInMonth(year, month)
  {}

  lemma FourYears(y: int)
    ensures (y + 4) / 4 - (y + 3) / 4 == if y % 4 == 0 then 1 else 0
  {}

  lemma HundredYears(y: int)
    ensures (y + 100) / 100 - (y + 99) / 100 == if y % 100 == 0 then 1 else 0
    ensures y % 100 == 0 ==> y % 4 == 0
  {
    if y % 100 == 0 { assert y == 4 * (25 * (y / 100)); }
  }

  lemma FourCenturies(y: int)
    ensures (y + 400) / 400 - (y + 399) / 400 == if y % 400 == 0 then 1 else 0
    ensures y % 400 == 0 ==> y % 100 == 0
  {
    if y % 400 == 0 { assert y == 100 * (4 * (y / 400)); }
  }

  /** And of the years. */
  lemma YearStep(year: int)
    ensures DaysBeforeYear(year + 1) == DaysBeforeYear(year) + YearLength(year)
    ensures DaysBeforeMonth(year, 13) == YearLength(year)
  {
    FourYears(year);
    HundredYears(year);
    FourCenturies(year);
  }

  lemma {:induction false} YearsIncrease(a: int, b: int)
    requires a <= b
    ensures DaysBeforeYear(a) + 365 * (b - a) <= DaysBeforeYear(b)
    decreases b - a
  {
    if a < b {
      YearStep(b - 1);
      YearsIncrease(a, b - 1);
    }
  }

  lemma {:induction false} MonthsIncrease(year: int, a: int, b: int)
    requires 1 <= a <= b <= 13
    ensures DaysBeforeMonth(year, a) + 28 * (b - a) <= DaysBeforeMonth(year, b)
    decreases b - a
  {
    if a < b { MonthStep(year, b - 1); MonthsIncrease(year, a, b - 1); }
  }

  lemma DayWithinYear(c: Date)
    requires ValidDate(c)
    ensures DaysBeforeYear(c.year) <= DayNumber(c) < DaysBeforeYear(c.year + 1)
    ensures DaysBeforeMonth(c.year, c.month) <= DayNumber(c) - DaysBeforeYear(c.year)
    ensures DayNumber(c) - DaysBeforeYear(c.year) < DaysBeforeMonth(c.year, c.month + 1)
  {
    YearStep(c.year);
    MonthsIncrease(c.year, 1, c.month);
    MonthsIncrease(c.year, c.month + 1, 13);
  }

  predicate Before(a: Date, b: Date) {
    a.year < b.year || (a.year == b.year && (a.month < b.month || (a.month == b.month && a.day < b.day)))
  }

  lemma DayNumberRises(a: Date, b: Date)
    requires ValidDate(a) && ValidDate(b) && Before(a, b)
    ensures DayNumber(a) < DayNumber(b)
  {
    DayWithinYear(a);
    DayWithinYear(b);
    if a.year < b.year {
      YearsIncrease(a.year + 1, b.year);
    } else if a.month < b.month {
      MonthsIncrease(a.year, a.month + 1, b.month);
    }
  }

  /** The day count orders dates as the calendar does, so it names each date once. */
  lemma DayNumberOrders(a: Date, b: Date)
    requires ValidDate(a) && ValidDate(b)
    ensures DayNumber(a) < DayNumber(b) <==> Before(a, b)
    ensures DayNumber(a) == DayNumber(b) <==> a == b
  {
    if Before(a, b) {
      DayNumberRises(a, b);
    } else if Before(b, a) {
      DayNumberRises(b, a);
    }
  }

  function YearFrom(n: int, year: int): (y: int)
    requires DaysBeforeYear(year) <= n
    ensures DaysBeforeYear(y) <= n < DaysBeforeYear(y + 1)
    decreases n - DaysBeforeYear(year)
  {
    YearStep(year);
    if n < DaysBeforeYear(year + 1) then year else YearFrom(n, year + 1)
  }

  function MonthFrom(n: int, year: int, month: int): (m: int)
    requires 1 <= month <= 12 && DaysBeforeMonth(year, month) <= n < DaysBeforeMonth(year, 13)
    ensures month <= m <= 12 && DaysBeforeMonth(year, m) <= n < DaysBeforeMonth(year, m + 1)
    decreases 12 - month
  {
    if n < DaysBeforeMonth(year, month + 1) then month else MonthFrom(n, year, month + 1)
  }

  lemma EraStart(era: int)
    ensures DaysBeforeYear(400 * era) == 146097 * era
  {
    assert (400 * era + 3) / 4 == 100 * era;
    assert (400 * era + 99) / 100 == 4 * era;
    assert (400 * era + 399) / 400 == era;
  }

  lemma EraBefore(n: int)
    ensures DaysBeforeYear(400 * (n / 146097)) <= n
  {
    EraStart(n / 146097);
  }

  /** The year a day lies in: 400 years are 146,097 days, and from there year by year. */
  function YearOf(n: int): (y: int)
    ensures DaysBeforeYear(y) <= n < DaysBeforeYear(y + 1)
  {
    EraBefore(n);
    YearFrom(n, 400 * (n / 146097))
  }

  /** The date so many days into a year. */
  function DateInYear(year: int, left: int): (c: Date)
    requires 0 <= left < YearLength(year)
    ensures ValidDate(c) && DayNumber(c) == DaysBeforeYear(year) + left
  {
    YearStep(year);
    var month := MonthFrom(left, year, 1);
    MonthStep(year, month);
    Date(year, month, left - DaysBeforeMonth(year, month) + 1)
  }

  /** The date of a day number. */
  function CivilDate(n: int): (c: Date)
    ensures ValidDate(c) && DayNumber(c) == n
  {
    var year := YearOf(n);
    YearStep(year);
    DateInYear(year, n - DaysBeforeYear(year))
  }

  function TimeOfDay(m: Moment): int {
    ((m.hour * 60 + m.minute) * 60 + m.second) * 1000 + m.milli
  }

  /** DATE_TIMESTAMP: the epoch milliseconds of a moment read as UTC; 1970-01-01 is day 719,528. */
  function Millis(m: Moment): int
    requires 1 <= m.date.month <= 12
  {
    (DayNumber(m.date) - 719528) * 86400000 + TimeOfDay(m)
  }

  /** DATE_ISO8601: the moment of an epoch millisecond. */
  function MomentOf(t: int): (m: Moment)
    ensures ValidMoment(m) && Millis(m) == t
  {
    var day, rest := t / 86400000, t % 86400000;
    var seconds := rest / 1000;
    var minutes := seconds / 60;
    Moment(CivilDate(day + 719528), minutes / 60, minutes % 60, seconds % 60, rest % 1000)
  }

  /** A civil moment and its epoch milliseconds determine each other. */
  lemma MomentRoundTrip(m: Moment)
    requires ValidMoment(m)
    ensures MomentOf(Millis(m)) == m
  {
    MillisInjective(MomentOf(Millis(m)), m);
  }

  lemma MillisInjective(a: Moment, b: Moment)
    requires ValidMoment(a) && ValidMoment(b) && Millis(a) == Millis(b)
    ensures a == b
  {
    DaysAndTime(DayNumber(a.date) - DayNumber(b.date), TimeOfDay(a), TimeOfDay(b));
    DayNumberOrders(a.date, b.date);
    TimeOfDayInjective(a, b);
  }

  lemma DaysAndTime(days: int, ta: int, tb: int)
    requires 0 <= ta < 86400000 && 0 <= tb < 86400000 && days * 86400000 + ta == tb
    ensures days == 0 && ta == tb
  {}

  lemma TimeOfDayInjective(a: Moment, b: Moment)
    requires ValidMoment(a) && ValidMoment(b) && TimeOfDay(a) == TimeOfDay(b)
    ensures (a.hour, a.minute, a.second, a.milli) == (b.hour, b.minute, b.second, b.milli)
  {
    SameDigits((a.hour * 60 + a.minute) * 60 + a.second, a.milli, (b.hour * 60 + b.minute) * 60 + b.second, b.milli);
    assert a.hour * 60 + a.minute == b.hour * 60 + b.minute;
  }

  lemma SameDigits(p: int, r: int, q: int, s: int)
    requires 0 <= r < 1000 && 0 <= s < 1000 && p * 1000 + r == q * 1000 + s
    ensures p == q && r == s
  {}

  const FIRST_INSTANT := -62167219200000
  const LAST_INSTANT := 253402300799999

  /** The two constants are exactly the ends of the years 0 to 9999. */
  lemma InstantRange(m: Moment)
    requires ValidMoment(m)
    ensures FIRST_INSTANT <= Millis(m) <= LAST_INSTANT <==> 0 <= m.date.year <= 9999
    ensures Millis(m) < FIRST_INSTANT <==> m.date.year < 0
  {
    DayRange(m.date);
    assert 0 <= TimeOfDay(m) < 86400000;
  }

  lemma DayRange(c: Date)
    requires ValidDate(c)
    ensures 0 <= DayNumber(c) <==> c.year >= 0
    ensures DayNumber(c) <= 3652424 <==> c.year <= 9999
  {
    DayWithinYear(c);
    assert DaysBeforeYear(0) == 0 && DaysBeforeYear(10000) == 3652425;
    if c.year < 0 { YearsIncrease(c.year + 1, 0); } else { YearsIncrease(0, c.year); }
    if c.year > 9999 { YearsIncrease(10000, c.year); } else { YearsIncrease(c.year + 1, 10000); }
  }

  lemma FirstInstantIsYearZero(first: Moment)
    requires first == Moment(Date(0, 1, 1), 0, 0, 0, 0)
    ensures Millis(first) == FIRST_INSTANT
  {}

  lemma LastInstantEndsYear9999(last: Moment)
    requires last == Moment(Date(9999, 12, 31), 23, 59, 59, 999)
    ensures Millis(last) == LAST_INSTANT
  {
    LastDay(last.date);
  }

  lemma LastDay(c: Date)
    requires c == Date(9999, 12, 31)
    ensures DayNumber(c) == 3652424
  {}
}
