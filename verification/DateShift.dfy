/**
 date + duration and date - duration, as the emitted AQL computes them, against the
 field-by-field addition of Appendix E of XML Schema Part 2, which section 9.7 of
 XPath and XQuery Functions and Operators 3.1 refers to.
 */
module DateShift {
  import opened Collections
  import opened Calendar

  // ---- the standard's addition ----

  /** A duration's fields, none negative, and its sign. */
  datatype Duration = Duration(
    negative: bool, years: nat, months: nat, days: nat, hours: nat, minutes: nat, millis: nat)

  function Negated(d: Duration): Duration {
    d.(negative := !d.negative)
  }

  function Signed(d: Duration, field: nat): int {
    if d.negative then 0 - field else field
  }

  function Quotient3(a: int, low: int, high: int): int
    requires low < high
  {
    (a - low) / (high - low)
  }

  function Modulo3(a: int, low: int, high: int): int
    requires low < high
  {
    (a - low) % (high - low) + low
  }

  /** maximumDayInMonthFor, whose month may lie outside the year. */
  function MaximumDay(year: int, month: int): int {
    DaysInMonth(year + Quotient3(month, 1, 13), Modulo3(month, 1, 13))
  }

  function DayExcess(c: Date): nat
    requires 1 <= c.month <= 12
  {
    if c.day < 1 then 1 - c.day else if c.day > DaysInMonth(c.year, c.month) then c.day else 0
  }

  function EarlierMonth(c: Date): Date {
    Date(c.year + Quotient3(c.month - 1, 1, 13), Modulo3(c.month - 1, 1, 13), c.day + MaximumDay(c.year, c.month - 1))
  }

  function LaterMonth(c: Date): Date {
    Date(c.year + Quotient3(c.month + 1, 1, 13), Modulo3(c.month + 1, 1, 13), c.day - MaximumDay(c.year, c.month))
  }

  lemma EarlierMonthIs(c: Date)
    requires 1 <= c.month <= 12
    ensures 1 <= EarlierMonth(c).month <= 12
    ensures EarlierMonth(c).year * 12 + EarlierMonth(c).month + 1 == c.year * 12 + c.month
    ensures EarlierMonth(c).day == c.day + DaysInMonth(EarlierMonth(c).year, EarlierMonth(c).month)
  {
    Twelfths(c.month - 1);
  }

  lemma LaterMonthIs(c: Date)
    requires 1 <= c.month <= 12
    ensures 1 <= LaterMonth(c).month <= 12
    ensures LaterMonth(c).year * 12 + LaterMonth(c).month == c.year * 12 + c.month + 1
    ensures MaximumDay(c.year, c.month) == DaysInMonth(c.year, c.month)
    ensures LaterMonth(c).day == c.day - DaysInMonth(c.year, c.month)
  {
    Twelfths(c.month + 1);
    MonthInYear(c.year, c.month);
  }

  /** The loop that carries days into months. */
  function CarryDays(c: Date): (r: Date)
    requires 1 <= c.month <= 12
    ensures ValidDate(r) && DayNumber(r) == DayNumber(c)
    decreases DayExcess(c)
  {
    LaterMonthIs(c);
    if c.day < 1 then
      EarlierMonthIs(c);
      CarryStep(EarlierMonth(c), c);
      CarryDays(EarlierMonth(c))
    else if c.day > MaximumDay(c.year, c.month) then
      CarryStep(c, LaterMonth(c));
      CarryDays(LaterMonth(c))
    else
      c
  }

  /** Moving a month's days into the following month's count names the same day. */
  lemma CarryStep(earlier: Date, later: Date)
    requires 1 <= earlier.month <= 12 && 1 <= later.month <= 12
    requires later.year * 12 + later.month == earlier.year * 12 + earlier.month + 1
    requires later.day == earlier.day - DaysInMonth(earlier.year, earlier.month)
    ensures DayNumber(later) == DayNumber(earlier)
  {
    if earlier.month == 12 {
      NewYear(earlier.year, earlier, later);
    } else {
      MonthStep(earlier.year, earlier.month);
      assert later.year == earlier.year && later.month == earlier.month + 1;
    }
  }

  lemma NewYear(year: int, earlier: Date, later: Date)
    requires earlier == Date(year, 12, earlier.day) && later == Date(year + 1, 1, earlier.day - 31)
    ensures DayNumber(later) == DayNumber(earlier)
  {
    YearStep(year);
    December(year);
  }

  lemma December(year: int)
    ensures DaysBeforeMonth(year, 12) + 31 == YearLength(year) && DaysBeforeMonth(year + 1, 1) == 0
  {}

  /** The month and year the sum reaches, and the day limited to that month. */
  function MonthFields(c: Date, d: Duration): (r: Date)
    requires ValidDate(c)
    ensures ValidDate(r)
  {
    var temp := c.month + Signed(d, d.months);
    var month := Modulo3(temp, 1, 13);
    var year := c.year + Signed(d, d.years) + Quotient3(temp, 1, 13);
    Date(year, month, if c.day > MaximumDay(year, month) then MaximumDay(year, month) else c.day)
  }

  function SecondCarry(s: Moment, d: Duration): int {
    s.second * 1000 + s.milli + Signed(d, d.millis)
  }

  function MinuteCarry(s: Moment, d: Duration): int {
    s.minute + Signed(d, d.minutes) + SecondCarry(s, d) / 60000
  }

  function HourCarry(s: Moment, d: Duration): int {
    s.hour + Signed(d, d.hours) + MinuteCarry(s, d) / 60
  }

  /** Adding a duration to a dateTime, field by field. */
  function StandardSum(s: Moment, d: Duration): (e: Moment)
    requires ValidMoment(s)
    ensures ValidMoment(e)
  {
    var base := MonthFields(s.date, d);
    var day := base.day + Signed(d, d.days) + HourCarry(s, d) / 24;
    Moment(CarryDays(base.(day := day)), HourCarry(s, d) % 24, MinuteCarry(s, d) % 60,
           SecondCarry(s, d) % 60000 / 1000, SecondCarry(s, d) % 1000)
  }

  // ---- duration_parts ----

  /** Months and milliseconds, each with the duration's sign. */
  function DurationParts(d: Duration): (int, int) {
    (Signed(d, d.years * 12 + d.months),
     Signed(d, ((d.days * 24 + d.hours) * 60 + d.minutes) * 60000 + d.millis))
  }

  // ---- the emitted computation ----

  /** The time of a dateTime; the fraction's digits as written. */
  datatype Time = Time(hour: nat, minute: nat, second: nat, fraction: seq<nat>)

  /** A date or dateTime with its zone suffix, as the shape test accepts it. */
  datatype Lexical = Lexical(year: nat, month: nat, day: nat, time: Option<Time>, zone: string)

  function Digit(digits: seq<nat>, k: nat): nat {
    if k < |digits| then digits[k] else 0
  }

  function FractionMillis(fraction: seq<nat>): nat {
    Digit(fraction, 0) * 100 + Digit(fraction, 1) * 10 + Digit(fraction, 2)
  }

  predicate Digits(fraction: seq<nat>) {
    forall k :: 0 <= k < |fraction| ==> fraction[k] < 10
  }

  /**
   The digit counts of the shape test, a time of day or any time of the hour 24, and no fraction
   finer than a millisecond. The month and day may be any two digits.
   */
  predicate Shaped(x: Lexical) {
    && x.year <= 9999 && x.month <= 99 && x.day <= 99
    && match x.time
       case None => true
       case Some(t) =>
         && Digits(t.fraction) && (forall k :: 3 <= k < |t.fraction| ==> t.fraction[k] == 0)
         && t.hour <= 24 && t.minute <= 99 && t.second <= 99 && (t.hour < 24 ==> t.minute < 60 && t.second < 60)
  }

  predicate RealDay(x: Lexical) {
    ValidDate(Date(x.year, x.month, x.day))
  }

  /** What the filters let through: a day that is one, and of the hour 24 only 24:00:00, whatever its fraction. */
  predicate Passes(x: Lexical) {
    RealDay(x) && (x.time.Some? && x.time.value.hour == 24 ==> x.time.value.minute == 0 && x.time.value.second == 0)
  }

  /** A dateTime of the standard: 24:00:00 has no fraction but zeros. */
  predicate Real(x: Lexical) {
    Passes(x) && (x.time.Some? && x.time.value.hour == 24 ==> FractionMillis(x.time.value.fraction) == 0)
  }

  /** DATE_ADD of a day to the midnight of a date. */
  function NextMidnight(c: Date): (m: Moment)
    requires ValidDate(c)
    ensures ValidMoment(m) && DayNumber(m.date) == DayNumber(c) + 1 && m == Moment(m.date, 0, 0, 0, 0)
  {
    Moment(CivilDate(DayNumber(c) + 1), 0, 0, 0, 0)
  }

  /** The moment on the local clock; 24:00:00 is the next day's midnight. */
  function LocalMoment(x: Lexical): (m: Moment)
    requires Shaped(x) && Passes(x)
    ensures ValidMoment(m)
  {
    var c := Date(x.year, x.month, x.day);
    match x.time
    case None => Moment(c, 0, 0, 0, 0)
    case Some(t) =>
      if t.hour == 24 then NextMidnight(c)
      else Moment(c, t.hour, t.minute, t.second, FractionMillis(t.fraction))
  }

  /** DATE_DAY of a date string: days past the month's end run into the next month. */
  function AqlDay(year: int, month: int, day: int): Option<int> {
    if 1 <= month <= 12 && 1 <= day <= 31 then Some(CivilDate(DayNumber(Date(year, month, day))).day) else None
  }

  /** The digits of a millisecond count, trailing zeros removed. */
  function Fraction(ms: nat): (f: seq<nat>)
    requires ms < 1000
    ensures Digits(f) && FractionMillis(f) == ms && |f| <= 3
    ensures f != [] ==> f[|f| - 1] != 0
  {
    ThreeDigits(ms, ms / 10);
    if ms == 0 then []
    else if ms % 10 != 0 then [ms / 100, ms / 10 % 10, ms % 10]
    else if ms / 10 % 10 != 0 then [ms / 100, ms / 10 % 10]
    else [ms / 100]
  }

  lemma ThreeDigits(ms: nat, tens: nat)
    requires ms < 1000 && tens == ms / 10
    ensures ms == ms / 100 * 100 + tens % 10 * 10 + ms % 10 && ms / 100 < 10
  {
    assert tens / 10 == ms / 100;
    assert tens == tens / 10 * 10 + tens % 10;
  }

  /** A moment in the form of the input: a date stays a date, and the zone is kept. */
  function Written(m: Moment, form: Lexical): Lexical
    requires ValidMoment(m) && m.date.year >= 0
  {
    Lexical(m.date.year, m.date.month, m.date.day,
            if form.time.None? then None else Some(Time(m.hour, m.minute, m.second, Fraction(m.milli))),
            form.zone)
  }

  function Min(a: int, b: int): int {
    if a <= b then a else b
  }

  /** The emitted month step: FLOOR of the month index, and the day clamped by MIN. */
  function MonthShift(c: Date, months: int): (r: Date)
    requires ValidDate(c)
    ensures ValidDate(r)
  {
    var monthIndex := c.year * 12 + c.month - 1 + months;
    var year := monthIndex / 12;
    var month := monthIndex - year * 12 + 1;
    Date(year, month, Min(c.day, DaysInMonth(year, month)))
  }

  /** The early year filter, then the range test. */
  function Filtered(reached: Date, moment: int): (r: Option<Moment>)
    ensures r.Some? ==> ValidMoment(r.value) && 0 <= r.value.date.year <= 9999
  {
    if !(0 <= reached.year <= 9999) then None
    else if !(FIRST_INSTANT <= moment <= LAST_INSTANT) then None
    else
      InstantRange(MomentOf(moment));
      Some(MomentOf(moment))
  }

  /** The shifted clock in epoch milliseconds. */
  function ShiftedMillis(clock: Moment, months: int, millis: int): int
    requires ValidMoment(clock)
  {
    Millis(clock.(date := MonthShift(clock.date, months))) + millis
  }

  /** The local clock shifted: months, the early year filter, milliseconds, the range test. */
  function ShiftClock(clock: Moment, months: int, millis: int): (r: Option<Moment>)
    requires ValidMoment(clock)
    ensures r.Some? ==> ValidMoment(r.value) && 0 <= r.value.date.year <= 9999
  {
    Filtered(MonthShift(clock.date, months), ShiftedMillis(clock, months, millis))
  }

  /** The parts the emitted expression binds: negated for a subtraction. */
  function BoundParts(subtract: bool, d: Duration): (int, int) {
    var parts := DurationParts(d);
    if subtract then (-parts.0, -parts.1) else parts
  }

  /** The emitted expression for `x op d`; None is AQL's null. */
  function Shift(subtract: bool, x: Lexical, d: Duration): Option<Lexical>
    requires Shaped(x)
  {
    if AqlDay(x.year, x.month, x.day) != Some(x.day) then None
    else if x.time.Some? && x.time.value.hour == 24 && !(x.time.value.minute == 0 && x.time.value.second == 0) then None
    else
      RealDayTest(x);
      match ShiftClock(LocalMoment(x), BoundParts(subtract, d).0, BoundParts(subtract, d).1)
      case None => None
      case Some(shifted) => Some(Written(shifted, x))
  }

  /** The day test accepts exactly the days the month has. */
  lemma RealDayTest(x: Lexical)
    ensures AqlDay(x.year, x.month, x.day) == Some(x.day) <==> RealDay(x)
  {
    if 1 <= x.month <= 12 && 1 <= x.day <= 31 {
      var c := Date(x.year, x.month, x.day);
      if RealDay(x) { DayNumberOrders(c, CivilDate(DayNumber(c))); } else { RunsOver(c); }
    }
  }

  /** A day past the month's end is read as a day of the next month, with another number. */
  lemma RunsOver(c: Date)
    requires 1 <= c.month <= 12 && DaysInMonth(c.year, c.month) < c.day <= 31
    ensures CivilDate(DayNumber(c)).day != c.day
  {
    var next := Date(c.year, c.month + 1, c.day - DaysInMonth(c.year, c.month));
    assert c.month < 12;
    CarryStep(c, next);
    DayNumberOrders(next, CivilDate(DayNumber(c)));
  }

  // ---- agreement with the standard ----

  lemma SplitSeconds(n: int)
    ensures n == n / 60000 * 60000 + n % 60000 / 1000 * 1000 + n % 1000
  {
    var q, r := n / 60000, n % 60000;
    Thousands(n, 60 * q + r / 1000, r % 1000);
  }

  lemma Thousands(n: int, q: int, r: int)
    requires n == q * 1000 + r && 0 <= r < 1000
    ensures n % 1000 == r
  {}

  lemma SplitMinutes(n: int)
    ensures n == n / 60 * 60 + n % 60
  {}

  lemma SplitHours(n: int)
    ensures n == n / 24 * 24 + n % 24
  {}

  lemma SignedMillis(d: Duration)
    ensures DurationParts(d).1
         == ((Signed(d, d.days) * 24 + Signed(d, d.hours)) * 60 + Signed(d, d.minutes)) * 60000 + Signed(d, d.millis)
  {}

  /** The time fields carried field by field add up to the milliseconds added at once. */
  lemma TimeCarry(s: Moment, d: Duration)
    ensures
      (Signed(d, d.days) + HourCarry(s, d) / 24) * 86400000
      + TimeOfDay(Moment(s.date, HourCarry(s, d) % 24, MinuteCarry(s, d) % 60,
                         SecondCarry(s, d) % 60000 / 1000, SecondCarry(s, d) % 1000))
      == TimeOfDay(s) + DurationParts(d).1
  {
    SplitSeconds(SecondCarry(s, d));
    SplitMinutes(MinuteCarry(s, d));
    SplitHours(HourCarry(s, d));
    SignedMillis(d);
  }

  lemma Twelfths(a: int)
    ensures Quotient3(a, 1, 13) == (a - 1) / 12 && Modulo3(a, 1, 13) == (a - 1) % 12 + 1
  {}

  lemma MonthInYear(year: int, month: int)
    requires 1 <= month <= 12
    ensures MaximumDay(year, month) == DaysInMonth(year, month)
  {
    Twelfths(month);
    assert (month - 1) / 12 == 0 && (month - 1) % 12 == month - 1;
  }

  lemma MonthIndex(year: int, k: int)
    ensures (year * 12 + k) / 12 == year + k / 12 && (year * 12 + k) - (year * 12 + k) / 12 * 12 == k % 12
  {}

  /** A month of a year, limited to the day it reaches: the two ways of finding it agree. */
  lemma ReachedMonth(year: int, temp: int)
    ensures Modulo3(temp, 1, 13) == (year * 12 + temp - 1) - (year * 12 + temp - 1) / 12 * 12 + 1
    ensures year + Quotient3(temp, 1, 13) == (year * 12 + temp - 1) / 12
    ensures 1 <= Modulo3(temp, 1, 13) <= 12
  {
    Twelfths(temp);
    MonthIndex(year, temp - 1);
  }

  lemma MonthFieldsAt(c: Date, d: Duration, year: int, month: int)
    requires ValidDate(c) && 1 <= month <= 12
    requires month == Modulo3(c.month + Signed(d, d.months), 1, 13)
    requires year == c.year + Signed(d, d.years) + Quotient3(c.month + Signed(d, d.months), 1, 13)
    ensures MonthFields(c, d) == Date(year, month, Min(c.day, DaysInMonth(year, month)))
  {
    MonthInYear(year, month);
  }

  lemma MonthShiftAt(c: Date, months: int, year: int, month: int)
    requires ValidDate(c)
    requires year == (c.year * 12 + c.month - 1 + months) / 12
    requires month == c.year * 12 + c.month - 1 + months - year * 12 + 1
    ensures MonthShift(c, months) == Date(year, month, Min(c.day, DaysInMonth(year, month)))
  {}

  /** The calendar month both computations reach, and the clamped day. */
  lemma MonthFieldsAreMonthShift(c: Date, d: Duration)
    requires ValidDate(c)
    ensures MonthFields(c, d) == MonthShift(c, DurationParts(d).0)
  {
    var temp := c.month + Signed(d, d.months);
    var start := c.year + Signed(d, d.years);
    MonthsOfParts(c, d);
    ReachedMonth(start, temp);
    var year, month := start + Quotient3(temp, 1, 13), Modulo3(temp, 1, 13);
    MonthFieldsAt(c, d, year, month);
    MonthShiftAt(c, DurationParts(d).0, year, month);
  }

  lemma MonthsOfParts(c: Date, d: Duration)
    ensures c.year * 12 + c.month - 1 + DurationParts(d).0
         == (c.year + Signed(d, d.years)) * 12 + (c.month + Signed(d, d.months)) - 1
  {}

  /** The sum as epoch milliseconds: months first, then the day-time part. */
  lemma StandardMillis(s: Moment, d: Duration)
    requires ValidMoment(s)
    ensures Millis(StandardSum(s, d))
         == Millis(s.(date := MonthShift(s.date, DurationParts(d).0))) + DurationParts(d).1
  {
    MonthFieldsAreMonthShift(s.date, d);
    TimeCarry(s, d);
    var base := MonthFields(s.date, d);
    var extra := Signed(d, d.days) + HourCarry(s, d) / 24;
    DaysAdd(base, extra, StandardSum(s, d), s);
  }

  lemma DaysAdd(base: Date, extra: int, e: Moment, s: Moment)
    requires ValidDate(base) && ValidMoment(e) && DayNumber(e.date) == DayNumber(base) + extra
    ensures Millis(e) - Millis(s.(date := base)) == extra * 86400000 + TimeOfDay(e) - TimeOfDay(s)
  {}

  lemma NegatedParts(d: Duration)
    ensures DurationParts(Negated(d)) == (-DurationParts(d).0, -DurationParts(d).1)
  {}

  /** The parts of a duration never pull in opposite directions. */
  lemma PartsShareASign(d: Duration)
    ensures (DurationParts(d).0 >= 0 && DurationParts(d).1 >= 0) || (DurationParts(d).0 <= 0 && DurationParts(d).1 <= 0)
  {}

  /** Where the clock stands when 24:00:00 is read on the last day of year 9999. */
  predicate StartOfYear10000(clock: Moment)
    requires ValidMoment(clock)
  {
    Millis(clock) == LAST_INSTANT + 1
  }

  lemma FirstDayOf10000(c: Date)
    requires c == Date(10000, 1, 1)
    ensures DayNumber(c) == 3652425
  {}

  lemma MillisAtMidnight(clock: Moment)
    requires ValidMoment(clock)
    ensures Millis(clock) == LAST_INSTANT + 1 <==> DayNumber(clock.date) == 3652425 && TimeOfDay(clock) == 0
  {
    if Millis(clock) == LAST_INSTANT + 1 { DaysAndTime(DayNumber(clock.date) - 3652425, TimeOfDay(clock), 0); }
  }

  /** The clocks there are: of the years 0 to 9999, and the midnight that ends them. */
  predicate Clock(clock: Moment) {
    ValidMoment(clock) && (0 <= clock.date.year <= 9999 || StartOfYear10000(clock))
  }

  /**
   A month step that leaves the years 0 to 9999 is never brought back by the day-time part,
   which pulls the same way. So of the sums in range the early filter loses exactly those
   that start past year 9999 and have no month part to bring them back.
   */
  lemma EarlyFilterLoses(clock: Moment, months: int, millis: int)
    requires Clock(clock)
    requires (months >= 0 && millis >= 0) || (months <= 0 && millis <= 0)
    requires FIRST_INSTANT <= ShiftedMillis(clock, months, millis) <= LAST_INSTANT
    ensures 0 <= MonthShift(clock.date, months).year <= 9999 <==> !(StartOfYear10000(clock) && months == 0)
  {
    InstantRange(clock.(date := MonthShift(clock.date, months)));
    if StartOfYear10000(clock) {
      MillisAtMidnight(clock);
      MonthsFrom10000(clock.date, months);
    }
  }

  lemma MonthsFrom10000(c: Date, months: int)
    requires ValidDate(c) && DayNumber(c) == 3652425
    ensures MonthShift(c, months).year <= 9999 <==> months < 0
    ensures months == 0 ==> MonthShift(c, months) == c
  {
    var first :| first == Date(10000, 1, 1);
    FirstDayOf10000(first);
    DayNumberOrders(c, first);
  }

  lemma RangeIsYears(sum: Moment, moment: int)
    requires ValidMoment(sum) && Millis(sum) == moment
    ensures FIRST_INSTANT <= moment <= LAST_INSTANT <==> 0 <= sum.date.year <= 9999
    ensures MomentOf(moment) == sum
  {
    InstantRange(sum);
    MomentRoundTrip(sum);
  }

  lemma FilteredIsSum(reached: Date, moment: int, sum: Moment)
    requires ValidMoment(sum) && Millis(sum) == moment
    requires FIRST_INSTANT <= moment <= LAST_INSTANT <==> 0 <= sum.date.year <= 9999
    requires MomentOf(moment) == sum
    ensures Filtered(reached, moment)
            == if 0 <= sum.date.year <= 9999 && 0 <= reached.year <= 9999 then Some(sum) else None
  {}

  /** The clock's sum, or nothing: when the sum is out of range, or the early filter loses it. */
  lemma ShiftClockIsSum(clock: Moment, d: Duration)
    requires Clock(clock)
    ensures ShiftClock(clock, DurationParts(d).0, DurationParts(d).1)
            == if 0 <= StandardSum(clock, d).date.year <= 9999 && !(StartOfYear10000(clock) && DurationParts(d).0 == 0)
               then Some(StandardSum(clock, d)) else None
  {
    StandardMillis(clock, d);
    PartsShareASign(d);
    FilteredSum(clock, DurationParts(d).0, DurationParts(d).1, StandardSum(clock, d));
  }

  lemma FilteredSum(clock: Moment, months: int, millis: int, sum: Moment)
    requires Clock(clock) && ValidMoment(sum) && Millis(sum) == ShiftedMillis(clock, months, millis)
    requires (months >= 0 && millis >= 0) || (months <= 0 && millis <= 0)
    ensures ShiftClock(clock, months, millis)
            == if 0 <= sum.date.year <= 9999 && !(StartOfYear10000(clock) && months == 0) then Some(sum) else None
  {
    RangeIsYears(sum, Millis(sum));
    FilteredIsSum(MonthShift(clock.date, months), Millis(sum), sum);
    if 0 <= sum.date.year <= 9999 { EarlyFilterLoses(clock, months, millis); }
  }

  /** The duration to add. */
  function Added(subtract: bool, d: Duration): Duration {
    if subtract then Negated(d) else d
  }

  /** What the standard asks for: nothing for a date or time that is none and for a sum out of range. */
  function Standard(subtract: bool, x: Lexical, d: Duration): Option<Lexical>
    requires Shaped(x)
  {
    if !Real(x) then None
    else
      var sum := StandardSum(LocalMoment(x), Added(subtract, d));
      if 0 <= sum.date.year <= 9999 then Some(Written(sum, x)) else None
  }

  predicate DayTimeOnly(d: Duration) {
    d.years == 0 && d.months == 0
  }

  /** 9999-12-31T24:00:00 and a day-time duration that leads back into the years 0 to 9999. */
  predicate Lost(subtract: bool, x: Lexical, d: Duration) {
    EndOfYear9999(x) && DayTimeOnly(d) && FIRST_INSTANT <= LAST_INSTANT + 1 + BoundParts(subtract, d).1 <= LAST_INSTANT
  }

  predicate LosesMidnight(subtract: bool, x: Lexical, d: Duration) {
    Real(x) && Lost(subtract, x, d)
  }

  /** 24:00:00 with a fraction, which is no time, and a sum in range. */
  predicate DropsFraction(subtract: bool, x: Lexical, d: Duration)
    requires Shaped(x)
  {
    && Passes(x) && !Real(x) && !Lost(subtract, x, d)
    && 0 <= StandardSum(LocalMoment(x), Added(subtract, d)).date.year <= 9999
  }

  lemma ShiftOfDay(subtract: bool, x: Lexical, d: Duration, clock: Moment) returns (found: Option<Moment>)
    requires Shaped(x) && Passes(x) && clock == LocalMoment(x)
    ensures found == ShiftClock(clock, BoundParts(subtract, d).0, BoundParts(subtract, d).1)
    ensures Shift(subtract, x, d) == if found.None? then None else Some(Written(found.value, x))
  {
    found := ShiftClock(clock, BoundParts(subtract, d).0, BoundParts(subtract, d).1);
    RealDayTest(x);
  }

  lemma ShiftOfNone(subtract: bool, x: Lexical, d: Duration)
    requires Shaped(x) && !Passes(x)
    ensures Shift(subtract, x, d) == None && Standard(subtract, x, d) == None
    ensures !LosesMidnight(subtract, x, d) && !DropsFraction(subtract, x, d)
  {
    RealDayTest(x);
  }

  /** What the clock gives, the bound parts being those of the duration added. */
  lemma FoundOfClock(subtract: bool, x: Lexical, d: Duration, clock: Moment, sum: Moment, found: Option<Moment>)
    requires Clock(clock) && (StartOfYear10000(clock) <==> EndOfYear9999(x))
    requires sum == StandardSum(clock, Added(subtract, d))
    requires found == ShiftClock(clock, BoundParts(subtract, d).0, BoundParts(subtract, d).1)
    ensures found == if 0 <= sum.date.year <= 9999 && !Lost(subtract, x, d) then Some(sum) else None
    ensures Lost(subtract, x, d) ==> 0 <= sum.date.year <= 9999
  {
    BoundPartsAre(subtract, d);
    NegatedDayTime(subtract, d);
    ShiftOfClock(clock, Added(subtract, d));
  }

  lemma NegatedDayTime(subtract: bool, d: Duration)
    ensures DayTimeOnly(Added(subtract, d)) <==> DayTimeOnly(d)
  {}

  /** What passes the filters gives the sum of its clock, unless that is the midnight that is lost. */
  lemma ShiftIsSum(subtract: bool, x: Lexical, d: Duration, clock: Moment, sum: Moment)
    requires Shaped(x) && Passes(x) && clock == LocalMoment(x) && sum == StandardSum(clock, Added(subtract, d))
    ensures Shift(subtract, x, d)
         == if 0 <= sum.date.year <= 9999 && !Lost(subtract, x, d) then Some(Written(sum, x)) else None
    ensures Lost(subtract, x, d) ==> 0 <= sum.date.year <= 9999
  {
    LocalClock(x, clock);
    var found := ShiftOfDay(subtract, x, d, clock);
    FoundOfClock(subtract, x, d, clock, sum, found);
  }

  lemma StandardOf(subtract: bool, x: Lexical, d: Duration, sum: Moment)
    requires Shaped(x) && Real(x) && sum == StandardSum(LocalMoment(x), Added(subtract, d))
    ensures Standard(subtract, x, d) == if 0 <= sum.date.year <= 9999 then Some(Written(sum, x)) else None
  {}

  lemma NotRealIsNone(subtract: bool, x: Lexical, d: Duration)
    requires Shaped(x) && !Real(x)
    ensures Standard(subtract, x, d) == None
  {}

  lemma DropsIt(subtract: bool, x: Lexical, d: Duration, sum: Moment)
    requires Shaped(x) && Passes(x) && !Real(x) && sum == StandardSum(LocalMoment(x), Added(subtract, d))
    ensures DropsFraction(subtract, x, d) <==> 0 <= sum.date.year <= 9999 && !Lost(subtract, x, d)
  {}

  lemma RealIsStandard(subtract: bool, x: Lexical, d: Duration, clock: Moment, sum: Moment)
    requires Shaped(x) && Real(x) && clock == LocalMoment(x) && sum == StandardSum(clock, Added(subtract, d))
    ensures Shift(subtract, x, d) == Standard(subtract, x, d) <==> !LosesMidnight(subtract, x, d)
    ensures LosesMidnight(subtract, x, d) ==> Shift(subtract, x, d) == None
    ensures !DropsFraction(subtract, x, d)
  {
    ShiftIsSum(subtract, x, d, clock, sum);
    StandardOf(subtract, x, d, sum);
  }

  lemma UnrealIsNone(subtract: bool, x: Lexical, d: Duration, clock: Moment, sum: Moment)
    requires Shaped(x) && Passes(x) && !Real(x) && clock == LocalMoment(x)
    requires sum == StandardSum(clock, Added(subtract, d))
    ensures Standard(subtract, x, d) == None && (Shift(subtract, x, d) == None <==> !DropsFraction(subtract, x, d))
    ensures !LosesMidnight(subtract, x, d)
  {
    ShiftIsSum(subtract, x, d, clock, sum);
    NotRealIsNone(subtract, x, d);
    DropsIt(subtract, x, d, sum);
  }

  /**
   For every date or dateTime of the accepted shape the result is what the standard asks for,
   in the input's own form, except that the end of year 9999 written with hour 24 gives null
   where a day-time duration leads back into range, and that 24:00:00 with a fraction, which is no
   time, is read as the midnight: exactly there the two differ.
   */
  lemma ShiftIsStandardSum(subtract: bool, x: Lexical, d: Duration)
    requires Shaped(x)
    ensures Shift(subtract, x, d) == Standard(subtract, x, d)
       <==> !LosesMidnight(subtract, x, d) && !DropsFraction(subtract, x, d)
    ensures LosesMidnight(subtract, x, d) ==> Shift(subtract, x, d) == None
    ensures DropsFraction(subtract, x, d) ==> Standard(subtract, x, d) == None
  {
    if Passes(x) {
      var clock := LocalMoment(x);
      var sum := StandardSum(clock, Added(subtract, d));
      if Real(x) { RealIsStandard(subtract, x, d, clock, sum); } else { UnrealIsNone(subtract, x, d, clock, sum); }
    } else {
      ShiftOfNone(subtract, x, d);
    }
  }

  /** The same of the clock, the sign already taken into the duration. */
  lemma ShiftOfClock(clock: Moment, d: Duration)
    requires Clock(clock)
    ensures
      var found, sum := ShiftClock(clock, DurationParts(d).0, DurationParts(d).1), StandardSum(clock, d);
      var lost := StartOfYear10000(clock) && DayTimeOnly(d)
        && FIRST_INSTANT <= LAST_INSTANT + 1 + DurationParts(d).1 <= LAST_INSTANT;
      && (lost ==> found == None && 0 <= sum.date.year <= 9999)
      && (!lost ==> found == if 0 <= sum.date.year <= 9999 then Some(sum) else None)
  {
    ShiftClockIsSum(clock, d);
    NoMonthPart(d);
    if StartOfYear10000(clock) && DayTimeOnly(d) { SumFrom10000(clock, d); }
  }

  lemma NoMonthPart(d: Duration)
    ensures DurationParts(d).0 == 0 <==> DayTimeOnly(d)
  {}

  lemma SumFrom10000(clock: Moment, d: Duration)
    requires ValidMoment(clock) && StartOfYear10000(clock) && DayTimeOnly(d)
    ensures 0 <= StandardSum(clock, d).date.year <= 9999
       <==> FIRST_INSTANT <= LAST_INSTANT + 1 + DurationParts(d).1 <= LAST_INSTANT
  {
    DayTimeMillis(clock, d);
    InstantRange(StandardSum(clock, d));
  }

  /**
   So 24:00:00 with a fraction, which is no dateTime, is read as the next day's midnight: 2020-01-01T24:00:00.5
   with a zero duration gives 2020-01-02T00:00:00.
   */
  lemma FractionIsDropped(x: Lexical, next: Date, d: Duration)
    requires Shaped(x) && Passes(x) && !Real(x)
    requires next == Date(x.year, x.month, x.day + 1) && ValidDate(next) && DayTimeOnly(d) && DurationParts(d).1 == 0
    ensures Standard(false, x, d) == None
    ensures Shift(false, x, d) == Some(Written(Moment(next, 0, 0, 0, 0), x))
  {
    var clock := LocalMoment(x);
    NotRealIsNone(false, x, d);
    MidnightRead(x, Date(x.year, x.month, x.day), next, clock);
    FractionRead(x, next, d, clock);
  }

  lemma MidnightRead(x: Lexical, c: Date, next: Date, clock: Moment)
    requires Shaped(x) && Passes(x) && !Real(x) && c == Date(x.year, x.month, x.day) && clock == LocalMoment(x)
    requires next == c.(day := c.day + 1) && ValidDate(next)
    ensures clock == Moment(next, 0, 0, 0, 0)
  {
    NextDay(c, next, clock.date);
  }

  lemma FractionRead(x: Lexical, next: Date, d: Duration, clock: Moment)
    requires Shaped(x) && Passes(x) && clock == LocalMoment(x) && clock == Moment(next, 0, 0, 0, 0)
    requires DayTimeOnly(d) && DurationParts(d).1 == 0 && 0 <= next.year <= 9999
    ensures Shift(false, x, d) == Some(Written(clock, x))
  {
    NothingAdded(clock, d);
    NotLost(x, d);
    ShiftIsSum(false, x, d, clock, clock);
  }

  lemma NotLost(x: Lexical, d: Duration)
    requires DurationParts(d).1 == 0
    ensures !Lost(false, x, d)
  {}

  lemma NextDay(c: Date, next: Date, m: Date)
    requires ValidDate(c) && ValidDate(next) && next == c.(day := c.day + 1)
    requires ValidDate(m) && DayNumber(m) == DayNumber(c) + 1
    ensures m == next
  {
    DayNumberOrders(m, next);
  }

  lemma NothingAdded(clock: Moment, d: Duration)
    requires ValidMoment(clock) && DayTimeOnly(d) && DurationParts(d).1 == 0
    ensures StandardSum(clock, d) == clock
  {
    DayTimeMillis(clock, d);
    MillisInjective(StandardSum(clock, d), clock);
  }

  /** For one: 9999-12-31T24:00:00 - P1D is 9999-12-31T00:00:00, and the code gives null. */
  lemma MidnightIsLost(x: Lexical, d: Duration, sum: Moment)
    requires Shaped(x) && Real(x) && EndOfYear9999(x) && DayTimeOnly(d) && DurationParts(d).1 == 86400000
    requires sum == Moment(Date(9999, 12, 31), 0, 0, 0, 0)
    ensures Shift(true, x, d) == None && Standard(true, x, d) == Some(Written(sum, x))
  {
    LocalClock(x, LocalMoment(x));
    LastMidnightLost(x, d, sum, LocalMoment(x));
  }

  lemma LastMidnightLost(x: Lexical, d: Duration, sum: Moment, clock: Moment)
    requires Shaped(x) && Real(x) && EndOfYear9999(x) && DayTimeOnly(d) && DurationParts(d).1 == 86400000
    requires clock == LocalMoment(x) && StartOfYear10000(clock) && sum == Moment(Date(9999, 12, 31), 0, 0, 0, 0)
    ensures Shift(true, x, d) == None && Standard(true, x, d) == Some(Written(sum, x))
  {
    OneDay(d);
    var e := Negated(d);
    DayBefore10000(clock, e, sum);
    StandardOf(true, x, d, sum);
    ShiftIsSum(true, x, d, clock, sum);
  }

  lemma OneDay(d: Duration)
    requires DayTimeOnly(d) && DurationParts(d).1 == 86400000
    ensures DurationParts(Negated(d)).0 == 0 && DurationParts(Negated(d)).1 == -86400000
    ensures BoundParts(true, d) == DurationParts(Negated(d))
  {
    NegatedParts(d);
  }

  lemma LastMidnight(sum: Moment)
    requires sum == Moment(Date(9999, 12, 31), 0, 0, 0, 0)
    ensures ValidMoment(sum) && Millis(sum) == LAST_INSTANT + 1 - 86400000
  {
    LastDay(sum.date);
  }

  lemma DayBefore10000(clock: Moment, d: Duration, sum: Moment)
    requires ValidMoment(clock) && StartOfYear10000(clock) && DayTimeOnly(d) && DurationParts(d).1 == -86400000
    requires sum == Moment(Date(9999, 12, 31), 0, 0, 0, 0)
    ensures StandardSum(clock, d) == sum
  {
    DayTimeMillis(clock, d);
    LastMidnight(sum);
    MillisInjective(StandardSum(clock, d), sum);
  }

  lemma BoundPartsAre(subtract: bool, d: Duration)
    ensures BoundParts(subtract, d) == DurationParts(if subtract then Negated(d) else d)
  {
    NegatedParts(d);
  }

  predicate EndOfYear9999(x: Lexical) {
    Date(x.year, x.month, x.day) == Date(9999, 12, 31) && x.time.Some? && x.time.value.hour == 24
    && x.time.value.minute == 0 && x.time.value.second == 0
  }

  lemma LastDayIs(c: Date)
    requires ValidDate(c)
    ensures c == Date(9999, 12, 31) <==> DayNumber(c) == 3652424
  {
    var last :| last == Date(9999, 12, 31);
    LastDay(last);
    DayNumberOrders(c, last);
  }

  lemma NextDayInRange(c: Date, next: Date)
    requires ValidDate(c) && 0 <= c.year <= 9999 && ValidDate(next) && DayNumber(next) == DayNumber(c) + 1
    ensures 0 <= next.year <= 9999 || DayNumber(next) == 3652425
  {
    DayRange(c);
    DayRange(next);
  }

  /** 24:00:00 of a day is the start of year 10000 exactly on the last day of year 9999. */
  lemma MidnightOf(c: Date, next: Date, clock: Moment)
    requires ValidDate(c) && 0 <= c.year <= 9999 && ValidDate(next) && DayNumber(next) == DayNumber(c) + 1
    requires clock == Moment(next, 0, 0, 0, 0)
    ensures StartOfYear10000(clock) <==> c == Date(9999, 12, 31)
    ensures Clock(clock)
  {
    MillisAtMidnight(clock);
    LastDayIs(c);
    NextDayInRange(c, next);
  }

  lemma DayClock(x: Lexical, clock: Moment)
    requires ValidMoment(clock) && clock.date == Date(x.year, x.month, x.day) && x.year <= 9999
    ensures Clock(clock) && !StartOfYear10000(clock)
  {
    ClockOfYear(clock);
  }

  lemma MidnightClock(x: Lexical, clock: Moment)
    requires RealDay(x) && x.year <= 9999 && ValidMoment(clock)
    requires clock == NextMidnight(Date(x.year, x.month, x.day))
    ensures Clock(clock) && (StartOfYear10000(clock) <==> Date(x.year, x.month, x.day) == Date(9999, 12, 31))
  {
    MidnightOf(Date(x.year, x.month, x.day), clock.date, clock);
  }

  /** The clock of a dateTime is past year 9999 exactly for 9999-12-31T24:00:00. */
  lemma LocalClock(x: Lexical, clock: Moment)
    requires Shaped(x) && Passes(x) && clock == LocalMoment(x)
    ensures Clock(clock) && (StartOfYear10000(clock) <==> EndOfYear9999(x))
  {
    if x.time.Some? && x.time.value.hour == 24 { MidnightClock(x, clock); } else { DayClock(x, clock); }
  }

  /** The written result reads back as the sum: as the moment, or as its date. */
  lemma WrittenReadsBack(m: Moment, form: Lexical)
    requires ValidMoment(m) && 0 <= m.date.year <= 9999
    ensures
      var r := Written(m, form);
      && Shaped(r) && Real(r) && r.zone == form.zone && (r.time.None? <==> form.time.None?)
      && LocalMoment(r) == if form.time.None? then Moment(m.date, 0, 0, 0, 0) else m
  {}

  // ---- laws ----

  function MonthsOnly(months: int): Duration {
    if months >= 0 then Duration(false, 0, months, 0, 0, 0, 0) else Duration(true, 0, -months, 0, 0, 0, 0)
  }

  /** The month shift is the standard sum with a year-month duration. */
  lemma MonthShiftIsSum(s: Moment, months: int)
    requires ValidMoment(s)
    ensures StandardSum(s, MonthsOnly(months)) == s.(date := MonthShift(s.date, months))
  {
    StandardMillis(s, MonthsOnly(months));
    MonthsOnlyParts(months);
    MillisInjective(StandardSum(s, MonthsOnly(months)), s.(date := MonthShift(s.date, months)));
  }

  lemma MonthsOnlyParts(months: int)
    ensures DurationParts(MonthsOnly(months)) == (months, 0)
  {}

  /**
   Two month shifts reach the month of the one-shift sum, the day further limited by the
   length of the month between; exactly the one shift for days up to 28.
   */
  lemma MonthShiftsCompose(c: Date, a: int, b: int)
    requires ValidDate(c)
    ensures
      var via, once := MonthShift(c, a), MonthShift(c, a + b);
      MonthShift(via, b) == once.(day := Min(once.day, DaysInMonth(via.year, via.month)))
    ensures c.day <= 28 ==> MonthShift(MonthShift(c, a), b) == MonthShift(c, a + b)
  {
  }

  /** On dates a month shift never reverses an order. */
  lemma MonthShiftMonotone(c1: Date, c2: Date, months: int)
    requires ValidDate(c1) && ValidDate(c2) && DayNumber(c1) <= DayNumber(c2)
    ensures DayNumber(MonthShift(c1, months)) <= DayNumber(MonthShift(c2, months))
  {
    DayNumberOrders(c1, c2);
    DayNumberOrders(MonthShift(c2, months), MonthShift(c1, months));
  }

  /** Two dates are clamped together exactly when both are at or past the end of the month reached. */
  lemma ShiftedTogether(c1: Date, c2: Date, months: int)
    requires ValidDate(c1) && ValidDate(c2)
    ensures MonthShift(c1, months) == MonthShift(c2, months)
       <==> c1 == c2 || (c1.year == c2.year && c1.month == c2.month
                         && Min(c1.day, c2.day)
                              >= DaysInMonth(MonthShift(c1, months).year, MonthShift(c1, months).month))
  {}

  predicate ClampedInto(a: Moment, b: Moment, reached: Date) {
    && a.date.year == b.date.year && a.date.month == b.date.month
    && DaysInMonth(reached.year, reached.month) <= a.date.day < b.date.day
  }

  /**
   On dateTimes it can, and exactly then: the two lie in one month, both days are at or past
   the end of the month reached, and the later of the two has the earlier time of day.
   */
  lemma MonthShiftOrder(a: Moment, b: Moment, months: int)
    requires ValidMoment(a) && ValidMoment(b) && Millis(a) < Millis(b)
    ensures Millis(StandardSum(a, MonthsOnly(months))) > Millis(StandardSum(b, MonthsOnly(months)))
       <==> ClampedInto(a, b, MonthShift(a.date, months)) && TimeOfDay(a) > TimeOfDay(b)
  {
    MonthShiftIsSum(a, months);
    MonthShiftIsSum(b, months);
    MillisOrder(a, b);
    var ra, rb := MonthShift(a.date, months), MonthShift(b.date, months);
    MonthShiftMonotone(a.date, b.date, months);
    DayNumberOrders(ra, rb);
    MillisOrder(b.(date := rb), a.(date := ra));
    DayNumberOrders(a.date, b.date);
    ShiftedTogether(a.date, b.date, months);
  }

  /** Moments are ordered by the day, then by the time of day. */
  lemma MillisOrder(a: Moment, b: Moment)
    requires ValidMoment(a) && ValidMoment(b)
    ensures Millis(a) < Millis(b)
       <==> DayNumber(a.date) < DayNumber(b.date)
            || (DayNumber(a.date) == DayNumber(b.date) && TimeOfDay(a) < TimeOfDay(b))
  {
    assert 0 <= TimeOfDay(a) < 86400000 && 0 <= TimeOfDay(b) < 86400000;
  }

  /** Jan 30 23:00 and Jan 31 01:00 of any year, shifted by one month. */
  lemma MonthShiftReordersDateTimes(a: Moment, b: Moment, year: int)
    requires a == Moment(Date(year, 1, 30), 23, 0, 0, 0) && b == Moment(Date(year, 1, 31), 1, 0, 0, 0)
    ensures Millis(a) < Millis(b)
    ensures Millis(StandardSum(a, MonthsOnly(1))) > Millis(StandardSum(b, MonthsOnly(1)))
  {
    LastOfFebruary(a.date);
    DayNumberOrders(a.date, b.date);
    MillisOrder(a, b);
    MonthShiftOrder(a, b, 1);
  }

  lemma LastOfFebruary(c: Date)
    requires ValidDate(c) && c.month == 1 && c.day >= 30
    ensures MonthShift(c, 1) == Date(c.year, 2, DaysInMonth(c.year, 2))
  {}

  /** A day-time shift of a dateTime is undone by the opposite one while in range. */
  lemma DayTimeShiftUndone(x: Lexical, d: Duration)
    requires Shaped(x) && Passes(x) && x.time.Some? && DayTimeOnly(d)
    requires Shift(false, x, d).Some?
    ensures Shaped(Shift(false, x, d).value)
    ensures Shift(true, Shift(false, x, d).value, d) == Some(Written(LocalMoment(x), x))
  {
    var s := LocalMoment(x);
    LocalClock(x, LocalMoment(x));
    BoundPartsAre(false, d);
    NoMonthPart(d);
    var found := ShiftOfDay(false, x, d, s);
    ShiftClockIsSum(s, d);
    DayTimeSumUndone(s, d);
    var sum := StandardSum(s, d);
    WrittenReadsBack(sum, x);
    ShiftBack(Written(sum, x), sum, s, d);
    SameForm(sum, s, x);
  }

  /** The second shift starts from the first one's written result. */
  lemma ShiftBack(w: Lexical, sum: Moment, s: Moment, d: Duration)
    requires Shaped(w) && Passes(w) && LocalMoment(w) == sum && 0 <= sum.date.year <= 9999
    requires ValidMoment(s) && 0 <= s.date.year <= 9999 && StandardSum(sum, Negated(d)) == s
    ensures Shift(true, w, d) == Some(Written(s, w))
  {
    BoundPartsAre(true, d);
    ClockOfYear(sum);
    ShiftClockIsSum(sum, Negated(d));
    var found := ShiftOfDay(true, w, d, sum);
  }

  lemma ClockOfYear(clock: Moment)
    requires ValidMoment(clock) && 0 <= clock.date.year <= 9999
    ensures !StartOfYear10000(clock)
  {
    InstantRange(clock);
  }

  lemma SameForm(sum: Moment, s: Moment, x: Lexical)
    requires ValidMoment(sum) && sum.date.year >= 0 && ValidMoment(s) && s.date.year >= 0
    ensures Written(s, Written(sum, x)) == Written(s, x)
  {}

  lemma DayTimeSumUndone(s: Moment, d: Duration)
    requires ValidMoment(s) && DayTimeOnly(d)
    ensures StandardSum(StandardSum(s, d), Negated(d)) == s
  {
    DayTimeMillis(s, d);
    DayTimeMillis(StandardSum(s, d), Negated(d));
    NegatedParts(d);
    MillisInjective(StandardSum(StandardSum(s, d), Negated(d)), s);
  }

  lemma DayTimeMillis(s: Moment, d: Duration)
    requires ValidMoment(s) && DayTimeOnly(d)
    ensures Millis(StandardSum(s, d)) == Millis(s) + DurationParts(d).1
  {
    StandardMillis(s, d);
    NoMonths(s.date);
    assert s.(date := s.date) == s;
  }

  lemma NoMonths(c: Date)
    requires ValidDate(c)
    ensures MonthShift(c, 0) == c
  {}

  // ---- what the fields say ----

  function Pow10(n: nat): (p: nat)
    ensures p > 0
  {
    if n == 0 then 1 else 10 * Pow10(n - 1)
  }

  /** The number the digits write. */
  function DecimalValue(digits: seq<nat>): nat {
    if digits == [] then 0 else 10 * DecimalValue(digits[..|digits| - 1]) + digits[|digits| - 1]
  }

  lemma ShortFraction(f: seq<nat>)
    requires |f| <= 3
    ensures FractionMillis(f) * Pow10(|f|) == 1000 * DecimalValue(f)
  {
    if |f| == 1 {
      assert f[..0] == [];
    } else if |f| == 2 {
      assert f[..1][..0] == [] && DecimalValue(f[..1]) == f[0];
    } else if |f| == 3 {
      assert f[..2][..1] == f[..1] && f[..1][..0] == [] && DecimalValue(f[..1]) == f[0];
      assert DecimalValue(f[..2]) == 10 * f[0] + f[1];
    }
  }

  /** The milliseconds of a fraction are a thousand times its value. */
  lemma {:induction false} FractionIsRead(f: seq<nat>)
    requires forall k :: 3 <= k < |f| ==> f[k] == 0
    ensures FractionMillis(f) * Pow10(|f|) == 1000 * DecimalValue(f)
  {
    if |f| <= 3 {
      ShortFraction(f);
    } else {
      var init := f[..|f| - 1];
      FractionIsRead(init);
      assert FractionMillis(init) == FractionMillis(f);
      Tenfold(FractionMillis(f), Pow10(|init|), 1000 * DecimalValue(init));
    }
  }

  lemma Tenfold(a: nat, p: nat, v: nat)
    requires a * p == v
    ensures a * (10 * p) == 10 * v
  {}

  lemma SameFactor(a: nat, b: nat, p: nat)
    requires p > 0 && a * p == b * p
    ensures a == b
  {
    if a < b { FactorRises(a, b, p); }
    if b < a { FactorRises(b, a, p); }
  }

  lemma FactorRises(a: nat, b: nat, p: nat)
    requires p > 0 && a < b
    ensures a * p < b * p
  {}

  /** `ms` is the fraction in milliseconds. */
  predicate IsMillis(ms: nat, fraction: seq<nat>) {
    ms * Pow10(|fraction|) == 1000 * DecimalValue(fraction)
  }

  /** The milliseconds from 0000-01-01 that the fields name, days and all, the fraction being `ms`. */
  function Named(x: Lexical, ms: nat): int
    requires 1 <= x.month <= 12
  {
    DayNumber(Date(x.year, x.month, x.day)) * 86400000
    + match x.time
      case None => 0
      case Some(t) => ((t.hour * 60 + t.minute) * 60 + t.second) * 1000 + ms
  }

  /** `ms` is the fraction of the time, if there is a time. */
  predicate FractionOf(x: Lexical, ms: nat) {
    match x.time
    case None => ms == 0
    case Some(t) => IsMillis(ms, t.fraction)
  }

  /** The clock stands at the milliseconds the fields name, 24:00:00 being the midnight that follows. */
  lemma ClockIsNamed(x: Lexical, ms: nat)
    requires Shaped(x) && Real(x) && FractionOf(x, ms)
    ensures DayNumber(LocalMoment(x).date) * 86400000 + TimeOfDay(LocalMoment(x)) == Named(x, ms)
    ensures x.time.None? || x.time.value.hour < 24 ==> LocalMoment(x).date == Date(x.year, x.month, x.day)
  {
    if x.time.Some? {
      var f := x.time.value.fraction;
      MillisAre(f, ms);
    }
  }

  /** What is written names the moment, or its day for a date, in the fields of the calendar and the clock. */
  lemma WrittenIsNamed(m: Moment, form: Lexical, ms: nat)
    requires ValidMoment(m) && 0 <= m.date.year <= 9999 && FractionOf(Written(m, form), ms)
    ensures
      var r := Written(m, form);
      && 1 <= r.month <= 12 && Real(r) && r.zone == form.zone && (r.time.None? <==> form.time.None?)
      && (r.time.Some? ==> r.time.value.hour < 24 && ms < 1000 && |r.time.value.fraction| <= 3)
      && Named(r, ms) == DayNumber(m.date) * 86400000 + if form.time.None? then 0 else TimeOfDay(m)
  {
    WrittenReadsBack(m, form);
    var r := Written(m, form);
    ClockIsNamed(r, ms);
    if r.time.Some? {
      MillisAre(r.time.value.fraction, ms);
    }
  }

  /** The milliseconds of a duration's day-time fields, with its sign. */
  function DayTime(d: Duration): int {
    var ms := ((d.days * 24 + d.hours) * 60 + d.minutes) * 60000 + d.millis;
    if d.negative then -ms else ms
  }

  lemma DayTimeParts(d: Duration)
    ensures DurationParts(d).1 == DayTime(d) && DayTime(Negated(d)) == -DayTime(d)
  {}

  /**
   A day-time duration moves the named milliseconds by exactly its own, both read off the fields:
   those of the input, those of the result, and those of the duration. A date is moved to the day
   the sum falls on.
   */
  lemma DayTimeShiftMoves(subtract: bool, x: Lexical, d: Duration, r: Lexical, before: nat, after: nat)
    requires Shaped(x) && Real(x) && DayTimeOnly(d) && Shift(subtract, x, d) == Some(r)
    requires FractionOf(x, before) && FractionOf(r, after)
    ensures 1 <= r.month <= 12 && ValidDate(Date(r.year, r.month, r.day)) && r.zone == x.zone
    ensures r.time.None? <==> x.time.None?
    ensures r.time.Some? ==>
              r.time.value.hour < 24 && r.time.value.minute < 60 && r.time.value.second < 60 && after < 1000
    ensures
      var moved := Named(x, before) + (if subtract then -DayTime(d) else DayTime(d));
      if x.time.Some? then Named(r, after) == moved else Named(r, after) <= moved < Named(r, after) + 86400000
  {
    var clock, e := LocalMoment(x), Added(subtract, d);
    var sum := StandardSum(clock, e);
    ClockIsNamed(x, before);
    DayTimeParts(d);
    NegatedDayTime(subtract, d);
    ShiftIsSum(subtract, x, d, clock, sum);
    DayTimeMillis(clock, e);
    DayTimeParts(e);
    WrittenIsNamed(sum, x, after);
  }

  /**
   A year-month duration moves the month by exactly its own, limits the day to the month it comes to,
   and leaves the time as it was.
   */
  lemma MonthShiftMoves(subtract: bool, x: Lexical, d: Duration, r: Lexical, before: nat, after: nat)
    requires Shaped(x) && Real(x) && (x.time.Some? ==> x.time.value.hour < 24) && DayTime(d) == 0
    requires Shift(subtract, x, d) == Some(r) && FractionOf(x, before) && FractionOf(r, after)
    ensures
      var months := if subtract != d.negative then -(d.years * 12 + d.months) else d.years * 12 + d.months;
      && 1 <= r.month <= 12 && r.year * 12 + r.month == x.year * 12 + x.month + months
      && r.day == Min(x.day, DaysInMonth(r.year, r.month)) && r.zone == x.zone
    ensures r.time.None? <==> x.time.None?
    ensures x.time.Some? ==>
              var t, u := x.time.value, r.time.value;
              u.hour == t.hour && u.minute == t.minute && u.second == t.second && after == before
  {
    var clock, e := LocalMoment(x), Added(subtract, d);
    MonthResult(subtract, x, d, r, clock, DurationParts(e).0);
    MonthPart(subtract, d);
    MonthMoved(x, clock, DurationParts(e).0, r, before, after);
  }

  lemma MillisAre(f: seq<nat>, ms: nat)
    requires IsMillis(ms, f) && forall k :: 3 <= k < |f| ==> f[k] == 0
    ensures ms == FractionMillis(f)
  {
    FractionIsRead(f);
    SameFactor(ms, FractionMillis(f), Pow10(|f|));
  }

  lemma MonthMoved(x: Lexical, clock: Moment, months: int, r: Lexical, before: nat, after: nat)
    requires Shaped(x) && Real(x) && (x.time.Some? ==> x.time.value.hour < 24) && clock == LocalMoment(x)
    requires MonthShift(clock.date, months).year >= 0 && r == Written(clock.(date := MonthShift(clock.date, months)), x)
    requires FractionOf(x, before) && FractionOf(r, after)
    ensures 1 <= r.month <= 12 && r.year * 12 + r.month == x.year * 12 + x.month + months
    ensures r.day == Min(x.day, DaysInMonth(r.year, r.month)) && r.zone == x.zone
    ensures r.time.None? <==> x.time.None?
    ensures x.time.Some? ==>
              var t, u := x.time.value, r.time.value;
              u.hour == t.hour && u.minute == t.minute && u.second == t.second && after == before
  {
    if x.time.Some? {
      MillisAre(x.time.value.fraction, before);
      MillisAre(r.time.value.fraction, after);
    }
  }

  lemma MonthResult(subtract: bool, x: Lexical, d: Duration, r: Lexical, clock: Moment, months: int)
    requires Shaped(x) && Real(x) && DayTime(d) == 0 && Shift(subtract, x, d) == Some(r) && clock == LocalMoment(x)
    requires months == DurationParts(Added(subtract, d)).0
    ensures MonthShift(clock.date, months).year >= 0 && r == Written(clock.(date := MonthShift(clock.date, months)), x)
  {
    var sum := StandardSum(clock, Added(subtract, d));
    ShiftIsSum(subtract, x, d, clock, sum);
    MonthPart(subtract, d);
    MonthSum(clock, Added(subtract, d), sum);
  }

  lemma MonthPart(subtract: bool, d: Duration)
    requires DayTime(d) == 0
    ensures DurationParts(Added(subtract, d)).1 == 0
    ensures DurationParts(Added(subtract, d)).0
         == if subtract != d.negative then -(d.years * 12 + d.months) else d.years * 12 + d.months
  {}

  /** Months alone move the date and nothing else. */
  lemma MonthSum(clock: Moment, e: Duration, sum: Moment)
    requires ValidMoment(clock) && sum == StandardSum(clock, e) && DurationParts(e).1 == 0
    ensures sum == clock.(date := MonthShift(clock.date, DurationParts(e).0))
  {
    StandardMillis(clock, e);
    MillisInjective(sum, clock.(date := MonthShift(clock.date, DurationParts(e).0)));
  }
}
