/** Reading an xsd:duration's text, and the TIMEZONE builtin that writes one. */
module DurationText {
  import opened Collections
  import opened Decimals
  import D = DateShift

  // ---- the lexical fields ----

  /** A number as it is written, leading zeros and all. */
  type Digits = s: string | s != "" && AllDigits(s) witness "0"

  datatype Seconds = Seconds(whole: Digits, fraction: Option<Digits>)

  /** Which fields a duration's text has, with their digits. */
  datatype Fields = Fields(
    negative: bool, years: Option<Digits>, months: Option<Digits>, days: Option<Digits>,
    hours: Option<Digits>, minutes: Option<Digits>, seconds: Option<Seconds>)

  predicate HasTime(f: Fields) {
    f.hours.Some? || f.minutes.Some? || f.seconds.Some?
  }

  /** Some field is present. */
  predicate NonEmpty(f: Fields) {
    f.years.Some? || f.months.Some? || f.days.Some? || HasTime(f)
  }

  function FieldText(v: Option<Digits>, unit: char): string {
    match v case None => "" case Some(digits) => digits + [unit]
  }

  function SecondsText(v: Option<Seconds>): string {
    match v
    case None => ""
    case Some(s) => s.whole + (match s.fraction case None => "" case Some(digits) => "." + digits) + "S"
  }

  function TimeText(f: Fields): string {
    FieldText(f.hours, 'H') + (FieldText(f.minutes, 'M') + SecondsText(f.seconds))
  }

  function DateText(f: Fields): string {
    FieldText(f.years, 'Y')
      + (FieldText(f.months, 'M') + (FieldText(f.days, 'D') + if HasTime(f) then "T" + TimeText(f) else ""))
  }

  function Text(f: Fields): string {
    (if f.negative then "-" else "") + "P" + DateText(f)
  }

  // ---- the reader ----

  /** An optional number with its unit at the start of `s`, and what follows. */
  function ReadField(s: string, unit: char): (Option<Digits>, string) {
    var n := DigitRun(s);
    if 0 < n < |s| && s[n] == unit then (Some(s[..n]), s[n + 1..]) else (None, s)
  }

  function ReadSeconds(s: string): (Option<Seconds>, string) {
    var n := DigitRun(s);
    if n == 0 || n == |s| then (None, s)
    else if s[n] == 'S' then (Some(Seconds(s[..n], None)), s[n + 1..])
    else if s[n] == '.' then
      var rest := s[n + 1..];
      var m := DigitRun(rest);
      if 0 < m < |rest| && rest[m] == 'S' then (Some(Seconds(s[..n], Some(rest[..m]))), rest[m + 1..]) else (None, s)
    else (None, s)
  }

  function MatchTime(negative: bool, y: Option<Digits>, mo: Option<Digits>, d: Option<Digits>,
                     s: string): Option<Fields> {
    var (h, s1) := ReadField(s, 'H');
    var (mi, s2) := ReadField(s1, 'M');
    var (sec, s3) := ReadSeconds(s2);
    if s3 == "" then Some(Fields(negative, y, mo, d, h, mi, sec)) else None
  }

  function MatchDate(negative: bool, s: string): Option<Fields> {
    var (y, s1) := ReadField(s, 'Y');
    var (mo, s2) := ReadField(s1, 'M');
    var (d, s3) := ReadField(s2, 'D');
    if s3 == "" then Some(Fields(negative, y, mo, d, None, None, None))
    else if s3[0] != 'T' then None
    else MatchTime(negative, y, mo, d, s3[1..])
  }

  /** The groups the duration pattern matches on the whole text, if it matches. */
  function Match(lexical: string): Option<Fields> {
    var negative := lexical != "" && lexical[0] == '-';
    var s := if negative then lexical[1..] else lexical;
    if s == "" || s[0] != 'P' then None else MatchDate(negative, s[1..])
  }

  datatype Reading = Parts(months: int, millis: int) | NotADuration | TooFine

  /** Seconds in milliseconds, when their fraction is no finer. */
  function SecondMillis(s: Seconds): Option<nat> {
    match s.fraction
    case None => Some(Undec(s.whole) * 1000)
    case Some(digits) =>
      if |digits| > 3 && Undec(digits[3..]) != 0 then None
      else
        var f := if |digits| >= 3 then digits[..3] else digits + seq(3 - |digits|, i => '0');
        Some(Undec(s.whole) * 1000 + Undec(f))
  }

  function Value(v: Option<Digits>): nat {
    match v case None => 0 case Some(digits) => Undec(digits)
  }

  /** The reading of matched fields. */
  function PartsOf(f: Fields): Reading {
    match (if f.seconds.Some? then SecondMillis(f.seconds.value) else Some(0))
    case None => TooFine
    case Some(ms) =>
      var (months, millis) := D.DurationParts(D.Duration(
        f.negative, Value(f.years), Value(f.months), Value(f.days), Value(f.hours), Value(f.minutes), ms));
      Parts(months, millis)
  }

  /** `duration_parts` of a text rdflib did not mark ill-typed. */
  function DurationParts(lexical: string): Reading {
    match Match(lexical)
    case None => NotADuration
    case Some(f) =>
      if lexical == "P" || lexical == "-P" || lexical[|lexical| - 1] == 'T' then NotADuration else PartsOf(f)
  }

  // ---- what is written is read back ----

  /** What can stand after a number's unit never continues a number. */
  predicate StartsField(s: string, units: set<char>) {
    s == "" || s[0] == 'T' || (0 < DigitRun(s) < |s| && s[DigitRun(s)] in units)
  }

  lemma NumberRead(digits: Digits, unit: char, rest: string)
    requires !IsDigit(unit)
    ensures ReadField(digits + [unit] + rest, unit) == (Some(digits), rest)
    ensures DigitRun(digits + [unit] + rest) == |digits|
  {
    var s := digits + [unit] + rest;
    assert s == digits + ([unit] + rest);
    AfterDigits(digits, unit, rest);
  }

  /** A field's text is read as the field, and what follows is left. */
  lemma FieldRead(v: Option<Digits>, unit: char, rest: string, units: set<char>)
    requires !IsDigit(unit) && unit != 'T' && unit !in units && StartsField(rest, units)
    ensures ReadField(FieldText(v, unit) + rest, unit) == (v, rest)
    ensures StartsField(FieldText(v, unit) + rest, units + {unit})
  {
    match v
    case None =>
      assert FieldText(v, unit) + rest == rest;
    case Some(digits) =>
      NumberRead(digits, unit, rest);
  }

  lemma AfterDigits(w: string, c: char, rest: string)
    requires AllDigits(w) && !IsDigit(c)
    ensures var s := w + ([c] + rest);
            DigitRun(s) == |w| < |s| && s[|w|] == c && s[..|w|] == w && s[|w| + 1..] == rest
  {
    DigitRunOf(w, [c] + rest);
  }

  lemma WholeSecondsRead(w: Digits)
    ensures ReadSeconds(w + "S") == (Some(Seconds(w, None)), "") && StartsField(w + "S", {'S', '.'})
  {
    AfterDigits(w, 'S', "");
    assert w + (['S'] + "") == w + "S";
  }

  lemma FractionRead(w: Digits, fraction: Digits, text: string)
    requires text == w + (['.'] + (fraction + (['S'] + "")))
    ensures ReadSeconds(text) == (Some(Seconds(w, Some(fraction))), "") && StartsField(text, {'S', '.'})
  {
    AfterDigits(w, '.', fraction + (['S'] + ""));
    AfterDigits(fraction, 'S', "");
  }

  lemma SecondsRead(v: Option<Seconds>)
    ensures ReadSeconds(SecondsText(v)) == (v, "")
    ensures StartsField(SecondsText(v), {'S', '.'})
  {
    if v.Some? {
      var w := v.value.whole;
      if v.value.fraction.None? {
        WholeSecondsRead(w);
        assert SecondsText(v) == w + "S";
      } else {
        var fraction := v.value.fraction.value;
        assert SecondsText(v) == w + (['.'] + (fraction + (['S'] + "")));
        FractionRead(w, fraction, SecondsText(v));
      }
    }
  }

  lemma TimeRead(f: Fields)
    ensures MatchTime(f.negative, f.years, f.months, f.days, TimeText(f)) == Some(f)
  {
    SecondsRead(f.seconds);
    FieldRead(f.minutes, 'M', SecondsText(f.seconds), {'S', '.'});
    FieldRead(f.hours, 'H', FieldText(f.minutes, 'M') + SecondsText(f.seconds), {'S', '.', 'M'});
  }

  lemma DateRead(f: Fields, tail: string)
    requires tail == "" || tail[0] == 'T'
    ensures var text := FieldText(f.years, 'Y') + (FieldText(f.months, 'M') + (FieldText(f.days, 'D') + tail));
            var (y, s1) := ReadField(text, 'Y');
            var (mo, s2) := ReadField(s1, 'M');
            y == f.years && mo == f.months && ReadField(s2, 'D') == (f.days, tail)
  {
    FieldRead(f.days, 'D', tail, {});
    FieldRead(f.months, 'M', FieldText(f.days, 'D') + tail, {'D'});
    FieldRead(f.years, 'Y', FieldText(f.months, 'M') + (FieldText(f.days, 'D') + tail), {'D', 'M'});
  }

  lemma DateMatched(f: Fields)
    ensures MatchDate(f.negative, DateText(f)) == Some(f)
  {
    var tail := if HasTime(f) then "T" + TimeText(f) else "";
    DateRead(f, tail);
    if HasTime(f) {
      TimeRead(f);
      assert tail[1..] == TimeText(f);
    }
  }

  /** Every combination of fields is matched as written. */
  lemma TextIsMatched(f: Fields)
    ensures Match(Text(f)) == Some(f)
  {
    DateMatched(f);
    SignMatched(f.negative, DateText(f));
  }

  lemma SignMatched(negative: bool, body: string)
    ensures Match((if negative then "-" else "") + "P" + body) == MatchDate(negative, body)
  {
    var s := (if negative then "-" else "") + "P" + body;
    var s0 := "P" + body;
    assert s0[1..] == body;
    if negative { assert s[1..] == s0; } else { assert s == s0; }
  }

  lemma LastOf(a: string, b: string)
    requires b != ""
    ensures (a + b)[|a + b| - 1] == b[|b| - 1]
  {}

  /** A written duration ends with a unit. */
  lemma TextEnds(f: Fields)
    requires NonEmpty(f)
    ensures Text(f)[|Text(f)| - 1] != 'T' && Text(f) != "P" && Text(f) != "-P"
  {
    var unit := if f.seconds.Some? then 'S' else if f.minutes.Some? then 'M' else if f.hours.Some? then 'H'
                else if f.days.Some? then 'D' else if f.months.Some? then 'M' else 'Y';
    if HasTime(f) {
      assert TimeText(f)[|TimeText(f)| - 1] == unit;
      assert DateText(f)[|DateText(f)| - 1] == unit;
    } else {
      assert DateText(f)[|DateText(f)| - 1] == unit;
    }
    LastOf((if f.negative then "-" else "") + "P", DateText(f));
  }

  /** `duration_parts` of any written duration is the reading of its fields. */
  lemma WrittenDurationIsRead(f: Fields)
    requires NonEmpty(f)
    ensures DurationParts(Text(f)) == PartsOf(f)
  {
    TextIsMatched(f);
    TextEnds(f);
  }

  // ---- what the digits mean ----

  lemma Zeros(n: nat)
    ensures AllDigits(seq(n, i => '0')) && Undec(seq(n, i => '0')) == 0
  {
    var zeros := seq(n, i => '0');
    if n > 0 {
      Zeros(n - 1);
      assert zeros[..n - 1] == seq(n - 1, i => '0');
    }
  }

  lemma {:induction false} UndecBelow(b: string)
    requires AllDigits(b)
    ensures Undec(b) < D.Pow10(|b|)
  {
    if b != "" { UndecBelow(b[..|b| - 1]); }
  }

  /** Digits written behind others. */
  lemma {:induction false} UndecAppend(a: string, b: string)
    requires AllDigits(a) && AllDigits(b)
    ensures AllDigits(a + b) && Undec(a + b) == Undec(a) * D.Pow10(|b|) + Undec(b)
    decreases |b|
  {
    if b == "" {
      assert a + b == a;
    } else {
      var init := b[..|b| - 1];
      UndecAppend(a, init);
      assert (a + b)[..|a + b| - 1] == a + init;
      MoveUp(Undec(a), D.Pow10(|init|), Undec(init), DigitValue(b[|b| - 1]));
    }
  }

  lemma MoveUp(a: nat, p: nat, b: nat, d: nat)
    ensures 10 * (a * p + b) + d == a * (10 * p) + (10 * b + d)
  {}

  /** The fraction in milliseconds: a thousand times what the digits behind the point are worth. */
  predicate IsFraction(fraction: nat, digits: Digits) {
    Undec(digits) * 1000 == fraction * D.Pow10(|digits|)
  }

  lemma ShortIsWhole(digits: Digits, f: string)
    requires |digits| < 3 && f == digits + seq(3 - |digits|, i => '0')
    ensures AllDigits(f) && IsFraction(Undec(f), digits)
  {
    Zeros(3 - |digits|);
    UndecAppend(digits, seq(3 - |digits|, i => '0'));
    assert D.Pow10(1) == 10 && D.Pow10(2) == 100;
  }

  lemma PowSplit(m: nat)
    ensures D.Pow10(3 + m) == 1000 * D.Pow10(m)
  {
    assert D.Pow10(3 + m) == 10 * D.Pow10(2 + m) && D.Pow10(2 + m) == 10 * D.Pow10(1 + m);
  }

  lemma LongFraction(digits: Digits, fraction: nat)
    requires |digits| >= 3
    ensures IsFraction(fraction, digits)
       <==> fraction * D.Pow10(|digits| - 3) == Undec(digits[..3]) * D.Pow10(|digits| - 3) + Undec(digits[3..])
  {
    assert digits == digits[..3] + digits[3..];
    UndecAppend(digits[..3], digits[3..]);
    PowSplit(|digits| - 3);
    Thousandfold(fraction, D.Pow10(|digits| - 3), Undec(digits));
  }

  lemma Thousandfold(a: nat, p: nat, v: nat)
    ensures v * 1000 == a * (1000 * p) <==> a * p == v
  {
    assert a * (1000 * p) == 1000 * (a * p);
  }

  /** Between two multiples there is none. */
  lemma NoMultipleBetween(a: nat, b: nat, p: nat, rest: nat)
    requires 0 < rest < p
    ensures a * p != b * p + rest
  {
    if a <= b { Multiples(a, b, p); } else { Multiples(b + 1, a, p); }
  }

  lemma Multiples(a: nat, b: nat, p: nat)
    requires a <= b
    ensures a * p <= b * p
  {}

  /** Seconds are read exactly when their fraction is a whole number of milliseconds. */
  lemma FractionIsRead(s: Seconds)
    requires s.fraction.Some?
    ensures SecondMillis(s).Some? ==>
              SecondMillis(s).value >= Undec(s.whole) * 1000
              && IsFraction(SecondMillis(s).value - Undec(s.whole) * 1000, s.fraction.value)
    ensures SecondMillis(s).None? ==> forall fraction: nat :: !IsFraction(fraction, s.fraction.value)
  {
    var digits := s.fraction.value;
    if |digits| < 3 {
      ShortIsWhole(digits, digits + seq(3 - |digits|, i => '0'));
    } else if Undec(digits[3..]) == 0 {
      LongFraction(digits, Undec(digits[..3]));
      if |digits| == 3 { assert digits[3..] == ""; }
    } else {
      forall fraction: nat ensures !IsFraction(fraction, digits) {
        LongFraction(digits, fraction);
        UndecBelow(digits[3..]);
        NoMultipleBetween(fraction, Undec(digits[..3]), D.Pow10(|digits| - 3), Undec(digits[3..]));
      }
    }
  }

  lemma OneFraction(a: nat, b: nat, digits: Digits)
    requires IsFraction(a, digits) && IsFraction(b, digits)
    ensures a == b
  {
    D.SameFactor(a, b, D.Pow10(|digits|));
  }

  /** `fraction` is the milliseconds behind the point, none if there is no point. */
  predicate FractionOf(f: Fields, fraction: nat) {
    if f.seconds.Some? && f.seconds.value.fraction.Some? then IsFraction(fraction, f.seconds.value.fraction.value)
    else fraction == 0
  }

  lemma SecondsOf(f: Fields, fraction: nat)
    requires FractionOf(f, fraction) && f.seconds.Some?
    ensures SecondMillis(f.seconds.value) == Some(Undec(f.seconds.value.whole) * 1000 + fraction)
  {
    var s := f.seconds.value;
    if s.fraction.Some? {
      FractionIsRead(s);
      if SecondMillis(s).Some? {
        OneFraction(fraction, SecondMillis(s).value - Undec(s.whole) * 1000, s.fraction.value);
      }
    }
  }

  lemma SignedParts(negative: bool, years: nat, months: nat, days: nat, hours: nat, minutes: nat, ms: nat)
    ensures
      var parts := D.DurationParts(D.Duration(negative, years, months, days, hours, minutes, ms));
      && parts.0 == (if negative then -(12 * years + months) else 12 * years + months)
      && parts.1 == if negative then -(((days * 24 + hours) * 60 + minutes) * 60000 + ms)
                    else ((days * 24 + hours) * 60 + minutes) * 60000 + ms
  {}

  /** The number a field has, none for a field that is not there. */
  predicate Stands(n: nat, v: Option<Digits>) {
    if v.Some? then n == Undec(v.value) else n == 0
  }

  lemma MillisAre(f: Fields, seconds: nat, fraction: nat)
    requires FractionOf(f, fraction) && seconds == if f.seconds.Some? then Undec(f.seconds.value.whole) else 0
    ensures if f.seconds.Some? then SecondMillis(f.seconds.value) == Some(1000 * seconds + fraction)
            else seconds == fraction == 0
  {
    if f.seconds.Some? { SecondsOf(f, fraction); }
  }

  /** The reading of so many months and milliseconds, with the sign. */
  predicate Reads(r: Reading, negative: bool, months: nat, millis: nat) {
    r == if negative then Parts(-(months as int), -(millis as int)) else Parts(months, millis)
  }

  lemma PartsAre(f: Fields, years: nat, months: nat, days: nat, hours: nat, minutes: nat, ms: nat)
    requires Stands(years, f.years) && Stands(months, f.months)
    requires Stands(days, f.days) && Stands(hours, f.hours) && Stands(minutes, f.minutes)
    requires if f.seconds.Some? then SecondMillis(f.seconds.value) == Some(ms) else ms == 0
    ensures Reads(PartsOf(f), f.negative, 12 * years + months, ((days * 24 + hours) * 60 + minutes) * 60000 + ms)
  {
    SignedParts(f.negative, years, months, days, hours, minutes, ms);
  }

  lemma FieldsMean(f: Fields, years: nat, months: nat, days: nat, hours: nat, minutes: nat, seconds: nat, fraction: nat)
    requires FractionOf(f, fraction) && seconds == if f.seconds.Some? then Undec(f.seconds.value.whole) else 0
    requires Stands(years, f.years) && Stands(months, f.months)
    requires Stands(days, f.days) && Stands(hours, f.hours) && Stands(minutes, f.minutes)
    ensures Reads(PartsOf(f), f.negative, 12 * years + months,
                  ((days * 24 + hours) * 60 + minutes) * 60000 + (1000 * seconds + fraction))
  {
    MillisAre(f, seconds, fraction);
    PartsAre(f, years, months, days, hours, minutes, 1000 * seconds + fraction);
  }

  /**
   Every written duration is read as the months and the milliseconds its digits mean: twelve months to
   a year; days, hours, minutes and seconds by their lengths; the fraction by its place; all with the sign.
   */
  lemma WrittenDurationMeans(f: Fields, years: nat, months: nat, days: nat, hours: nat, minutes: nat, seconds: nat,
                             fraction: nat)
    requires NonEmpty(f) && FractionOf(f, fraction)
    requires seconds == if f.seconds.Some? then Undec(f.seconds.value.whole) else 0
    requires Stands(years, f.years) && Stands(months, f.months)
    requires Stands(days, f.days) && Stands(hours, f.hours) && Stands(minutes, f.minutes)
    ensures Reads(DurationParts(Text(f)), f.negative, 12 * years + months,
                  ((days * 24 + hours) * 60 + minutes) * 60000 + (1000 * seconds + fraction))
  {
    WrittenDurationIsRead(f);
    FieldsMean(f, years, months, days, hours, minutes, seconds, fraction);
  }

  /** And it is refused exactly when no whole number of milliseconds is its fraction. */
  lemma TooFineExactly(f: Fields)
    requires NonEmpty(f)
    ensures DurationParts(Text(f)) == TooFine <==> forall fraction: nat :: !FractionOf(f, fraction)
  {
    WrittenDurationIsRead(f);
    if f.seconds.Some? && f.seconds.value.fraction.Some? {
      FractionIsRead(f.seconds.value);
      forall fraction: nat ensures FractionOf(f, fraction) <==> IsFraction(fraction, f.seconds.value.fraction.value) {}
    } else {
      assert FractionOf(f, 0);
    }
  }

  /** A date with one field. */
  lemma DateUnit(n: Digits, f: Fields, unit: char, text: string)
    requires !f.negative && !HasTime(f) && NonEmpty(f) && DateText(f) == n + [unit] && text == "P" + n + [unit]
    ensures DurationParts(text) == PartsOf(f)
  {
    assert Text(f) == text;
    WrittenDurationIsRead(f);
  }

  /** A time with one field. */
  lemma TimeUnit(n: Digits, f: Fields, unit: char, text: string)
    requires !f.negative && HasTime(f) && f.years.None? && f.months.None? && f.days.None? && TimeText(f) == n + [unit]
    requires text == "PT" + n + [unit]
    ensures DurationParts(text) == PartsOf(f)
  {
    assert DateText(f) == "T" + (n + [unit]);
    assert Text(f) == "P" + ("T" + (n + [unit]));
    assert Text(f) == text;
    WrittenDurationIsRead(f);
  }

  lemma YearsRead(n: Digits, f: Fields, v: nat)
    requires v == Undec(n) && f == Fields(false, Some(n), None, None, None, None, None)
    ensures DurationParts("P" + n + "Y") == Parts(12 * v, 0)
  {
    DateUnit(n, f, 'Y', "P" + n + "Y");
    PartsAre(f, v, 0, 0, 0, 0, 0);
  }

  lemma MonthsRead(n: Digits, f: Fields, v: nat)
    requires v == Undec(n) && f == Fields(false, None, Some(n), None, None, None, None)
    ensures DurationParts("P" + n + "M") == Parts(v, 0)
  {
    DateUnit(n, f, 'M', "P" + n + "M");
    PartsAre(f, 0, v, 0, 0, 0, 0);
  }

  lemma DaysRead(n: Digits, f: Fields, v: nat)
    requires v == Undec(n) && f == Fields(false, None, None, Some(n), None, None, None)
    ensures DurationParts("P" + n + "D") == Parts(0, 86400000 * v)
  {
    DateUnit(n, f, 'D', "P" + n + "D");
    PartsAre(f, 0, 0, v, 0, 0, 0);
  }

  lemma HoursRead(n: Digits, f: Fields, v: nat)
    requires v == Undec(n) && f == Fields(false, None, None, None, Some(n), None, None)
    ensures DurationParts("PT" + n + "H") == Parts(0, 3600000 * v)
  {
    TimeUnit(n, f, 'H', "PT" + n + "H");
    PartsAre(f, 0, 0, 0, v, 0, 0);
  }

  lemma MinutesRead(n: Digits, f: Fields, v: nat)
    requires v == Undec(n) && f == Fields(false, None, None, None, None, Some(n), None)
    ensures DurationParts("PT" + n + "M") == Parts(0, 60000 * v)
  {
    TimeUnit(n, f, 'M', "PT" + n + "M");
    PartsAre(f, 0, 0, 0, 0, v, 0);
  }

  lemma SecondsAlone(n: Digits, f: Fields, v: nat)
    requires v == Undec(n) && f == Fields(false, None, None, None, None, None, Some(Seconds(n, None)))
    ensures DurationParts("PT" + n + "S") == Parts(0, 1000 * v)
  {
    TimeUnit(n, f, 'S', "PT" + n + "S");
    PartsAre(f, 0, 0, 0, 0, 0, 1000 * v);
  }

  /** The letters: what each field alone is written as, and read as. */
  lemma UnitsAreRead(n: Digits)
    ensures DurationParts("P" + n + "Y") == Parts(12 * Undec(n), 0)
    ensures DurationParts("P" + n + "M") == Parts(Undec(n), 0)
    ensures DurationParts("P" + n + "D") == Parts(0, 86400000 * Undec(n))
    ensures DurationParts("PT" + n + "H") == Parts(0, 3600000 * Undec(n))
    ensures DurationParts("PT" + n + "M") == Parts(0, 60000 * Undec(n))
    ensures DurationParts("PT" + n + "S") == Parts(0, 1000 * Undec(n))
  {
    YearsRead(n, Fields(false, Some(n), None, None, None, None, None), Undec(n));
    MonthsRead(n, Fields(false, None, Some(n), None, None, None, None), Undec(n));
    DaysRead(n, Fields(false, None, None, Some(n), None, None, None), Undec(n));
    HoursRead(n, Fields(false, None, None, None, Some(n), None, None), Undec(n));
    MinutesRead(n, Fields(false, None, None, None, None, Some(n), None), Undec(n));
    SecondsAlone(n, Fields(false, None, None, None, None, None, Some(Seconds(n, None))), Undec(n));
  }

  lemma FieldIsText(s: string, unit: char)
    ensures s == FieldText(ReadField(s, unit).0, unit) + ReadField(s, unit).1
  {}

  lemma FractionIsText(w: Digits, rest: string, m: nat)
    requires 0 < m < |rest| && AllDigits(rest[..m]) && rest[m] == 'S'
    ensures w + "." + rest == SecondsText(Some(Seconds(w, Some(rest[..m])))) + rest[m + 1..]
  {
    assert rest == rest[..m] + "S" + rest[m + 1..];
  }

  lemma SecondsAreText(s: string)
    ensures s == SecondsText(ReadSeconds(s).0) + ReadSeconds(s).1
  {
    var n := DigitRun(s);
    if 0 < n < |s| && s[n] == '.' {
      var rest := s[n + 1..];
      assert s == s[..n] + "." + rest;
      var m := DigitRun(rest);
      if 0 < m < |rest| && rest[m] == 'S' { FractionIsText(s[..n], rest, m); }
    } else if 0 < n < |s| && s[n] == 'S' {
      assert s == s[..n] + "S" + s[n + 1..];
    }
  }

  lemma TimeIsText(f: Fields, s: string)
    requires MatchTime(f.negative, f.years, f.months, f.days, s) == Some(f)
    ensures s == TimeText(f)
  {
    var (h, s1) := ReadField(s, 'H');
    var (mi, s2) := ReadField(s1, 'M');
    FieldIsText(s, 'H');
    FieldIsText(s1, 'M');
    SecondsAreText(s2);
    assert SecondsText(f.seconds) + "" == SecondsText(f.seconds);
  }

  lemma DateAlone(f: Fields, s: string)
    requires !HasTime(f) && s == FieldText(f.years, 'Y') + (FieldText(f.months, 'M') + (FieldText(f.days, 'D') + ""))
    ensures s == DateText(f) && (NonEmpty(f) || s == "")
  {}

  lemma EndsInT(front: string, s: string)
    requires s == front + "T"
    ensures s != "" && s[|s| - 1] == 'T'
  {}

  lemma NoTimeText(f: Fields)
    requires !HasTime(f)
    ensures TimeText(f) == ""
  {}

  lemma WithTime(f: Fields, s: string)
    requires HasTime(f)
    requires s == FieldText(f.years, 'Y') + (FieldText(f.months, 'M') + (FieldText(f.days, 'D') + ("T" + TimeText(f))))
    ensures s == DateText(f)
  {}

  lemma DateAndTime(f: Fields, s: string)
    requires s == FieldText(f.years, 'Y') + (FieldText(f.months, 'M') + (FieldText(f.days, 'D') + ("T" + TimeText(f))))
    ensures if HasTime(f) then s == DateText(f) else s != "" && s[|s| - 1] == 'T'
  {
    if HasTime(f) {
      WithTime(f, s);
    } else {
      NoTimeText(f);
      EndsInT(FieldText(f.years, 'Y') + FieldText(f.months, 'M') + FieldText(f.days, 'D'), s);
    }
  }

  /** The text `s` is that of the fields, or nothing, or it ends in a T. */
  predicate IsDateText(f: Fields, s: string) {
    (NonEmpty(f) && s == DateText(f)) || s == "" || s[|s| - 1] == 'T'
  }

  lemma TimeKeepsDate(negative: bool, y: Option<Digits>, mo: Option<Digits>, d: Option<Digits>, s: string)
    requires MatchTime(negative, y, mo, d, s).Some?
    ensures var f := MatchTime(negative, y, mo, d, s).value;
            f.negative == negative && f.years == y && f.months == mo && f.days == d
  {}

  lemma DateTextOf(f: Fields, s: string, tail: string)
    requires s == FieldText(f.years, 'Y') + (FieldText(f.months, 'M') + (FieldText(f.days, 'D') + tail))
    requires (tail == "" && !HasTime(f))
          || (tail != "" && tail[0] == 'T' && MatchTime(f.negative, f.years, f.months, f.days, tail[1..]) == Some(f))
    ensures IsDateText(f, s)
  {
    if tail == "" {
      DateAlone(f, s);
    } else {
      TimeIsText(f, tail[1..]);
      assert tail == "T" + TimeText(f);
      DateAndTime(f, s);
    }
  }

  lemma DateIsText(negative: bool, s: string)
    requires MatchDate(negative, s).Some?
    ensures IsDateText(MatchDate(negative, s).value, s)
  {
    var r1 := ReadField(s, 'Y');
    var r2 := ReadField(r1.1, 'M');
    var r3 := ReadField(r2.1, 'D');
    FieldIsText(s, 'Y');
    FieldIsText(r1.1, 'M');
    FieldIsText(r2.1, 'D');
    if r3.1 != "" { TimeKeepsDate(negative, r1.0, r2.0, r3.0, r3.1[1..]); }
    DateTextOf(MatchDate(negative, s).value, s, r3.1);
  }

  lemma SignIsText(lexical: string) returns (negative: bool, body: string)
    requires Match(lexical).Some?
    ensures lexical == (if negative then "-" else "") + "P" + body && Match(lexical) == MatchDate(negative, body)
  {
    negative := lexical != "" && lexical[0] == '-';
    if negative {
      body := lexical[2..];
      assert lexical[1..][1..] == body && lexical == "-" + "P" + body;
    } else {
      body := lexical[1..];
      assert lexical == "" + "P" + body;
    }
  }

  lemma MatchedSign(negative: bool, s: string)
    requires MatchDate(negative, s).Some?
    ensures MatchDate(negative, s).value.negative == negative
  {}

  lemma Unread(lexical: string, sign: string, body: string)
    requires lexical == sign + "P" + body && (sign == "" || sign == "-") && (body == "" || body[|body| - 1] == 'T')
    ensures DurationParts(lexical) == NotADuration
  {
    if body == "" { assert lexical == sign + "P"; } else { LastOf(sign + "P", body); }
  }

  /** And nothing else is a duration: a text that is read is the text of the fields read from it. */
  lemma ReadDurationIsWritten(lexical: string)
    requires DurationParts(lexical) != NotADuration
    ensures NonEmpty(Match(lexical).value) && lexical == Text(Match(lexical).value)
  {
    var negative, body := SignIsText(lexical);
    DateIsText(negative, body);
    MatchedSign(negative, body);
    if body == "" || body[|body| - 1] == 'T' { Unread(lexical, if negative then "-" else "", body); }
  }

  // ---- TIMEZONE ----

  function Last(s: string, n: nat): string {
    if n <= |s| then s[|s| - n..] else s
  }

  predicate IsOffset(z: string) {
    |z| == 6 && (z[0] == '+' || z[0] == '-') && IsDigit(z[1]) && IsDigit(z[2]) && z[3] == ':' && IsDigit(z[4])
      && IsDigit(z[5])
  }

  function TwoDigits(a: char, b: char): nat
    requires IsDigit(a) && IsDigit(b)
  {
    DigitValue(a) * 10 + DigitValue(b)
  }

  /** TIMEZONE of a dateTime's text; None is AQL's null. */
  function Timezone(s: string): Option<string> {
    if Last(s, 1) == "Z" then Some("PT0S")
    else if IsOffset(Last(s, 6)) then
      var offset := Last(s, 6);
      var hh, mm := TwoDigits(offset[1], offset[2]), TwoDigits(offset[4], offset[5]);
      if hh == 0 && mm == 0 then Some("PT0S")
      else
        Some((if offset[0] == '-' then "-" else "") + "PT"
             + (if hh > 0 then Dec(hh) + "H" else "") + (if mm > 0 then Dec(mm) + "M" else ""))
    else None
  }

  /** A time of day's characters: digits, colons and a dot, as many as hh:mm:ss has. */
  predicate TimeBody(b: string, t: nat) {
    && t + 8 < |b| && b[t] == 'T' && IsDigit(b[|b| - 1])
    && forall k :: t < k < |b| ==> IsDigit(b[k]) || b[k] == ':' || b[k] == '.'
  }

  /** A dateTime without its zone: a date of any length, whatever its year, `T` and a time. */
  predicate DateTimeBody(b: string) {
    exists t :: 0 <= t < |b| && TimeBody(b, t)
  }

  predicate IsZone(z: string) {
    z == "" || z == "Z" || IsOffset(z)
  }

  /** The zone's offset in milliseconds. */
  function OffsetMillis(z: string): int
    requires IsZone(z)
  {
    if !IsOffset(z) then 0
    else
      var minutes := TwoDigits(z[1], z[2]) * 60 + TwoDigits(z[4], z[5]);
      (if z[0] == '-' then -minutes else minutes) * 60000
  }

  /** The fields TIMEZONE writes for an offset. */
  function OffsetFields(z: string): Fields
    requires IsOffset(z)
  {
    var hh, mm := TwoDigits(z[1], z[2]), TwoDigits(z[4], z[5]);
    if hh == 0 && mm == 0 then Fields(false, None, None, None, None, None, Some(Seconds("0", None)))
    else
      Fields(z[0] == '-', None, None, None,
             if hh > 0 then Some(Dec(hh)) else None, if mm > 0 then Some(Dec(mm)) else None, None)
  }

  lemma ZoneFound(b: string, z: string)
    requires DateTimeBody(b) && IsZone(z)
    ensures Last(b + z, 1) == "Z" <==> z == "Z"
    ensures IsOffset(Last(b + z, 6)) <==> IsOffset(z)
    ensures IsOffset(z) ==> Last(b + z, 6) == z
  {
    var s := b + z;
    var t :| 0 <= t < |b| && TimeBody(b, t);
    if z == "" {
      assert s == b;
      assert Last(s, 1)[0] == b[|b| - 1];
      assert Last(s, 6)[0] == b[|b| - 6];
    } else if z == "Z" {
      assert Last(s, 6)[5] == 'Z';
    } else {
      assert Last(s, 1)[0] == z[5];
      assert Last(s, 6) == z;
    }
  }

  /**
   For every dateTime: TIMEZONE is null exactly when there is no zone suffix, and otherwise a
   duration of no months and exactly the signed offset.
   */
  lemma TimezoneIsTheOffset(b: string, z: string)
    requires DateTimeBody(b) && IsZone(z)
    ensures Timezone(b + z).None? <==> z == ""
    ensures z != "" ==> DurationParts(Timezone(b + z).value) == Parts(0, OffsetMillis(z))
  {
    ZoneFound(b, z);
    ZeroDuration();
    if IsOffset(z) { OffsetIsRead(z, TwoDigits(z[1], z[2]), TwoDigits(z[4], z[5])); }
  }

  /** What TIMEZONE writes for an offset is read back as the offset. */
  lemma OffsetIsRead(z: string, hh: nat, mm: nat)
    requires IsOffset(z) && hh == TwoDigits(z[1], z[2]) && mm == TwoDigits(z[4], z[5])
    ensures var text := if hh == 0 && mm == 0 then "PT0S"
                        else (if z[0] == '-' then "-" else "") + "PT"
                             + (if hh > 0 then Dec(hh) + "H" else "") + (if mm > 0 then Dec(mm) + "M" else "");
            DurationParts(text) == Parts(0, OffsetMillis(z))
  {
    if hh == 0 && mm == 0 {
      ZeroDuration();
    } else {
      OffsetText(z);
      WrittenDurationIsRead(OffsetFields(z));
      OffsetParts(z, hh, mm);
    }
  }

  lemma OffsetParts(z: string, hh: nat, mm: nat)
    requires IsOffset(z) && hh == TwoDigits(z[1], z[2]) && mm == TwoDigits(z[4], z[5]) && !(hh == 0 && mm == 0)
    ensures PartsOf(OffsetFields(z)) == Parts(0, OffsetMillis(z))
  {
    DecReadsBack(hh);
    DecReadsBack(mm);
  }

  /** A duration of hours and minutes only. */
  lemma ClockText(negative: bool, h: Option<Digits>, m: Option<Digits>)
    requires h.Some? || m.Some?
    ensures Text(Fields(negative, None, None, None, h, m, None))
         == (if negative then "-" else "") + "P" + ("T" + (FieldText(h, 'H') + FieldText(m, 'M')))
  {
    var f := Fields(negative, None, None, None, h, m, None);
    assert TimeText(f) == FieldText(h, 'H') + FieldText(m, 'M');
    assert DateText(f) == "T" + TimeText(f);
  }

  lemma OffsetText(z: string)
    requires IsOffset(z) && !(TwoDigits(z[1], z[2]) == 0 && TwoDigits(z[4], z[5]) == 0)
    ensures var hh, mm := TwoDigits(z[1], z[2]), TwoDigits(z[4], z[5]);
            Text(OffsetFields(z)) == (if z[0] == '-' then "-" else "") + "PT"
              + (if hh > 0 then Dec(hh) + "H" else "") + (if mm > 0 then Dec(mm) + "M" else "")
  {
    var f := OffsetFields(z);
    ClockText(f.negative, f.hours, f.minutes);
    Regroup(if z[0] == '-' then "-" else "", FieldText(f.hours, 'H'), FieldText(f.minutes, 'M'));
  }

  lemma Regroup(sign: string, a: string, b: string)
    ensures sign + "P" + ("T" + (a + b)) == sign + "PT" + a + b
  {
    assert "PT" == "P" + "T";
  }

  lemma ZeroText(f: Fields)
    requires f == Fields(false, None, None, None, None, None, Some(Seconds("0", None)))
    ensures Text(f) == "PT0S"
  {
    assert SecondsText(f.seconds) == "0S";
    assert TimeText(f) == "0S";
    assert DateText(f) == "T0S";
  }

  lemma ZeroParts(f: Fields)
    requires f == Fields(false, None, None, None, None, None, Some(Seconds("0", None)))
    ensures PartsOf(f) == Parts(0, 0)
  {
    assert Undec("0") == 0 by { assert "0"[..0] == ""; }
  }

  lemma ZeroDuration()
    ensures DurationParts("PT0S") == Parts(0, 0)
  {
    var f := Fields(false, None, None, None, None, None, Some(Seconds("0", None)));
    ZeroText(f);
    ZeroParts(f);
    WrittenDurationIsRead(f);
  }
}
