/** Proleptic Gregorian dates and wall-clock minutes, as Python's `datetime`
    handles them between the years 1 and 9999, with exact integer arithmetic. */
module Calendar {
  import opened Wrappers

  const MinYear := 1
  const MaxYear := 9999
  const MinutesPerDay := 1440

  datatype Date = Date(year: int, month: int, day: int)

  /** A date and a minute of that day: 00:00 is minute 0, 23:59 is minute 1439. */
  datatype DateTime = DateTime(date: Date, minute: int)

  predicate IsLeap(y: int) {
    y % 4 == 0 && (y % 100 != 0 || y % 400 == 0)
  }

  function DaysInMonth(y: int, m: int): (n: int)
    requires 1 <= m <= 12
    ensures 28 <= n <= 31
    ensures n == 29 <==> m == 2 && IsLeap(y)
  {
    if m == 2 then (if IsLeap(y) then 29 else 28)
    else if m == 4 || m == 6 || m == 9 || m == 11 then 30
    else 31
  }

  function YearLength(y: int): int {
    if IsLeap(y) then 366 else 365
  }

  predicate ValidDate(d: Date) {
    && MinYear <= d.year <= MaxYear
    && 1 <= d.month <= 12
    && 1 <= d.day <= DaysInMonth(d.year, d.month)
  }

  predicate ValidDateTime(t: DateTime) {
    ValidDate(t.date) && 0 <= t.minute < MinutesPerDay
  }

  const FirstDate := Date(MinYear, 1, 1)
  const LastDate := Date(MaxYear, 12, 31)

  /** pytz's `localize` for a zone with a transition history, such as Asia/Kolkata,
      looks at the wall time one day earlier and one day later, so it raises
      OverflowError for a date whose neighbour leaves years 1..9999. */
  predicate AtCalendarEnd(d: Date) {
    d == FirstDate || d == LastDate
  }

  /** Days in the years before `y`: the Gregorian cycle of 4, 100 and 400 years. */
  function DaysBeforeYear(y: int): int
    requires y >= 1
  {
    var p := y - 1;
    365 * p + p / 4 - p / 100 + p / 400
  }

  /** Days in the months of year `y` before month `m`. */
  function DaysBeforeMonth(y: int, m: int): int
    requires 1 <= m <= 12
  {
    var common := match m
      case 1 => 0 case 2 => 31 case 3 => 59 case 4 => 90 case 5 => 120 case 6 => 151
      case 7 => 181 case 8 => 212 case 9 => 243 case 10 => 273 case 11 => 304 case _ => 334;
    common + (if m > 2 && IsLeap(y) then 1 else 0)
  }

  /** Days since 0001-01-01 (Python's `date.toordinal() - 1`). */
  function DayNumber(d: Date): int
    requires ValidDate(d)
  {
    DaysBeforeYear(d.year) + DaysBeforeMonth(d.year, d.month) + d.day - 1
  }

  /** Minutes since 0001-01-01 00:00 of the same clock. */
  function Instant(t: DateTime): int
    requires ValidDateTime(t)
  {
    DayNumber(t.date) * MinutesPerDay + t.minute
  }

  const LastInstant := (DaysBeforeYear(MaxYear + 1) - 1) * MinutesPerDay + (MinutesPerDay - 1)

  function NextDay(d: Date): Date
    requires ValidDate(d)
  {
    if d.day < DaysInMonth(d.year, d.month) then Date(d.year, d.month, d.day + 1)
    else if d.month < 12 then Date(d.year, d.month + 1, 1)
    else Date(d.year + 1, 1, 1)
  }

  function PrevDay(d: Date): Date
    requires ValidDate(d)
  {
    if d.day > 1 then Date(d.year, d.month, d.day - 1)
    else if d.month > 1 then Date(d.year, d.month - 1, DaysInMonth(d.year, d.month - 1))
    else Date(d.year - 1, 12, 31)
  }

  lemma QuadStep(y: int)
    ensures y / 4 == (y - 1) / 4 + (if y % 4 == 0 then 1 else 0)
  {
  }

  lemma CenturyStep(y: int)
    ensures y / 100 == (y - 1) / 100 + (if y % 100 == 0 then 1 else 0)
  {
  }

  lemma QuadCenturyStep(y: int)
    ensures y / 400 == (y - 1) / 400 + (if y % 400 == 0 then 1 else 0)
  {
  }

  /** The Gregorian divisors nest: 4 divides 100, which divides 400. */
  lemma CenturyOfQuad(y: int)
    requires y % 400 == 0
    ensures y % 100 == 0
  {
    var q := y / 400;
    assert y == 400 * q;
    assert y / 100 == 4 * q;
  }

  lemma QuadOfCentury(y: int)
    requires y % 100 == 0
    ensures y % 4 == 0
  {
    var q := y / 100;
    assert y == 100 * q;
    assert y / 4 == 25 * q;
  }

  lemma YearStep(y: int)
    requires y >= 1
    ensures DaysBeforeYear(y + 1) == DaysBeforeYear(y) + YearLength(y)
  {
    if y % 400 == 0 {
      CenturyOfQuad(y);
    }
    if y % 100 == 0 {
      QuadOfCentury(y);
    }
    QuadStep(y);
    CenturyStep(y);
    QuadCenturyStep(y);
  }

  /** Each month ends within its year, December exactly at its end. */
  lemma MonthsFitYear(y: int, m: int)
    requires 1 <= m <= 12
    ensures DaysBeforeMonth(y, m) + DaysInMonth(y, m) <= YearLength(y)
    ensures m < 12 ==> DaysBeforeMonth(y, m + 1) == DaysBeforeMonth(y, m) + DaysInMonth(y, m)
    ensures m == 12 ==> DaysBeforeMonth(y, m) + DaysInMonth(y, m) == YearLength(y)
  {
  }

  lemma {:induction false} DaysBeforeYearMonotone(a: int, b: int)
    requires 1 <= a <= b
    ensures DaysBeforeYear(a) + 365 * (b - a) <= DaysBeforeYear(b)
    decreases b - a
  {
    if a < b {
      DaysBeforeYearMonotone(a, b - 1);
      YearStep(b - 1);
    }
  }

  /** Every valid date has a day number in [0, DayNumber(LastDate)]. */
  lemma DayNumberBounds(d: Date)
    requires ValidDate(d)
    ensures 0 <= DayNumber(d) < DaysBeforeYear(MaxYear + 1)
    ensures Instant(DateTime(d, 0)) >= 0
  {
    MonthsFitYear(d.year, d.month);
    YearStep(d.year);
    DaysBeforeYearMonotone(1, d.year);
    DaysBeforeYearMonotone(d.year + 1, MaxYear + 1);
  }

  lemma NextDayStep(d: Date)
    requires ValidDate(d) && d != LastDate
    ensures ValidDate(NextDay(d))
    ensures DayNumber(NextDay(d)) == DayNumber(d) + 1
  {
    if d.day == DaysInMonth(d.year, d.month) && d.month == 12 {
      YearStep(d.year);
      MonthsFitYear(d.year, 12);
    }
  }

  lemma PrevDayStep(d: Date)
    requires ValidDate(d) && d != FirstDate
    ensures ValidDate(PrevDay(d))
    ensures DayNumber(PrevDay(d)) == DayNumber(d) - 1
  {
    if d.day == 1 && d.month == 1 {
      YearStep(d.year - 1);
      MonthsFitYear(d.year - 1, 12);
    }
  }

  lemma LastDateNumber()
    ensures ValidDate(LastDate)
    ensures Instant(DateTime(LastDate, MinutesPerDay - 1)) == LastInstant
  {
    MonthsFitYear(MaxYear, 12);
  }

  /** Calendar order of dates. */
  predicate Before(a: Date, b: Date) {
    || a.year < b.year
    || (a.year == b.year && a.month < b.month)
    || (a.year == b.year && a.month == b.month && a.day < b.day)
  }

  lemma {:induction false} DaysBeforeMonthMonotone(y: int, m1: int, m2: int)
    requires 1 <= m1 <= m2 <= 12
    ensures DaysBeforeMonth(y, m1) + (if m1 < m2 then DaysInMonth(y, m1) else 0) <= DaysBeforeMonth(y, m2)
    decreases m2 - m1
  {
    if m1 < m2 {
      MonthsFitYear(y, m1);
      if m1 + 1 < m2 {
        DaysBeforeMonthMonotone(y, m1 + 1, m2);
      }
    }
  }

  /** Day numbers follow the calendar order. */
  lemma DayNumberMonotone(a: Date, b: Date)
    requires ValidDate(a) && ValidDate(b) && Before(a, b)
    ensures DayNumber(a) < DayNumber(b)
  {
    if a.year < b.year {
      assert DayNumber(a) < DaysBeforeYear(a.year + 1) by {
        MonthsFitYear(a.year, a.month);
        YearStep(a.year);
      }
      DaysBeforeYearMonotone(a.year + 1, b.year);
    } else if a.month < b.month {
      DaysBeforeMonthMonotone(a.year, a.month, b.month);
    }
  }

  /** Distinct wall-clock times are distinct instants. */
  lemma InstantInjective(a: DateTime, b: DateTime)
    requires ValidDateTime(a) && ValidDateTime(b) && Instant(a) == Instant(b)
    ensures a == b
  {
    if a.date != b.date {
      if Before(a.date, b.date) {
        DayNumberMonotone(a.date, b.date);
      } else {
        DayNumberMonotone(b.date, a.date);
      }
    }
  }

  /** The first date is day 0, the last date is the last day, and every other date
      lies strictly between them. */
  lemma DayNumberEnds(d: Date)
    requires ValidDate(d)
    ensures 0 <= DayNumber(d) && DayNumber(d) * MinutesPerDay + (MinutesPerDay - 1) <= LastInstant
    ensures d == FirstDate <==> DayNumber(d) == 0
    ensures d == LastDate <==> DayNumber(d) * MinutesPerDay + (MinutesPerDay - 1) == LastInstant
    ensures d == FirstDate ==> DayNumber(d) * MinutesPerDay == 0
    ensures d != FirstDate ==> MinutesPerDay <= DayNumber(d) * MinutesPerDay
    ensures d != LastDate ==> DayNumber(d) * MinutesPerDay + 2 * MinutesPerDay - 1 <= LastInstant
  {
    DayNumberBounds(d);
    LastDateNumber();
    if d != FirstDate {
      PrevDayStep(d);
      DayNumberBounds(PrevDay(d));
    }
    if d != LastDate {
      NextDayStep(d);
      DayNumberBounds(NextDay(d));
    }
  }

  /** Where a time lies between the first and the last instant: the first day holds
      the instants below one day, the last day the last day's worth. */
  lemma InstantEnds(t: DateTime)
    requires ValidDateTime(t)
    ensures 0 <= Instant(t) <= LastInstant
    ensures t.date == FirstDate ==> Instant(t) == t.minute
    ensures t.date != FirstDate ==> Instant(t) >= MinutesPerDay + t.minute
    ensures t.date == LastDate ==> Instant(t) - t.minute == LastInstant - (MinutesPerDay - 1)
    ensures t.date != LastDate ==> Instant(t) - t.minute + 2 * MinutesPerDay - 1 <= LastInstant
  {
    DayNumberEnds(t.date);
  }

  /** A clock time `minute` on the day before `t`'s date. */
  lemma PrevDayInstant(t: DateTime, minute: int)
    requires ValidDateTime(t) && t.date != FirstDate && 0 <= minute < MinutesPerDay
    ensures ValidDateTime(DateTime(PrevDay(t.date), minute))
    ensures Instant(DateTime(PrevDay(t.date), minute)) == Instant(t) - t.minute - MinutesPerDay + minute
  {
    PrevDayStep(t.date);
  }

  /** A clock time `minute` on the day after `t`'s date. */
  lemma NextDayInstant(t: DateTime, minute: int)
    requires ValidDateTime(t) && t.date != LastDate && 0 <= minute < MinutesPerDay
    ensures ValidDateTime(DateTime(NextDay(t.date), minute))
    ensures Instant(DateTime(NextDay(t.date), minute)) == Instant(t) - t.minute + MinutesPerDay + minute
  {
    NextDayStep(t.date);
  }

  /** A shift that crosses midnight backwards: the day before, if there is one. */
  function ShiftBack(t: DateTime, delta: int): (r: Option<DateTime>)
    requires ValidDateTime(t)
    requires -MinutesPerDay <= t.minute + delta < 0
    ensures r.Some? <==> 0 <= Instant(t) + delta
    ensures r.Some? ==> ValidDateTime(r.value) && Instant(r.value) == Instant(t) + delta
  {
    InstantEnds(t);
    if t.date == FirstDate then None
    else
      PrevDayInstant(t, t.minute + delta + MinutesPerDay);
      Some(DateTime(PrevDay(t.date), t.minute + delta + MinutesPerDay))
  }

  /** A shift that crosses midnight forwards: the day after, if there is one. */
  function ShiftForward(t: DateTime, delta: int): (r: Option<DateTime>)
    requires ValidDateTime(t)
    requires MinutesPerDay <= t.minute + delta < 2 * MinutesPerDay
    ensures r.Some? <==> Instant(t) + delta <= LastInstant
    ensures r.Some? ==> ValidDateTime(r.value) && Instant(r.value) == Instant(t) + delta
  {
    InstantEnds(t);
    if t.date == LastDate then None
    else
      NextDayInstant(t, t.minute + delta - MinutesPerDay);
      Some(DateTime(NextDay(t.date), t.minute + delta - MinutesPerDay))
  }

  /** `t + timedelta(minutes=delta)` for a shift of at most one day. Python raises
      OverflowError when the result leaves the years 1..9999: that is `None`. */
  function AddMinutes(t: DateTime, delta: int): (r: Option<DateTime>)
    requires ValidDateTime(t)
    requires -MinutesPerDay <= delta <= MinutesPerDay
    ensures r.Some? <==> 0 <= Instant(t) + delta <= LastInstant
    ensures r.Some? ==> ValidDateTime(r.value) && Instant(r.value) == Instant(t) + delta
  {
    InstantEnds(t);
    var m := t.minute + delta;
    if m < 0 then ShiftBack(t, delta)
    else if m >= MinutesPerDay then ShiftForward(t, delta)
    else
      assert Instant(DateTime(t.date, m)) == Instant(t) + delta;
      Some(DateTime(t.date, m))
  }

  /** Shifting back by the same amount returns the original time. */
  lemma AddMinutesInverse(t: DateTime, delta: int)
    requires ValidDateTime(t)
    requires -MinutesPerDay <= delta <= MinutesPerDay
    requires AddMinutes(t, delta).Some?
    ensures AddMinutes(AddMinutes(t, delta).value, -delta) == Some(t)
  {
    var u := AddMinutes(t, delta).value;
    var back := AddMinutes(u, -delta);
    InstantInjective(back.value, t);
  }

  // ---------------------------------------------------------------------------
  // Text forms: `%Y-%m-%d` and `%Y-%m-%dT%H:%M` (an ISO 8601 date and an ISO 8601
  // date-time of reduced accuracy, section 4.3.3 of ISO 8601:2004).

  function DigitChar(n: int): (c: char)
    requires 0 <= n <= 9
    ensures '0' <= c <= '9'
  {
    (('0' as int) + n) as char
  }

  predicate IsDigit(c: char) {
    '0' <= c <= '9'
  }

  function DigitValue(c: char): (n: int)
    requires IsDigit(c)
    ensures 0 <= n <= 9 && DigitChar(n) == c
  {
    (c as int) - ('0' as int)
  }

  /** Zero-padded decimal text of `n` in `width` digits. */
  function Padded(n: int, width: nat): (s: string)
    requires 0 <= n
    ensures |s| == width
    ensures forall i :: 0 <= i < |s| ==> IsDigit(s[i])
  {
    if width == 0 then "" else Padded(n / 10, width - 1) + [DigitChar(n % 10)]
  }

  /** Value of a string of decimal digits. */
  function DigitsValue(s: string): (n: int)
    requires forall i :: 0 <= i < |s| ==> IsDigit(s[i])
    ensures n >= 0
  {
    if s == [] then 0 else DigitsValue(s[..|s| - 1]) * 10 + DigitValue(s[|s| - 1])
  }

  function Power10(k: nat): (p: int)
    ensures p >= 1
  {
    if k == 0 then 1 else 10 * Power10(k - 1)
  }

  lemma {:induction false} PaddedRoundTrip(n: int, width: nat)
    requires 0 <= n < Power10(width)
    ensures DigitsValue(Padded(n, width)) == n
  {
    if width > 0 {
      PaddedRoundTrip(n / 10, width - 1);
      var s := Padded(n, width);
      assert s[..|s| - 1] == Padded(n / 10, width - 1);
    }
  }

  lemma {:induction false} DigitsRoundTrip(s: string)
    requires forall i :: 0 <= i < |s| ==> IsDigit(s[i])
    ensures Padded(DigitsValue(s), |s|) == s
  {
    if s != [] {
      var init := s[..|s| - 1];
      DigitsRoundTrip(init);
      var n := DigitsValue(s);
      assert n / 10 == DigitsValue(init);
      assert n % 10 == DigitValue(s[|s| - 1]);
    }
  }

  function FormatDate(d: Date): (s: string)
    requires ValidDate(d)
    ensures |s| == 10 && s[4] == '-' && s[7] == '-'
  {
    Padded(d.year, 4) + "-" + Padded(d.month, 2) + "-" + Padded(d.day, 2)
  }

  /** `strftime("%Y-%m-%dT%H:%M")`. */
  function FormatDateTime(t: DateTime): (s: string)
    requires ValidDateTime(t)
    ensures |s| == 16 && s[10] == 'T' && s[13] == ':'
    ensures s[..10] == FormatDate(t.date)
  {
    FormatDate(t.date) + "T" + Padded(t.minute / 60, 2) + ":" + Padded(t.minute % 60, 2)
  }

  /** The `%Y-%m-%dT%H:%M` text assembled from its date, hour and minute parts. */
  lemma FormatDateTimeParts(d: Date, minute: int, day: string, hh: string, mm: string)
    requires ValidDate(d) && 0 <= minute < MinutesPerDay
    requires FormatDate(d) == day && Padded(minute / 60, 2) == hh && Padded(minute % 60, 2) == mm
    ensures FormatDateTime(DateTime(d, minute)) == day + "T" + hh + ":" + mm
  {
  }

  /** `datetime.strptime(s, "%Y-%m-%d")` on the zero-padded form; `None` stands for ValueError. */
  function ParseDate(s: string): (r: Option<Date>)
    ensures r.Some? ==> ValidDate(r.value)
  {
    if |s| == 10 && s[4] == '-' && s[7] == '-'
       && (forall i :: 0 <= i < 10 && i != 4 && i != 7 ==> IsDigit(s[i]))
    then
      var d := Date(DigitsValue(s[..4]), DigitsValue(s[5..7]), DigitsValue(s[8..]));
      if ValidDate(d) then Some(d) else None
    else None
  }

  /** Parsing the text of a valid date gives that date back. */
  lemma ParseFormatDate(d: Date)
    requires ValidDate(d)
    ensures ParseDate(FormatDate(d)) == Some(d)
  {
    var s := FormatDate(d);
    assert s[..4] == Padded(d.year, 4);
    assert s[5..7] == Padded(d.month, 2);
    assert s[8..] == Padded(d.day, 2);
    PaddedRoundTrip(d.year, 4);
    PaddedRoundTrip(d.month, 2);
    PaddedRoundTrip(d.day, 2);
  }

  /** Only the canonical text of a date parses: formatting a parsed date gives the input back. */
  lemma FormatParseDate(s: string)
    requires ParseDate(s).Some?
    ensures FormatDate(ParseDate(s).value) == s
  {
    var d := ParseDate(s).value;
    assert forall i :: 0 <= i < 4 ==> s[..4][i] == s[i];
    assert forall i :: 0 <= i < 2 ==> s[5..7][i] == s[5 + i];
    assert forall i :: 0 <= i < 2 ==> s[8..][i] == s[8 + i];
    DigitsRoundTrip(s[..4]);
    DigitsRoundTrip(s[5..7]);
    DigitsRoundTrip(s[8..]);
    assert s == s[..4] + "-" + s[5..7] + "-" + s[8..];
  }
}
