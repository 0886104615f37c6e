/** Proleptic-Gregorian dates as Python's `datetime.date` has them, and the
    period calculator of the payroll routers: `month_bounds` and
    `business_days_in_month` (app/api/routers/payroll.py, with an identical
    `month_bounds` in app/api/routers/payslips.py). */
module Calendar {
  import opened Wrappers
  import opened Text

  const MinYear := 1
  const MaxYear := 9999

  datatype Date = Date(year: int, month: int, day: int)

  predicate IsLeap(y: int) { y % 4 == 0 && (y % 100 != 0 || y % 400 == 0) }

  function DaysInMonth(y: int, m: int): int
    requires 1 <= m <= 12
  {
    if m == 2 then (if IsLeap(y) then 29 else 28)
    else if m == 4 || m == 6 || m == 9 || m == 11 then 30
    else 31
  }

  /** The dates `datetime.date` can represent. */
  predicate ValidDate(d: Date)
  {
    MinYear <= d.year <= MaxYear && 1 <= d.month <= 12 && 1 <= d.day <= DaysInMonth(d.year, d.month)
  }

  /** `date(y, m, d)`; `None` is the `ValueError` raised for an out-of-range field. */
  function MakeDate(y: int, m: int, d: int): (r: Option<Date>)
    ensures r.Some? <==> ValidDate(Date(y, m, d))
    ensures r.Some? ==> r.value == Date(y, m, d)
  {
    if ValidDate(Date(y, m, d)) then Some(Date(y, m, d)) else None
  }

  /** Python compares dates as (year, month, day) tuples. */
  predicate DateLe(a: Date, b: Date)
  {
    a.year < b.year || (a.year == b.year && (a.month < b.month || (a.month == b.month && a.day <= b.day)))
  }

  // ---------------------------------------------------------------------
  // Ordinals: 0001-01-01 is day 1, as `date.toordinal()`
  // ---------------------------------------------------------------------

  function DaysBeforeYear(y: int): int
  {
    var p := y - 1;
    p * 365 + p / 4 - p / 100 + p / 400
  }

  function DaysBeforeMonth(y: int, m: int): int
    requires 1 <= m <= 12
  {
    if m == 1 then 0 else DaysBeforeMonth(y, m - 1) + DaysInMonth(y, m - 1)
  }

  function ToOrdinal(d: Date): int
    requires ValidDate(d)
  {
    DaysBeforeYear(d.year) + DaysBeforeMonth(d.year, d.month) + d.day
  }

  /** `date.weekday()`: Monday is 0, Sunday is 6 (0001-01-01 was a Monday). */
  function Weekday(d: Date): int
    requires ValidDate(d)
  {
    (ToOrdinal(d) + 6) % 7
  }

  /** A year is 365 days long, 366 when it is a leap year. */
  lemma YearLength(y: int)
    requires y >= 1
    ensures DaysBeforeYear(y + 1) == DaysBeforeYear(y) + (if IsLeap(y) then 366 else 365)
  {
    assert y / 4 - (y - 1) / 4 == (if y % 4 == 0 then 1 else 0);
    assert y / 100 - (y - 1) / 100 == (if y % 100 == 0 then 1 else 0);
    assert y / 400 - (y - 1) / 400 == (if y % 400 == 0 then 1 else 0);
  }

  lemma DaysBeforeDecember(y: int)
    ensures DaysBeforeMonth(y, 12) + 31 == (if IsLeap(y) then 366 else 365)
  {
    var leap := if IsLeap(y) then 1 else 0;
    assert DaysBeforeMonth(y, 2) == 31;
    assert DaysBeforeMonth(y, 3) == 59 + leap;
    assert DaysBeforeMonth(y, 4) == 90 + leap;
    assert DaysBeforeMonth(y, 5) == 120 + leap;
    assert DaysBeforeMonth(y, 6) == 151 + leap;
    assert DaysBeforeMonth(y, 7) == 181 + leap;
    assert DaysBeforeMonth(y, 8) == 212 + leap;
    assert DaysBeforeMonth(y, 9) == 243 + leap;
    assert DaysBeforeMonth(y, 10) == 273 + leap;
    assert DaysBeforeMonth(y, 11) == 304 + leap;
    assert DaysBeforeMonth(y, 12) == 334 + leap;
  }

  /** `d - timedelta(days=1)`; `None` is the `OverflowError` below 0001-01-01. */
  function PrevDay(d: Date): (r: Option<Date>)
    requires ValidDate(d)
    ensures r.None? <==> d == Date(MinYear, 1, 1)
    ensures r.Some? ==> ValidDate(r.value) && ToOrdinal(r.value) == ToOrdinal(d) - 1
  {
    if d.day > 1 then Some(Date(d.year, d.month, d.day - 1))
    else if d.month > 1 then
      MonthEnd(d.year, d.month - 1);
      Some(Date(d.year, d.month - 1, DaysInMonth(d.year, d.month - 1)))
    else if d.year > MinYear then
      YearEnd(d.year - 1);
      Some(Date(d.year - 1, 12, 31))
    else None
  }

  /** `d + timedelta(days=1)`; `None` is the `OverflowError` past 9999-12-31. */
  function NextDay(d: Date): (r: Option<Date>)
    requires ValidDate(d)
    ensures r.None? <==> d == Date(MaxYear, 12, 31)
    ensures r.Some? ==> ValidDate(r.value) && ToOrdinal(r.value) == ToOrdinal(d) + 1
    ensures r.Some? ==> DateLe(d, r.value) && d != r.value
  {
    if d.day < DaysInMonth(d.year, d.month) then
      DayStep(d);
      Some(Date(d.year, d.month, d.day + 1))
    else if d.month < 12 then
      MonthEnd(d.year, d.month);
      Some(Date(d.year, d.month + 1, 1))
    else if d.year < MaxYear then
      YearEnd(d.year);
      Some(Date(d.year + 1, 1, 1))
    else None
  }

  /** Within a month, the next day is one ordinal later. */
  lemma DayStep(d: Date)
    requires ValidDate(d) && d.day < DaysInMonth(d.year, d.month)
    ensures ValidDate(Date(d.year, d.month, d.day + 1))
    ensures ToOrdinal(Date(d.year, d.month, d.day + 1)) == ToOrdinal(d) + 1
  {
  }

  /** The last day of a month is the day before the first of the next. */
  lemma MonthEnd(y: int, m: int)
    requires MinYear <= y <= MaxYear && 1 <= m < 12
    ensures ValidDate(Date(y, m, DaysInMonth(y, m))) && ValidDate(Date(y, m + 1, 1))
    ensures ToOrdinal(Date(y, m + 1, 1)) == ToOrdinal(Date(y, m, DaysInMonth(y, m))) + 1
  {
  }

  /** New Year's Eve is the day before the next New Year's Day. */
  lemma YearEnd(y: int)
    requires MinYear <= y < MaxYear
    ensures ValidDate(Date(y, 12, 31)) && ValidDate(Date(y + 1, 1, 1))
    ensures ToOrdinal(Date(y + 1, 1, 1)) == ToOrdinal(Date(y, 12, 31)) + 1
  {
    YearLength(y);
    DaysBeforeDecember(y);
  }

  // ---------------------------------------------------------------------
  // month_bounds
  // ---------------------------------------------------------------------

  /** An inclusive date range `(month_start, month_end)`. */
  datatype Period = Period(start: Date, end: Date)

  /** `month_bounds(d)`: the first day of `d`'s month, and the day before the
      first of the following month. For December 9999 the following month is
      `date(10000, 1, 1)`, which Python refuses (`Err`). */
  function MonthBounds(d: Date): (r: Result<Period, string>)
    requires ValidDate(d)
    ensures r.Err? <==> d.year == MaxYear && d.month == 12
    ensures r.Ok? ==> r.value.start == Date(d.year, d.month, 1)
    ensures r.Ok? ==> r.value.end == Date(d.year, d.month, DaysInMonth(d.year, d.month))
    ensures r.Ok? ==> ValidDate(r.value.start) && ValidDate(r.value.end)
    ensures r.Ok? ==> DateLe(r.value.start, d) && DateLe(d, r.value.end)
    ensures r.Ok? ==> ToOrdinal(r.value.start) <= ToOrdinal(d) <= ToOrdinal(r.value.end)
    ensures r.Ok? ==> ToOrdinal(r.value.end) - ToOrdinal(r.value.start) + 1 == DaysInMonth(d.year, d.month)
  {
    var m0 := Date(d.year, d.month, 1);
    var next := if m0.month == 12 then MakeDate(m0.year + 1, 1, 1) else MakeDate(m0.year, m0.month + 1, 1);
    if next.None? then
      Err("year " + IntToString(m0.year + 1) + " is out of range")
    else
      var m1 := PrevDay(next.value).value;
      Ok(Period(m0, m1))
  }

  // ---------------------------------------------------------------------
  // business_days_in_month
  // ---------------------------------------------------------------------

  /** Monday to Friday and not a holiday. */
  predicate IsBusinessDay(d: Date, holidays: set<Date>)
    requires ValidDate(d)
  {
    Weekday(d) < 5 && d !in holidays
  }

  predicate ValidMonth(y: int, m: int) { MinYear <= y <= MaxYear && 1 <= m <= 12 }

  /** The number of business days among days `k` to the last of month `m` of year `y`. */
  function BusinessDaysFrom(y: int, m: int, k: int, holidays: set<Date>): nat
    requires ValidMonth(y, m) && k >= 1
    decreases DaysInMonth(y, m) + 1 - k
  {
    if k > DaysInMonth(y, m) then 0
    else (if IsBusinessDay(Date(y, m, k), holidays) then 1 else 0) + BusinessDaysFrom(y, m, k + 1, holidays)
  }

  /** The reference count for a whole month. */
  function BusinessDayCount(y: int, m: int, holidays: set<Date>): nat
    requires ValidMonth(y, m)
  {
    BusinessDaysFrom(y, m, 1, holidays)
  }

  /** `business_days_in_month(d, holidays)`: walks from `month_start` to
      `month_end` one day at a time, counting the business days. */
  method BusinessDaysInMonth(d: Date, holidays: set<Date>) returns (r: Result<nat, string>)
    requires ValidDate(d)
    ensures r.Err? <==> d.year == MaxYear && d.month == 12
    ensures r.Ok? ==> r.value == BusinessDayCount(d.year, d.month, holidays)
  {
    var bounds := MonthBounds(d);
    if bounds.Err? {
      return Err(bounds.error);
    }
    var m0, m1 := bounds.value.start, bounds.value.end;
    var after := NextDay(m1).value;
    var days := 0;
    var cur := m0;
    ghost var k := 1;
    while DateLe(cur, m1)
      invariant 1 <= k <= DaysInMonth(d.year, d.month) + 1
      invariant k <= DaysInMonth(d.year, d.month) ==> cur == Date(d.year, d.month, k)
      invariant k == DaysInMonth(d.year, d.month) + 1 ==> cur == after
      invariant days + BusinessDaysFrom(d.year, d.month, k, holidays) == BusinessDayCount(d.year, d.month, holidays)
      decreases DaysInMonth(d.year, d.month) + 1 - k
    {
      if Weekday(cur) < 5 && cur !in holidays {
        days := days + 1;
      }
      cur := NextDay(cur).value;
      k := k + 1;
    }
    return Ok(days);
  }

  /** No month has more business days than days. */
  lemma {:induction false} BusinessDaysAtMostMonthLength(y: int, m: int, k: int, holidays: set<Date>)
    requires ValidMonth(y, m) && 1 <= k <= DaysInMonth(y, m) + 1
    ensures BusinessDaysFrom(y, m, k, holidays) <= DaysInMonth(y, m) + 1 - k
    decreases DaysInMonth(y, m) + 1 - k
  {
    if k <= DaysInMonth(y, m) {
      BusinessDaysAtMostMonthLength(y, m, k + 1, holidays);
    }
  }

  /** Declaring more holidays never adds business days. */
  lemma {:induction false} MoreHolidaysFewerDays(y: int, m: int, k: int, h1: set<Date>, h2: set<Date>)
    requires ValidMonth(y, m) && k >= 1
    requires h1 <= h2
    ensures BusinessDaysFrom(y, m, k, h2) <= BusinessDaysFrom(y, m, k, h1)
    decreases DaysInMonth(y, m) + 1 - k
  {
    if k <= DaysInMonth(y, m) {
      MoreHolidaysFewerDays(y, m, k + 1, h1, h2);
    }
  }

  /** The days of the month from `k` on that are business days. */
  function BusinessDaySet(y: int, m: int, k: int, holidays: set<Date>): set<int>
    requires ValidMonth(y, m)
  {
    set j | 1 <= j && k <= j <= DaysInMonth(y, m) && IsBusinessDay(Date(y, m, j), holidays)
  }

  /** The count is the number of days in the month that are Monday to Friday
      and not holidays. */
  lemma {:induction false} BusinessDaysCountsTheSet(y: int, m: int, k: int, holidays: set<Date>)
    requires ValidMonth(y, m) && k >= 1
    ensures BusinessDaysFrom(y, m, k, holidays) == |BusinessDaySet(y, m, k, holidays)|
    decreases DaysInMonth(y, m) + 1 - k
  {
    if k > DaysInMonth(y, m) {
      assert BusinessDaySet(y, m, k, holidays) == {};
    } else {
      BusinessDaysCountsTheSet(y, m, k + 1, holidays);
      var rest := BusinessDaySet(y, m, k + 1, holidays);
      if IsBusinessDay(Date(y, m, k), holidays) {
        assert BusinessDaySet(y, m, k, holidays) == rest + {k};
      } else {
        assert BusinessDaySet(y, m, k, holidays) == rest;
      }
    }
  }

  /** The weekday after `w`: Sunday is followed by Monday. */
  function NextWeekday(w: int): int
  {
    if w == 6 then 0 else w + 1
  }

  /** Business days among `n` consecutive days whose first weekday is `w`. */
  function WeekdayRun(w: int, n: nat): nat
    requires 0 <= w < 7
    decreases n
  {
    if n == 0 then 0 else (if w < 5 then 1 else 0) + WeekdayRun(NextWeekday(w), n - 1)
  }

  lemma {:induction false} WeekdayRunSplit(w: int, a: nat, b: nat)
    requires 0 <= w < 7
    ensures WeekdayRun(w, a + b) == WeekdayRun(w, a) + WeekdayRun((w + a) % 7, b)
    decreases a
  {
    if a > 0 {
      WeekdayRunSplit(NextWeekday(w), a - 1, b);
      assert (NextWeekday(w) + (a - 1)) % 7 == (w + a) % 7;
    }
  }

  lemma {:induction false} WeekdayRunBound(w: int, n: nat)
    requires 0 <= w < 7
    ensures WeekdayRun(w, n) <= n
    decreases n
  {
    if n > 0 {
      WeekdayRunBound(NextWeekday(w), n - 1);
    }
  }

  /** Every run of seven consecutive days holds five weekdays. */
  lemma OneWeek(w: int)
    requires 0 <= w < 7
    ensures WeekdayRun(w, 7) == 5
  {
    if w == 0 { assert WeekdayRun(0, 7) == 5; }
    else if w == 1 { assert WeekdayRun(1, 7) == 5; }
    else if w == 2 { assert WeekdayRun(2, 7) == 5; }
    else if w == 3 { assert WeekdayRun(3, 7) == 5; }
    else if w == 4 { assert WeekdayRun(4, 7) == 5; }
    else if w == 5 { assert WeekdayRun(5, 7) == 5; }
    else { assert WeekdayRun(6, 7) == 5; }
  }

  /** Every run of 28 consecutive days holds exactly 20 weekdays. */
  lemma FourWeeks(w: int)
    requires 0 <= w < 7
    ensures WeekdayRun(w, 28) == 20
  {
    OneWeek(w);
    assert (w + 7) % 7 == w;
    WeekdayRunSplit(w, 7, 21);
    WeekdayRunSplit(w, 7, 14);
    WeekdayRunSplit(w, 7, 7);
  }

  /** Without holidays the count for a month follows the weekday of its first day. */
  lemma {:induction false} BusinessDaysAsWeekdayRun(y: int, m: int, k: int)
    requires ValidMonth(y, m) && 1 <= k <= DaysInMonth(y, m) + 1
    ensures BusinessDaysFrom(y, m, k, {}) ==
            WeekdayRun((DaysBeforeYear(y) + DaysBeforeMonth(y, m) + k + 6) % 7, DaysInMonth(y, m) + 1 - k)
    decreases DaysInMonth(y, m) + 1 - k
  {
    if k <= DaysInMonth(y, m) {
      BusinessDaysAsWeekdayRun(y, m, k + 1);
      var x := DaysBeforeYear(y) + DaysBeforeMonth(y, m) + k + 6;
      assert Weekday(Date(y, m, k)) == x % 7;
      NextResidue(x);
    }
  }

  lemma NextResidue(x: int)
    ensures NextWeekday(x % 7) == (x + 1) % 7
  {
  }

  /** With no holidays every month has between 20 and 23 business days. */
  lemma BusinessDaysWithoutHolidays(y: int, m: int)
    requires ValidMonth(y, m)
    ensures 20 <= BusinessDayCount(y, m, {}) <= 23
  {
    var w := (DaysBeforeYear(y) + DaysBeforeMonth(y, m) + 1 + 6) % 7;
    var n := DaysInMonth(y, m);
    BusinessDaysAsWeekdayRun(y, m, 1);
    WeekdayRunSplit(w, 28, n - 28);
    FourWeeks(w);
    WeekdayRunBound((w + 28) % 7, n - 28);
  }

  // ---------------------------------------------------------------------
  // strftime
  // ---------------------------------------------------------------------

  /** Zero padding on the left to `width` characters: the digits keep
      their value. */
  function PadLeft(s: string, width: nat): (r: string)
    ensures |r| >= width && |r| >= |s|
    ensures |s| <= width ==> |r| == width
    ensures AllDigits(s) ==> AllDigits(r) && DigitsValue(r) == DigitsValue(s)
    decreases width - |s|
  {
    if |s| >= width then s
    else
      LeadingZero(s);
      PadLeft("0" + s, width)
  }

  /** A leading zero does not change the value of a digit string. */
  lemma {:induction false} LeadingZero(t: string)
    ensures AllDigits(t) ==> AllDigits("0" + t) && DigitsValue("0" + t) == DigitsValue(t)
  {
    if AllDigits(t) && t != [] {
      var z := "0" + t;
      var u := t[..|t| - 1];
      assert z[..|z| - 1] == "0" + u;
      assert z[|z| - 1] == t[|t| - 1];
      LeadingZero(u);
    }
  }

  /** `d.strftime("%Y" + sep + "%m")`: a four-digit year, `sep`, a two-digit
      month; the digits read back as the date's year and month. */
  function YearMonth(d: Date, sep: char): (s: string)
    requires ValidDate(d)
    ensures |s| == 7 && s[4] == sep
    ensures forall i :: 0 <= i < |s| && i != 4 ==> IsDigit(s[i])
    ensures AllDigits(s[..4]) && DigitsValue(s[..4]) == d.year
    ensures AllDigits(s[5..]) && DigitsValue(s[5..]) == d.month
  {
    var year := PadLeft(NatToString(d.year), 4);
    var month := PadLeft(NatToString(d.month), 2);
    assert |NatToString(d.year)| <= 4 by {
      assert d.year < 10000;
      DigitCount(d.year);
    }
    assert |NatToString(d.month)| <= 2 by {
      DigitCount(d.month);
    }
    NatToStringValue(d.year);
    NatToStringValue(d.month);
    var s := year + [sep] + month;
    assert s[..4] == year && s[5..] == month;
    s
  }

  lemma {:induction false} DigitCount(n: nat)
    ensures n < 10 ==> |NatToString(n)| == 1
    ensures n < 100 ==> |NatToString(n)| <= 2
    ensures n < 1000 ==> |NatToString(n)| <= 3
    ensures n < 10000 ==> |NatToString(n)| <= 4
  {
    if n >= 10 {
      DigitCount(n / 10);
    }
  }

  /** `%B` in the C locale. */
  function MonthName(m: int): string
    requires 1 <= m <= 12
  {
    ["January", "February", "March", "April", "May", "June", "July",
     "August", "September", "October", "November", "December"][m - 1]
  }
}
