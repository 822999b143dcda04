/** The proleptic Gregorian calendar from 1601 on, as a plain count of days and seconds,
    and the struct tm of lib/cfa/include/time.h. Nothing here follows time_to_tm. */
module Calendar {
  import opened Bits

  const DAY := 86400

  // mon counts from 0, year from 1900, wday from Sunday, yday from January 1st.
  datatype Tm = Tm(sec: int32, min: int32, hour: int32, mday: int32, mon: int32, year: int32,
                   wday: int32, yday: int32, isdst: int32, gmtoff: int)

  predicate IsLeap(y: int) {
    y % 4 == 0 && (y % 100 != 0 || y % 400 == 0)
  }

  function DaysInYear(y: int): int {
    if IsLeap(y) then 366 else 365
  }

  // Months are numbered from 0.
  function DaysInMonth(m: int, y: int): int {
    if m == 1 then (if IsLeap(y) then 29 else 28)
    else if m == 3 || m == 5 || m == 8 || m == 10 then 30
    else 31
  }

  function DaysBeforeMonth(m: nat, y: int): int {
    if m == 0 then 0 else DaysBeforeMonth(m - 1, y) + DaysInMonth(m - 1, y)
  }

  function DaysBeforeYear(y: int): nat
    decreases y
  {
    if y <= 1601 then 0 else DaysBeforeYear(y - 1) + DaysInYear(y - 1)
  }

  predicate ValidClock(tm: Tm) {
    0 <= tm.sec < 60 && 0 <= tm.min < 60 && 0 <= tm.hour < 24
  }

  predicate ValidDate(tm: Tm) {
    1601 <= tm.year + 1900 && 0 <= tm.mon < 12 && 1 <= tm.mday <= DaysInMonth(tm.mon, tm.year + 1900)
  }

  function DayCount(tm: Tm): int
    requires ValidDate(tm)
  {
    DaysBeforeYear(tm.year + 1900) + DaysBeforeMonth(tm.mon, tm.year + 1900) + tm.mday - 1
  }

  // Seconds since the start of 1601.
  function Count(tm: Tm): int
    requires ValidDate(tm)
  {
    DAY * DayCount(tm) + 3600 * tm.hour + 60 * tm.min + tm.sec
  }

  // January 1st, 1601 was a Monday.
  predicate Consistent(tm: Tm)
    requires ValidDate(tm)
  {
    && tm.wday == (DayCount(tm) + 1) % 7
    && tm.yday == DaysBeforeMonth(tm.mon, tm.year + 1900) + tm.mday - 1
  }

  predicate Earlier(a: Tm, b: Tm) {
    || a.year < b.year
    || (a.year == b.year && (
          || a.mon < b.mon
          || (a.mon == b.mon && (
                || a.mday < b.mday
                || (a.mday == b.mday && EarlierClock(a, b))))))
  }

  predicate EarlierClock(a: Tm, b: Tm) {
    || a.hour < b.hour
    || (a.hour == b.hour && (a.min < b.min || (a.min == b.min && a.sec < b.sec)))
  }

  lemma {:induction false} DaysBeforeMonthMonotone(m: nat, n: nat, y: int)
    requires m < n
    ensures DaysBeforeMonth(m, y) + DaysInMonth(m, y) <= DaysBeforeMonth(n, y)
  {
    if m < n - 1 {
      DaysBeforeMonthMonotone(m, n - 1, y);
    }
  }

  // The source's table of the days before each month, and before the next year.
  const DAYS_SINCE_JAN_1ST: seq<seq<int>> := [
    [0, 31, 59, 90, 120, 151, 181, 212, 243, 273, 304, 334, 365],
    [0, 31, 60, 91, 121, 152, 182, 213, 244, 274, 305, 335, 366]
  ]

  function DaysSinceJan1st(leap: int, m: int): int
    requires 0 <= leap <= 1 && 0 <= m <= 12
  {
    DAYS_SINCE_JAN_1ST[leap][m]
  }

  // The table adds up the lengths of the months.
  lemma {:induction false} TableIsCumulative(m: nat, y: int)
    requires m <= 12
    ensures DaysSinceJan1st(if IsLeap(y) then 1 else 0, m) == DaysBeforeMonth(m, y)
  {
    if m > 0 {
      TableIsCumulative(m - 1, y);
    }
  }

  lemma MonthsFillYear(y: int)
    ensures DaysBeforeMonth(12, y) == DaysInYear(y)
  {
    TableIsCumulative(12, y);
  }

  lemma {:induction false} DaysBeforeYearMonotone(y: int, z: int)
    requires 1601 <= y < z
    ensures DaysBeforeYear(y) + DaysInYear(y) <= DaysBeforeYear(z)
    decreases z
  {
    if y < z - 1 {
      DaysBeforeYearMonotone(y, z - 1);
    }
  }

  // A day of the year stays within its year.
  lemma WithinYear(tm: Tm)
    requires ValidDate(tm)
    ensures 0 <= DaysBeforeMonth(tm.mon, tm.year + 1900) + tm.mday - 1 < DaysInYear(tm.year + 1900)
  {
    var y := tm.year + 1900;
    MonthsFillYear(y);
    if tm.mon < 12 {
      DaysBeforeMonthMonotone(tm.mon, 12, y);
    }
    if tm.mon > 0 {
      DaysBeforeMonthMonotone(0, tm.mon, y);
    }
  }

  // Later dates have larger counts.
  lemma EarlierDays(a: Tm, b: Tm)
    requires ValidDate(a) && ValidDate(b)
    requires a.year < b.year || (a.year == b.year && (a.mon < b.mon || (a.mon == b.mon && a.mday < b.mday)))
    ensures DayCount(a) < DayCount(b)
  {
    hide DaysBeforeYear, DaysBeforeMonth, DaysInYear, DaysInMonth;
    WithinYear(a);
    WithinYear(b);
    if a.year < b.year {
      DaysBeforeYearMonotone(a.year + 1900, b.year + 1900);
    } else if a.mon < b.mon {
      DaysBeforeMonthMonotone(a.mon, b.mon, a.year + 1900);
    }
  }

  // The count of seconds orders valid times as the calendar does.
  lemma CountIsMonotone(a: Tm, b: Tm)
    requires ValidDate(a) && ValidDate(b) && ValidClock(a) && ValidClock(b)
    ensures Earlier(a, b) <==> Count(a) < Count(b)
  {
    hide DayCount, ValidDate;
    if a.year < b.year || (a.year == b.year && (a.mon < b.mon || (a.mon == b.mon && a.mday < b.mday))) {
      EarlierDays(a, b);
    } else if b.year < a.year || (a.year == b.year && (b.mon < a.mon || (a.mon == b.mon && b.mday < a.mday))) {
      EarlierDays(b, a);
    } else {
      assert a.mday == b.mday && a.mon == b.mon && a.year == b.year;
      SameDay(a, b);
    }
  }

  lemma SameDay(a: Tm, b: Tm)
    requires ValidDate(a) && ValidDate(b)
    requires a.mday == b.mday && a.mon == b.mon && a.year == b.year
    ensures DayCount(a) == DayCount(b)
  {
  }

  // Two valid times with the same count are the same time.
  lemma CountIsInjective(a: Tm, b: Tm)
    requires ValidDate(a) && ValidDate(b) && ValidClock(a) && ValidClock(b)
    requires Count(a) == Count(b)
    ensures a.(wday := 0, yday := 0, isdst := 0, gmtoff := 0) == b.(wday := 0, yday := 0, isdst := 0, gmtoff := 0)
  {
    hide Count, ValidDate;
    CountIsMonotone(a, b);
    CountIsMonotone(b, a);
  }

  // The closed form of the number of days before a year, by leap-year rule.
  function LeapsBefore(n: nat): int {
    n / 4 - n / 100 + n / 400
  }

  lemma {:induction false} YearClosedForm(n: nat)
    ensures DaysBeforeYear(1601 + n) == 365 * n + LeapsBefore(n)
  {
    if n > 0 {
      YearClosedForm(n - 1);
      LeapStep(n);
    }
  }

  lemma LeapStep(n: nat)
    requires n > 0
    ensures LeapsBefore(n) == LeapsBefore(n - 1) + (if IsLeap(1600 + n) then 1 else 0)
  {
    QuotientStep(n, 4);
    QuotientStep(n, 100);
    QuotientStep(n, 400);
    MultiplesNest(n);
  }

  lemma MultiplesNest(n: nat)
    ensures (1600 + n) % 4 == n % 4 && (1600 + n) % 100 == n % 100 && (1600 + n) % 400 == n % 400
    ensures n % 400 == 0 ==> n % 100 == 0
    ensures n % 100 == 0 ==> n % 4 == 0
  {
    ModUnique(1600 + n, 4, 400 + n / 4, n % 4);
    ModUnique(1600 + n, 100, 16 + n / 100, n % 100);
    ModUnique(1600 + n, 400, 4 + n / 400, n % 400);
    if n % 400 == 0 {
      ModUnique(n, 100, 4 * (n / 400), 0);
    }
    if n % 100 == 0 {
      ModUnique(n, 4, 25 * (n / 100), 0);
    }
  }

  lemma QuotientStep(n: nat, k: nat)
    requires n > 0 && k > 1
    ensures n / k == (n - 1) / k + (if n % k == 0 then 1 else 0)
  {
    var q, r := (n - 1) / k, (n - 1) % k;
    if r == k - 1 {
      ModUnique(n, k, q + 1, 0);
    } else {
      ModUnique(n, k, q, r + 1);
    }
  }

  predicate LastDay(tm: Tm) {
    tm.year == 0x7FFF_FFFF && tm.mon == 11 && tm.mday == 31
  }

  // The same time on the next day, of the calendar and of the week.
  function DayAfter(tm: Tm): Tm
    requires ValidDate(tm) && Consistent(tm) && !LastDay(tm)
  {
    WithinYear(tm);
    var next := tm.(wday := (tm.wday + 1) % 7, yday := tm.yday + 1);
    if tm.mday < DaysInMonth(tm.mon, tm.year + 1900) then next.(mday := tm.mday + 1)
    else if tm.mon < 11 then next.(mday := 1, mon := tm.mon + 1)
    else next.(mday := 1, mon := 0, year := tm.year + 1, yday := 0)
  }

  lemma DayAfterCounts(tm: Tm)
    requires ValidDate(tm) && Consistent(tm) && !LastDay(tm)
    ensures ValidDate(DayAfter(tm)) && DayCount(DayAfter(tm)) == DayCount(tm) + 1
    ensures Consistent(DayAfter(tm))
  {
    WithinYear(tm);
    if tm.mday == DaysInMonth(tm.mon, tm.year + 1900) && tm.mon == 11 {
      MonthsFillYear(tm.year + 1900);
    }
    NextWeekday(DayCount(tm));
  }

  lemma NextWeekday(n: int)
    ensures ((n + 1) % 7 + 1) % 7 == (n + 2) % 7
  {
  }
}
