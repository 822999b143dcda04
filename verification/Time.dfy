/** lib/cfa/src/time.c: time_to_tm. */
module Time {
  import opened Basics
  import opened Bits
  import opened Calendar

  // Three hours east of UTC, and the 369 years (134774 days) from 1601 to 1970.
  const MSK := 3 * 60 * 60
  const TO_1601 := 11644473600
  const SHIFT := MSK + TO_1601
  const MIN_INT64: int := -0x8000_0000_0000_0000

  // The last second whose year fits the int that holds it.
  const LAST: int := DAY * (365 * 2147483947 + 2147483947 / 4 - 2147483947 / 100 + 2147483947 / 400) - 1

  // t counts from 1970: 134774 days after the start of 1601, where the calendar begins.
  lemma TimeStartsIn1970()
    ensures DaysBeforeYear(1970) == 134774 && TO_1601 == DAY * DaysBeforeYear(1970)
  {
    YearClosedForm(369);
  }

  // tm is the time t in Moscow.
  predicate IsTmOf(tm: Tm, t: int) {
    && ValidClock(tm) && ValidDate(tm) && Consistent(tm)
    && Count(tm) == t + SHIFT
    && tm.isdst == -1 && tm.gmtoff == MSK
  }

  // At t = 0 it was Thursday, January 1st, 1970, three o'clock in Moscow.
  lemma Epoch(tm: Tm)
    ensures IsTmOf(tm, 0) <==> tm == Tm(0, 0, 3, 1, 0, 70, 4, 0, -1, 10800)
  {
    TimeStartsIn1970();
    hide DaysBeforeYear;
    var epoch := Tm(0, 0, 3, 1, 0, 70, 4, 0, -1, 10800);
    assert DayCount(epoch) == 134774;
    if IsTmOf(tm, 0) {
      TmIsUnique(tm, epoch, 0);
    }
  }

  // The operators / and % of C round toward zero.
  function CDiv(a: int, b: nat): int
    requires b > 0
  {
    if a >= 0 then a / b else -(-a / b)
  }

  function CMod(a: int, b: nat): int
    requires b > 0
  {
    a - b * CDiv(a, b)
  }

  datatype YearParts = YearParts(quad: int, cent: int, quadr: int, ann: int, rest: int)

  // The year that the cycles add up to.
  function YearOf(p: YearParts): int {
    1601 + p.quad * 400 + p.cent * 100 + p.quadr * 4 + p.ann
  }

  /** Strips 400, 100, 4 and 1 years from a count of seconds since 1601. What remains is
      a second of the year reached, also where a clamp stops the division short. */
  method StripYears(sec0: int) returns (p: YearParts)
    ensures sec0 >= 0 ==>
      && YearOf(p) >= 1601 && p.rest >= 0
      && sec0 == DAY * DaysBeforeYear(YearOf(p)) + p.rest
      && p.rest < DAY * DaysInYear(YearOf(p))
    ensures sec0 < 0 ==> -31536000 < p.rest <= 0
    ensures CMod(sec0, DAY) == CMod(p.rest, DAY)
  {
    hide CDiv, CMod;
    var sec := sec0;
    var quadricentennials := CDiv(sec, 12622780800);
    sec := CMod(sec, 12622780800);
    CDivBounds(sec0, 12622780800);
    var centennials, quadrennials, annuals;
    centennials, sec := Strip(sec, 3155673600, 3);
    quadrennials, sec := Strip(sec, 126230400, 24);
    annuals, sec := Strip(sec, 31536000, 3);

    p := YearParts(quadricentennials, centennials, quadrennials, annuals, sec);
    ghost var k := 146097 * p.quad + 36524 * p.cent + 1461 * p.quadr + 365 * p.ann;
    assert sec0 == DAY * k + p.rest;
    if sec0 >= 0 {
      CyclesAddUp(p);
    }
    SameRemainder(sec0, p.rest, k);
  }

  // Takes cycles off, but no more than limit of them.
  method Strip(sec: int, cycle: nat, limit: nat) returns (q: int, rest: int)
    requires cycle > 0
    ensures rest == sec - q * cycle
    ensures sec >= 0 ==> 0 <= q <= limit && 0 <= rest && (q < limit ==> rest < cycle)
    ensures sec <= 0 ==> 0 < cycle + rest && rest <= 0
  {
    q := CDiv(sec, cycle);
    CDivBounds(sec, cycle);
    if q > limit {
      MulUp(cycle, limit, q);
      q := limit;
    }
    rest := sec - q * cycle;
  }

  lemma CDivBounds(a: int, b: nat)
    requires b > 0
    ensures a == b * CDiv(a, b) + CMod(a, b)
    ensures a >= 0 ==> 0 <= CMod(a, b) < b && CDiv(a, b) >= 0
    ensures a <= 0 ==> 0 < b + CMod(a, b) && CMod(a, b) <= 0 && CDiv(a, b) <= 0
  {
  }

  lemma SameRemainder(a: int, b: int, k: int)
    requires (a < 0 && b <= 0) || (a >= 0 && b >= 0)
    requires a == DAY * k + b
    ensures CMod(a, DAY) == CMod(b, DAY)
  {
    if a < 0 {
      ModUnique(-a, DAY, -b / DAY - k, -b % DAY);
    } else {
      ModUnique(a, DAY, b / DAY + k, b % DAY);
    }
  }

  // Days before the year that a quotient of each cycle leads to.
  lemma CyclesAddUp(p: YearParts)
    requires 0 <= p.quad && 0 <= p.cent <= 3 && 0 <= p.quadr <= 24 && 0 <= p.ann <= 3
    ensures DaysBeforeYear(YearOf(p)) == 146097 * p.quad + 36524 * p.cent + 1461 * p.quadr + 365 * p.ann
    ensures IsLeap(YearOf(p)) <==> p.ann == 3 && (p.quadr < 24 || p.cent == 3)
  {
    var n := YearOf(p) - 1601;
    YearClosedForm(n);
    ModUnique(n, 4, 100 * p.quad + 25 * p.cent + p.quadr, p.ann);
    ModUnique(n, 100, 4 * p.quad + p.cent, 4 * p.quadr + p.ann);
    ModUnique(n, 400, p.quad, 100 * p.cent + 4 * p.quadr + p.ann);
    LeapByRemainders(n);
  }

  lemma LeapByRemainders(n: nat)
    ensures IsLeap(1601 + n) <==> n % 4 == 3 && (n % 100 != 99 || n % 400 == 399)
  {
    MultiplesNest(n + 1);
    QuotientStep(n + 1, 4);
    QuotientStep(n + 1, 100);
    QuotientStep(n + 1, 400);
  }

  // The month loop: the first month of the table that ends after yday.
  method FindMonth(yday: int, leap: int) returns (month: int, mday: int)
    requires 0 <= leap <= 1
    ensures 1 <= month <= 13
    ensures yday < DaysSinceJan1st(leap, 12) ==> month <= 12 && yday < DaysSinceJan1st(leap, month)
    ensures month <= 12 ==> mday == 1 + yday - DaysSinceJan1st(leap, month - 1)
    ensures 1 < month ==> DaysSinceJan1st(leap, month - 1) <= yday
  {
    month, mday := 1, 1;
    while month <= 12
      invariant 1 <= month <= 13 && mday == 1
      invariant 1 < month ==> DaysSinceJan1st(leap, month - 1) <= yday
    {
      if yday < DaysSinceJan1st(leap, month) {
        mday := mday + yday - DaysSinceJan1st(leap, month - 1);
        break;
      }
      month := month + 1;
    }
  }

  // The month found is the one that holds the day.
  lemma MonthHoldsDay(y: int, yday: int, month: int)
    requires 1 <= month <= 12 && 0 <= yday
    requires var leap := if IsLeap(y) then 1 else 0;
      yday < DaysSinceJan1st(leap, month) && (1 < month ==> DaysSinceJan1st(leap, month - 1) <= yday)
    ensures DaysBeforeMonth(month - 1, y) <= yday < DaysBeforeMonth(month - 1, y) + DaysInMonth(month - 1, y)
    ensures DaysSinceJan1st(if IsLeap(y) then 1 else 0, month - 1) == DaysBeforeMonth(month - 1, y)
  {
    TableIsCumulative(month, y);
    TableIsCumulative(month - 1, y);
  }

  datatype Clock = Clock(yday: int, hour: int, min: int, sec: int)

  // Days, hours, minutes and seconds of a count of seconds, each division rounding
  // toward zero.
  function SplitClock(rest0: int): (c: Clock)
    requires -31536000 < rest0 < DAY * 366
    ensures rest0 == DAY * c.yday + 3600 * c.hour + 60 * c.min + c.sec
    ensures rest0 >= 0 ==> 0 <= c.yday < 366 && 0 <= c.hour < 24 && 0 <= c.min < 60 && 0 <= c.sec < 60
    ensures rest0 < 0 ==> -366 < c.yday <= 0 && -24 < c.hour <= 0 && -60 < c.min <= 0 && -60 < c.sec <= 0
    ensures 3600 * c.hour + 60 * c.min + c.sec == CMod(rest0, DAY)
  {
    var yday := CDiv(rest0, 86400);
    var rest := CMod(rest0, 86400);
    var hour := CDiv(rest, 3600);
    var rest' := CMod(rest, 3600);
    var min := CDiv(rest', 60);
    Clock(yday, hour, min, CMod(rest', 60))
  }

  lemma Int32Fits(x: int)
    requires -0x8000_0000 <= x < 0x8000_0000
    ensures ToInt32(x) == x
  {
  }

  // No year past the last one begins by LAST.
  lemma YearFits(year: int, sec: int)
    requires 1601 <= year && DAY * DaysBeforeYear(year) <= sec <= LAST
    ensures year - 1900 < 0x8000_0000
  {
    YearClosedForm(2147483947);
    if year > 2147485548 {
      DaysBeforeYearMonotone(2147485548, year);
    }
  }

  // The second after LAST begins a year that no struct tm can name.
  lemma NoTmAfterLast(tm: Tm, t: int)
    requires IsTmOf(tm, t)
    ensures 0 <= t + SHIFT <= LAST
  {
    hide DaysBeforeYear, DaysBeforeMonth;
    YearClosedForm(2147483947);
    WithinYear(tm);
    DaysBeforeYearMonotone(tm.year + 1900, 2147485548);
  }

  // The day that the year and its day of the year make up.
  lemma DayOf(sec: int, year: int, c: Clock)
    requires 1601 <= year && 0 <= c.yday && 0 <= c.hour < 24 && 0 <= c.min < 60 && 0 <= c.sec < 60
    requires sec == DAY * (DaysBeforeYear(year) + c.yday) + 3600 * c.hour + 60 * c.min + c.sec
    ensures CMod(CDiv(sec, DAY) + 1, 7) == (DaysBeforeYear(year) + c.yday + 1) % 7
  {
    hide DaysBeforeYear;
    ModUnique(sec, DAY, DaysBeforeYear(year) + c.yday, 3600 * c.hour + 60 * c.min + c.sec);
  }

  // The fields of time_to_tm before they are narrowed to int.
  function Narrowed(c: Clock, mday: int, mon: int, year: int, wday: int): Tm {
    Tm(ToInt32(c.sec), ToInt32(c.min), ToInt32(c.hour), ToInt32(mday), ToInt32(mon),
       ToInt32(year - 1900), ToInt32(wday), ToInt32(c.yday), -1, 3 * 60 * 60)
  }

  lemma InRange(t: int, p: YearParts, c: Clock, month: int, mday: int, wday: int)
    requires 0 <= t + SHIFT <= LAST
    requires YearOf(p) >= 1601 && t + SHIFT == DAY * DaysBeforeYear(YearOf(p)) + p.rest
    requires 0 <= p.rest < DAY * DaysInYear(YearOf(p)) && c == SplitClock(p.rest)
    requires wday == CMod(CDiv(t + SHIFT, DAY) + 1, 7)
    requires 1 <= month <= 12
    requires var y := YearOf(p);
      DaysBeforeMonth(month - 1, y) <= c.yday < DaysBeforeMonth(month - 1, y) + DaysInMonth(month - 1, y)
      && mday == 1 + c.yday - DaysBeforeMonth(month - 1, y)
    ensures IsTmOf(Narrowed(c, mday, month - 1, YearOf(p), wday), t)
  {
    hide SplitClock, DaysBeforeYear, DaysBeforeMonth, YearOf, CDiv, CMod;
    var y := YearOf(p);
    YearFits(y, t + SHIFT);
    DayOf(t + SHIFT, y, c);
    Int32Fits(c.sec);
    Int32Fits(c.min);
    Int32Fits(c.hour);
    Int32Fits(mday);
    Int32Fits(month - 1);
    Int32Fits(y - 1900);
    Int32Fits(wday);
    Int32Fits(c.yday);
  }

  lemma FullDays(x: int)
    requires x <= 0
    ensures CMod(x, DAY) == 0 <==> x % DAY == 0
  {
    ModUnique(-x, DAY, -x / DAY, -x % DAY);
    if CMod(x, DAY) == 0 {
      ModUnique(x, DAY, CDiv(x, DAY), 0);
    } else if x % DAY == 0 {
      ModUnique(-x, DAY, -(x / DAY), 0);
    }
  }

  // The clock that tm shows at t, on which the date has no bearing: the seconds that t is
  // off the last full day, in the direction of zero, and split toward zero.
  predicate ShowsClock(tm: Tm, t: int) {
    && 3600 * tm.hour + 60 * tm.min + tm.sec == CMod(t + SHIFT, DAY)
    && (t + SHIFT >= 0 ==> ValidClock(tm))
    && (t + SHIFT < 0 ==> -24 < tm.hour <= 0 && -60 < tm.min <= 0 && -60 < tm.sec <= 0)
  }

  // There is one such clock for each t, and it is a time of day from 1601 on, or on the
  // second that starts a day.
  lemma ClockIsUnique(a: Tm, b: Tm, t: int)
    requires ShowsClock(a, t) && ShowsClock(b, t)
    ensures a.hour == b.hour && a.min == b.min && a.sec == b.sec
    ensures ValidClock(a) <==> t + SHIFT >= 0 || (t + SHIFT) % DAY == 0
  {
    hide CMod;
    if t + SHIFT < 0 {
      FullDays(t + SHIFT);
    }
  }

  // Then it is the time of day in Moscow, three hours ahead of the seconds since 1970.
  lemma ClockIsMoscow(tm: Tm, t: int)
    requires ShowsClock(tm, t) && ValidClock(tm)
    ensures 3600 * tm.hour + 60 * tm.min + tm.sec == (t + 10800) % 86400
  {
    ClockIsUnique(tm, tm, t);
    var x := t + SHIFT;
    ModUnique(t + 10800, 86400, x / DAY - 134774, x % DAY);
    if x < 0 {
      FullDays(x);
    }
  }

  lemma ClockOf(t: int, rest: int, c: Clock, mday: int, mon: int, year: int, wday: int)
    requires CMod(t + SHIFT, DAY) == CMod(rest, DAY) && -31536000 < rest < DAY * 366 && c == SplitClock(rest)
    requires if t + SHIFT < 0 then rest <= 0 else rest >= 0
    ensures ShowsClock(Narrowed(c, mday, mon, year, wday), t)
  {
    hide SplitClock, ToInt32, CMod;
    Int32Fits(c.sec);
    Int32Fits(c.min);
    Int32Fits(c.hour);
  }

  /** time_to_tm on every int64 for which the sum below does not overflow. From 1601 to
      the last year that fits an int it yields the Moscow time t. The clock is right for
      every t from 1601 on; before 1601 it runs backwards, and shows a time of day if and
      only if t starts a day. */
  method TimeToTm(t0: int) returns (tm: Tm)
    requires MIN_INT64 <= t0 && t0 + SHIFT <= MAX_INT64
    ensures 0 <= t0 + SHIFT <= LAST ==> IsTmOf(tm, t0)
    ensures ShowsClock(tm, t0)
    ensures ValidClock(tm) <==> t0 + SHIFT >= 0 || (t0 + SHIFT) % DAY == 0
  {
    hide SplitClock, CDiv, CMod, ToInt32, YearOf, DaysBeforeYear, DaysBeforeMonth, IsTmOf, ShowsClock, ValidClock;
    var t := t0 + 3 * 60 * 60;
    var sec := t + 11644473600;
    var wday := CMod(CDiv(sec, 86400) + 1, 7);
    var p := StripYears(sec);
    var year := YearOf(p);
    var leap := if IsLeap(year) then 1 else 0;

    // What is left of the seconds gives the day within the year, and the clock.
    var c := SplitClock(p.rest);
    var month, mday := FindMonth(c.yday, leap);
    tm := Narrowed(c, mday, month - 1, year, wday);

    if 0 <= sec <= LAST {
      TableIsCumulative(12, year);
      MonthsFillYear(year);
      MonthHoldsDay(year, c.yday, month);
      InRange(t0, p, c, month, mday, wday);
    }
    ClockOf(t0, p.rest, c, mday, month - 1, year, wday);
    ClockIsUnique(tm, tm, t0);
  }

  // time_to_tm leaves no choice: there is one Moscow time for each t.
  lemma TmIsUnique(a: Tm, b: Tm, t: int)
    requires IsTmOf(a, t) && IsTmOf(b, t)
    ensures a == b
  {
    CountIsInjective(a, b);
  }

  // Every valid Moscow time is the result for exactly one t, which its count gives.
  lemma EveryTmIsReached(tm: Tm)
    requires ValidClock(tm) && ValidDate(tm) && Consistent(tm) && tm.isdst == -1 && tm.gmtoff == MSK
    ensures IsTmOf(tm, Count(tm) - SHIFT) && 0 <= Count(tm) <= LAST
    ensures forall t :: IsTmOf(tm, t) ==> t == Count(tm) - SHIFT
  {
    NoTmAfterLast(tm, Count(tm) - SHIFT);
  }

  // Later instants have later dates and times.
  lemma TmIsMonotone(a: Tm, b: Tm, t: int, u: int)
    requires IsTmOf(a, t) && IsTmOf(b, u)
    ensures t < u <==> Earlier(a, b)
  {
    CountIsMonotone(a, b);
  }

  // A day later it is the same time on the next day of the calendar and of the week,
  // across every end of a month, a year or a century.
  lemma DayLater(a: Tm, b: Tm, t: int)
    requires IsTmOf(a, t) && IsTmOf(b, t + DAY)
    ensures !LastDay(a) && b == DayAfter(a)
  {
    NotLastDay(a, b, t);
    DayAfterIsTm(a, t);
    TmIsUnique(b, DayAfter(a), t + DAY);
  }

  lemma DayAfterIsTm(a: Tm, t: int)
    requires IsTmOf(a, t) && !LastDay(a)
    ensures IsTmOf(DayAfter(a), t + DAY)
  {
    hide DayCount;
    DayAfterCounts(a);
  }

  lemma NotLastDay(a: Tm, b: Tm, t: int)
    requires IsTmOf(a, t) && IsTmOf(b, t + DAY)
    ensures !LastDay(a)
  {
    NoTmAfterLast(b, t + DAY);
    if LastDay(a) {
      hide DaysBeforeYear, DaysBeforeMonth;
      YearClosedForm(2147483947);
      MonthsFillYear(a.year + 1900);
      LastMonth(a.year + 1900);
      NextYear(a.year + 1900);
    }
  }

  lemma LastMonth(y: int)
    ensures DaysBeforeMonth(12, y) == DaysBeforeMonth(11, y) + 31
  {
  }

  lemma NextYear(y: int)
    requires y >= 1601
    ensures DaysBeforeYear(y + 1) == DaysBeforeYear(y) + DaysInYear(y)
  {
  }
}
