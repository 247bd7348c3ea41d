/** The proleptic Gregorian calendar over whole seconds, as the `time` package of the
    scheduler's language presents it.  A local second is counted from midnight of
    1 January of year 0, so its day number is `u / 86400`. */
module Calendar {
  const SECONDS_PER_DAY := 86400
  const DAYS_PER_CYCLE := 146097

  predicate IsLeap(y: int) {
    y % 4 == 0 && (y % 100 != 0 || y % 400 == 0)
  }

  /** Number of days between 1 January of year 0 and 1 January of year `y`. */
  function DaysBeforeYear(y: int): int {
    365 * y + (y + 3) / 4 - (y + 99) / 100 + (y + 399) / 400
  }

  function FebruaryEnd(y: int): int { if IsLeap(y) then 60 else 59 }

  /** Number of days of year `y` before month `m`; month 13 stands for the end of the year. */
  function DaysBeforeMonth(y: int, m: int): int
    requires 1 <= m <= 13
  {
    if m == 1 then 0
    else if m == 2 then 31
    else FebruaryEnd(y) +
         (if m == 3 then 0 else if m == 4 then 31 else if m == 5 then 61 else if m == 6 then 92
          else if m == 7 then 122 else if m == 8 then 153 else if m == 9 then 184
          else if m == 10 then 214 else if m == 11 then 245 else if m == 12 then 275 else 306)
  }

  /** The day number of a date whose month and day may lie outside their usual range. */
  function DateDay(y: int, m: int, d: int): int {
    DaysBeforeYear(y + (m - 1) / 12) + DaysBeforeMonth(y + (m - 1) / 12, (m - 1) % 12 + 1) + d - 1
  }

  function YearInCycle(r: int): int
    requires 0 <= r < DAYS_PER_CYCLE
  {
    if DaysBeforeYear(r / 365) <= r then r / 365 else r / 365 - 1
  }

  function YearOfDay(d: int): int {
    400 * (d / DAYS_PER_CYCLE) + YearInCycle(d % DAYS_PER_CYCLE)
  }

  lemma YearStep(y: int)
    ensures DaysBeforeYear(y + 1) == DaysBeforeYear(y) + (if IsLeap(y) then 366 else 365)
  {
    assert (y + 4) / 4 == (y + 3) / 4 + (if y % 4 == 0 then 1 else 0);
    assert (y + 100) / 100 == (y + 99) / 100 + (if y % 100 == 0 then 1 else 0);
    assert (y + 400) / 400 == (y + 399) / 400 + (if y % 400 == 0 then 1 else 0);
    assert y % 400 == 0 ==> y % 100 == 0;
    assert y % 100 == 0 ==> y % 4 == 0;
  }

  /** Every fourth year is a leap year, but of the full centuries only every fourth; year 0 begins the count. */
  lemma YearLengths(y: int)
    ensures DaysBeforeYear(0) == 0
    ensures DaysBeforeYear(y + 1) - DaysBeforeYear(y) ==
            if y % 400 == 0 then 366 else if y % 100 == 0 then 365 else if y % 4 == 0 then 366 else 365
  {
    YearStep(y);
    hide DaysBeforeYear;
    assert DaysBeforeYear(0) == 0 by { YearZero(); }
    Centuries(y);
  }

  lemma YearZero()
    ensures DaysBeforeYear(0) == 0
  {}

  lemma Centuries(y: int)
    ensures (y % 400 == 0 ==> y % 100 == 0) && (y % 100 == 0 ==> y % 4 == 0)
  {}

  lemma YearCycle(c: int, y: int)
    ensures DaysBeforeYear(400 * c + y) == DAYS_PER_CYCLE * c + DaysBeforeYear(y)
  {
    assert (400 * c + y + 3) / 4 == 100 * c + (y + 3) / 4;
    assert (400 * c + y + 99) / 100 == 4 * c + (y + 99) / 100;
    assert (400 * c + y + 399) / 400 == c + (y + 399) / 400;
  }

  lemma {:induction false} YearStartMonotone(y: int, z: int)
    requires y <= z
    ensures DaysBeforeYear(y) + 365 * (z - y) <= DaysBeforeYear(z)
    decreases z - y
  {
    if y < z {
      YearStep(z - 1);
      YearStartMonotone(y, z - 1);
    }
  }

  /** The year of a day is the one year whose first and last day enclose it. */
  lemma YearOfDayIff(d: int, y: int)
    ensures YearOfDay(d) == y <==> DaysBeforeYear(y) <= d < DaysBeforeYear(y + 1)
  {
    hide DaysBeforeYear;
    var c, r := d / DAYS_PER_CYCLE, d % DAYS_PER_CYCLE;
    var z := YearInCycle(r);
    YearInCycleEncloses(r);
    YearCycle(c, z);
    YearCycle(c, z + 1);
    var w := YearOfDay(d);
    assert DaysBeforeYear(w) <= d < DaysBeforeYear(w + 1);
    if y < w {
      YearStartMonotone(y + 1, w);
    } else if w < y {
      YearStartMonotone(w + 1, y);
    }
  }

  lemma YearInCycleEncloses(r: int)
    requires 0 <= r < DAYS_PER_CYCLE
    ensures DaysBeforeYear(YearInCycle(r)) <= r < DaysBeforeYear(YearInCycle(r) + 1)
  {
    assert 0 <= r / 365 <= 400;
  }

  /** The last month from `m` on that has begun by day `k` of year `y`. */
  function MonthFrom(y: int, k: int, m: int): (r: int)
    requires 1 <= m <= 12
    ensures m <= r <= 12
    decreases 12 - m
  {
    if m == 12 || k < DaysBeforeMonth(y, m + 1) then m else MonthFrom(y, k, m + 1)
  }

  function MonthOfDay(d: int): (m: int)
    ensures 1 <= m <= 12
  {
    MonthFrom(YearOfDay(d), d - DaysBeforeYear(YearOfDay(d)), 1)
  }

  lemma MonthStarts(y: int, m: int, n: int)
    requires 1 <= m <= n <= 13
    ensures 0 <= DaysBeforeMonth(y, m) <= DaysBeforeMonth(y, n)
    ensures m < n ==> DaysBeforeMonth(y, m) + 28 <= DaysBeforeMonth(y, n)
  {}

  lemma {:induction false} MonthFromIff(y: int, k: int, m: int, n: int)
    requires 1 <= m <= 12 && m <= n <= 12
    requires DaysBeforeMonth(y, m) <= k < DaysBeforeMonth(y, 13)
    ensures MonthFrom(y, k, m) == n <==> DaysBeforeMonth(y, n) <= k < DaysBeforeMonth(y, n + 1)
    decreases 12 - m
  {
    if m < 12 && DaysBeforeMonth(y, m + 1) <= k {
      if m < n {
        MonthFromIff(y, k, m + 1, n);
      }
    } else {
      if m < n { MonthStarts(y, m + 1, n); }
    }
  }

  lemma MonthStartDay(y: int, m: int)
    requires 1 <= m <= 12
    ensures DateDay(y, m, 1) == DaysBeforeYear(y) + DaysBeforeMonth(y, m)
    ensures DateDay(y, m + 1, 1) == DaysBeforeYear(y) + DaysBeforeMonth(y, m + 1)
  {
    assert (m - 1) / 12 == 0 && (m - 1) % 12 == m - 1;
    if m == 12 {
      YearStep(y);
      assert m / 12 == 1 && m % 12 == 0;
    } else {
      assert m / 12 == 0 && m % 12 == m;
    }
  }

  /** A day lies in a month exactly when it lies between two consecutive month starts. */
  lemma MonthOfDayIff(d: int, y: int, m: int)
    requires 1 <= m <= 12
    ensures YearOfDay(d) == y && MonthOfDay(d) == m <==> DateDay(y, m, 1) <= d < DateDay(y, m + 1, 1)
  {
    YearOfDayIff(d, y);
    YearStep(y);
    MonthStartDay(y, m);
    MonthStarts(y, m + 1, 13);
    MonthStarts(y, 1, m);
    if 0 <= d - DaysBeforeYear(y) < DaysBeforeMonth(y, 13) {
      MonthFromIff(y, d - DaysBeforeYear(y), 1, m);
    }
  }

  function MonthStartOfDay(d: int): int { DateDay(YearOfDay(d), MonthOfDay(d), 1) }
  function NextMonthStartOfDay(d: int): int { DateDay(YearOfDay(d), MonthOfDay(d) + 1, 1) }

  lemma SameMonthDays(d: int, e: int)
    ensures MonthStartOfDay(d) <= d < NextMonthStartOfDay(d)
    ensures MonthStartOfDay(d) <= e < NextMonthStartOfDay(d)
            <==> YearOfDay(e) == YearOfDay(d) && MonthOfDay(e) == MonthOfDay(d)
  {
    MonthOfDayIff(d, YearOfDay(d), MonthOfDay(d));
    MonthOfDayIff(e, YearOfDay(d), MonthOfDay(d));
  }

  lemma NextMonthDay(d: int)
    ensures var e := NextMonthStartOfDay(d);
            MonthStartOfDay(e) == e &&
            (if MonthOfDay(d) == 12 then MonthOfDay(e) == 1 && YearOfDay(e) == YearOfDay(d) + 1
             else MonthOfDay(e) == MonthOfDay(d) + 1 && YearOfDay(e) == YearOfDay(d))
  {
    var y, m, e := YearOfDay(d), MonthOfDay(d), NextMonthStartOfDay(d);
    var y', m' := if m == 12 then y + 1 else y, if m == 12 then 1 else m + 1;
    MonthStartDay(y, m);
    MonthStartDay(y', m');
    YearStep(y);
    MonthStarts(y', m', m' + 1);
    assert e == DateDay(y', m', 1);
    MonthOfDayIff(e, y', m');
  }

  // ----- the fields of a local second -----

  function DayNumber(u: int): int { u / SECONDS_PER_DAY }
  function Year(u: int): int { YearOfDay(DayNumber(u)) }
  function Month(u: int): int { MonthOfDay(DayNumber(u)) }
  function Day(u: int): int { DayNumber(u) - DateDay(Year(u), Month(u), 1) + 1 }
  /** 0 is Sunday; 1 January of year 0 was a Saturday. */
  function Weekday(u: int): int { (DayNumber(u) + 6) % 7 }
  function Hour(u: int): int { u % SECONDS_PER_DAY / 3600 }
  function Minute(u: int): int { u % 3600 / 60 }
  function Second(u: int): int { u % 60 }

  /** `time.Date`: the local second of possibly out-of-range calendar fields. */
  function Date(y: int, m: int, d: int, h: int, mi: int, s: int): int {
    DateDay(y, m, d) * SECONDS_PER_DAY + h * 3600 + mi * 60 + s
  }

  /** `Time.AddDate`: adds to the calendar fields and lets them overflow. */
  function AddDate(u: int, years: int, months: int, days: int): int {
    Date(Year(u) + years, Month(u) + months, Day(u) + days, Hour(u), Minute(u), Second(u))
  }

  function MonthStart(u: int): int { Date(Year(u), Month(u), 1, 0, 0, 0) }
  function DayStart(u: int): int { u - u % SECONDS_PER_DAY }
  function HourStart(u: int): int { u - u % 3600 }
  function MinuteStart(u: int): int { u - u % 60 }

  lemma DayNumberIff(u: int, d: int)
    ensures DayNumber(u) == d <==> d * SECONDS_PER_DAY <= u < d * SECONDS_PER_DAY + SECONDS_PER_DAY
    ensures DayNumber(d * SECONDS_PER_DAY) == d && d * SECONDS_PER_DAY % SECONDS_PER_DAY == 0
  {}

  lemma MonthStarting(u: int)
    ensures MonthStart(u) == MonthStartOfDay(DayNumber(u)) * SECONDS_PER_DAY
    ensures AddDate(MonthStart(u), 0, 1, 0) == NextMonthStartOfDay(DayNumber(u)) * SECONDS_PER_DAY
  {
    hide DateDay, MonthOfDay, YearOfDay;
    var d := DayNumber(u);
    var a := MonthStartOfDay(d);
    DayNumberIff(MonthStart(u), a);
    SameMonthDays(d, a);
    assert DayNumber(MonthStart(u)) == a;
    assert Year(MonthStart(u)) == YearOfDay(d) && Month(MonthStart(u)) == MonthOfDay(d);
    assert Day(MonthStart(u)) == 1;
    assert MonthStart(u) % SECONDS_PER_DAY == 0;
    assert Hour(MonthStart(u)) == 0;
    MidnightFields(MonthStart(u));
  }

  lemma MidnightFields(u: int)
    requires u % SECONDS_PER_DAY == 0
    ensures Hour(u) == 0 && Minute(u) == 0 && Second(u) == 0
  {}

  /** The month around `u`: one field value throughout, ending where `AddDate` of one month lands. */
  lemma MonthSpan(u: int, v: int)
    ensures MonthStart(u) <= u < AddDate(MonthStart(u), 0, 1, 0)
    ensures MonthStart(u) <= v < AddDate(MonthStart(u), 0, 1, 0) ==> Month(v) == Month(u) && Year(v) == Year(u)
    ensures var w := AddDate(MonthStart(u), 0, 1, 0);
            MonthStart(w) == w && w % SECONDS_PER_DAY == 0 && Day(w) == 1 &&
            (if Month(u) == 12 then Month(w) == 1 && Year(w) == Year(u) + 1
             else Month(w) == Month(u) + 1 && Year(w) == Year(u))
  {
    hide DateDay, MonthOfDay, YearOfDay, Date, AddDate, MonthStart, DayNumber;
    var d := DayNumber(u);
    MonthStarting(u);
    SameMonthDays(d, DayNumber(v));
    SameMonthDays(d, d);
    DayNumberIff(u, d);
    DayNumberIff(v, DayNumber(v));
    NextMonthDay(d);
    var w := AddDate(MonthStart(u), 0, 1, 0);
    DayNumberIff(w, NextMonthStartOfDay(d));
    MonthStarting(w);
  }

  /** The day around `u`: one date throughout, ending where `AddDate` of one day lands. */
  lemma DaySpan(u: int, v: int)
    ensures Date(Year(u), Month(u), Day(u), 0, 0, 0) == DayStart(u) <= u < DayStart(u) + SECONDS_PER_DAY
    ensures AddDate(DayStart(u), 0, 0, 1) == DayStart(u) + SECONDS_PER_DAY
    ensures DayStart(u) <= v < DayStart(u) + SECONDS_PER_DAY ==> DayNumber(v) == DayNumber(u)
    ensures var w := DayStart(u) + SECONDS_PER_DAY;
            w % SECONDS_PER_DAY == 0 &&
            if Day(w) == 1 then MonthStart(w) == w else Month(w) == Month(u) && Year(w) == Year(u)
  {
    hide DateDay, MonthOfDay, YearOfDay;
    var d := DayNumber(u);
    DateOfDay(d);
    var a := DayStart(u);
    assert a == d * SECONDS_PER_DAY;
    DayNumberIff(v, d);
    DayNumberIff(a, d);
    MidnightFields(a);
    var w := a + SECONDS_PER_DAY;
    DayNumberIff(w, d + 1);
    DayAfter(d);
    MonthStarting(w);
  }

  lemma DayAfter(d: int)
    ensures if MonthStartOfDay(d + 1) == d + 1 then NextMonthStartOfDay(d) == d + 1
            else MonthOfDay(d + 1) == MonthOfDay(d) && YearOfDay(d + 1) == YearOfDay(d)
  {
    hide DateDay, MonthOfDay, YearOfDay;
    SameMonthDays(d, d + 1);
    SameMonthDays(d + 1, d);
    NextMonthDay(d);
  }

  lemma DateOfDay(d: int)
    ensures DateDay(YearOfDay(d), MonthOfDay(d), d - MonthStartOfDay(d) + 1) == d
    ensures DateDay(YearOfDay(d), MonthOfDay(d), d - MonthStartOfDay(d) + 2) == d + 1
  {}

  lemma DayRange(u: int)
    ensures 1 <= Day(u) <= 31
  {
    var d := DayNumber(u);
    SameMonthDays(d, d);
    MonthStartDay(YearOfDay(d), MonthOfDay(d));
    MonthLength(YearOfDay(d), MonthOfDay(d));
  }

  lemma MonthLength(y: int, m: int)
    requires 1 <= m <= 12
    ensures 28 <= DaysBeforeMonth(y, m + 1) - DaysBeforeMonth(y, m) <= 31
  {}

  const MONTH_LENGTHS: seq<int> := [31, 28, 31, 30, 31, 30, 31, 31, 30, 31, 30, 31]

  /** The length of each month, February having one day more in a leap year. */
  lemma MonthLengths(y: int, m: int)
    requires 1 <= m <= 12
    ensures DaysBeforeMonth(y, 1) == 0
    ensures DaysBeforeMonth(y, m + 1) - DaysBeforeMonth(y, m)
            == MONTH_LENGTHS[m - 1] + (if m == 2 then DaysBeforeYear(y + 1) - DaysBeforeYear(y) - 365 else 0)
  {
    YearStep(y);
  }

  /** A calendar date: a month, a day of that month, and a time of day. */
  predicate IsDate(y: int, m: int, d: int, h: int, mi: int, s: int) {
    1 <= m <= 12 && 1 <= d <= DaysBeforeMonth(y, m + 1) - DaysBeforeMonth(y, m) &&
    0 <= h < 24 && 0 <= mi < 60 && 0 <= s < 60
  }

  /** The fields of a second are the one date that gives the second back. */
  lemma FieldsIff(u: int, y: int, m: int, d: int, h: int, mi: int, s: int)
    ensures Year(u) == y && Month(u) == m && Day(u) == d && Hour(u) == h && Minute(u) == mi && Second(u) == s
            <==> IsDate(y, m, d, h, mi, s) && Date(y, m, d, h, mi, s) == u
  {
    hide DaysBeforeMonth, DaysBeforeYear, YearOfDay, MonthOfDay;
    var n := DayNumber(u);
    ClockIff(u, h, mi, s);
    SameMonthDays(n, n);
    MonthStartDay(YearOfDay(n), MonthOfDay(n));
    DateOfDay(n);
    if IsDate(y, m, d, h, mi, s) && Date(y, m, d, h, mi, s) == u {
      DayNumberIff(u, DateDay(y, m, d));
      MonthStartDay(y, m);
      DayOfMonth(y, m, d);
      MonthOfDayIff(n, y, m);
    }
  }

  lemma DayOfMonth(y: int, m: int, d: int)
    ensures DateDay(y, m, d) == DateDay(y, m, 1) + d - 1
  {}

  lemma ClockIff(u: int, h: int, mi: int, s: int)
    ensures Hour(u) == h && Minute(u) == mi && Second(u) == s
            <==> 0 <= h < 24 && 0 <= mi < 60 && 0 <= s < 60 &&
                 u == DayNumber(u) * SECONDS_PER_DAY + h * 3600 + mi * 60 + s
  {
    var t := u % SECONDS_PER_DAY;
    TimeOfDay(u);
    assert 0 <= t < SECONDS_PER_DAY;
    ClockOfTime(t, h, mi, s);
  }

  lemma TimeOfDay(u: int)
    ensures var t := u % SECONDS_PER_DAY;
            u == DayNumber(u) * SECONDS_PER_DAY + t && Hour(u) == t / 3600 && u % 3600 == t % 3600 && u % 60 == t % 60
  {
    var q, t := u / SECONDS_PER_DAY, u % SECONDS_PER_DAY;
    assert u == q * SECONDS_PER_DAY + t;
    WholeHours(24 * q, t);
    WholeMinutes(1440 * q, t);
  }

  lemma WholeHours(k: int, t: int)
    ensures (3600 * k + t) % 3600 == t % 3600
  {}

  lemma WholeMinutes(k: int, t: int)
    ensures (60 * k + t) % 60 == t % 60
  {}

  lemma ClockOfTime(t: int, h: int, mi: int, s: int)
    requires 0 <= t < SECONDS_PER_DAY
    ensures t / 3600 == h && t % 3600 / 60 == mi && t % 60 == s
            <==> 0 <= h < 24 && 0 <= mi < 60 && 0 <= s < 60 && t == h * 3600 + mi * 60 + s
  {
    var r := t % 3600;
    assert t == t / 3600 * 3600 + r && r == r / 60 * 60 + r % 60 && r % 60 == t % 60;
  }

  /** The weekday counts days from 1 January 1970, which was a Thursday. */
  lemma WeekdayIff(u: int, w: int)
    ensures Weekday(u) == w <==> 0 <= w <= 6 && (DayNumber(u) - DateDay(1970, 1, 1) + 4 - w) % 7 == 0
  {
    assert DateDay(1970, 1, 1) == 719528;
  }

  lemma ClockRange(u: int)
    ensures 0 <= Second(u) <= 59 && 0 <= Minute(u) <= 59 && 0 <= Hour(u) <= 23 && 0 <= Weekday(u) <= 6
  {}
}
