/** Cron schedules as bit sets and the search for their next activation. */
module CronSpec {
  import opened Options
  import opened Bits
  import opened Calendar

  const NANOS := 1_000_000_000
  const YEARS_SEARCHED := 5

  /** The distance of a fixed zone from UTC, in seconds: a whole number of minutes. */
  type Offset = o: int | o % 60 == 0

  /** An instant in nanoseconds, presented in a zone. */
  datatype Time = Time(ns: int, offset: Offset)

  /** One bit set a field; `None` stands for the location `time.Local`. */
  datatype SpecSchedule = SpecSchedule(second: Word, minute: Word, hour: Word, dom: Word, month: Word, dow: Word,
                                       location: Option<Offset>)

  const STAR: nat := 63

  predicate DayMatches(s: SpecSchedule, u: int) {
    var domMatch := Bit(s.dom, DayBit(u));
    var dowMatch := Bit(s.dow, Weekday(u));
    if Bit(s.dom, STAR) || Bit(s.dow, STAR) then domMatch && dowMatch else domMatch || dowMatch
  }

  /** The day of the month, which fits the word. */
  function DayBit(u: int): (d: nat)
    ensures d == Day(u) && 1 <= d <= 31
  {
    DayRange(u);
    Day(u)
  }

  predicate MonthMatches(s: SpecSchedule, u: int) { Bit(s.month, Month(u)) }
  predicate HourMatches(s: SpecSchedule, u: int) { Bit(s.hour, Hour(u)) }
  predicate MinuteMatches(s: SpecSchedule, u: int) { Bit(s.minute, Minute(u)) }
  predicate SecondMatches(s: SpecSchedule, u: int) { Bit(s.second, Second(u)) }

  /** The schedule is due at local second `u`. */
  predicate Due(s: SpecSchedule, u: int) {
    MonthMatches(s, u) && DayMatches(s, u) && HourMatches(s, u) && MinuteMatches(s, u) && SecondMatches(s, u)
  }

  function Zone(s: SpecSchedule, t: Time): Offset {
    match s.location case None => t.offset case Some(o) => o
  }

  /** The first whole second after an instant, read in the schedule's zone. */
  function Upcoming(s: SpecSchedule, t: Time): int { t.ns / NANOS + 1 + Zone(s, t) }

  /** The instant of a local second of the schedule's zone, presented in the zone of `t`. */
  function Present(s: SpecSchedule, t: Time, u: int): Time { Time((u - Zone(s, t)) * NANOS, t.offset) }

  /** No due second from `first` up to, not including, `u`. */
  ghost predicate Quiet(s: SpecSchedule, first: int, u: int) {
    first <= u && forall v :: first <= v < u ==> !Due(s, v)
  }

  /** What holds at every restart: a field that no longer matches has all lower fields at their minimum. */
  predicate Aligned(s: SpecSchedule, u: int) {
    (MonthMatches(s, u) || u == MonthStart(u)) &&
    (DayMatches(s, u) || u == DayStart(u)) &&
    (HourMatches(s, u) || u == HourStart(u)) &&
    (MinuteMatches(s, u) || u == MinuteStart(u))
  }

  lemma SameDayMatches(s: SpecSchedule, u: int, v: int)
    requires DayNumber(u) == DayNumber(v)
    ensures MonthMatches(s, u) == MonthMatches(s, v) && DayMatches(s, u) == DayMatches(s, v) && Year(u) == Year(v)
  {
    hide Bit, YearOfDay, MonthOfDay, DateDay;
  }

  lemma StepMonth(s: SpecSchedule, first: int, u: int)
    requires Quiet(s, first, u) && !MonthMatches(s, u)
    ensures var w := AddDate(MonthStart(u), 0, 1, 0);
            Quiet(s, first, w) && u < w && Aligned(s, w) && (Month(w) == 1 || Year(w) == Year(u))
  {
    hide Bit, Month, Year, AddDate, MonthStart;
    MonthSpan(u, u);
    var w := AddDate(MonthStart(u), 0, 1, 0);
    forall v | u <= v < w ensures !Due(s, v) {
      MonthSpan(u, v);
    }
    MidnightStarts(w);
  }

  lemma MidnightStarts(u: int)
    requires u % SECONDS_PER_DAY == 0
    ensures u == DayStart(u) == HourStart(u) == MinuteStart(u)
  {}

  /** The next midnight after a day that was searched: the month is at its start or still matches. */
  lemma AlignedMidnight(s: SpecSchedule, u: int)
    requires MonthMatches(s, u)
    ensures var w := DayStart(u) + SECONDS_PER_DAY;
            u < w && Aligned(s, w) && (Day(w) == 1 || (MonthMatches(s, w) && Year(w) == Year(u)))
  {
    hide Bit, Month, Year, AddDate, MonthStart, Day;
    DaySpan(u, u);
    MidnightStarts(DayStart(u) + SECONDS_PER_DAY);
  }

  lemma StepDay(s: SpecSchedule, first: int, u: int)
    requires Quiet(s, first, u) && MonthMatches(s, u) && !DayMatches(s, u)
    ensures Quiet(s, first, DayStart(u) + SECONDS_PER_DAY)
  {
    hide MonthMatches, DayMatches, Year, DayNumber;
    forall v | u <= v < DayStart(u) + SECONDS_PER_DAY ensures !Due(s, v) {
      DaySpan(u, v);
      SameDayMatches(s, u, v);
    }
  }

  lemma StepHour(s: SpecSchedule, first: int, u: int)
    requires Quiet(s, first, u) && MonthMatches(s, u) && DayMatches(s, u) && !HourMatches(s, u)
    ensures var w := HourStart(u) + 3600;
            Quiet(s, first, w) && u < w && Aligned(s, w) &&
            if Hour(w) == 0 then w == DayStart(u) + SECONDS_PER_DAY else DayNumber(w) == DayNumber(u)
  {
    hide MonthMatches, DayMatches, HourMatches, MonthStart, Year;
    var w := HourStart(u) + 3600;
    HourSpan(u, w);
    forall v | u <= v < w ensures !Due(s, v) {
      HourSpan(u, v);
      SameHourMatches(s, u, v);
    }
    if Hour(w) == 0 { AlignedMidnight(s, u); } else { SameDayMatches(s, u, w); }
  }

  /** The hour around `u`. */
  lemma HourSpan(u: int, v: int)
    ensures HourStart(u) <= u < HourStart(u) + 3600
    ensures HourStart(u) <= v < HourStart(u) + 3600 ==> DayNumber(v) == DayNumber(u) && Hour(v) == Hour(u)
    ensures var w := HourStart(u) + 3600;
            w == HourStart(w) == MinuteStart(w) &&
            if Hour(w) == 0 then w == DayStart(u) + SECONDS_PER_DAY else DayNumber(w) == DayNumber(u)
  {}

  lemma SameHourMatches(s: SpecSchedule, u: int, v: int)
    requires Hour(u) == Hour(v)
    ensures HourMatches(s, u) == HourMatches(s, v)
  {}

  /** Hours and minutes count up from the epoch; days and hours are read off that count. */
  lemma Quotients(u: int)
    ensures DayNumber(u) == u / 3600 / 24 && Hour(u) == u / 3600 % 24
    ensures u / 3600 == u / 60 / 60 && Minute(u) == u / 60 % 60
  {}

  /** The minute around `u`. */
  lemma MinuteSpan(u: int, v: int)
    ensures MinuteStart(u) <= u < MinuteStart(u) + 60
    ensures MinuteStart(u) <= v < MinuteStart(u) + 60 ==>
              DayNumber(v) == DayNumber(u) && Hour(v) == Hour(u) && Minute(v) == Minute(u)
    ensures var w := MinuteStart(u) + 60;
            w == MinuteStart(w) &&
            if Minute(w) == 0 then w == HourStart(u) + 3600 else DayNumber(w) == DayNumber(u) && Hour(w) == Hour(u)
  {
    var w := MinuteStart(u) + 60;
    MinuteQuotients(u, v);
    Quotients(u);
    Quotients(v);
    Quotients(w);
    if Minute(w) == 0 { FullHour(u, w); } else { SameHour(u / 60); }
  }

  lemma MinuteQuotients(u: int, v: int)
    ensures MinuteStart(u) <= v < MinuteStart(u) + 60 ==> v / 60 == u / 60
    ensures (MinuteStart(u) + 60) / 60 == u / 60 + 1 && (MinuteStart(u) + 60) % 60 == 0
  {}

  lemma FullHour(u: int, w: int)
    requires w == MinuteStart(u) + 60 && Minute(w) == 0
    ensures w == HourStart(u) + 3600
  {
    hide Minute;
    var q := u / 60;
    Quotients(u);
    Quotients(w);
    MinuteQuotients(u, u);
    NextHour(q);
    assert w == 60 * (q + 1);
    assert HourStart(u) == 3600 * (q / 60);
  }

  lemma NextHour(k: int)
    requires (k + 1) % 60 == 0
    ensures 60 * (k / 60) + 60 == k + 1
  {}

  lemma SameHour(k: int)
    requires (k + 1) % 60 != 0
    ensures (k + 1) / 60 == k / 60
  {}

  lemma StepMinute(s: SpecSchedule, first: int, u: int)
    requires Quiet(s, first, u) && MonthMatches(s, u) && DayMatches(s, u) && HourMatches(s, u) && !MinuteMatches(s, u)
    ensures var w := MinuteStart(u) + 60;
            Quiet(s, first, w) && u < w && Aligned(s, w) &&
            (Minute(w) != 0 ==> DayNumber(w) == DayNumber(u) && Hour(w) == Hour(u))
  {
    hide MonthMatches, DayMatches, HourMatches, MonthStart, Year;
    var w := MinuteStart(u) + 60;
    MinuteSpan(u, w);
    forall v | u <= v < w ensures !Due(s, v) {
      MinuteSpan(u, v);
      SameMinuteMatches(s, u, v);
    }
    if Minute(w) == 0 { AlignedHour(s, u); } else { SameDayMatches(s, u, w); SameHourMatches(s, u, w); }
  }

  lemma SameMinuteMatches(s: SpecSchedule, u: int, v: int)
    requires Minute(u) == Minute(v)
    ensures MinuteMatches(s, u) == MinuteMatches(s, v)
  {}

  /** The next full hour after an hour that was searched. */
  lemma AlignedHour(s: SpecSchedule, u: int)
    requires MonthMatches(s, u) && DayMatches(s, u)
    ensures Aligned(s, HourStart(u) + 3600)
  {
    hide MonthMatches, DayMatches, HourMatches, MonthStart, Year;
    var w := HourStart(u) + 3600;
    HourSpan(u, w);
    if Hour(w) == 0 { AlignedMidnight(s, u); } else { SameDayMatches(s, u, w); }
  }

  lemma StepSecond(s: SpecSchedule, first: int, u: int)
    requires Quiet(s, first, u) && MonthMatches(s, u) && DayMatches(s, u) && HourMatches(s, u) && MinuteMatches(s, u)
    requires !SecondMatches(s, u)
    ensures Quiet(s, first, u + 1) && Aligned(s, u + 1)
    ensures Second(u + 1) != 0 ==>
              DayNumber(u + 1) == DayNumber(u) && Hour(u + 1) == Hour(u) && Minute(u + 1) == Minute(u)
  {
    hide MonthMatches, DayMatches, HourMatches, MonthStart, Year;
    var w := u + 1;
    SecondSpan(u);
    if Second(w) != 0 {
      SameDayMatches(s, u, w);
      SameHourMatches(s, u, w);
      SameMinuteMatches(s, u, w);
    } else {
      MinuteSpan(u, w);
      if Minute(w) == 0 { AlignedHour(s, u); } else { SameDayMatches(s, u, w); SameHourMatches(s, u, w); }
    }
  }

  lemma SecondSpan(u: int)
    ensures if Second(u + 1) == 0 then u + 1 == MinuteStart(u) + 60
            else DayNumber(u + 1) == DayNumber(u) && Hour(u + 1) == Hour(u) && Minute(u + 1) == Minute(u)
  {
    if Second(u + 1) != 0 {
      assert u / 60 == (u + 1) / 60;
      Quotients(u);
      Quotients(u + 1);
    }
  }

  /** `Time.Truncate` rounds the absolute instant down, not the local reading. */
  function Truncate(u: int, unit: int, zone: Offset): int
    requires unit > 0
  {
    u - (u - zone) % unit
  }

  lemma TruncateIsLocal(u: int, zone: Offset)
    ensures Truncate(u, 60, zone) == MinuteStart(u) && Truncate(u, 1, zone) == u
  {}

  /** The end of the last year searched. */
  function Limit(first: int): int { Date(Year(first) + YEARS_SEARCHED + 1, 1, 1, 0, 0, 0) }

  lemma LimitIff(first: int, u: int)
    ensures Year(u) <= Year(first) + YEARS_SEARCHED <==> u < Limit(first)
  {
    var y := Year(first) + YEARS_SEARCHED + 1;
    MonthStartDay(y, 1);
    YearOfDayIff(DayNumber(u), Year(u));
    if Year(u) + 1 <= y { YearStartMonotone(Year(u) + 1, y); } else { YearStartMonotone(y, Year(u)); }
    DayNumberIff(u, DayNumber(u));
  }

  lemma AllFieldsMatch(s: SpecSchedule, u: int)
    requires MonthMatches(s, u) && DayMatches(s, u) && HourMatches(s, u) && MinuteMatches(s, u) && SecondMatches(s, u)
    ensures Due(s, u)
  {}

  lemma QuietAtFirst(s: SpecSchedule, first: int)
    ensures Quiet(s, first, first)
  {}

  lemma QuietPrefix(s: SpecSchedule, first: int, u: int, w: int)
    requires Quiet(s, first, u) && first <= w <= u
    ensures Quiet(s, first, w)
  {
    hide Due;
  }

  lemma DateOfHour(u: int)
    ensures Date(Year(u), Month(u), Day(u), Hour(u), 0, 0) == HourStart(u)
  {
    hide DateDay, MonthOfDay, YearOfDay, Year, Month, Day;
    DaySpan(u, u);
    HoursOfDay(u, DateDay(Year(u), Month(u), Day(u)));
  }

  lemma HoursOfDay(u: int, d: int)
    requires d * SECONDS_PER_DAY == DayStart(u)
    ensures d * SECONDS_PER_DAY + Hour(u) * 3600 == HourStart(u)
  {}

  /** The reference: try every second from `u` on. */
  function FirstDue(s: SpecSchedule, u: int, limit: int): Option<int>
    decreases limit - u
  {
    if u >= limit then None else if Due(s, u) then Some(u) else FirstDue(s, u + 1, limit)
  }

  lemma {:induction false} FirstDueIff(s: SpecSchedule, u: int, limit: int, r: Option<int>)
    requires u <= limit
    ensures FirstDue(s, u, limit) == r <==>
            match r
            case Some(v) => v < limit && Quiet(s, u, v) && Due(s, v)
            case None => Quiet(s, u, limit)
    decreases limit - u
  {
    hide Due;
    if u < limit && !Due(s, u) {
      FirstDueIff(s, u + 1, limit, r);
      QuietTail(s, u);
    }
  }

  lemma QuietTail(s: SpecSchedule, u: int)
    requires !Due(s, u)
    ensures forall v :: u < v ==> (Quiet(s, u, v) <==> Quiet(s, u + 1, v))
    ensures forall v :: Quiet(s, u, v) && Due(s, v) ==> u < v
  {
    hide Due;
  }

  /** What `Next` returns: the first due second, presented in the caller's zone. */
  function NextTime(s: SpecSchedule, t: Time): Option<Time> {
    match FirstDue(s, Upcoming(s, t), Limit(Upcoming(s, t)))
    case None => None
    case Some(u) => Some(Present(s, t, u))
  }

  /** The schedule is due at second `k` of absolute time. */
  predicate DueAt(s: SpecSchedule, t: Time, k: int) { Due(s, k + Zone(s, t)) }

  /** `r` is the least whole second strictly after `t` at which the schedule is due, read in the schedule's zone or, if
      it has none, in that of `t`, among those no later than the fifth year after that of the first candidate;
      `None` when there is none. */
  lemma NextIsLeast(s: SpecSchedule, t: Time, r: Option<Time>)
    ensures var z := if s.location.None? then t.offset else s.location.value;
            var lastYear := Year(t.ns / 1_000_000_000 + 1 + z) + 5;
            NextTime(s, t) == r <==>
            match r
            case Some(v) =>
              v.offset == t.offset && v.ns % 1_000_000_000 == 0 && t.ns < v.ns && Due(s, v.ns / 1_000_000_000 + z) &&
              Year(v.ns / 1_000_000_000 + z) <= lastYear &&
              (forall k :: t.ns < k * 1_000_000_000 < v.ns ==> !Due(s, k + z))
            case None => forall k :: t.ns < k * 1_000_000_000 && Year(k + z) <= lastYear ==> !Due(s, k + z)
  {
    hide Due, FirstDue, Year, Limit;
    var z, first := Zone(s, t), Upcoming(s, t);
    LimitIff(first, first);
    FirstDueIff(s, first, Limit(first), FirstDue(s, first, Limit(first)));
    forall k ensures t.ns < k * NANOS <==> first <= k + z {
      SecondOrder(t.ns, k);
    }
    forall u ensures Year(u) <= Year(first) + YEARS_SEARCHED <==> u < Limit(first) {
      LimitIff(first, u);
    }
    match r {
      case Some(v) =>
        var u := v.ns / NANOS + z;
        FirstDueIff(s, first, Limit(first), Some(u));
        if first <= u { QuietInNanos(s, t, u); }
        assert NextTime(s, t) == r <==> FirstDue(s, first, Limit(first)) == Some(u) && v == Present(s, t, u);
      case None =>
        FirstDueIff(s, first, Limit(first), None);
        if forall k :: t.ns < k * NANOS && Year(k + z) <= Year(first) + YEARS_SEARCHED ==> !Due(s, k + z) {
          forall v | first <= v < Limit(first) ensures !Due(s, v) {
            var k := v - z;
            assert k + z == v && t.ns < k * NANOS && Year(k + z) <= Year(first) + YEARS_SEARCHED;
          }
        }
    }
  }

  /** When a schedule is due, read off the sets of its fields: all clock fields and the month match, and so do both day
      fields when one of them has the star bit, and one of them otherwise. */
  lemma DueIff(s: SpecSchedule, u: int)
    ensures Due(s, u) <==>
            Second(u) in s.second && Minute(u) in s.minute && Hour(u) in s.hour && Month(u) in s.month &&
            if 63 in s.dom || 63 in s.dow then Day(u) in s.dom && Weekday(u) in s.dow
            else Day(u) in s.dom || Weekday(u) in s.dow
  {
    hide Bit, YearOfDay, MonthOfDay, Day, Weekday, Second, Minute, Hour;
    ClockRange(u);
    BitIff(s.second, Second(u));
    BitIff(s.minute, Minute(u));
    BitIff(s.hour, Hour(u));
    BitIff(s.month, Month(u));
    BitIff(s.dom, DayBit(u));
    BitIff(s.dow, Weekday(u));
    BitIff(s.dom, STAR);
    BitIff(s.dow, STAR);
  }

  lemma SecondOrder(n: int, k: int)
    ensures n < k * NANOS <==> n / NANOS + 1 <= k
  {}

  lemma QuietInNanos(s: SpecSchedule, t: Time, u: int)
    requires Upcoming(s, t) <= u
    ensures Quiet(s, Upcoming(s, t), u)
            <==> forall k :: t.ns < k * NANOS < (u - Zone(s, t)) * NANOS ==> !DueAt(s, t, k)
  {
    hide Due;
    var z := Zone(s, t);
    forall k ensures t.ns < k * NANOS < (u - z) * NANOS <==> Upcoming(s, t) <= k + z < u {
      SecondOrder(t.ns, k);
    }
    if forall k :: t.ns < k * NANOS < (u - z) * NANOS ==> !DueAt(s, t, k) {
      forall v | Upcoming(s, t) <= v < u ensures !Due(s, v) {
        assert !DueAt(s, t, v - z);
      }
    }
  }

  /** The jumping search. */
  method Next(s: SpecSchedule, t: Time) returns (r: Option<Time>)
    ensures r == NextTime(s, t)
  {
    hide Due, FirstDue;
    hide DateDay, MonthOfDay, YearOfDay, Date, AddDate, MonthMatches, DayMatches, HourMatches, MinuteMatches,
         SecondMatches;
    hide DayStart, HourStart, MinuteStart, Year, Month, Day, Hour, Minute, Second, Limit, DayNumber, Quiet, Truncate;
    var loc := Zone(s, t);
    var u := Upcoming(s, t);
    ghost var first := u;
    var added := false;
    var yearLimit := Year(u) + YEARS_SEARCHED;
    LimitIff(first, u);
    QuietAtFirst(s, first);

    label WRAP:
    while true
      invariant Quiet(s, first, u)
      invariant if added then Aligned(s, u) else u == first
      decreases Limit(first) - u
    {
      LimitIff(first, u);
      if Year(u) > yearLimit {
        QuietPrefix(s, first, u, Limit(first));
        FirstDueIff(s, first, Limit(first), None);
        return None;
      }

      while !MonthMatches(s, u)
        invariant Quiet(s, first, u) && Year(u) <= yearLimit
        invariant if added then Aligned(s, u) else u == first
        decreases Limit(first) - u
      {
        StepMonth(s, first, u);
        LimitIff(first, u);
        if !added {
          added := true;
          u := Date(Year(u), Month(u), 1, 0, 0, 0);
        }
        u := AddDate(u, 0, 1, 0);
        if Month(u) == 1 {
          continue WRAP;
        }
      }

      while !DayMatches(s, u)
        invariant Quiet(s, first, u) && Year(u) <= yearLimit && MonthMatches(s, u)
        invariant if added then Aligned(s, u) else u == first
        decreases Limit(first) - u
      {
        StepDay(s, first, u);
        AlignedMidnight(s, u);
        DaySpan(u, u);
        LimitIff(first, u);
        if !added {
          added := true;
          u := Date(Year(u), Month(u), Day(u), 0, 0, 0);
        }
        u := AddDate(u, 0, 0, 1);
        if Day(u) == 1 {
          continue WRAP;
        }
      }

      while !HourMatches(s, u)
        invariant Quiet(s, first, u) && Year(u) <= yearLimit && MonthMatches(s, u) && DayMatches(s, u)
        invariant if added then Aligned(s, u) else u == first
        decreases Limit(first) - u
      {
        StepHour(s, first, u);
        DaySpan(u, u);
        DateOfHour(u);
        LimitIff(first, u);
        ghost var v := u;
        if !added {
          added := true;
          u := Date(Year(u), Month(u), Day(u), Hour(u), 0, 0);
        }
        u := u + 3600;
        if Hour(u) == 0 {
          continue WRAP;
        }
        SameDayMatches(s, v, u);
      }

      while !MinuteMatches(s, u)
        invariant Quiet(s, first, u) && Year(u) <= yearLimit
        invariant MonthMatches(s, u) && DayMatches(s, u) && HourMatches(s, u)
        invariant if added then Aligned(s, u) else u == first
        decreases Limit(first) - u
      {
        StepMinute(s, first, u);
        TruncateIsLocal(u, loc);
        LimitIff(first, u);
        ghost var v := u;
        if !added {
          added := true;
          u := Truncate(u, 60, loc);
        }
        u := u + 60;
        if Minute(u) == 0 {
          continue WRAP;
        }
        SameDayMatches(s, v, u);
        SameHourMatches(s, v, u);
      }

      while !SecondMatches(s, u)
        invariant Quiet(s, first, u) && Year(u) <= yearLimit
        invariant MonthMatches(s, u) && DayMatches(s, u) && HourMatches(s, u) && MinuteMatches(s, u)
        invariant if added then Aligned(s, u) else u == first
        decreases Limit(first) - u
      {
        StepSecond(s, first, u);
        TruncateIsLocal(u, loc);
        LimitIff(first, u);
        ghost var v := u;
        if !added {
          added := true;
          u := Truncate(u, 1, loc);
        }
        u := u + 1;
        if Second(u) == 0 {
          continue WRAP;
        }
        SameDayMatches(s, v, u);
        SameHourMatches(s, v, u);
        SameMinuteMatches(s, v, u);
      }

      LimitIff(first, u);
      AllFieldsMatch(s, u);
      FirstDueIff(s, first, Limit(first), Some(u));
      return Some(Present(s, t, u));
    }
  }
}
