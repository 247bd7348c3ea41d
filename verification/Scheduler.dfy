/** The linear-scan scheduler, and its agreement with the jumping search. */
module Scheduler {
  import opened Options
  import opened Bits
  import opened Calendar
  import opened CronSpec
  import opened Steps

  datatype FieldMatcher =
    | Wildcard
    | Exact(value: int)
    | Range(start: int, end: int)
    | OneOf(values: seq<int>)
    | Step(step: int, min: int, max: int)
  {
    /** `parseField` accepts no other steps. */
    predicate Valid() { Step? ==> step >= 1 }

    predicate Matches(v: int)
      requires Valid()
    {
      match this
      case Wildcard => true
      case Exact(value) => v == value
      case Range(start, end) => v >= start && v <= end
      case OneOf(values) => v in values
      case Step(step, min, max) => min <= v <= max && (v - min) % step == 0
    }
  }

  datatype Schedule = Schedule(seconds: FieldMatcher, minutes: FieldMatcher, hours: FieldMatcher, days: FieldMatcher,
                               months: FieldMatcher, weekdays: FieldMatcher, hasSecs: bool)
  {
    predicate Valid() {
      seconds.Valid() && minutes.Valid() && hours.Valid() && days.Valid() && months.Valid() && weekdays.Valid() &&
      (!hasSecs ==> seconds == Exact(0))
    }

    predicate Matches(u: int)
      requires Valid()
    {
      seconds.Matches(Second(u)) && minutes.Matches(Minute(u)) && hours.Matches(Hour(u)) &&
      months.Matches(Month(u)) && (days.Matches(Day(u)) || weekdays.Matches(Weekday(u)))
    }

    /** One second or one minute, in nanoseconds. */
    function Tick(): int { if hasSecs then NANOS else 60 * NANOS }
  }

  const YEARS_SCANNED := 4

  /** Rounds an absolute instant down to a multiple of `unit`. */
  function TruncateNs(ns: int, unit: int): int
    requires unit > 0
  {
    ns - ns % unit
  }

  /** The first instant of the scan. */
  function Start(s: Schedule, from: Time): int { TruncateNs(from.ns + s.Tick(), s.Tick()) }

  /** The local second at which an instant falls. */
  function LocalSecond(ns: int, zone: Offset): int { ns / NANOS + zone }

  /** `AddDate` on a whole second. */
  function ScanEnd(start: int, zone: Offset): int {
    (AddDate(LocalSecond(start, zone), YEARS_SCANNED, 0, 0) - zone) * NANOS
  }

  /** The first matching instant of the grid from `at` up to `end`. */
  function Scan(s: Schedule, zone: Offset, at: int, end: int): (r: Option<int>)
    requires s.Valid()
    decreases end - at
  {
    if at >= end then None
    else if s.Matches(LocalSecond(at, zone)) then Some(at)
    else Scan(s, zone, at + s.Tick(), end)
  }

  function NextScan(s: Schedule, from: Time): Option<Time>
    requires s.Valid()
  {
    match Scan(s, from.offset, Start(s, from), ScanEnd(Start(s, from), from.offset))
    case None => None
    case Some(ns) => Some(Time(ns, from.offset))
  }

  method Next(s: Schedule, from: Time) returns (r: Option<Time>)
    requires s.Valid()
    ensures r == NextScan(s, from)
  {
    hide Schedule.Matches, AddDate;
    var at := TruncateNs(from.ns + s.Tick(), s.Tick());
    var maxTime := (AddDate(LocalSecond(at, from.offset), YEARS_SCANNED, 0, 0) - from.offset) * NANOS;
    while at < maxTime
      invariant Scan(s, from.offset, at, maxTime) == Scan(s, from.offset, Start(s, from), maxTime)
      decreases maxTime - at
    {
      if s.Matches(LocalSecond(at, from.offset)) {
        return Some(Time(at, from.offset));
      }
      at := at + s.Tick();
    }
    return None;
  }

  /** A stepped matcher admits its minimum and every step after it up to its maximum. */
  lemma StepMatchesIff(step: int, min: int, max: int, v: int)
    requires step >= 1
    ensures Step(step, min, max).Matches(v) <==> exists k: nat :: v == min + k * step && v <= max
  {
    forall k: nat ensures min <= min + k * step && (min + k * step - min) % step == 0 {
      MultipleIsOnStep(min, k, step);
    }
    if min <= v && (v - min) % step == 0 { QuotientIsMultiple(v - min, step); }
  }

  // ----- what the scan returns -----

  /** The multiples of the tick from `at` on that come before `ns`. */
  ghost predicate SilentTicks(s: Schedule, zone: Offset, at: int, ns: int)
    requires s.Valid()
  {
    forall n :: at <= n < ns && n % s.Tick() == 0 ==> !s.Matches(LocalSecond(n, zone))
  }

  lemma {:induction false} ScanIff(s: Schedule, zone: Offset, at: int, end: int, r: Option<int>)
    requires s.Valid() && at % s.Tick() == 0
    ensures Scan(s, zone, at, end) == r <==>
            match r
            case Some(ns) =>
              at <= ns < end && ns % s.Tick() == 0 && s.Matches(LocalSecond(ns, zone)) && SilentTicks(s, zone, at, ns)
            case None => SilentTicks(s, zone, at, end)
    decreases end - at
  {
    hide Schedule.Matches, LocalSecond;
    if at < end && !s.Matches(LocalSecond(at, zone)) {
      NextTick(at, s.Tick());
      ScanIff(s, zone, at + s.Tick(), end, r);
    }
  }

  /** Between two neighbouring multiples there is none. */
  lemma NextTick(at: int, tick: int)
    requires (tick == NANOS || tick == 60 * NANOS) && at % tick == 0
    ensures (at + tick) % tick == 0 && forall n :: at < n < at + tick ==> n % tick != 0
  {
    forall n | at < n < at + tick ensures n % tick != 0 { AfterStart(at, tick, at + tick, n); }
  }

  lemma StartIsNextTick(ns: int, tick: int)
    requires tick == NANOS || tick == 60 * NANOS
    ensures var at := TruncateNs(ns + tick, tick); at % tick == 0 && at - tick <= ns < at
  {
    if tick == NANOS { WholeSeconds(ns); } else { WholeMinutes(ns); }
  }

  lemma WholeSeconds(ns: int)
    ensures TruncateNs(ns + NANOS, NANOS) == (ns / NANOS + 1) * NANOS
  {}

  lemma WholeMinutes(ns: int)
    ensures TruncateNs(ns + 60 * NANOS, 60 * NANOS) == (ns / (60 * NANOS) + 1) * (60 * NANOS)
  {}

  /** Four years after the given local second, as the calendar counts them. */
  function FourYearsOn(u: int): int { Date(Year(u) + 4, Month(u), Day(u), Hour(u), Minute(u), Second(u)) }

  /** The answer is the least full second or, without a seconds field, full minute strictly after `from` at which the
      schedule matches, before the first of them is four years past; `None` when there is none. */
  lemma NextScanIsLeast(s: Schedule, from: Time, r: Option<Time>)
    requires s.Valid()
    ensures var tick := if s.hasSecs then 1_000_000_000 else 60_000_000_000;
            var first := (from.ns / tick + 1) * tick;
            var end := (FourYearsOn(first / 1_000_000_000 + from.offset) - from.offset) * 1_000_000_000;
            NextScan(s, from) == r <==>
            match r
            case Some(v) =>
              v.offset == from.offset && from.ns < v.ns < end && v.ns % tick == 0 &&
              s.Matches(LocalSecond(v.ns, from.offset)) &&
              forall n :: from.ns < n < v.ns && n % tick == 0 ==> !s.Matches(LocalSecond(n, from.offset))
            case None => forall n :: from.ns < n < end && n % tick == 0 ==> !s.Matches(LocalSecond(n, from.offset))
  {
    hide Schedule.Matches, Scan, LocalSecond, FourYearsOn, ScanEnd, Start, SilentTicks;
    var tick, zone, at := s.Tick(), from.offset, Start(s, from);
    StartsAtFirstTick(s, from);
    SameWindow(s, from);
    var end := ScanEnd(at, zone);
    SilentIff(s, zone, from.ns, at, end);
    match r {
      case Some(v) =>
        SilentIff(s, zone, from.ns, at, v.ns);
        ScanIff(s, zone, at, end, Some(v.ns));
        if v.ns % tick == 0 { AfterStart(from.ns, tick, at, v.ns); }
      case None => ScanIff(s, zone, at, end, None);
    }
    assert NextScan(s, from) == (match Scan(s, zone, at, end) case None => None case Some(ns) => Some(Time(ns, zone)));
  }

  lemma StartsAtFirstTick(s: Schedule, from: Time)
    ensures var tick := if s.hasSecs then 1_000_000_000 else 60_000_000_000;
            var at := Start(s, from);
            tick == s.Tick() && at == (from.ns / tick + 1) * tick && at % tick == 0 && at - tick <= from.ns < at
  {
    StartIsNextTick(from.ns, s.Tick());
    FirstTick(from.ns, s.Tick(), Start(s, from));
  }

  lemma SilentIff(s: Schedule, zone: Offset, ns: int, at: int, end: int)
    requires s.Valid() && at % s.Tick() == 0 && at - s.Tick() <= ns < at
    ensures SilentTicks(s, zone, at, end) <==>
            forall n :: ns < n < end && n % s.Tick() == 0 ==> !s.Matches(LocalSecond(n, zone))
  {
    hide Schedule.Matches, LocalSecond;
    forall n: int | n % s.Tick() == 0 ensures ns < n <==> at <= n { AfterStart(ns, s.Tick(), at, n); }
  }

  lemma FirstTick(ns: int, tick: int, at: int)
    requires (tick == NANOS || tick == 60 * NANOS) && at % tick == 0 && at - tick <= ns < at
    ensures at == (ns / tick + 1) * tick
  {
    if tick == NANOS {
      assert at / NANOS == ns / NANOS + 1;
    } else {
      assert at / (60 * NANOS) == ns / (60 * NANOS) + 1;
    }
  }

  lemma AfterStart(ns: int, tick: int, at: int, n: int)
    requires (tick == NANOS || tick == 60 * NANOS) && at % tick == 0 && at - tick <= ns < at
    ensures (at - tick) % tick == 0 && (n % tick == 0 ==> (ns < n <==> at <= n))
  {
    if tick == NANOS {
      assert n % NANOS == 0 ==> n == n / NANOS * NANOS && at == at / NANOS * NANOS;
    } else {
      assert n % (60 * NANOS) == 0 ==> n == n / (60 * NANOS) * (60 * NANOS) && at == at / (60 * NANOS) * (60 * NANOS);
    }
  }

  lemma SameWindow(s: Schedule, from: Time)
    ensures ScanEnd(Start(s, from), from.offset)
            == (FourYearsOn(Start(s, from) / 1_000_000_000 + from.offset) - from.offset) * 1_000_000_000
  {
    hide Date, Year, Month, Day, Hour, Minute, Second;
  }

  // ----- the two day rules -----

  /** `dayMatches` on a day of the month and a weekday. */
  predicate CronDayRule(dom: Word, dow: Word, d: nat, w: nat) {
    if Bit(dom, STAR) || Bit(dow, STAR) then Bit(dom, d) && Bit(dow, w) else Bit(dom, d) || Bit(dow, w)
  }

  /** Two words that hold the same days and weekdays as the scheduler's matchers. */
  predicate SameDays(s: Schedule, dom: Word, dow: Word)
    requires s.Valid()
  {
    (forall d: nat | 1 <= d <= 31 :: Bit(dom, d) == s.days.Matches(d)) &&
    (forall w: nat | 0 <= w <= 6 :: Bit(dow, w) == s.weekdays.Matches(w))
  }

  /** Neither day field is starred, or both admit every value, or neither admits any. */
  predicate DayRulesCompatible(dom: Word, dow: Word) {
    (!Bit(dom, STAR) && !Bit(dow, STAR)) ||
    ((forall d: nat | 1 <= d <= 31 :: Bit(dom, d)) && (forall w: nat | 0 <= w <= 6 :: Bit(dow, w))) ||
    ((forall d: nat | 1 <= d <= 31 :: !Bit(dom, d)) && (forall w: nat | 0 <= w <= 6 :: !Bit(dow, w)))
  }

  /** The scheduler always joins its two day fields by "or"; the rules agree on every date exactly then. */
  lemma DayRulesAgreeIff(s: Schedule, dom: Word, dow: Word)
    requires s.Valid() && SameDays(s, dom, dow)
    ensures (forall d: nat, w: nat | 1 <= d <= 31 && w <= 6 ::
               CronDayRule(dom, dow, d, w) == (s.days.Matches(d) || s.weekdays.Matches(w)))
            <==> DayRulesCompatible(dom, dow)
  {
    hide Bit, FieldMatcher.Matches;
    if forall d: nat, w: nat | 1 <= d <= 31 && w <= 6 ::
         CronDayRule(dom, dow, d, w) == (s.days.Matches(d) || s.weekdays.Matches(w)) {
      if Bit(dom, STAR) || Bit(dow, STAR) {
        forall d: nat, w: nat | 1 <= d <= 31 && w <= 6 ensures Bit(dom, d) == Bit(dow, w) {
          assert CronDayRule(dom, dow, d, w) == (s.days.Matches(d) || s.weekdays.Matches(w));
        }
        assert Bit(dom, 1) == Bit(dow, 0);
      }
    }
  }

  /** The six fields of a cron schedule and of a scheduler schedule admit the same values. */
  predicate SameFields(c: SpecSchedule, s: Schedule)
    requires s.Valid()
  {
    (forall v: nat | v <= 59 :: Bit(c.second, v) == s.seconds.Matches(v)) &&
    (forall v: nat | v <= 59 :: Bit(c.minute, v) == s.minutes.Matches(v)) &&
    (forall v: nat | v <= 23 :: Bit(c.hour, v) == s.hours.Matches(v)) &&
    (forall v: nat | 1 <= v <= 12 :: Bit(c.month, v) == s.months.Matches(v)) &&
    SameDays(s, c.dom, c.dow)
  }

  lemma DueIffMatches(c: SpecSchedule, s: Schedule, u: int)
    requires s.Valid() && SameFields(c, s) && DayRulesCompatible(c.dom, c.dow)
    ensures Due(c, u) <==> s.Matches(u)
  {
    hide Bit, FieldMatcher.Matches, DateDay, YearOfDay, MonthOfDay, Day, Weekday, Second, Minute, Hour,
         DayRulesCompatible;
    DayRulesAgreeIff(s, c.dom, c.dow);
    ClockRange(u);
    var d, w: nat := DayBit(u), Weekday(u);
    assert CronDayRule(c.dom, c.dow, d, w) == (s.days.Matches(d) || s.weekdays.Matches(w));
    assert DayMatches(c, u) == CronDayRule(c.dom, c.dow, d, w);
  }

  /** Between two grid points of a minute-wise scan nothing is due. */
  lemma {:induction false} ScanFindsFirstDue(c: SpecSchedule, s: Schedule, zone: Offset, at: int, end: int, first: int,
                                             limit: int)
    requires s.Valid() && SameFields(c, s) && DayRulesCompatible(c.dom, c.dow)
    requires at % s.Tick() == 0 && end <= (limit - zone) * NANOS
    requires Quiet(c, first, LocalSecond(at, zone))
    ensures match Scan(s, zone, at, end)
            case Some(ns) =>
              ns < end && ns == (LocalSecond(ns, zone) - zone) * NANOS &&
              FirstDue(c, first, limit) == Some(LocalSecond(ns, zone))
            case None => forall v :: first <= v && (v - zone) * NANOS < end ==> !Due(c, v)
    decreases end - at
  {
    hide Due, Schedule.Matches, SameFields, DayRulesCompatible, Bit, FirstDue;
    var u := LocalSecond(at, zone);
    DueIffMatches(c, s, u);
    GridSecond(s, at, zone);
    if at >= end {
    } else if s.Matches(u) {
      FirstDueIff(c, first, limit, Some(u));
    } else {
      QuietTick(c, s, zone, at, first);
      ScanFindsFirstDue(c, s, zone, at + s.Tick(), end, first, limit);
    }
  }

  lemma GridSecond(s: Schedule, at: int, zone: Offset)
    requires at % s.Tick() == 0
    ensures at % NANOS == 0 && at == (LocalSecond(at, zone) - zone) * NANOS
    ensures (at + s.Tick()) % s.Tick() == 0
    ensures LocalSecond(at + s.Tick(), zone) == LocalSecond(at, zone) + (if s.hasSecs then 1 else 60)
    ensures !s.hasSecs ==> LocalSecond(at, zone) % 60 == 0
  {
    if !s.hasSecs { GridMinute(at, zone); }
  }

  lemma GridMinute(at: int, zone: Offset)
    requires at % (60 * NANOS) == 0
    ensures at % NANOS == 0 && (at + 60 * NANOS) / NANOS == at / NANOS + 60 && (at / NANOS + zone) % 60 == 0
    ensures (at + 60 * NANOS) % (60 * NANOS) == 0
  {
    var q := at / (60 * NANOS);
    assert at == 60 * q * NANOS;
    assert at / NANOS == 60 * q;
    assert (at + 60 * NANOS) == (60 * q + 60) * NANOS;
  }

  lemma QuietTick(c: SpecSchedule, s: Schedule, zone: Offset, at: int, first: int)
    requires s.Valid() && SameFields(c, s) && DayRulesCompatible(c.dom, c.dow)
    requires at % s.Tick() == 0 && Quiet(c, first, LocalSecond(at, zone)) && !Due(c, LocalSecond(at, zone))
    ensures Quiet(c, first, LocalSecond(at + s.Tick(), zone))
  {
    hide Due, Schedule.Matches, SameFields, DayRulesCompatible, Bit;
    GridSecond(s, at, zone);
    var u := LocalSecond(at, zone);
    if !s.hasSecs {
      forall v | u < v < u + 60 ensures !Due(c, v) {
        OffGrid(c, s, v);
      }
    }
  }

  /** A five-field schedule is due only on full minutes. */
  lemma OffGrid(c: SpecSchedule, s: Schedule, v: int)
    requires s.Valid() && SameFields(c, s) && DayRulesCompatible(c.dom, c.dow) && !s.hasSecs
    requires v % 60 != 0
    ensures !Due(c, v)
  {
    hide Bit, FieldMatcher.Matches, DayRulesCompatible, Month, Day, Weekday;
    DueIffMatches(c, s, v);
    FullMinute(s, v);
  }

  lemma FullMinute(s: Schedule, v: int)
    requires s.Valid() && !s.hasSecs && v % 60 != 0
    ensures !s.Matches(v)
  {}

  lemma QuietStart(c: SpecSchedule, s: Schedule, t: Time)
    requires s.Valid() && SameFields(c, s) && DayRulesCompatible(c.dom, c.dow) && Zone(c, t) == t.offset
    ensures Start(s, t) % s.Tick() == 0 && Quiet(c, Upcoming(c, t), LocalSecond(Start(s, t), t.offset))
  {
    hide Due, Schedule.Matches, SameFields, DayRulesCompatible, Bit;
    var at := Start(s, t);
    if s.hasSecs {
      NextSecondStart(t.ns);
    } else {
      NextMinuteStart(t.ns);
      GridMinute(at - 60 * NANOS, t.offset);
      forall v | Upcoming(c, t) <= v < LocalSecond(at, t.offset) ensures !Due(c, v) {
        OffGrid(c, s, v);
      }
    }
  }

  lemma NextSecondStart(ns: int)
    ensures var at := TruncateNs(ns + NANOS, NANOS); at % NANOS == 0 && at / NANOS == ns / NANOS + 1
  {}

  lemma NextMinuteStart(ns: int)
    ensures var at := TruncateNs(ns + 60 * NANOS, 60 * NANOS);
            at % (60 * NANOS) == 0 && (at - 60 * NANOS) / NANOS <= ns / NANOS < at / NANOS
  {}

  /** Four years on, `AddDate` is still before the end of the fifth year. */
  lemma ScanEndsBeforeLimit(u: int, first: int)
    requires Year(u) <= Year(first) + 1
    ensures AddDate(u, YEARS_SCANNED, 0, 0) < Limit(first)
  {
    hide YearOfDay, MonthOfDay, Hour, Minute, Second, DaysBeforeMonth, DaysBeforeYear;
    var y, m, d := Year(u) + YEARS_SCANNED, Month(u), Day(u);
    DayRange(u);
    ClockRange(u);
    DateWithinYear(y, m, d);
    YearStartMonotone(y + 1, Year(first) + YEARS_SEARCHED + 1);
    MonthStartDay(Year(first) + YEARS_SEARCHED + 1, 1);
    FirstMonth(Year(first) + YEARS_SEARCHED + 1);
  }

  lemma FirstMonth(y: int)
    ensures DateDay(y, 1, 1) == DaysBeforeYear(y)
  {}

  lemma DateWithinYear(y: int, m: int, d: int)
    requires 1 <= m <= 12 && 1 <= d <= 31
    ensures DateDay(y, m, d) < DaysBeforeYear(y + 1)
  {
    MonthStartDay(y, m);
    YearStep(y);
    assert DaysBeforeMonth(y, m) + 31 <= DaysBeforeMonth(y, 13);
  }

  lemma YearGrows(u: int, k: nat)
    requires k <= 60
    ensures Year(u + k) <= Year(u) + 1
  {
    hide YearOfDay, DaysBeforeYear;
    var y := Year(u);
    YearOfDayIff(DayNumber(u), y);
    YearOfDayIff(DayNumber(u + k), Year(u + k));
    if Year(u + k) > y + 1 {
      YearStartMonotone(y + 1, y + 2);
      YearStartMonotone(y + 2, Year(u + k));
    }
  }

  /** With the same field values and compatible day rules, the linear scan returns what the jumping
      search returns when that lies inside the four-year window, and nothing otherwise. */
  lemma ScanIsJumpWithinWindow(c: SpecSchedule, s: Schedule, t: Time)
    requires s.Valid() && SameFields(c, s) && DayRulesCompatible(c.dom, c.dow) && Zone(c, t) == t.offset
    ensures NextScan(s, t) ==
            match NextTime(c, t)
            case Some(v) => (if v.ns < ScanEnd(Start(s, t), t.offset) then Some(v) else None)
            case None => None
  {
    hide Due, Schedule.Matches, SameFields, DayRulesCompatible, Bit, FirstDue, Year, AddDate, Limit;
    var zone, first, at := t.offset, Upcoming(c, t), Start(s, t);
    var end := ScanEnd(at, zone);
    QuietStart(c, s, t);
    ScanStartYear(s, t);
    ScanEndsBeforeLimit(LocalSecond(at, zone), first);
    ScanFindsFirstDue(c, s, zone, at, end, first, Limit(first));
    LimitIff(first, first);
    FirstDueIff(c, first, Limit(first), FirstDue(c, first, Limit(first)));
  }

  lemma ScanStartYear(s: Schedule, t: Time)
    ensures Year(LocalSecond(Start(s, t), t.offset)) <= Year(t.ns / NANOS + 1 + t.offset) + 1
  {
    hide Year;
    var first := t.ns / NANOS + 1 + t.offset;
    if s.hasSecs {
      NextSecondStart(t.ns);
      YearGrows(first, 0);
    } else {
      MinuteAway(t.ns);
      YearGrows(first, LocalSecond(Start(s, t), t.offset) - first);
    }
  }

  lemma MinuteAway(ns: int)
    ensures ns / NANOS < TruncateNs(ns + 60 * NANOS, 60 * NANOS) / NANOS <= ns / NANOS + 60
  {
    NextMinuteStart(ns);
    GridMinute(TruncateNs(ns + 60 * NANOS, 60 * NANOS) - 60 * NANOS, 0);
  }
}
