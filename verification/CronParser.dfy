/** The cron field parser: comma lists of stepped ranges, read into bit sets. */
module CronParser {
  import opened Options
  import opened Bits
  import opened CronSpec
  import opened Calendar
  import opened Steps

  const INT_LIMIT: int := 0x8000_0000_0000_0000

  /** An unsigned machine word; Dafny checks that no sum in this module leaves it. */
  newtype Uint = x: int | 0 <= x < 0x1_0000_0000_0000_0000

  datatype FieldBounds = FieldBounds(min: nat, max: nat, names: map<string, nat>) {
    predicate Valid() { min <= max < STAR }
  }

  /** All six bounds of the package satisfy this. */
  type Bounds = b: FieldBounds | b.Valid() witness FieldBounds(0, 0, map[])

  const SECONDS: Bounds := FieldBounds(0, 59, map[])
  const MINUTES: Bounds := FieldBounds(0, 59, map[])
  const HOURS: Bounds := FieldBounds(0, 23, map[])
  const DOM: Bounds := FieldBounds(1, 31, map[])
  const MONTHS: Bounds :=
    FieldBounds(1, 12, map["jan" := 1, "feb" := 2, "mar" := 3, "apr" := 4, "may" := 5, "jun" := 6,
                           "jul" := 7, "aug" := 8, "sep" := 9, "oct" := 10, "nov" := 11, "dec" := 12])
  const DOW: Bounds :=
    FieldBounds(0, 6, map["sun" := 0, "mon" := 1, "tue" := 2, "wed" := 3, "thu" := 4, "fri" := 5, "sat" := 6])

  // ----- text -----

  /** `strings.Split`: at least one part. */
  function Split(s: string, sep: char): (parts: seq<string>)
    ensures |parts| >= 1
    ensures forall p <- parts :: sep !in p
  {
    if s == [] then [[]]
    else
      var rest := Split(s[1..], sep);
      if s[0] == sep then [[]] + rest else [[s[0]] + rest[0]] + rest[1..]
  }

  /** `strings.FieldsFunc`: the parts that are not empty. */
  function NonEmpty(parts: seq<string>): seq<string> {
    if parts == [] then []
    else if parts[0] == [] then NonEmpty(parts[1..])
    else [parts[0]] + NonEmpty(parts[1..])
  }

  function LowerChar(c: char): char { if 'A' <= c <= 'Z' then c + 32 as char else c }

  function ToLower(s: string): string { seq(|s|, i requires 0 <= i < |s| => LowerChar(s[i])) }

  predicate IsDigit(c: char) { '0' <= c <= '9' }

  function DigitValue(c: char): nat
    requires IsDigit(c)
  {
    c as int - '0' as int
  }

  function DigitsValue(s: string): nat
    requires forall c <- s :: IsDigit(c)
  {
    if s == [] then 0 else DigitsValue(s[..|s| - 1]) * 10 + DigitValue(s[|s| - 1])
  }

  /** `strconv.Atoi` on 64-bit integers. */
  function Atoi(s: string): Result<int, string> {
    var signed := s != [] && (s[0] == '+' || s[0] == '-');
    var digits := if signed then s[1..] else s;
    if digits == [] || exists c <- digits :: !IsDigit(c) then Err("invalid syntax")
    else
      var n: int := DigitsValue(digits);
      if signed && s[0] == '-' then (if n <= INT_LIMIT then Ok(-n) else Err("value out of range"))
      else if n < INT_LIMIT then Ok(n) else Err("value out of range")
  }

  function MustParseInt(expr: string): (r: Result<nat, string>)
    ensures r.Ok? ==> r.value < INT_LIMIT
  {
    match Atoi(expr)
    case Err(_) => Err("failed to parse number")
    case Ok(num) => if num < 0 then Err("number must be positive") else Ok(num)
  }

  function ParseIntOrName(expr: string, names: map<string, nat>): Result<nat, string> {
    if ToLower(expr) in names then Ok(names[ToLower(expr)]) else MustParseInt(expr)
  }

  // ----- one range -----

  /** What a range expression denotes: the values start, start + step, ... up to end. */
  datatype SteppedRange = SteppedRange(start: nat, end: nat, step: nat, star: bool) {
    predicate Has(i: nat)
      requires step > 0
    {
      start <= i <= end && (i - start) % step == 0
    }
  }

  predicate IsStar(s: string) { s == "*" || s == "?" }

  /** The meaning of `expr`, or the error it is rejected with, in the order the checks are made. */
  function ReadRange(expr: string, r: Bounds): (res: Result<SteppedRange, string>)
    ensures res.Ok? ==> r.min <= res.value.start <= res.value.end <= r.max && 0 < res.value.step < INT_LIMIT
  {
    var rangeAndStep := Split(expr, '/');
    var lowAndHigh := Split(rangeAndStep[0], '-');
    var ends :- ReadEnds(expr, lowAndHigh, r);
    var step :- (if |rangeAndStep| == 1 then Ok(1)
                 else if |rangeAndStep| == 2 then MustParseInt(rangeAndStep[1])
                 else Err("too many slashes: " + expr));
    var end := if |rangeAndStep| == 2 && |lowAndHigh| == 1 then r.max else ends.1;
    if ends.0 < r.min then Err("beginning of range below minimum: " + expr)
    else if end > r.max then Err("end of range above maximum: " + expr)
    else if ends.0 > end then Err("beginning of range after end: " + expr)
    else if step == 0 then Err("step cannot be zero: " + expr)
    else Ok(SteppedRange(ends.0, end, step, IsStar(lowAndHigh[0]) && step == 1))
  }

  function ReadEnds(expr: string, lowAndHigh: seq<string>, r: Bounds): Result<(nat, nat), string>
    requires |lowAndHigh| >= 1
  {
    if IsStar(lowAndHigh[0]) then Ok((r.min, r.max))
    else
      var start :- ParseIntOrName(lowAndHigh[0], r.names);
      if |lowAndHigh| == 1 then Ok((start, start))
      else if |lowAndHigh| == 2 then
        var end :- ParseIntOrName(lowAndHigh[1], r.names);
        Ok((start, end))
      else Err("too many hyphens: " + expr)
  }

  predicate OnStep(start: nat, end: nat, step: nat, i: nat)
    requires step > 0
  {
    start <= i <= end && (i - start) % step == 0
  }

  /** The bits of a stepped range. */
  ghost function RangeBits(start: nat, end: nat, step: nat): Word
    requires step > 0
  {
    set i | i in ALL_ONES && OnStep(start, end, step, i)
  }

  ghost function Below(x: Word, i: nat): Word { set j | j in x && j < i }

  /** Sets the bits of a range by a shift when the step is 1 and by a loop otherwise. */
  method GetBits(min: Uint, max: Uint, step: Uint) returns (bits: Word)
    requires min <= max && max as int < STAR && 0 < step && step as int < INT_LIMIT
    ensures bits == RangeBits(min as nat, max as nat, step as nat)
  {
    if step == 1 {
      bits := Complement(ShiftLeft(ALL_ONES, max as nat + 1)) * ShiftLeft(ALL_ONES, min as nat);
      ShiftForm(min as nat, max as nat);
      return;
    }
    bits := ZERO;
    var i := min;
    ghost var all := RangeBits(min as nat, max as nat, step as nat);
    while i <= max
      invariant min <= i && (i as int - min as int) % step as int == 0
      invariant bits == Below(all, i as nat)
      decreases max as int + step as int - i as int
    {
      NextInRange(min as nat, max as nat, step as nat, i as nat);
      bits := bits + One(i as nat);
      i := i + step;
    }
  }

  /** A run of ones cut out by two shifts is the range with step 1. */
  lemma ShiftForm(min: nat, max: nat)
    requires min <= max < STAR
    ensures Complement(ShiftLeft(ALL_ONES, max + 1)) * ShiftLeft(ALL_ONES, min) == RangeBits(min, max, 1)
  {
    hide ShiftLeft;
    forall i: nat
      ensures i in Complement(ShiftLeft(ALL_ONES, max + 1)) * ShiftLeft(ALL_ONES, min) <==>
              i in RangeBits(min, max, 1) {
      ShiftedOnes(min, i);
      ShiftedOnes(max + 1, i);
    }
  }

  /** The bits below `i`, and `i` itself, are the bits below the loop's next value. */
  lemma NextInRange(min: nat, max: nat, step: nat, i: nat)
    requires min <= i <= max < STAR && step > 0 && (i - min) % step == 0
    ensures (i + step - min) % step == 0
    ensures Below(RangeBits(min, max, step), i) + One(i) == Below(RangeBits(min, max, step), i + step)
  {
    hide OnStep, One;
    OneIs(i);
    StepAgain(i - min, step);
    var all := RangeBits(min, max, step);
    forall j ensures j in Below(all, i) + {i} <==> j in Below(all, i + step) {
      if i <= j < i + step { OnStepIff(min, max, step, i, j); }
    }
  }

  lemma StepAgain(a: nat, step: nat)
    requires step > 0 && a % step == 0
    ensures (a + step) % step == 0
  {
    Remainder(a / step + 1, 0, step);
    assert (a / step + 1) * step == a + step;
  }

  /** From a value on the grid, no value less than a step further on is on it. */
  lemma OnStepIff(min: nat, max: nat, step: nat, i: nat, j: nat)
    requires min <= i <= max && i <= j < i + step && (i - min) % step == 0
    ensures OnStep(min, max, step, j) <==> i == j
  {
    Remainder((i - min) / step, j - i, step);
    assert (i - min) / step * step == i - min;
  }

  // ----- fields -----

  function Ranges(field: string): seq<string> { NonEmpty(Split(field, ',')) }

  /** The bits of one range, with the star bit when the range is a bare star. */
  method GetRange(expr: string, r: Bounds) returns (res: Result<Word, string>)
    ensures match ReadRange(expr, r)
            case Err(e) => res == Err(e)
            case Ok(sr) => res == Ok(RangeBits(sr.start, sr.end, sr.step) + (if sr.star then {STAR} else {}))
  {
    var read := ReadRange(expr, r);
    if read.Err? {
      return Err(read.error);
    }
    var sr := read.value;
    var extra: Word := if sr.star then One(STAR) else ZERO;
    OneIs(STAR);
    var bits := GetBits(sr.start as Uint, sr.end as Uint, sr.step as Uint);
    return Ok(bits + extra);
  }

  /** Every range of the list can be read. */
  predicate AllRead(ranges: seq<string>, r: Bounds)
  {
    forall k | 0 <= k < |ranges| :: ReadRange(ranges[k], r).Ok?
  }

  /** Some range of the list contains `i`. */
  predicate SomeHas(ranges: seq<string>, r: Bounds, i: nat)
    requires AllRead(ranges, r)
  {
    exists k | 0 <= k < |ranges| :: ReadRange(ranges[k], r).value.Has(i)
  }

  /** Some range of the list is a star with no step or step 1. */
  predicate SomeStar(ranges: seq<string>, r: Bounds)
    requires AllRead(ranges, r)
  {
    exists k | 0 <= k < |ranges| :: ReadRange(ranges[k], r).value.star
  }

  /** Below the star bit the word holds the union of the ranges; the star bit says that one was a star. */
  ghost predicate Means(bits: Word, ranges: seq<string>, r: Bounds)
    requires AllRead(ranges, r)
  {
    (forall i: nat | i < STAR :: i in bits <==> SomeHas(ranges, r, i)) &&
    (STAR in bits <==> SomeStar(ranges, r)) &&
    (forall i | i in bits && i < STAR :: r.min <= i <= r.max)
  }

  /** A field is accepted exactly when all its ranges can be read; otherwise the first error is returned. */
  method GetField(field: string, r: Bounds) returns (res: Result<Word, string>)
    ensures res.Ok? <==> AllRead(Ranges(field), r)
    ensures res.Ok? ==> Means(res.value, Ranges(field), r)
    ensures res.Err? ==> exists k | 0 <= k < |Ranges(field)| ::
                           AllRead(Ranges(field)[..k], r) && ReadRange(Ranges(field)[k], r) == Err(res.error)
  {
    hide ReadRange, Split;
    var ranges := Ranges(field);
    var bits: Word := ZERO;
    var k := 0;
    while k < |ranges|
      invariant 0 <= k <= |ranges| && AllRead(ranges[..k], r)
      invariant Means(bits, ranges[..k], r)
    {
      var bit := GetRange(ranges[k], r);
      if bit.Err? {
        return Err(bit.error);
      }
      AddRange(bits, ranges[..k], ranges[k], r);
      assert ranges[..k + 1] == ranges[..k] + [ranges[k]];
      bits := bits + bit.value;
      k := k + 1;
    }
    assert ranges[..k] == ranges;
    return Ok(bits);
  }

  lemma AddRange(bits: Word, ranges: seq<string>, expr: string, r: Bounds)
    requires AllRead(ranges, r) && Means(bits, ranges, r) && ReadRange(expr, r).Ok?
    ensures AllRead(ranges + [expr], r)
    ensures var sr := ReadRange(expr, r).value;
            Means(bits + (RangeBits(sr.start, sr.end, sr.step) + (if sr.star then {STAR} else {})), ranges + [expr], r)
  {
    hide ReadRange, Split;
    var all := ranges + [expr];
    var sr := ReadRange(expr, r).value;
    var bits' := bits + (RangeBits(sr.start, sr.end, sr.step) + (if sr.star then {STAR} else {}));
    assert forall k | 0 <= k < |ranges| :: all[k] == ranges[k];
    forall i: nat | i < STAR ensures i in bits' <==> SomeHas(all, r, i) {
      SomeHasMore(ranges, expr, r, i);
      assert i in RangeBits(sr.start, sr.end, sr.step) <==> sr.Has(i);
    }
    SomeStarMore(ranges, expr, r);
    assert STAR !in RangeBits(sr.start, sr.end, sr.step);
  }

  lemma SomeHasMore(ranges: seq<string>, expr: string, r: Bounds, i: nat)
    requires AllRead(ranges, r) && ReadRange(expr, r).Ok? && AllRead(ranges + [expr], r)
    ensures SomeHas(ranges + [expr], r, i) <==> SomeHas(ranges, r, i) || ReadRange(expr, r).value.Has(i)
  {
    hide ReadRange;
    var all := ranges + [expr];
    assert forall k | 0 <= k < |ranges| :: all[k] == ranges[k];
    assert all[|ranges|] == expr;
  }

  lemma SomeStarMore(ranges: seq<string>, expr: string, r: Bounds)
    requires AllRead(ranges, r) && ReadRange(expr, r).Ok? && AllRead(ranges + [expr], r)
    ensures SomeStar(ranges + [expr], r) <==> SomeStar(ranges, r) || ReadRange(expr, r).value.star
  {
    hide ReadRange;
    var all := ranges + [expr];
    assert forall k | 0 <= k < |ranges| :: all[k] == ranges[k];
    assert all[|ranges|] == expr;
  }

  // ----- whole specifications -----

  /** The six expanded fields can be read. */
  predicate Readable(fields: seq<string>)
    requires |fields| == 6
  {
    AllRead(Ranges(fields[0]), SECONDS) && AllRead(Ranges(fields[1]), MINUTES) && AllRead(Ranges(fields[2]), HOURS) &&
    AllRead(Ranges(fields[3]), DOM) && AllRead(Ranges(fields[4]), MONTHS) && AllRead(Ranges(fields[5]), DOW)
  }

  ghost predicate Denotes(s: SpecSchedule, fields: seq<string>)
    requires |fields| == 6 && Readable(fields)
  {
    Means(s.second, Ranges(fields[0]), SECONDS) && Means(s.minute, Ranges(fields[1]), MINUTES) &&
    Means(s.hour, Ranges(fields[2]), HOURS) && Means(s.dom, Ranges(fields[3]), DOM) &&
    Means(s.month, Ranges(fields[4]), MONTHS) && Means(s.dow, Ranges(fields[5]), DOW)
  }

  /** Reads the six expanded fields in order; the first error ends the reading. */
  method ParseFields(fields: seq<string>, loc: Option<Offset>) returns (res: Result<SpecSchedule, string>)
    requires |fields| == 6
    ensures res.Ok? <==> Readable(fields)
    ensures res.Ok? ==> Denotes(res.value, fields) && res.value.location == loc
  {
    hide AllRead, Means, Ranges;
    var second :- GetField(fields[0], SECONDS);
    var minute :- GetField(fields[1], MINUTES);
    var hour :- GetField(fields[2], HOURS);
    var dayofmonth :- GetField(fields[3], DOM);
    var month :- GetField(fields[4], MONTHS);
    var dayofweek :- GetField(fields[5], DOW);
    return Ok(SpecSchedule(second, minute, hour, dayofmonth, month, dayofweek, loc));
  }

  /** A parsed schedule is due exactly when each clock field lies in the union of its ranges and the
      date satisfies the day rule: both day fields when one has a bare star, either one otherwise. */
  lemma ParsedDue(s: SpecSchedule, fields: seq<string>, u: int)
    requires |fields| == 6 && Readable(fields) && Denotes(s, fields)
    ensures Due(s, u) <==>
            SomeHas(Ranges(fields[0]), SECONDS, Second(u)) && SomeHas(Ranges(fields[1]), MINUTES, Minute(u)) &&
            SomeHas(Ranges(fields[2]), HOURS, Hour(u)) && SomeHas(Ranges(fields[4]), MONTHS, Month(u)) &&
            var domMatch := SomeHas(Ranges(fields[3]), DOM, DayBit(u));
            var dowMatch := SomeHas(Ranges(fields[5]), DOW, Weekday(u));
            if SomeStar(Ranges(fields[3]), DOM) || SomeStar(Ranges(fields[5]), DOW) then domMatch && dowMatch
            else domMatch || dowMatch
  {
    hide AllRead, SomeHas, SomeStar, Ranges, Bit, Second, Minute, Hour, MonthOfDay, Day, Weekday;
    ClockRange(u);
    BitIff(s.second, Second(u));
    BitIff(s.minute, Minute(u));
    BitIff(s.hour, Hour(u));
    BitIff(s.month, Month(u));
    BitIff(s.dom, DayBit(u));
    BitIff(s.dow, Weekday(u));
    BitIff(s.dom, STAR);
    BitIff(s.dow, STAR);
  }
}
