/** What the texts of cron fields mean, form by form. */
module CronTexts {
  import opened Options
  import opened Text
  import opened Bits
  import opened Calendar
  import opened CronSpec
  import opened CronParser
  import opened Steps

  // ----- the forms -----

  /** A number, or a name of the field in upper or lower case. */
  datatype Atom = Number(n: nat) | Named(name: string)

  /** `a`, `a-b`, `a/s`, `a-b/s`, a star and a star with `/s`, the star being `*` or `?`. */
  datatype Form =
    | One(a: Atom)
    | Span(a: Atom, b: Atom)
    | OneStep(a: Atom, step: nat)
    | SpanStep(a: Atom, b: Atom, step: nat)
    | Star(question: bool)
    | StarStep(question: bool, step: nat)

  function AtomText(a: Atom): string { match a case Number(n) => Decimal(n) case Named(name) => name }

  function StarText(question: bool): string { if question then "?" else "*" }

  /** The part of a form before the slash. */
  function RangeText(f: Form): string {
    match f
    case One(a) => AtomText(a)
    case OneStep(a, _) => AtomText(a)
    case Span(a, b) => AtomText(a) + "-" + AtomText(b)
    case SpanStep(a, b, _) => AtomText(a) + "-" + AtomText(b)
    case Star(q) => StarText(q)
    case StarStep(q, _) => StarText(q)
  }

  predicate HasStep(f: Form) { f.OneStep? || f.SpanStep? || f.StarStep? }

  function FormText(f: Form): string { if HasStep(f) then RangeText(f) + "/" + Decimal(f.step) else RangeText(f) }

  // ----- their meaning -----

  predicate AtomSpelled(a: Atom, r: Bounds) { a.Named? ==> ToLower(a.name) in r.names }

  /** The names a form uses are names of the field. */
  predicate Spelled(f: Form, r: Bounds) {
    ((f.One? || f.OneStep? || f.Span? || f.SpanStep?) ==> AtomSpelled(f.a, r)) &&
    ((f.Span? || f.SpanStep?) ==> AtomSpelled(f.b, r))
  }

  function AtomValue(a: Atom, r: Bounds): nat
    requires AtomSpelled(a, r)
  {
    match a case Number(n) => n case Named(name) => r.names[ToLower(name)]
  }

  function Low(f: Form, r: Bounds): nat
    requires Spelled(f, r)
  {
    if f.Star? || f.StarStep? then r.min else AtomValue(f.a, r)
  }

  /** A single number with a step runs to the end of the field. */
  function High(f: Form, r: Bounds): nat
    requires Spelled(f, r)
  {
    match f
    case One(a) => AtomValue(a, r)
    case Span(_, b) => AtomValue(b, r)
    case SpanStep(_, b, _) => AtomValue(b, r)
    case _ => r.max
  }

  function StepOf(f: Form): nat { if HasStep(f) then f.step else 1 }

  /** A star without a step, or with step 1. */
  predicate BareStar(f: Form) { f.Star? || (f.StarStep? && f.step == 1) }

  predicate InBounds(f: Form, r: Bounds)
    requires Spelled(f, r)
  {
    r.min <= Low(f, r) <= High(f, r) <= r.max && 0 < StepOf(f) < 0x8000_0000_0000_0000
  }

  /** The values of a form: its low end and every step after it up to its high end. */
  ghost predicate Admits(f: Form, r: Bounds, i: int)
    requires Spelled(f, r)
  {
    exists k: nat :: i == Low(f, r) + k * StepOf(f) && i <= High(f, r)
  }

  /** Names are words of small letters. */
  predicate NamesAreWords(r: Bounds) {
    forall name <- r.names :: name != "" && forall c <- name :: 'a' <= c <= 'z'
  }

  // ----- texts -----

  lemma {:induction false} SplitNothing(s: string, sep: char)
    requires sep !in s
    ensures Split(s, sep) == [s]
  {
    if s != [] {
      SplitNothing(s[1..], sep);
      assert s == [s[0]] + s[1..];
    }
  }

  lemma {:induction false} SplitAt(a: string, sep: char, b: string)
    requires sep !in a
    ensures Split(a + [sep] + b, sep) == [a] + Split(b, sep)
  {
    var s := a + [sep] + b;
    if a == [] {
      assert s[0] == sep && s[1..] == b;
    } else {
      assert s[0] == a[0] && s[1..] == a[1..] + [sep] + b;
      SplitAt(a[1..], sep, b);
      assert a == [a[0]] + a[1..];
    }
  }

  predicate AllDigits(s: string) { forall c <- s :: IsDigit(c) }

  lemma {:induction false} DecimalValue(n: nat)
    ensures AllDigits(Decimal(n)) && DigitsValue(Decimal(n)) == n
  {
    if n < 10 {
      assert Decimal(n)[..0] == [];
    } else {
      DecimalValue(n / 10);
      var s := Decimal(n);
      assert s[..|s| - 1] == Decimal(n / 10) && s[|s| - 1] == Digit(n % 10);
    }
  }

  lemma AtoiDecimal(n: nat)
    ensures MustParseInt(Decimal(n)).Ok? <==> n < INT_LIMIT
    ensures n < INT_LIMIT ==> MustParseInt(Decimal(n)) == Ok(n)
  {
    DecimalValue(n);
    assert Decimal(n)[0] in Decimal(n);
  }

  /** The texts that are numbers: digits, with or without a sign, of a value that is not negative and fits. */
  lemma SignedNumbers(digits: string)
    requires digits != "" && AllDigits(digits)
    ensures MustParseInt(digits) == if DigitsValue(digits) < 0x8000_0000_0000_0000 then Ok(DigitsValue(digits))
                                    else Err("failed to parse number")
    ensures MustParseInt("+" + digits) == MustParseInt(digits)
    ensures MustParseInt("-" + digits).Ok? <==> DigitsValue(digits) == 0
  {
    assert digits[0] in digits;
    assert ("+" + digits)[1..] == digits && ("-" + digits)[1..] == digits;
  }

  /** No other text is one. */
  lemma OnlyNumbersAreRead(s: string)
    requires MustParseInt(s).Ok?
    ensures s != "" && (AllDigits(s) || ((s[0] == '+' || s[0] == '-') && s[1..] != "" && AllDigits(s[1..])))
  {}

  /** Leading zeros do not count. */
  lemma {:induction false} LeadingZero(digits: string)
    requires AllDigits(digits)
    ensures AllDigits("0" + digits) && DigitsValue("0" + digits) == DigitsValue(digits)
  {
    if digits == "" {
      assert "0" + digits == "0" && "0"[..0] == "";
    } else {
      var n := |digits| - 1;
      assert ("0" + digits)[..n + 1] == "0" + digits[..n];
      LeadingZero(digits[..n]);
    }
  }

  /** The two texts differ at most in the case of their letters. */
  predicate SameLetters(small: string, s: string) {
    |small| == |s| &&
    forall i | 0 <= i < |s| :: 'a' <= small[i] <= 'z' &&
                               (s[i] == small[i] || ('A' <= s[i] <= 'Z' && s[i] - 'A' == small[i] - 'a'))
  }

  /** A name is read in any case of its letters. */
  lemma NameInAnyCase(name: string, s: string, r: Bounds)
    requires name in r.names && SameLetters(name, s)
    ensures ToLower(s) == name && AtomSpelled(Named(s), r) && AtomValue(Named(s), r) == r.names[name]
  {}

  /** No separator of the field grammar. */
  predicate Word(s: string) { s != "" && forall c <- s :: c != '/' && c != '-' && c != ',' && c != '*' && c != '?' }

  lemma DigitsAreWord(s: string)
    requires s != "" && AllDigits(s)
    ensures Word(s)
  {}

  lemma AtomIsWord(a: Atom, r: Bounds)
    requires AtomSpelled(a, r) && NamesAreWords(r)
    ensures Word(AtomText(a))
  {
    match a {
      case Number(n) => DecimalValue(n); DigitsAreWord(Decimal(n));
      case Named(name) =>
        var low := ToLower(name);
        forall c | c in name ensures c != '/' && c != '-' && c != ',' && c != '*' && c != '?' {
          var i :| 0 <= i < |name| && name[i] == c;
          assert low[i] == LowerChar(c) && low[i] in low;
        }
        assert low != "" && |low| == |name|;
    }
  }

  /** A number is read as itself and a name as its value. */
  lemma AtomIsRead(a: Atom, r: Bounds)
    requires AtomSpelled(a, r) && NamesAreWords(r)
    ensures ParseIntOrName(AtomText(a), r.names).Ok? <==> (a.Named? || a.n < INT_LIMIT)
    ensures ParseIntOrName(AtomText(a), r.names).Ok? ==> ParseIntOrName(AtomText(a), r.names).value == AtomValue(a, r)
  {
    if a.Number? {
      DecimalValue(a.n);
      AtoiDecimal(a.n);
      var low := ToLower(Decimal(a.n));
      assert Decimal(a.n)[0] in Decimal(a.n);
      assert low[0] == Decimal(a.n)[0] && low[0] in low;
    }
  }

  // ----- one form -----

  /** The two halves a form's text is split into. */
  lemma FormSplits(f: Form, r: Bounds)
    requires Spelled(f, r) && NamesAreWords(r)
    ensures Split(FormText(f), '/') == [RangeText(f)] + (if HasStep(f) then [Decimal(f.step)] else [])
    ensures Split(RangeText(f), '-') ==
            match f
            case Span(a, b) => [AtomText(a), AtomText(b)]
            case SpanStep(a, b, _) => [AtomText(a), AtomText(b)]
            case _ => [RangeText(f)]
    ensures FormText(f) != "" && ',' !in FormText(f)
  {
    hide Split, Decimal;
    if !f.Star? && !f.StarStep? { AtomIsWord(f.a, r); }
    if f.Span? || f.SpanStep? {
      AtomIsWord(f.b, r);
      SplitAt(AtomText(f.a), '-', AtomText(f.b));
      SplitNothing(AtomText(f.b), '-');
    } else {
      SplitNothing(RangeText(f), '-');
    }
    if HasStep(f) {
      DecimalValue(f.step);
      DigitsAreWord(Decimal(f.step));
      SplitAt(RangeText(f), '/', Decimal(f.step));
      SplitNothing(Decimal(f.step), '/');
    } else {
      SplitNothing(RangeText(f), '/');
    }
  }

  /** A form is read exactly when it stays in the bounds of the field and steps forward, and then it is read as its
      low end, high end and step, with the star flag for a bare star. */
  lemma FormIsRead(f: Form, r: Bounds)
    requires Spelled(f, r) && NamesAreWords(r)
    ensures ReadRange(FormText(f), r).Ok? <==> InBounds(f, r)
    ensures InBounds(f, r) ==>
              ReadRange(FormText(f), r) == Ok(SteppedRange(Low(f, r), High(f, r), StepOf(f), BareStar(f)))
  {
    hide Split, Decimal, ParseIntOrName, MustParseInt, FormText, AtomText, AtomValue;
    FormSplits(f, r);
    if HasStep(f) { AtoiDecimal(f.step); }
    if f.Star? || f.StarStep? {
    } else {
      NumbersInBounds(f, r);
      AtomIsRead(f.a, r);
      AtomIsWord(f.a, r);
      if f.Span? || f.SpanStep? { AtomIsRead(f.b, r); }
      NotAStar(f.a);
    }
  }

  lemma NotAStar(a: Atom)
    ensures Word(AtomText(a)) ==> !IsStar(AtomText(a))
  {
    if IsStar(AtomText(a)) { assert AtomText(a)[0] in AtomText(a); }
  }

  lemma NumbersInBounds(f: Form, r: Bounds)
    requires Spelled(f, r) && !f.Star? && !f.StarStep?
    ensures f.a.Number? ==> f.a.n == AtomValue(f.a, r)
    ensures (f.Span? || f.SpanStep?) && f.b.Number? ==> f.b.n == AtomValue(f.b, r)
  {}

  /** The values of the range read are the values of the form. */
  lemma AdmitsIff(f: Form, r: Bounds, i: nat)
    requires Spelled(f, r) && InBounds(f, r)
    ensures Admits(f, r, i) <==> SteppedRange(Low(f, r), High(f, r), StepOf(f), BareStar(f)).Has(i)
  {
    hide Low, High, StepOf, BareStar;
    var lo, step := Low(f, r), StepOf(f);
    forall k: nat ensures lo <= lo + k * step && (lo + k * step - lo) % step == 0 { MultipleIsOnStep(lo, k, step); }
    if lo <= i && (i - lo) % step == 0 { QuotientIsMultiple(i - lo, step); }
  }

  /** A fourth part or a third end is refused. */
  lemma TooManyParts(a: string, b: string, c: string, r: Bounds)
    ensures '/' !in a && '/' !in b ==> ReadRange(a + "/" + (b + "/" + c), r).Err?
    ensures '/' !in a + b + c && '-' !in a && '-' !in b && !IsStar(a) ==> ReadRange(a + "-" + (b + "-" + c), r).Err?
  {
    hide ParseIntOrName, MustParseInt, Split;
    if '/' !in a && '/' !in b {
      SplitAt(a, '/', b + "/" + c);
      SplitAt(b, '/', c);
    }
    if '/' !in a + b + c && '-' !in a && '-' !in b && !IsStar(a) {
      var s := a + "-" + (b + "-" + c);
      assert '/' !in s;
      SplitNothing(s, '/');
      SplitAt(a, '-', b + "-" + c);
      SplitAt(b, '-', c);
    }
  }

  // ----- fields -----

  /** The forms with commas between them. */
  function FieldText(forms: seq<Form>): string
    requires forms != []
  {
    if |forms| == 1 then FormText(forms[0]) else FormText(forms[0]) + "," + FieldText(forms[1..])
  }

  predicate AllSpelled(forms: seq<Form>, r: Bounds) { forall f <- forms :: Spelled(f, r) }

  function Texts(forms: seq<Form>): (r: seq<string>)
    ensures |r| == |forms| && forall i | 0 <= i < |forms| :: r[i] == FormText(forms[i])
  {
    seq(|forms|, i requires 0 <= i < |forms| => FormText(forms[i]))
  }

  /** The ranges a field is split into are its forms. */
  lemma {:induction false} FieldSplits(forms: seq<Form>, r: Bounds)
    requires forms != [] && AllSpelled(forms, r) && NamesAreWords(r)
    ensures Ranges(FieldText(forms)) == Texts(forms)
    decreases |forms|
  {
    hide Split, FormText, Spelled, NamesAreWords;
    var first, rest := forms[0], forms[1..];
    assert first in forms && forall f <- rest :: f in forms;
    FormSplits(first, r);
    if |forms| == 1 {
      SplitNothing(FormText(first), ',');
      assert NonEmpty([FormText(first)]) == [FormText(first)] + NonEmpty([]);
    } else {
      FieldSplits(rest, r);
      SplitAt(FormText(first), ',', FieldText(rest));
      var parts := Split(FieldText(rest), ',');
      assert ([FormText(first)] + parts)[1..] == parts;
      assert Texts(forms) == [FormText(first)] + Texts(rest);
    }
  }

  predicate AllInBounds(forms: seq<Form>, r: Bounds)
    requires AllSpelled(forms, r)
  {
    forall f <- forms :: InBounds(f, r)
  }

  /** Some form of the list admits the value. */
  ghost predicate SomeAdmits(forms: seq<Form>, r: Bounds, i: int)
    requires AllSpelled(forms, r)
  {
    exists f <- forms :: Admits(f, r, i)
  }

  predicate SomeBareStar(forms: seq<Form>) { exists f <- forms :: BareStar(f) }

  /** A comma list of forms is accepted exactly when each of them is in bounds; it admits what one of them admits, and
      it is starred exactly when one of them is a bare star. */
  lemma FieldIsRead(forms: seq<Form>, r: Bounds)
    requires forms != [] && AllSpelled(forms, r) && NamesAreWords(r)
    ensures AllRead(Ranges(FieldText(forms)), r) <==> AllInBounds(forms, r)
    ensures AllInBounds(forms, r) ==>
              (SomeStar(Ranges(FieldText(forms)), r) <==> SomeBareStar(forms)) &&
              forall i: nat :: SomeHas(Ranges(FieldText(forms)), r, i) <==> SomeAdmits(forms, r, i)
  {
    hide FormText, FieldText, ReadRange, Ranges, Spelled, InBounds, BareStar, Admits, NamesAreWords;
    FieldSplits(forms, r);
    var texts := Texts(forms);
    forall k | 0 <= k < |forms|
      ensures ReadRange(texts[k], r).Ok? <==> InBounds(forms[k], r)
      ensures InBounds(forms[k], r) ==> ReadRange(texts[k], r) == Ok(RangeOf(forms[k], r))
    {
      assert forms[k] in forms;
      FormIsRead(forms[k], r);
    }
    if AllInBounds(forms, r) {
      RangesHave(forms, r);
    } else {
      var f :| f in forms && !InBounds(f, r);
      var k :| 0 <= k < |forms| && forms[k] == f;
      assert ReadRange(texts[k], r).Err?;
    }
  }

  function RangeOf(f: Form, r: Bounds): SteppedRange
    requires Spelled(f, r)
  {
    SteppedRange(Low(f, r), High(f, r), StepOf(f), BareStar(f))
  }

  lemma RangesHave(forms: seq<Form>, r: Bounds)
    requires AllSpelled(forms, r) && AllInBounds(forms, r)
    requires forall k | 0 <= k < |forms| :: ReadRange(Texts(forms)[k], r) == Ok(RangeOf(forms[k], r))
    ensures AllRead(Texts(forms), r)
    ensures SomeStar(Texts(forms), r) <==> SomeBareStar(forms)
    ensures forall i: nat :: SomeHas(Texts(forms), r, i) <==> SomeAdmits(forms, r, i)
  {
    hide FormText, ReadRange, Spelled, InBounds, BareStar, Admits;
    var texts := Texts(forms);
    forall i: nat ensures SomeHas(texts, r, i) <==> SomeAdmits(forms, r, i) {
      forall f | f in forms ensures Admits(f, r, i) <==> RangeHas(f, r, i) { AdmitsIff(f, r, i); }
      if SomeHas(texts, r, i) {
        var k :| 0 <= k < |texts| && ReadRange(texts[k], r).value.Has(i);
        assert forms[k] in forms && RangeHas(forms[k], r, i);
      }
      if SomeAdmits(forms, r, i) {
        var f :| f in forms && Admits(f, r, i);
        var k :| 0 <= k < |forms| && forms[k] == f;
        assert ReadRange(texts[k], r).value.Has(i);
      }
    }
    if SomeStar(texts, r) {
      var k :| 0 <= k < |texts| && ReadRange(texts[k], r).value.star;
      assert forms[k] in forms;
    }
    if SomeBareStar(forms) {
      var f :| f in forms && BareStar(f);
      var k :| 0 <= k < |forms| && forms[k] == f;
      assert ReadRange(texts[k], r).value.star;
    }
  }

  predicate RangeHas(f: Form, r: Bounds, i: nat)
    requires Spelled(f, r) && InBounds(f, r)
  {
    RangeOf(f, r).Has(i)
  }

  // ----- the six fields -----

  const MONTH_NAMES: seq<string> :=
    ["jan", "feb", "mar", "apr", "may", "jun", "jul", "aug", "sep", "oct", "nov", "dec"]
  const DAY_NAMES: seq<string> := ["sun", "mon", "tue", "wed", "thu", "fri", "sat"]

  /** The names count the months from 1 and the weekdays from Sunday as 0; the other fields have none. */
  lemma NamesOfFields(name: string)
    ensures name in MONTHS.names <==> exists i :: 0 <= i < 12 && MONTH_NAMES[i] == name && MONTHS.names[name] == i + 1
    ensures name in DOW.names <==> exists i :: 0 <= i < 7 && DAY_NAMES[i] == name && DOW.names[name] == i
    ensures SECONDS.names == MINUTES.names == HOURS.names == DOM.names == map[]
  {
    if name in MONTHS.names { assert MONTH_NAMES[MONTHS.names[name] - 1] == name; }
    if name in DOW.names { assert DAY_NAMES[DOW.names[name]] == name; }
  }

  lemma NamesAreWordsInAllFields()
    ensures NamesAreWords(SECONDS) && NamesAreWords(MINUTES) && NamesAreWords(HOURS) && NamesAreWords(DOM)
    ensures NamesAreWords(MONTHS) && NamesAreWords(DOW)
  {
    hide NamesAreWords;
    assert NamesAreWords(MONTHS) by { MonthNamesAreWords(); }
    assert NamesAreWords(DOW) by { DayNamesAreWords(); }
    NoNames(SECONDS);
    NoNames(MINUTES);
    NoNames(HOURS);
    NoNames(DOM);
  }

  lemma NoNames(r: Bounds)
    requires r.names == map[]
    ensures NamesAreWords(r)
  {}

  lemma MonthNamesAreWords()
    ensures NamesAreWords(MONTHS)
  {}

  lemma DayNamesAreWords()
    ensures NamesAreWords(DOW)
  {}

  /** The bounds of a field are the values the calendar takes. */
  lemma BoundsAreTheCalendar(v: int)
    ensures SECONDS.min <= v <= SECONDS.max <==> exists u :: Second(u) == v
    ensures MINUTES.min <= v <= MINUTES.max <==> exists u :: Minute(u) == v
    ensures HOURS.min <= v <= HOURS.max <==> exists u :: Hour(u) == v
    ensures DOM.min <= v <= DOM.max <==> exists u :: Day(u) == v
    ensures MONTHS.min <= v <= MONTHS.max <==> exists u :: Month(u) == v
    ensures DOW.min <= v <= DOW.max <==> exists u :: Weekday(u) == v
  {
    hide Second, Minute, Hour, Day, Month, Weekday, Date, DaysBeforeMonth;
    forall u ensures 0 <= Second(u) <= 59 && 0 <= Minute(u) <= 59 && 0 <= Hour(u) <= 23 && 1 <= Day(u) <= 31 &&
                     1 <= Month(u) <= 12 && 0 <= Weekday(u) <= 6 {
      ClockRange(u);
      DayRange(u);
      MonthRange(u);
    }
    JanuaryIsLong();
    if 0 <= v <= 59 { FieldsIff(Date(0, 1, 1, 0, v, v), 0, 1, 1, 0, v, v); }
    if 0 <= v <= 23 { FieldsIff(Date(0, 1, 1, v, 0, 0), 0, 1, 1, v, 0, 0); }
    if 1 <= v <= 31 { FieldsIff(Date(0, 1, v, 0, 0, 0), 0, 1, v, 0, 0, 0); }
    if 1 <= v <= 12 {
      MonthLength(0, v);
      FieldsIff(Date(0, v, 1, 0, 0, 0), 0, v, 1, 0, 0, 0);
    }
    if 0 <= v <= 6 { WeekdayTaken(v); }
  }

  lemma JanuaryIsLong()
    ensures DaysBeforeMonth(0, 2) - DaysBeforeMonth(0, 1) == 31
  {}

  lemma MonthRange(u: int)
    ensures 1 <= Month(u) <= 12
  {}

  lemma WeekdayTaken(w: int)
    requires 0 <= w <= 6
    ensures exists u :: Weekday(u) == w
  {
    var u := (w + 1) * SECONDS_PER_DAY;
    assert Weekday(u) == w;
  }

  datatype Spelling = Spelling(second: seq<Form>, minute: seq<Form>, hour: seq<Form>, dom: seq<Form>, month: seq<Form>,
                               dow: seq<Form>)
  {
    predicate Valid() {
      second != [] && AllSpelled(second, SECONDS) && minute != [] && AllSpelled(minute, MINUTES) &&
      hour != [] && AllSpelled(hour, HOURS) && dom != [] && AllSpelled(dom, DOM) &&
      month != [] && AllSpelled(month, MONTHS) && dow != [] && AllSpelled(dow, DOW)
    }

    predicate InBounds()
      requires Valid()
    {
      AllInBounds(second, SECONDS) && AllInBounds(minute, MINUTES) && AllInBounds(hour, HOURS) &&
      AllInBounds(dom, DOM) && AllInBounds(month, MONTHS) && AllInBounds(dow, DOW)
    }

    function Texts(): (r: seq<string>)
      requires Valid()
      ensures |r| == 6
    {
      [FieldText(second), FieldText(minute), FieldText(hour), FieldText(dom), FieldText(month), FieldText(dow)]
    }
  }

  /** A written specification is accepted exactly when all its forms are in bounds. */
  lemma SpellingIsRead(p: Spelling)
    requires p.Valid()
    ensures Readable(p.Texts()) <==> p.InBounds()
  {
    hide FieldText, Ranges, AllRead, AllInBounds, AllSpelled, NamesAreWords;
    NamesAreWordsInAllFields();
    FieldIsRead(p.second, SECONDS);
    FieldIsRead(p.minute, MINUTES);
    FieldIsRead(p.hour, HOURS);
    FieldIsRead(p.dom, DOM);
    FieldIsRead(p.month, MONTHS);
    FieldIsRead(p.dow, DOW);
  }

  /** The schedule parsed from it is due exactly when each clock field and the month is admitted by a form, and the date
      by a form of both day fields when one of them has a bare star, and of either one otherwise. */
  lemma SpellingIsDue(p: Spelling, s: SpecSchedule, u: int)
    requires p.Valid() && p.InBounds() && Readable(p.Texts()) && Denotes(s, p.Texts())
    ensures Due(s, u) <==>
            SomeAdmits(p.second, SECONDS, Second(u)) && SomeAdmits(p.minute, MINUTES, Minute(u)) &&
            SomeAdmits(p.hour, HOURS, Hour(u)) && SomeAdmits(p.month, MONTHS, Month(u)) &&
            if SomeBareStar(p.dom) || SomeBareStar(p.dow) then
              SomeAdmits(p.dom, DOM, Day(u)) && SomeAdmits(p.dow, DOW, Weekday(u))
            else SomeAdmits(p.dom, DOM, Day(u)) || SomeAdmits(p.dow, DOW, Weekday(u))
  {
    hide FieldText, Ranges, AllRead, AllInBounds, AllSpelled, NamesAreWords, SomeAdmits, SomeBareStar, SomeHas,
         SomeStar, Due, Denotes, Second, Minute, Hour, Month, Day, Weekday;
    NamesAreWordsInAllFields();
    ClockRange(u);
    MonthRange(u);
    FieldIsRead(p.second, SECONDS);
    FieldIsRead(p.minute, MINUTES);
    FieldIsRead(p.hour, HOURS);
    FieldIsRead(p.dom, DOM);
    FieldIsRead(p.month, MONTHS);
    FieldIsRead(p.dow, DOW);
    ParsedDue(s, p.Texts(), u);
    assert DayBit(u) == Day(u);
  }
}
