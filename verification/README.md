# Verified models of the memos server

This project models, in Dafny, the parts of the memos server whose behaviour is hardest to see from one
function, and proves what they promise.  `dafny verify dfyconfig.toml` checks everything.

## What is modelled

**Cron.** `Calendar` is the proleptic Gregorian calendar over days and seconds.  `CronSpec` is the jumping search of
`SpecSchedule.Next` with its restarts; `CronParser` reads the field texts into bit words, and `CronTexts` says what
each written form means; `CronLoop` is the runner with its entries and events; `Scheduler` is the second
implementation, a linear scan.  Times are integer nanoseconds with a whole-minute offset.  A 64-bit field word is
the set of its bit positions (`Bits`).

**Filters.** `FilterSchema` holds the two schemas and the condition tree, `FilterCompile` builds the tree from a
checked CEL expression, `FilterRender` renders it with the source's renderer object, `FilterArgs` treats constant
folding and which argument a placeholder asks for, `FilterOffset` the offset of the numbers, `FilterQuery` the
joining of filters, and `LegacyFilter` the rewriting of the filter text.  `Sql` is the emitted SQL with its numbered
placeholders, the binding of arguments, and the three-valued logic of section 8.12 of SQL-92; running a statement
means binding its placeholders from the argument list by their tokens alone.  `TagText` is JSON array text (sections
5 and 7 of RFC 8259) under LIKE (section 8.5 of SQL-92).  `FilterMeaning` compares the dialects, `FilterCorrect`
gives CEL expressions a meaning and proves the compiler correct for the statement that is run, and `FilterSelect`
does so for a list of filters.  `FilterAnswers` says on which rows a condition has an answer at all, and
`FilterOperands` what becomes of numeric operands; `FilterAccept` says which filters compile.

**Synchronisation.** `SyncModel` is the state table, the document store and what each call does to them;
`SyncServices` and `SyncBatch` are the objects of the source; `SyncRuns` is about all runs of steps that are
serialised per content, `SyncSteps` shows that the orchestrator makes such runs, `SyncDrain` is about batch cycles,
and `SyncOutage` about deletions while the service is down; `SyncEvents` says what one event achieves and reports.
How the calls of an operation turn out is a parameter (`Calls`), as are the answers of queries and the ids of
uploads.  SHA-256 is a function, without collisions where that is said.  `HealthChecker` is the circuit breaker,
each locked section of which is one event.

**Store.** `Cache` is the cache with expiring items, `UserStore` the users behind it with their keys (`Utf8`,
section 3 of RFC 3629), and `Migrator` the migration runner (precedence by section 11 of Semantic Versioning 2.0.0).

## Where the code and its description differ

- Folding a filter drops SQL and keeps its arguments.  With `?` placeholders the statement then has more arguments
  than placeholders, and later ones bind the wrong values: the statement run differs from the filter
  (`FilterArgs.DroppedArgumentShifts`).  The exact condition is read off the condition tree
  (`FilterArgs.QuestionMarksBindIff`, `FilterQuery.JoinedQuestionMarkFilters`).
- `x in []` and `tag in []` compile (`FilterCorrect.EmptyListCompiles`).  The SQL does not parse, except that SQLite
  accepts `IN ()`; the exact condition for a whole filter is `FilterArgs.RenderParsesIff`.
- Comparing a flag that is absent from a row gives a truth value in SQLite and NULL elsewhere
  (`FilterMeaning.AbsentFlagSplitsDialects`).
- A memo is stored without its false flags and without an empty tag list, and NULL columns are compared as they are.
  A filter that reads what is not there, such as `has_link == false` outside SQLite or `!("a" in tags)`, is neither
  true nor false of the row, so that the row is not selected; the exact condition is `FilterAnswers.AnswersIff`, and
  a result that is not NULL is always the right one (`FilterCorrect.CompiledFilterIsCorrect`).
- Tag texts with `%` or `_` find other tags too: `a_b` finds `axb` (`TagText.WildcardFails`).  The four tests are
  exact for exactly the texts of `TagText.ExactSearchIff` and its three companions.
- The rewriting of numeric operands makes `a && 1` into `a && (1 != 0)`, but a comparison that begins with a
  constant is never rendered, so that no such filter compiles (`FilterOperands.RewrittenOperandNeverCompiles`).
- The scheduler joins its day fields by "or" even when one of them is `*` (`Scheduler.DayRulesAgreeIff`).
- The orchestrator says that no event is lost while the service is down.  An event is kept if and only if it does
  not find a synced row whose hash differs from the content's: a creation is never lost, an edit of a synced content
  always is (`SyncDrain.OutageKeepsEventIff`).  A deletion is lost for good: the document of the content stays live
  until the deletion is announced again (`SyncOutage.OutageLosesDeletions`).
- A failed delete of the old document is only logged and leaves two live documents (`SyncRuns.SyncLeaksIff`).  A
  failed upload leaves a synced row without its document when it comes from an event, and also in a batch when the
  row was deleted and made anew since it was listed (`SyncRuns.StepKeeps`).
- The breaker is described as opening after a number of failures in a row.  A health check that succeeds between two
  failures forgets the first, so that failures further apart than the check interval never open it
  (`SyncEvents.SpacedFailuresNeverOpen`); within one interval they do (`SyncEvents.FailuresOpen`).
- The user cache takes `string(id)` for a decimal form; ids that are not scalar values share one key
  (`Utf8.KeyCollisionIff`).
- A lone sign after an operator is wrapped as a number (`LegacyFilter.SignAloneIsWrapped`); the exact condition is
  `LegacyFilter.DigitlessIff`.
- Migration scripts are sorted by path, which is not version order where directory names differ in width
  (`Migrator.WidthsMatter`).  Only scripts later than the stored version matter, and there the order is right for
  every version the runner accepts (`Migrator.SupportedVersionsAreOrdered`).

## Model

| member | source | states |
|---|---|---|
| `Calendar.YearOfDayIff` | plugin/cron/spec.go:88-93 | the year of a day number is the one whose first day is the last not after it, for every proleptic Gregorian date |
| `Calendar.MonthOfDayIff` | plugin/cron/spec.go:97-104 | the month of a day number is the one whose span holds the day |
| `Calendar.YearLengths` | plugin/cron/spec.go:88-93 | a year has 366 days if it is a multiple of 4 but not of 100, or of 400, and otherwise 365 |
| `Calendar.MonthLengths` | plugin/cron/spec.go:97-104 | the length of each month, February having the leap day |
| `Calendar.FieldsIff` | plugin/cron/spec.go:97-188 | the year, month, day and clock fields of a second are the one date that gives the second back |
| `Calendar.WeekdayIff` | plugin/cron/spec.go:178-188 | the weekday counts days from Thursday, 1 January 1970 |
| `CronSpec.FirstDueIff` | plugin/cron/spec.go:58-175 | the reference answer is the least second of the window that matches all fields and the day rule, and `None` exactly when there is none |
| `CronSpec.DueIff` | plugin/cron/spec.go:178-188 | a second is due if and only if its clock fields and month are in the sets of the schedule, and both day fields when one has the star bit, and either one otherwise |
| `CronSpec.TruncateIsLocal` | plugin/cron/spec.go:150-168 | truncating the absolute instant to the minute or second gives the start of the local minute or second, at whole-minute offsets |
| `CronSpec.LimitIff` | plugin/cron/spec.go:87-93 | the search stops exactly after the end of the fifth year from the first candidate second |
| `CronSpec.StepMonth` | plugin/cron/spec.go:97-110 | the month loop, with its one-time reset to day 1, skips no matching second and keeps the restart invariant |
| `CronSpec.StepDay` | plugin/cron/spec.go:117-136 | the day loop skips no matching second and keeps the restart invariant |
| `CronSpec.StepHour` | plugin/cron/spec.go:138-148 | the hour loop skips no matching second and keeps the restart invariant |
| `CronSpec.StepMinute` | plugin/cron/spec.go:150-160 | the minute loop skips no matching second and keeps the restart invariant |
| `CronSpec.StepSecond` | plugin/cron/spec.go:162-172 | the second loop skips no matching second and keeps the restart invariant |
| `CronSpec.Next` | plugin/cron/spec.go:58-175 | the search with its restarts and its one-time reset terminates, by the seconds left to the limit, and returns the reference answer |
| `CronSpec.NextIsLeast` | plugin/cron/spec.go:58-188 | the answer is the least whole second strictly after `t`, up to the end of the fifth year, at which the schedule is due in its own zone or, without one, in that of `t`; it is the zero time if and only if no such second exists |
| `CronParser.ReadRange` | plugin/cron/parser.go:254-320 | an accepted range has its ends ordered and inside the bounds of the field and a positive step below 2^63 |
| `CronParser.GetBits` | plugin/cron/parser.go:346-359 | both forms give the bits of the stepped range, and no addition of the loop overflows |
| `CronParser.ShiftForm` | plugin/cron/parser.go:346-351 | the shift form for step 1 sets the bits from min to max and no others |
| `CronParser.GetRange` | plugin/cron/parser.go:254-320 | the bits of a range are its stepped values, with bit 63 exactly for `*` or `?` without a step or with step 1 |
| `CronParser.GetField` | plugin/cron/parser.go:236-247 | a field is accepted if and only if every range is; its bits are the union, inside the bounds, and bit 63 tells whether some range is a star; the first bad range decides the error; `CronTexts.FieldIsRead` says what that is for the written forms |
| `CronParser.ParseFields` | plugin/cron/parser.go:88-153 | six fields are accepted if and only if each is, and the schedule denotes them |
| `CronParser.ParsedDue` | plugin/cron/parser.go:88-153 | a second is due for a parsed schedule if and only if each field text admits its value and the day rule on the two day fields holds |
| `CronTexts.FormIsRead` | plugin/cron/parser.go:254-320 | `a`, `a-b`, `a/s`, `a-b/s`, `*`, `?` and stars with a step, written with decimal numbers or names, are accepted if and only if they stay in the bounds and step forward; the low end, high end, step and star flag are those of the form, `a/s` running to the end of the field |
| `CronTexts.AdmitsIff` | plugin/cron/parser.go:346-359 | a form admits its low end and every step after it up to its high end |
| `CronTexts.FieldIsRead` | plugin/cron/parser.go:236-247 | a comma list of forms is accepted if and only if each is in bounds; it admits what one of them admits, and is starred if and only if one is a bare star |
| `CronTexts.TooManyParts` | plugin/cron/parser.go:269-302 | a second slash and a third end are refused |
| `CronTexts.SignedNumbers` | plugin/cron/parser.go:332-343 | a numeral, with or without a plus sign, is read as its value when that is below 2^63; behind a minus sign only zero is |
| `CronTexts.OnlyNumbersAreRead` | plugin/cron/parser.go:332-343 | no other text is read as a number |
| `CronTexts.LeadingZero` | plugin/cron/parser.go:332-343 | leading zeros do not count |
| `CronTexts.NameInAnyCase` | plugin/cron/parser.go:322-331 | a name is read in any case of its letters |
| `CronTexts.NamesOfFields` | plugin/cron/spec.go:22-53 | the names count the months from 1 and the weekdays from Sunday as 0 |
| `CronTexts.BoundsAreTheCalendar` | plugin/cron/spec.go:22-53 | the bounds of each field are exactly the values the calendar takes |
| `CronTexts.SpellingIsRead` | plugin/cron/parser.go:88-153 | a written specification is accepted if and only if all its forms are in bounds |
| `CronTexts.SpellingIsDue` | plugin/cron/parser.go:88-153 | its schedule is due if and only if each clock field and the month is admitted by a form, and the date by forms of both day fields when one has a bare star, and of either one otherwise |
| `CronLoop.Every` | plugin/cron/constantdelay.go:14-21 | the delay is the duration, at least a second, rounded down to whole seconds |
| `CronLoop.NextAfterIsLater` | plugin/cron/constantdelay.go:25-27 | both kinds of schedule answer with a later instant on a whole second |
| `CronLoop.DelayIsNext` | plugin/cron/constantdelay.go:25-27 | a delay is always followed by another activation: the last whole second not later than the delay from now |
| `CronLoop.Cron.ScheduleJob` | plugin/cron/cron.go:158-174 | adding gives the next id and, while running, the first next time; the whole new state is stated |
| `CronLoop.Cron.Remove` | plugin/cron/cron.go:345-353 | removing drops the entries with the id and no others, in order |
| `CronLoop.Cron.Start` | plugin/cron/cron.go:215-247 | starting gives every entry its first next time, once |
| `CronLoop.Cron.Stop` | plugin/cron/cron.go:321-334 | stopping changes nothing but the running flag |
| `CronLoop.Cron.Arm` | plugin/cron/cron.go:249-260 | for any order the library sort may choose, the timer is armed for the least next time that is set |
| `CronLoop.Cron.StartDue` | plugin/cron/cron.go:263-278 | the loop over the sorted entries starts and reschedules those before the first one that is not due |
| `CronLoop.Cron.Wake` | plugin/cron/cron.go:263-278 | the loop that stops at the first entry not due starts exactly what going through all entries would |
| `CronLoop.FirstIsLeast` | plugin/cron/cron.go:83-94 | in the order of `byTime` the first entry has the least next time that is set |
| `CronLoop.WakeStartsTheDueOnce` | plugin/cron/cron.go:263-277 | a wake starts exactly the entries whose next time is set and not after now, each once |
| `CronLoop.WakeReschedules` | plugin/cron/cron.go:263-278 | an entry whose next time is set and not after now gets the activation after now, and its old next time as the previous one; every other entry stays as it is |
| `CronLoop.EntriesStay` | plugin/cron/cron.go:239-305 | an event keeps every entry but those it removes, and adds at most the one it is about, with its first next time if the runner runs; only starting and stopping touch the running flag |
| `CronLoop.InvStep` | plugin/cron/cron.go:239-305 | every event of the loop keeps ids distinct, recorded starts in the past, and next times after the starts of their entry |
| `CronLoop.RunKeepsInv` | plugin/cron/cron.go:239-305 | the invariant holds after every run whose clock does not go back |
| `CronLoop.RunsFromEmpty` | plugin/cron/cron.go:113-131 | so it holds after every run of a new runner |
| `CronLoop.NextChangesOnlyByStarting` | plugin/cron/cron.go:239-278 | a next time changes only when the runner starts or the entry is started; then the previous time is the old next time, not after now, and the new one is the activation of the schedule after now |
| `CronLoop.RunKeepsPlans` | plugin/cron/cron.go:239-278 | in every run the next time of every entry of a running runner is the activation of its schedule after some moment up to now, not before its last start |
| `CronLoop.NobodyIsForgotten` | plugin/cron/cron.go:239-278 | so an entry without a next time has a schedule without activation left, and one with a delay always has a next time, however often it was started |
| `CronLoop.RemovedNeverStarts` | plugin/cron/cron.go:295-305 | an id that is not in the table any more is never started again |
| `Scheduler.Next` | plugin/scheduler/parser.go:91-117 | the scan returns the first matching instant of its grid inside the four-year window |
| `Scheduler.NextScanIsLeast` | plugin/scheduler/parser.go:91-126 | the answer is the least full second, or without a seconds field full minute, strictly after the given time at which the schedule matches, before four calendar years from the first of them have passed; there is none if and only if no such instant exists |
| `Scheduler.StepMatchesIff` | plugin/scheduler/parser.go:219-230 | a stepped matcher admits its minimum and every step after it up to its maximum |
| `Scheduler.DayRulesAgreeIff` | plugin/scheduler/parser.go:120-126 | the scheduler's "or" of the day fields agrees with the cron day rule on all dates if and only if neither field is starred, or both admit everything, or neither admits anything |
| `Scheduler.ScanIsJumpWithinWindow` | plugin/scheduler/parser.go:91-126 | for equal field sets and agreeing day rules, the jumping search returns the instant the scan finds |
| `FilterSchema.SchemasAreWellFormed` | plugin/filter/schema.go:101-321 | both schemas have the properties the compiler relies on |
| `FilterSchema.MemoFieldsLie` | plugin/filter/schema.go:101-258 | every memo field lies in the column of its name, or in the payload under its name in JSON spelling; the name tells its type; only contents, times and tags are compared other than for equality |
| `TagText.LikeExact` | plugin/filter/render.go:347-372 | `%"s"%` holds on the array text exactly when some tag is `s` |
| `TagText.LikePrefixed` | plugin/filter/render.go:495-516 | `%"s%` holds exactly when some tag begins with `s` |
| `TagText.LikeBelow` | plugin/filter/render.go:347-372 | `%"s/%` holds exactly when some tag lies below `s` |
| `TagText.LikeSuffixed` | plugin/filter/render.go:519-525 | `%s"%` holds exactly when some tag ends in `s` |
| `TagText.LikeInner` | plugin/filter/render.go:528-534 | `%s%` holds on a non-empty array exactly when `s` occurs in some tag |
| `TagText.PunctuationFails` | plugin/filter/render.go:495-534 | every excluded text of array punctuation really fails: a list of two empty tags is found by it |
| `TagText.WildcardFails` | plugin/filter/render.go:495-534 | every plain text with a wildcard really fails: an array of one tag is found by it, of which it is neither the whole nor a part |
| `TagText.ExactSearchIff` | plugin/filter/render.go:347-372 | the whole-tag pattern is exact on all lists of plain tags if and only if the text has no wildcard and is not the separator |
| `TagText.PrefixSearchIff` | plugin/filter/render.go:495-516 | the prefix pattern is exact on all lists of plain tags if and only if the text has no wildcard and begins no punctuation |
| `TagText.SuffixSearchIff` | plugin/filter/render.go:519-525 | the suffix pattern is exact on all lists of plain tags if and only if the text has no wildcard and ends no punctuation |
| `TagText.InnerSearchIff` | plugin/filter/render.go:528-534 | the inner pattern is exact on all non-empty lists of plain tags if and only if the text has no wildcard and occurs in no punctuation |
| `TagText.FoldArrayText` | plugin/filter/render.go:538-547 | case folding commutes with writing the array, so the tests hold up to folding |
| `FilterRender.Renderer.AddArg` | plugin/filter/render.go:610-617 | the n-th argument gets the placeholder `?`, or the number offset plus n; the placeholder is the one put into the SQL |
| `FilterRender.Renderer.Run` | plugin/filter/render.go:32-59 | the stateful walk started at an offset returns what the rendering function says at that offset, with empty SQL for a trivial and `1 = 0` for an unsatisfiable result |
| `FilterRender.Renderer.RenderCondition` | plugin/filter/render.go:61-124 | each visit appends exactly the arguments of its subtree and returns its SQL, numbered from the offset and the arguments before it, or its error |
| `FilterRender.Renderer.RenderLogicalCondition` | plugin/filter/render.go:89-107 | left before right, then combined; an error on the left hides the right |
| `FilterRender.Renderer.RenderComparison` | plugin/filter/render.go:149-171 | the comparison forms by kind of field, with their errors |
| `FilterRender.Renderer.RenderScalarComparison` | plugin/filter/render.go:205-244 | null tests, and typed literals as one argument |
| `FilterRender.Renderer.RenderJSONBoolComparison` | plugin/filter/render.go:258-311 | the three dialect forms of a compared flag |
| `FilterRender.Renderer.RenderTagInList` | plugin/filter/render.go:335-382 | two tests and two arguments for each listed tag, joined |
| `FilterRender.Renderer.RenderElementInCondition` | plugin/filter/render.go:384-415 | the whole-tag test |
| `FilterRender.Renderer.RenderScalarInCondition` | plugin/filter/render.go:417-447 | one argument for each listed value |
| `FilterRender.Renderer.RenderContainsCondition` | plugin/filter/render.go:449-469 | one pattern argument |
| `FilterRender.Renderer.RenderListComprehension` | plugin/filter/render.go:471-564 | the three tag tests with their null and emptiness checks |
| `FilterArgs.FoldingKeepsMeaning` | plugin/filter/render.go:89-124 | for every tree, row and dialect, folding constants through AND, OR and NOT preserves the three-valued result, empty SQL meaning true |
| `FilterArgs.LeafIsNumbered` | plugin/filter/render.go:126-534 | every leaf uses each of its arguments once and in order |
| `FilterArgs.FoldedIsRendered` | plugin/filter/render.go:89-124 | whether a condition renders to a constant, and to which, is read off the tree, whatever the leaves render to |
| `FilterArgs.ArgumentsIff` | plugin/filter/render.go:126-534 | rendering adds arguments exactly when the tree has a leaf of one of the kinds that do |
| `FilterArgs.SlotsAreEmitted` | plugin/filter/render.go:580-617 | every placeholder stands for an argument that was added, with its value and number; the placeholders are all the arguments in order exactly when no part that folds to a constant has a leaf with arguments |
| `FilterOffset.RenderShifts` | plugin/filter/render.go:580-617 | rendering at a greater offset gives the same SQL, arguments and errors with every placeholder number shifted by the difference |
| `FilterArgs.PostgresBindsItsOwn` | plugin/filter/render.go:580-617 | rendered after the arguments there are, every `$k` asks for the value it was emitted for, whatever folding drops, whatever arguments follow and wherever the SQL stands |
| `FilterArgs.QuestionMarksBindIff` | plugin/filter/render.go:580-617 | with `?` the placeholders ask for their own values and use up the arguments if and only if no part of the tree that folds to a constant has a leaf with arguments |
| `FilterArgs.DroppedArgumentShifts` | plugin/filter/render.go:595-608 | a filter that joins an or-true part with `content == "b"` is false when it is run on SQLite, on a row with content "b" |
| `FilterArgs.LeafParsesIff` | plugin/filter/render.go:335-447 | a leaf renders to SQL the dialect parses exactly when it is not a membership test with an empty list, or is one of plain values on SQLite |
| `FilterArgs.RenderParsesIff` | plugin/filter/render.go:61-124 | a condition renders to SQL the dialect parses if and only if the membership tests left after folding have lists the dialect accepts |
| `FilterArgs.StatementExecutes` | plugin/filter/render.go:32-59 | a statement run between earlier and later arguments has its intended meaning, if its placeholders find their arguments and its lists parse |
| `FilterQuery.Query.AppendConditions` | plugin/filter/helpers.go:9-25 | each filter is rendered at the offset of the arguments there are; empty SQL adds nothing; the first error stops |
| `FilterQuery.FirstErrorEnds` | plugin/filter/helpers.go:9-25 | the first filter that does not render ends the work with its error, and what was appended before it stays |
| `FilterQuery.JoinedPostgresFilters` | plugin/filter/helpers.go:9-25 | after any list of filters every `$k` of the joined query asks for the argument it was emitted for |
| `FilterQuery.JoinedQuestionMarkFilters` | plugin/filter/helpers.go:9-25 | with `?` this holds, with no argument left over, if and only if no appended filter has a part that folds to a constant and has arguments |
| `FilterQuery.BoundQueryExecutes` | plugin/filter/helpers.go:9-25 | a joined query in which every placeholder asks for its own argument has, when it is run, its intended meaning |
| `FilterQuery.JoinedFiltersExecute` | plugin/filter/helpers.go:9-25 | a query joined from filters is, when it is run, the conjunction of their meanings: always on Postgres, with `?` when no filter drops arguments |
| `FilterMeaning.LikeOnTags` | plugin/filter/render.go:538-547 | a tag LIKE on a stored row compares folded pattern and folded array text |
| `FilterMeaning.ExactMeans` | plugin/filter/render.go:384-415 | the whole-tag test of each dialect holds exactly when the tag is there |
| `FilterMeaning.ExistsMeans` | plugin/filter/render.go:471-564 | `exists` holds exactly when some tag satisfies the test; an absent or empty array never does |
| `FilterMeaning.JsonBoolMeans` | plugin/filter/render.go:258-311 | a compared flag compares as its value in every dialect; an absent one compares as false in SQLite, unless it is `has_task_list`, and as NULL otherwise |
| `FilterMeaning.FieldPredicateMeans` | plugin/filter/render.go:126-147 | a bare flag is true exactly when it is stored as true, also when it is absent |
| `FilterMeaning.RenderMeans` | plugin/filter/render.go:61-124 | on every row the rendered condition, each placeholder standing for its value, has the three-valued result of a reference that knows of the dialect only how it folds case and reads absent flags |
| `FilterMeaning.RunMeans` | plugin/filter/render.go:32-59 | the statement run with its arguments has that result |
| `FilterMeaning.DialectsAgree` | plugin/filter/render.go:126-578 | any two dialects that find the arguments and accept the lists give a condition without contains() the same result when it is run on the same row, if they fold case alike or the folding does not matter for the condition, and if compared flags are present or both or neither is SQLite |
| `FilterMeaning.AbsentFlagSplitsDialects` | plugin/filter/render.go:258-311 | for a flag compared with a constant, SQLite and the others agree if and only if the flag is present or is `has_task_list` |
| `FilterAnswers.LeafAnswersIff` | plugin/filter/render.go:126-578 | a leaf has no answer on a row if and only if it reads what is not there: a NULL column, an absent flag outside SQLite, or an absent tag list in a membership test |
| `FilterAnswers.AnswersIff` | plugin/filter/render.go:61-124 | a condition has no answer if and only if a leaf has none and nothing beside it in AND or OR decides |
| `FilterCorrect.NumericMeans` | plugin/filter/parser.go:365-415 | folded integer arithmetic gives the CEL value whenever CEL has one |
| `FilterCorrect.NegationMeans` | plugin/filter/parser.go:345-363 | folded negations give the CEL value |
| `FilterCompile.WrapIff` | plugin/filter/parser.go:365-415 | a folded number is the 64-bit integer that differs from the exact one by a multiple of 2^64 |
| `FilterCorrect.ValueMeans` | plugin/filter/parser.go:235-289 | a literal built from an expression is the value of the expression |
| `FilterCorrect.ExistsCel` | plugin/filter/parser.go:422-516 | on every row the recognised comprehension has the value of its fold: some element satisfies the predicate, none where there is no list |
| `FilterCorrect.InMeans` | plugin/filter/parser.go:153-200 | on every row both forms of `in` have the CEL value or NULL |
| `FilterCorrect.BuiltComparisonMeans` | plugin/filter/parser.go:109-151 | on every row a comparison has the value of the CEL comparison of that name, or NULL |
| `FilterCorrect.OperatorsByName` | plugin/filter/parser.go:291-308 | exactly the six comparisons are operators, and each compares integers, texts and truth values as CEL does under its name |
| `FilterCorrect.ContainsCel` | plugin/filter/parser.go:202-233 | on every row contains() has its meaning, the folding left open |
| `FilterCorrect.BuiltMeans` | plugin/filter/parser.go:10-107 | whenever the expression has a truth value on a row, whatever the row lacks, the condition tree has that value or NULL |
| `FilterCorrect.CompiledFilterIsCorrect` | plugin/filter/engine.go:43-96 | if a filter compiles at an offset, its statement run with its arguments between earlier and later ones has on every row the truth value of the expression or NULL, and NULL if and only if the condition has no answer on the row: always on Postgres, with `?` when folding drops no argument |
| `FilterCorrect.ReadRowsAreDecided` | plugin/filter/engine.go:43-96 | so on a row that has what the filter's leaves read, whatever else it lacks, the statement is true or false as the filter is |
| `FilterCorrect.ExactlyCompiledFilter` | plugin/filter/engine.go:43-96 | where the folding does not matter for the filter, this holds of the reading of tags that is exact about case |
| `FilterCorrect.EmptyListCompiles` | plugin/filter/parser.go:153-200 | `tag in []` compiles without an error for every dialect, to SQL no dialect parses |
| `FilterSelect.FiltersSelectTheirRows` | plugin/filter/helpers.go:9-25 | a query joined from a list of CEL filters selects a row if and only if every filter is true of it and has an answer on it, and is false of it if and only if one that has an answer is false |
| `FilterAccept.FilterCompilesIff` | plugin/filter/parser.go:10-233 | a filter compiles if and only if every part is one the dialect takes: fields compared by operators they allow with values of their type, listed, searched and tested as their kind permits |
| `FilterAccept.NumberAlone` | plugin/filter/parser.go:10-30 | a number alone admits every row, and zero none |
| `FilterOperands.LiteralComparisonNeverRenders` | plugin/filter/render.go:149-171 | a condition tree with a comparison that begins with a literal renders for no schema, dialect or offset, whatever folding would drop |
| `FilterOperands.ConstantComparisonNeverCompiles` | plugin/filter/engine.go:43-96 | a filter with such a comparison below AND, OR and NOT never compiles |
| `FilterOperands.RewrittenOperandNeverCompiles` | plugin/filter/engine.go:168-181 | the rewritten number operand is built as such a comparison, so the filter compiles for no dialect, whatever the other operand is |
| `LegacyFilter.RewriteNumericLogicalOperand` | plugin/filter/engine.go:129-191 | the loop computes the rewriting function |
| `LegacyFilter.Normalize` | plugin/filter/engine.go:123-127 | `&&` is rewritten first, then `||` |
| `LegacyFilter.DeletingInsertionsRecovers` | plugin/filter/engine.go:129-191 | the result is the text with `(` and ` != 0)` put around signs and numbers; deleting them gives the text back |
| `LegacyFilter.QuotedTextIsCopied` | plugin/filter/engine.go:139-155 | one rewriting copies every quoted region |
| `LegacyFilter.NormalizeCopiesQuotes` | plugin/filter/engine.go:123-191 | the normalised filter has the quoted text of the filter |
| `LegacyFilter.IdentityIffSettled` | plugin/filter/engine.go:157-183 | the rewriting changes nothing exactly when no operator it stops at is followed by blanks and a sign or digit |
| `LegacyFilter.WithoutOperandsIsIdentity` | plugin/filter/engine.go:157-183 | so it is the identity when no place outside quotes has such an operand |
| `LegacyFilter.RewriteSettles` | plugin/filter/engine.go:129-191 | what one rewriting returns, the same rewriting leaves alone |
| `LegacyFilter.OrKeepsAndSettled` | plugin/filter/engine.go:123-127 | rewriting the operands of `||` makes no new operand of `&&` |
| `LegacyFilter.NormalizeIsIdempotent` | plugin/filter/engine.go:123-127 | normalising a normalised filter changes nothing |
| `LegacyFilter.SignAloneIsWrapped` | plugin/filter/engine.go:168-181 | a sign without digits is wrapped as if it were a number |
| `LegacyFilter.NumberIsWrapped` | plugin/filter/engine.go:157-183 | a number with or without a sign, after an operator and blanks, is put between `(` and ` != 0)`, whole |
| `LegacyFilter.OtherOperandIsCopied` | plugin/filter/engine.go:157-183 | any other operand is left as it is |
| `LegacyFilter.LiteralIsCopied` | plugin/filter/engine.go:139-155 | a quoted literal, in which a backslash takes the next character along, is copied whole |
| `LegacyFilter.OtherIsCopied` | plugin/filter/engine.go:185-188 | outside literals everything but the operator is copied |
| `LegacyFilter.DigitlessIff` | plugin/filter/engine.go:168-181 | in any text, some wrapped literal has no digit if and only if an operator the rewriting stops at is followed by blanks and a sign without a digit |
| `SyncServices.Store.UpdateContentSyncState` | store/db/postgres/content_sync_state.go:105-144 | the row with the id changes in the given columns; nothing else changes |
| `SyncServices.Store.UpsertContentSyncState` | store/db/postgres/content_sync_state.go:171-204 | a new row, or the existing one with every listed column overwritten and id, owner and creation time kept |
| `SyncServices.Store.CreateContentSyncState` | store/db/postgres/content_sync_state.go:11-35 | a plain insert, which fails when there is a row for the content |
| `SyncServices.StateTracker.EnsurePendingState` | plugin/sync/state_tracker.go:82-104 | a pending row is created only when there is none |
| `SyncServices.StateTracker.MarkAsSynced` | plugin/sync/state_tracker.go:140-154 | the columns the mark sets |
| `SyncServices.StateTracker.MarkAsFailed` | plugin/sync/state_tracker.go:157-180 | status, error and retry count; the next retry only while retries are left |
| `SyncServices.StateTracker.MarkAsSkipped` | plugin/sync/state_tracker.go:183-193 | status and reason, the document being kept |
| `SyncServices.StateTracker.ResetForResync` | plugin/sync/state_tracker.go:264-276 | status, hash and retry count; the recorded document is kept |
| `SyncServices.StateTracker.ResetNonPendingStates` | plugin/sync/state_tracker.go:108-137 | every listed row is reset with the hash it was listed with; the count is of the resets that succeeded |
| `SyncServices.StateTracker.ListRetryableStates` | plugin/sync/state_tracker.go:208-230 | the listed rows with retries left whose retry is due |
| `SyncServices.MemoSyncer.SyncMemo` | plugin/sync/memo_syncer.go:42-124 | one synchronisation of a memo, with every way its calls can fail |
| `SyncServices.MemoSyncer.DeleteMemoFromRAGFlow` | plugin/sync/memo_syncer.go:127-156 | the recorded document is deleted from its recorded data set, then the row |
| `SyncServices.MemoSyncer.MarkMemoForResync` | plugin/sync/memo_syncer.go:253-276 | an edited memo's row is reset, or created |
| `SyncServices.MemoSyncer.SyncPendingMemos` | plugin/sync/memo_syncer.go:161-211 | the pending memos one after the other, with the counts |
| `SyncServices.AttachmentSyncer.SyncAttachment` | plugin/sync/attachment_syncer.go:71-174 | one synchronisation of an attachment, with the skip path |
| `SyncServices.AttachmentSyncer.DeleteAttachmentFromRAGFlow` | plugin/sync/attachment_syncer.go:177-201 | as for memos |
| `SyncServices.AttachmentSyncer.SyncPendingAttachments` | plugin/sync/attachment_syncer.go:206-252 | the pending attachments one after the other, with the counts |
| `SyncModel.RetryDueIff` | plugin/sync/state_tracker.go:157-230 | a failed row is due exactly while retries are left and its doubled delay has passed |
| `SyncModel.RetriesRunOut` | plugin/sync/state_tracker.go:157-230 | after as many failures as there are retries a row is never due again until it is reset |
| `SyncModel.MarkedRows` | plugin/sync/state_tracker.go:140-276 | the whole row after each mark: what the mark does not name stays |
| `SyncModel.DelaysDouble` | plugin/sync/state_tracker.go:157-180 | every retry waits twice as long as the one before |
| `SyncRuns.UpdatedIsLocal` | store/db/postgres/content_sync_state.go:105-144 | an update by id touches only the content the id was handed out for, and only while that row exists |
| `SyncRuns.PushKeeps` | plugin/sync/memo_syncer.go:65-122 | an upload leaves one live document of the content, recorded by a synced row with its hash |
| `SyncRuns.StepKeeps` | plugin/sync/memo_syncer.go:42-156 | every fair step touches one content and keeps its invariant; its synced row keeps a live document of its hash if and only if no failed upload strands it |
| `SyncRuns.RunKeepsInv` | plugin/sync/orchestrator.go:354-447 | the invariants hold after every fair run |
| `SyncRuns.AtMostOneLiveDocument` | plugin/sync/attachment_syncer.go:71-201 | in every fair run each content has at most one live document, and it is the recorded one |
| `SyncRuns.SyncedDocumentsAreCurrent` | plugin/sync/memo_syncer.go:42-124 | in every fair run without a stranding failure, a synced row's document is live and was built from the content with its hash |
| `SyncRuns.SyncLeaksIff` | plugin/sync/memo_syncer.go:70-84 | a synchronisation leaves two live documents if and only if the old one is live and its delete fails or names another data set |
| `SyncRuns.UpsertOrphans` | plugin/sync/state_tracker.go:66-76 | a pending upsert keeps the invariant if and only if the row records no live document |
| `SyncBatch.Orchestrator.HandleSyncEvent` | plugin/sync/orchestrator.go:354-447 | what an event does to rows and documents, the error it returns, and what it tells the breaker, in both health states; `SyncBatch.EventReports` and `SyncEvents` say what that is |
| `SyncBatch.EventReports` | plugin/sync/orchestrator.go:410-427 | only an attempted synchronisation tells the breaker anything: an error counts one failure more and opens it at the threshold, a success leaves no failure and a closed breaker |
| `SyncEvents.EventSynchronises` | plugin/sync/orchestrator.go:354-427 | with a healthy service and all calls succeeding, an event leaves its content synchronised as it is, or skipped, whatever its row was, touches no other row, and reports no error |
| `SyncEvents.SyncVerdict` | plugin/sync/memo_syncer.go:42-124 | a synchronisation reports an error if and only if the content cannot be loaded or has nothing to upload, the row cannot be read, or a changed content fails to be uploaded or recorded |
| `SyncEvents.UnchangedUploadsNothing` | plugin/sync/memo_syncer.go:59-66 | an event of a content that is synced as it is changes nothing |
| `SyncEvents.EventDeletes` | plugin/sync/orchestrator.go:430-447 | a deletion with all calls succeeding leaves neither row nor document |
| `SyncEvents.EventWithoutTarget` | plugin/sync/orchestrator.go:393-412 | without a client or a named data set an event only makes a missing row; a missing client alone is an error |
| `SyncEvents.DeletionOutcome` | plugin/sync/memo_syncer.go:127-156 | what a deletion leaves in each way its calls can turn out, and when it reports an error |
| `SyncEvents.OutageReportsNothing` | plugin/sync/orchestrator.go:365-377 | while the service is down an event reports no error and does nothing but make a missing row |
| `SyncEvents.FailuresOpen` | plugin/sync/orchestrator.go:414-425 | failing events within one check interval add up, and the breaker is open if and only if they reach the threshold |
| `SyncEvents.SpacedFailuresNeverOpen` | plugin/sync/health_checker.go:118-154 | failing events between which a health check succeeds never open the breaker, however many they are |
| `SyncEvents.OpenKeepsEventsAway` | plugin/sync/health_checker.go:157-184 | an open breaker keeps events away until a probe after the timeout succeeds, and then the count starts anew |
| `SyncEvents.ResyncIsPending` | plugin/sync/memo_syncer.go:253-276 | a memo marked for another synchronisation has a pending row with the hash of the new text and no failures |
| `SyncEvents.FailureIsMarked` | plugin/sync/memo_syncer.go:180-207 | a listed row that fails is marked as failed once more than when it was listed; one without a data set, or in a batch without a name for it, fails untouched |
| `SyncBatch.Orchestrator.Discover` | plugin/sync/orchestrator.go:605-637 | a row for every content found without one; the count is of new rows |
| `SyncBatch.Orchestrator.RetryFailedStates` | plugin/sync/orchestrator.go:652-709 | the due failed rows one after the other, with the counts |
| `SyncBatch.Orchestrator.RunBatchSync` | plugin/sync/orchestrator.go:486-551 | the health question with what it does to the breaker, and when it is answered yes the phases of a cycle in order, with all counts |
| `SyncSteps.EventIsRun` | plugin/sync/orchestrator.go:354-447 | handling an event is a run of at most two steps on its content |
| `SyncSteps.CycleIsRun` | plugin/sync/orchestrator.go:486-551 | a batch cycle is the run of its steps, so the results about runs hold of the orchestrator |
| `SyncDrain.AllListedAreDone` | plugin/sync/memo_syncer.go:161-211 | with every call succeeding, each listed row ends synced with the current hash, or skipped, and all count as successes, in whatever state the other contents and the documents are; a healthy world stays healthy |
| `SyncDrain.CycleDrains` | plugin/sync/orchestrator.go:486-551 | if the pending rows fit one batch and every call succeeds, a cycle leaves everything found synced or skipped, whatever documents were stranded or left over before; the counts are the pending rows of each kind and the rows discovered or reset; a healthy world stays healthy |
| `SyncDrain.CycleCountsEveryRow` | plugin/sync/orchestrator.go:486-551 | however its calls turn out, every row a cycle handles counts once, as a success or a failure of its kind |
| `SyncDrain.SyncedRowsStay` | plugin/sync/orchestrator.go:595-649 | a cycle leaves a synced row as it is, whatever its content is now |
| `SyncDrain.OutageKeepsEventIff` | plugin/sync/orchestrator.go:354-372 | an event of a parseable content while the service is down, and a draining cycle after it, leave the content synchronised as it is if and only if the event did not find a synced row of another hash |
| `SyncOutage.ActsAreRun` | plugin/sync/orchestrator.go:354-551 | any sequence of events, batch runs and changes of contents is a run of atomic steps |
| `SyncOutage.RunDocuments` | plugin/sync/memo_syncer.go:42-156 | once a content is gone, a fair run of any length leaves its documents as they are, unless one of its steps is a deletion of that content that can read the row |
| `SyncOutage.OutageLosesDeletions` | plugin/sync/orchestrator.go:365-390 | after a deletion announced while the service is down and any events, batch runs and changes of other contents, a live document of the content is left if and only if its row recorded one and the deletion was not announced again |
| `SyncDrain.QuietCycle` | plugin/sync/attachment_syncer.go:81-92 | a cycle that finds nothing new uploads and deletes nothing, however its calls turn out |
| `SyncDrain.LaterCyclesUploadNothing` | plugin/sync/orchestrator.go:486-649 | after a draining cycle any number of cycles on unchanged contents uploads nothing |
| `HealthChecker.HealthChecker.PerformCheck` | plugin/sync/health_checker.go:118-154 | the new fields after a check |
| `HealthChecker.HealthChecker.TryRecovery` | plugin/sync/health_checker.go:157-184 | nothing before the timeout; then the new fields after a probe |
| `HealthChecker.HealthChecker.IsHealthy` | plugin/sync/health_checker.go:66-84 | the exact fields and answer of an undisturbed call in each of its three cases |
| `HealthChecker.OpenBreakerAnswers` | plugin/sync/health_checker.go:157-184 | an open breaker lets a caller through exactly when a probe after the timeout succeeds, and exactly then it is closed |
| `HealthChecker.ClosedBreakerAnswers` | plugin/sync/health_checker.go:66-154 | a closed breaker checks if and only if the check interval has passed, and answers and remembers the outcome; otherwise it answers what is remembered and nothing changes |
| `HealthChecker.HealthChecker.RecordFailure` | plugin/sync/health_checker.go:202-214 | the count, and the opening at the threshold |
| `HealthChecker.HealthChecker.RecordSuccess` | plugin/sync/health_checker.go:189-199 | count and breaker are reset |
| `HealthChecker.HealthChecker.ForceOpen` | plugin/sync/health_checker.go:217-225 | the breaker opens and the count stays |
| `HealthChecker.HealthChecker.ForceClose` | plugin/sync/health_checker.go:228-236 | count and breaker are reset |
| `HealthChecker.CountIsFailuresSinceSuccess` | plugin/sync/health_checker.go:118-236 | under every interleaving the count is the failures since the last success or forced close, failed probes not among them |
| `HealthChecker.ClosedIsBelowThreshold` | plugin/sync/health_checker.go:118-214 | under every interleaving a closed breaker's count is below the threshold |
| `HealthChecker.EnoughFailuresOpen` | plugin/sync/health_checker.go:118-214 | so enough failures without a success leave it open |
| `HealthChecker.RemembersTheLastOutcome` | plugin/sync/health_checker.go:118-236 | under every interleaving the remembered answer is that of the last event that settled it, and the time that of the last check or probe |
| `HealthChecker.AnswersAreFresh` | plugin/sync/health_checker.go:66-84 | so an answer from memory is the last outcome, not older than the check interval |
| `HealthChecker.WaitStartIsLast` | plugin/sync/health_checker.go:148-214 | the wait counts exactly from the last opening or failed probe |
| `HealthChecker.WaitCountsFromTheLast` | plugin/sync/health_checker.go:148-174 | the wait counts from the last opening or failed probe |
| `HealthChecker.ProbesWait` | plugin/sync/health_checker.go:157-184 | a probe starts at least the recovery timeout after every earlier opening and every earlier failed probe |
| `HealthChecker.LateProbe` | plugin/sync/health_checker.go:66-84 | a call that saw the breaker open may still probe after it was closed |
| `Cache.Cache.SetWithTTL` | store/cache/cache.go:98-120 | the item is stored, the count kept, and the evicted keys are ones that may be evicted |
| `Cache.Cache.Get` | store/cache/cache.go:123-147 | the unexpired value; an expired item is dropped |
| `Cache.Cache.Delete` | store/cache/cache.go:150-160 | the key is dropped |
| `Cache.Cache.Clear` | store/cache/cache.go:163-179 | nothing is left |
| `Cache.Cache.Cleanup` | store/cache/cache.go:218-250 | exactly the expired items are dropped, in whatever order the map is walked |
| `Cache.Cache.CleanupOldest` | store/cache/cache.go:253-313 | exactly the threshold many items are dropped, and every survivor expires no earlier than any of them, in whatever order the map is walked |
| `Cache.Cache.SelectOldest` | store/cache/cache.go:272-297 | the candidate list ends with the items that expire first |
| `Cache.Newest` | store/cache/cache.go:284-290 | the candidate that expires last |
| `Cache.CountIsSize` | store/cache/cache.go:98-178 | over every history the count is the number of keys and within the bound |
| `Cache.StepKeepsCount` | store/cache/cache.go:253-313 | an insertion beyond the bound evicts max(MaxItems/5, 1) keys |
| `Cache.ThresholdIsAFifth` | store/cache/cache.go:253-262 | the number evicted is a fifth of the bound, rounded down, and at least one |
| `Cache.GetReturnsTheLastSet` | store/cache/cache.go:123-147 | over every history `Get` returns only the value last set, unexpired |
| `Cache.FoundUntilExpiration` | store/cache/cache.go:123-147 | an item is found up to its expiration and not after it |
| `Cache.UnboundedCacheIsExact` | store/cache/cache.go:98-178 | without a bound `Get` returns exactly that |
| `Utf8.RoundTrip` | store/user.go:98-155 | decoding the UTF-8 form of a scalar value gives it back |
| `Utf8.KeyCollisionIff` | store/user.go:98-155 | two different ids share a cache key if and only if neither is a scalar value other than U+FFFD |
| `UserStore.Store.CreateUser` | store/user.go:92-100 | driver row, and the cache holding the new user with nothing but what may be evicted gone |
| `UserStore.Store.UpdateUser` | store/user.go:102-110 | driver row, and the cache holding the changed user with nothing but what may be evicted gone |
| `UserStore.ChangedColumns` | store/user.go:102-110 | an update touches the columns it names and no others |
| `UserStore.MatchesIff` | store/user.go:112-122 | a user is found by the columns that are asked for |
| `UserStore.Store.ListUsers` | store/user.go:112-122 | the listed rows are current, and have been put into the cache one after the other |
| `UserStore.Store.GetUser` | store/user.go:124-148 | the bot for id 0; else a current row whose id has the key of the id asked for; no row only if none matches |
| `UserStore.Store.DeleteUser` | store/user.go:150-157 | the driver row and exactly the cache entry of the id are gone |
| `UserStore.Store.GetUserByID` | store/user.go:124-148 | for a scalar id other than U+FFFD, the driver's current row, or the bot |
| `UserCollision.CollidingUsersAreConfused` | store/user.go:124-148 | for any two ids that share a key, asking for the first returns the second |
| `Migrator.PathOrderIsVersionOrder` | store/migrator.go:298-334 | with names of the same width, path order is version order |
| `Migrator.SortedPathsAreOrdered` | store/migrator.go:140-146 | where the scripts later than a version have names of the same width, sorting the paths sorts them by version |
| `Migrator.SupportedVersionsAreOrdered` | store/migrator.go:140-146 | so from any version the runner accepts, sorted paths of scripts numbered as in the repository are in version order |
| `Migrator.WidthsMatter` | store/migrator.go:140-146 | `0.10` is sorted before `0.2` |
| `Migrator.ComposesIffOrdered` | store/migrator.go:78-82 | from a given version, migrating by way of any version in between always runs the same scripts in the same order if and only if the scripts later than it are in version order |
| `Migrator.SelectedIff` | store/migrator.go:78-82 | the scripts that run are those of a version after the stored one and up to the target, script `NN` leading to patch `NN + 1` |
| `Migrator.SelectedInOrder` | store/migrator.go:140-206 | they keep their order |
| `Migrator.Database.PreMigrate` | store/migrator.go:211-252 | initialisation and the minimum version |
| `Migrator.Database.ApplyMigrations` | store/migrator.go:140-208 | all selected scripts or none, then the version |
| `Migrator.Database.Migrate` | store/migrator.go:100-136 | the whole run with its refusals |
| `Migrator.FirstStart` | store/migrator.go:211-252 | a first start takes the latest schema and stores the version of the program, and no script runs; when the schema fails nothing is left |
| `Migrator.RunOnExisting` | store/migrator.go:100-208 | what a run does on an existing database in each case: refusal of a version missing, before 0.22.0 or after its own, nothing on its own, and all scripts in between or none |
| `Migrator.MigratingAgainRunsNothing` | store/migrator.go:100-136 | after a run that succeeds, another one changes nothing |
| `Migrator.UpgradesCompose` | store/migrator.go:100-208 | two upgrades in a row leave what one upgrade leaves, if the scripts later than the stored version are in order |
| `Migrator.RepositoryUpgradesCompose` | store/migrator.go:100-208 | upgrades compose for any sorted list of scripts numbered as in the repository, with no condition on the order |
| `Migrator.LostVersionRepeatsScripts` | store/migrator.go:196-206 | when the scripts are committed and the version is not stored, the next run applies them again |
| `Migrator.FailedFirstStartIsFinal` | store/migrator.go:211-252 | when the first start creates the schema and fails to store the version, every later start refuses |

## Left out

- Daylight saving, named time zones and the midnight repair of the day loop, the `TZ=` prefix, and offsets that are not whole minutes.
- The 64-bit wrap-around of instants; times are unbounded integers.
- `normalizeFields`, descriptors such as `@daily`, and Unicode lower-casing of month and weekday names.
- `parseField` of the scheduler: its matchers are taken as parsed, with a positive step.
- Job wrappers, channels and goroutines of the cron runner; an event of its loop is one atomic step, and the order in which the library sort leaves equal entries is arbitrary.
- The CEL parser and type checker, floating-point literals, and expressions whose evaluation is an error.
- FilterCorrect.CompiledFilterIsCorrect: search texts not admissible for LIKE, and stored tags with a quote, a backslash or a control character; tags are compared up to the database's case folding (`FilterCorrect.ExactlyCompiledFilter` is about case kept exactly).
- FilterMeaning.DialectsAgree: stored tags and search texts with a quote, a backslash or a control character, search texts with `%` or `_`, LIKE escape characters, and, when one dialect is SQLite, flags absent from a row (`FilterMeaning.AbsentFlagSplitsDialects`).
- SyncOutage.OutageLosesDeletions: runs that are not fair in the sense of `SyncRuns.Fair`, as when the delete of a live document fails.
- The case folding of contains(), which is an uninterpreted function of column and pattern, and column collations.
- The option `DisableNullChecks`, which nothing reads.
- Re-reading the row after the pending upsert in a synchronisation, which the source takes to succeed.
- A retry with an unnamed data set: `SyncRuns.Fair` asks for a name, which the batch and the event path check and the retry path does not.
- `ensureAssistantDatasetBindings`, visibility changes, provisioning, user deletion, document parsing, and the text wrapped around a memo in its document.
- Liveness of synchronisation beyond one batch: the pending window is the newest rows, so older rows can wait.
- Eviction callbacks and size estimates of the cache, and races on its map; users shared by reference with callers of the store.
- Creation order of listed users, row status and timestamps of users, and filters on users.
- Reading versions and patch numbers out of texts, `GetCurrentSchemaVersion` (the target version is a parameter), demo seeding, and the execution of SQL scripts.
- HTTP, storage back ends, authentication, generated code and the web client.
