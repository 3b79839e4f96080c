# Models of the memos back end and two of its front-end algorithms

This project models the parts of memos whose correctness is hard to see from the code, and proves
what they promise:

- **The cron engine** (`Calendar`, `Word64`, `CronSpec`, `CronCoverage`, `CronParser`, `CronLine`, `CronScheduler`,
  `Cron`, `CronChain`). Time is a number of seconds (or nanoseconds) in UTC with a Gregorian calendar
  derived from it; a 64-bit field word is the set of its bit positions. The calendar search is proved
  equal to trying every second in order; a crontab line is followed from its text to the instants it
  means; the scheduler is a state machine whose events come in any order; the job wrappers are
  protocols between concurrent invocations.
- **The filter compiler and the queries around it** (`FilterExpr`, `FilterTranslate`, `FilterConverter`,
  `FilterSql`, `FilterSyntax`, `FilterCel`, `FilterMeaning`, `FilterQueries`, `FilterSelection`). Emitted text is a
  sequence of tokens whose leaves have placeholders. The reference text has the arguments themselves in
  their places and no counters; "numbering" it gives the emitted text, and "binding" is what the
  database does with a statement and its argument list. A parser with the usual precedence reads the
  text back, and the three truth values of the databases are compared with CEL's two. `FilterCel` says what a
  filter means without using anything of the converter.
- **The cache** (`Cache`): a map, a separate counter, a clock that may advance at every reading, and a
  ghost history of what was last written. A walk over the map takes the keys in any order.
- **The stores over the cache** (`UserStore`, `UserSettingStore`, `WorkspaceStore`): objects that hold a
  cache and a database, both of which change in place. Any database call may fail.
- **The URL codec and the tag tree** (`MemoFilter`, `TagTree`): a printer and its parser, with UTF-8 and
  percent-encoding, and a tree that is built node by node on the heap.

`Wrappers`, `Arithmetic`, `Sequences` and `Text` hold what several of these share. Functions give the reference
behaviour; the methods follow the source statement by statement and are proved against them.

## Where the code and its documentation differ

- `SpecSchedule.Next` is documented to find the next activation, but gives up after the fifth year. For
  schedules that come from parsing, whose starred fields are full, it misses a later activation exactly
  when the schedule is one of 29 February only and the search starts in the gap before a century year
  that is not a leap year (`CronCoverage.MissedExactly`, `CronLine.LineMissed`; `CronSpec.LeapDayGap` is
  an instance). For bit sets of any other shape there are further cases (`CronCoverage.ShapeMatters`).
- A field without any range (`,`) is accepted and holds no value (`CronParser.CommaIsEmpty`). In the
  second, minute, hour and month fields this keeps the line from ever being activated; an empty day
  field without a star in either leaves the decision to the other one (`CronCoverage.EmptyDayFieldMatches`).
  `CronLine.LineNeverMatches` says exactly which accepted lines are never activated.
- The user cache is keyed by `string(user.ID)`, which is a character and not a number. All IDs that are
  not Unicode scalar values share one key with the replacement character (`UserStore.SharedKeys`). The
  cache always holds rows under the keys of their IDs, but a hit can answer another row with the same
  key: hits for an ID are right exactly when no other row shares its key (`UserStore.HitsAreRight`).
- `GetUser` ignores every condition beside the ID when the cache has the user; the answer is right
  exactly when the user meets them (`UserStore.Store.GetUser`, `UserStore.HitIgnoresCondition`).
- `UpdateUserSessionLastAccessed` edits the cached message before the upsert. When the upsert fails, the
  key of the sessions becomes stale exactly if the sessions are cached and the edit changed them
  (`UserSettingStore.Store.UpdateUserSessionLastAccessed`, `UserSettingStore.TouchedUnchanged`). Every
  other key keeps answering its row, and a successful write mends a stale one.
- A test of the tags is NULL on a memo without a tag list, and a comparison of a property is NULL on a memo
  without the property, in SQLite for `has_task_list` only. A filter never selects a memo that CEL does
  not; it misses one exactly when the filter holds and the memo leaves it undecided
  (`FilterMeaning.MeaningPreserved`). So `!("x" in tags)` misses memos without a tag list
  (`FilterMeaning.NegatedTagIsMissed`) and `has_task_list == false` those without the property
  (`FilterMeaning.AbsentTaskListIsMissed`), while another operand can decide
  (`FilterMeaning.OtherOperandDecides`).

## Model

| member | source | states |
|---|---|---|
| Calendar.MonthLength | app/plugin/cron/spec.go:112-136 | consecutive month starts are apart by the number of days the Gregorian calendar gives the month |
| Calendar.YearLength | app/plugin/cron/spec.go:87-93 | twelve months make 365 days, or 366 in a leap year |
| Calendar.FieldsOfDate | app/plugin/cron/spec.go:97-174 | the fields of a second built from a valid date and time are that date and time |
| Calendar.DateOfFields | app/plugin/cron/spec.go:97-174 | building a second from its own fields gives it back |
| Calendar.MonthIndexUnique | app/plugin/cron/spec.go:95-110 | a day lies in exactly one month |
| Calendar.EpochIsThursday | app/plugin/cron/spec.go:179-188 | the weekday of 1 January 1970 is Thursday, which fixes all weekdays |
| Calendar.WeekdaysInTurn | app/plugin/cron/spec.go:177-188 | the weekday goes on by one at every midnight, and only there |
| Calendar.LeapDays | app/plugin/cron/spec.go:112-136 | in February no day is later than the 29th in leap years and the 28th in others |
| Calendar.YearBound | app/plugin/cron/spec.go:87-93 | a second is within a year limit exactly when it is before the end of that year |
| Calendar.NextMonth | app/plugin/cron/spec.go:95-110 | from the start of a month, adding a month reaches the end of the month |
| Calendar.NextDay | app/plugin/cron/spec.go:112-136 | from a midnight, adding a day reaches the next midnight |
| CronSpec.ScanIsFirst | app/plugin/cron/spec.go:56-67 | trying every second in order finds the first match, or none when there is none in the range |
| CronSpec.FirstActivationIsEarliest | app/plugin/cron/spec.go:56-93 | the activation is later than the start, on a whole second, matches every field, and no earlier second after the start does; there is none exactly when nothing matches up to the end of the fifth year |
| CronSpec.LeapDayGap | app/plugin/cron/spec.go:87-93 | from the beginning of 2097 the schedule of every 29 February is answered with the zero time, although 29 February 2104 matches |
| CronSpec.LeapDayMatches | app/plugin/cron/spec.go:179-188 | the example schedule means midnight of every 29 February |
| CronSpec.MonthCarry | app/plugin/cron/spec.go:95-110 | going to the next month start skips no match, and leaves every lower field at the start of its period |
| CronSpec.DayCarry | app/plugin/cron/spec.go:112-136 | going to the next midnight skips no match, and unless a month starts the month still matches |
| CronSpec.HourCarry | app/plugin/cron/spec.go:138-148 | the same for the next full hour and the day |
| CronSpec.MinuteCarry | app/plugin/cron/spec.go:150-160 | the same for the next full minute and the hour |
| CronSpec.SecondCarry | app/plugin/cron/spec.go:162-172 | the same for the next second and the minute |
| CronSpec.MonthStep | app/plugin/cron/spec.go:95-110 | one turn of the month loop keeps: nothing so far matches, and once a field was advanced a field that does not match sits at the start of its period, so that no further reset is needed |
| CronSpec.DayStep | app/plugin/cron/spec.go:112-136 | one turn of the day loop keeps the same |
| CronSpec.HourStep | app/plugin/cron/spec.go:138-148 | one turn of the hour loop keeps the same |
| CronSpec.MinuteStep | app/plugin/cron/spec.go:150-160 | one turn of the minute loop keeps the same |
| CronSpec.SecondStep | app/plugin/cron/spec.go:162-172 | one turn of the second loop keeps the same |
| CronSpec.SearchEnds | app/plugin/cron/spec.go:87-93 | a search that stops at a match within the year limit, or beyond it, has the answer of the scan |
| CronSpec.Next | app/plugin/cron/spec.go:58-175 | for all six bit sets and every start, the search with its carries, its one flag and its jumps back to WRAP ends and answers the first matching second, or zero |
| CronCoverage.DayRule | app/plugin/cron/spec.go:177-188 | when starred fields are full, a day is admitted by its date or by its weekday, as the stars say |
| CronCoverage.MatchInYear | app/plugin/cron/spec.go:58-175 | a schedule with a time, a month and a day that exist in years of a kind matches in every year of that kind |
| CronCoverage.MatchIsPossible | app/plugin/cron/spec.go:177-188 | and only such a schedule matches |
| CronCoverage.NeverMatches | app/plugin/cron/spec.go:56-57 | for parsed shapes, no instant matches exactly when the fields leave no time, no month or no day that exists |
| CronCoverage.PossibleEveryYear | app/plugin/cron/spec.go:87-93 | what can match at all can match in every year, unless it is 29 February only |
| CronCoverage.NextIsFound | app/plugin/cron/spec.go:87-93 | for parsed shapes that can match, and not on 29 February only, the search never answers zero |
| CronCoverage.LeapDayIsMissed | app/plugin/cron/spec.go:87-93 | a schedule of 29 February only is answered with zero exactly in the gap: in the years 97 and 98 before a century year that is not a leap year, and in the year 96 after the last activation of its 29 February |
| CronCoverage.MissedExactly | app/plugin/cron/spec.go:56-93 | for parsed shapes, zero is answered although a later instant matches exactly for schedules of 29 February only, in the gap |
| CronCoverage.ShapeMatters | app/plugin/cron/spec.go:87-93 | bit sets that no line parses to, for Friday 13 August, are missed from 2011 although 2021 matches |
| CronCoverage.EmptyDayFieldMatches | app/plugin/cron/spec.go:177-188 | an empty day of the month with a weekday matches on that weekday |
| CronParser.GetBits | app/plugin/cron/parser.go:345-359 | the shift form for step one and the loop for other steps both give exactly start, start + step and so on up to the maximum, and the 64-bit counter does not overflow |
| CronParser.ShiftedOnes | app/plugin/cron/parser.go:349-352 | the two shifted words of ones meet in the positions from the minimum to the maximum |
| CronParser.RangeOf | app/plugin/cron/parser.go:254-320 | an accepted range lies within the bounds of its field and has a positive step |
| CronParser.GetRange | app/plugin/cron/parser.go:254-320 | the bits of a range text are those of the range it denotes, and an error comes exactly when it denotes none, with its reason |
| CronParser.GetField | app/plugin/cron/parser.go:236-247 | a field gives the union of its ranges, up to the first that is refused |
| CronParser.FieldMeaning | app/plugin/cron/parser.go:236-247 | in an accepted field a bit is set exactly when some comma-separated range denotes it; every bit is within the bounds or is the star bit |
| CronParser.FieldAccepted | app/plugin/cron/parser.go:236-247 | a field is accepted exactly when each of its ranges is |
| CronParser.StarMeaning | app/plugin/cron/parser.go:263-301 | a range asks for the star bit exactly when it begins with a star or question mark and has a step of one |
| CronParser.StarIsWholeField | app/plugin/cron/parser.go:263-301 | a range with the star bit is the whole field with a step of one |
| CronParser.StarFieldIsFull | app/plugin/cron/parser.go:236-247 | an accepted field with the star bit holds every value of the field |
| CronParser.EmptyField | app/plugin/cron/parser.go:236-247 | an accepted field is empty exactly when it has no range, and otherwise holds a value within its bounds |
| CronParser.CommaIsEmpty | app/plugin/cron/parser.go:236-247 | a comma is accepted and gives the empty set |
| CronParser.RangeOfShow | app/plugin/cron/parser.go:249-320 | reading a range that was written in the documented notation, with numbers or names in any case, a star or a question mark, gives its meaning; a single value with a step runs to the end of the field |
| CronParser.WrittenField | app/plugin/cron/parser.go:233-247 | a written list of ranges is accepted and sets exactly the values its ranges mean |
| CronParser.CrontabNames | app/plugin/cron/spec.go:20-54 | the names of the six fields are words of lower-case letters, and every field leaves the star bit free |
| CronParser.MonthNamed | app/plugin/cron/spec.go:26-39 | the names of the months in calendar order denote the months from 1 on, in any case of their letters, and the month field knows no other name |
| CronParser.DayNamed | app/plugin/cron/spec.go:40-48 | the names of the weekdays from Sunday on denote the weekdays from 0 on, in any case, and the weekday field knows no other name |
| CronParser.MustParseInt | app/plugin/cron/parser.go:333-343 | an accepted number is not negative and fits 63 bits |
| CronParser.NormalizeFields | app/plugin/cron/parser.go:160-215 | a line with too few or too many fields is refused with the expected numbers; otherwise the asked-for places hold the given fields in order, completed by the optional default, and the other places their defaults |
| CronParser.ExpandedPlaces | app/plugin/cron/parser.go:160-215 | for every set of options, the second, minute, hour, day, month and weekday of the expanded line are, in this order, the next of the given fields where they are asked for, and otherwise 0 in the clock and a star in the calendar |
| CronLine.Parse | app/plugin/cron/parser.go:113-153 | the schedule is that of the expanded line, or the error is that of its first bad field; the line itself is refused exactly for its number of fields or two optional ones |
| CronLine.LineShaped | app/plugin/cron/parser.go:132-152 | every accepted line has a schedule whose starred day fields are full |
| CronLine.LineNeverMatches | app/plugin/cron/parser.go:132-152 | an accepted line is never activated exactly when its second, minute, hour or month field is empty or its day fields admit no day that exists |
| CronLine.EmptyDayOfMonth | app/plugin/cron/spec.go:177-188 | an empty day-of-month field keeps a line from being activated exactly when the weekday field is a star or empty too |
| CronLine.LineMissed | app/plugin/cron/spec.go:87-93 | an accepted line is missed although it matches later exactly when it is one of 29 February only, in the gap |
| CronLine.StandardLine | app/plugin/cron/parser.go:217-231 | the standard parser puts second zero in front of the five fields |
| CronLine.LineWithSeconds | app/plugin/cron/option.go:17-23 | the parser with seconds takes six fields in their order |
| CronLine.OptionalSecond | app/plugin/cron/parser.go:174-201 | a missing optional second is 0 in front of the given fields |
| CronLine.OptionalWeekday | app/plugin/cron/parser.go:174-201 | a missing optional weekday is a star behind the given fields, and clock fields that are not asked for are 0 |
| CronLine.WrittenForms | app/plugin/cron/parser.go:249-320 | stars, question marks, numbers and ranges of numbers within the bounds are well written in every field, with any positive step |
| CronLine.MonthsByName | app/plugin/cron/parser.go:254-320 | a month name means that month, and two names with a hyphen the months from one to the other |
| CronLine.DaysByName | app/plugin/cron/parser.go:254-320 | the same for weekdays, from Sunday as 0 |
| CronLine.MonthOfLine | app/plugin/cron/spec.go:95-110 | a line that names a month is activated in that month of the calendar only |
| CronLine.WeekdayOfLine | app/plugin/cron/spec.go:177-188 | a line that names a weekday, with a star for the day of the month, is activated on that weekday only |
| CronLine.BoundsAreCalendar | app/plugin/cron/spec.go:20-49 | the bounds of each field are exactly the values that its part of an instant takes |
| CronLine.LineMeaning | app/plugin/cron/parser.go:88-153 | the schedule parsed from a written line matches exactly the instants the line means, with the rule for the two day fields |
| CronLine.NextOfLine | app/plugin/cron/spec.go:58-175 | writing a line down, parsing it and searching gives the first whole second after the start that the line means, up to the end of the fifth year; a later one is missed exactly for a line of 29 February only, in the gap |
| CronScheduler.CrontabIsStrictlyLater | app/plugin/cron/cron.go:39-44 | a crontab schedule answers zero or a later time |
| CronScheduler.EveryIsStrictlyLater | app/plugin/cron/constantdelay.go:14-27 | a constant delay answers the whole second that lies the whole seconds of the duration, and at least one, after the second of the given time, which is later |
| CronScheduler.LessIsStrictWeakOrder | app/plugin/cron/cron.go:79-94 | the order by time is irreflexive, asymmetric and transitive, and so is incomparability |
| CronScheduler.StoppingEarlyIsSound | app/plugin/cron/cron.go:268-277 | on sorted entries, stopping at the first that is not due runs what looking at all of them runs |
| CronScheduler.StoppingEarlyNeedsTheOrder | app/plugin/cron/cron.go:83-94 | with a zero time in front a due entry would be missed |
| CronScheduler.RunAllDueAt | app/plugin/cron/cron.go:268-277 | every entry is looked at once: a due one has its activation moved to the previous one and a new one asked for, any other is unchanged |
| CronScheduler.LaunchesAtWake | app/plugin/cron/cron.go:268-277 | one wake-up starts one job for each due entry and no job twice |
| CronScheduler.SortingKeepsInv | app/plugin/cron/cron.go:249-251 | any order a sort gives to equal times keeps the invariant |
| CronScheduler.WakeKeepsInv | app/plugin/cron/cron.go:264-277 | a wake-up keeps the invariant and leaves every activation zero or in the future |
| CronScheduler.AddKeepsInv | app/plugin/cron/cron.go:279-284 | adding an entry keeps the invariant |
| CronScheduler.RemoveKeepsInv | app/plugin/cron/cron.go:295-300 | removing an entry keeps the invariant |
| CronScheduler.StepKeepsInv | app/plugin/cron/cron.go:239-305 | every event keeps the invariant |
| CronScheduler.RunKeepsInv | app/plugin/cron/cron.go:239-305 | every state of every run from a fresh scheduler satisfies the invariant, for a clock that does not run backwards and schedules that answer zero or a later time |
| CronScheduler.WakeRunsExactlyTheDue | app/plugin/cron/cron.go:264-277 | in every run a wake-up starts exactly the entries whose activation is set and not in the future, each once; afterwards each of them has its ID and schedule, the old activation as its previous one and the next that its schedule gives from now on, which is zero or in the future, and every other entry is unchanged |
| CronScheduler.StepOnEntries | app/plugin/cron/cron.go:239-305 | after any event there are exactly the entries that it makes of those before, and the one it adds: a start asks every schedule anew, a wake-up those of the due entries, an addition to a running scheduler that of the new entry, and a removal takes away one ID |
| CronScheduler.NextIsLastAsked | app/plugin/cron/cron.go:239-305 | in every run the next activation of an entry of a running scheduler, zero or not, is what its schedule gave at the last start, addition or run of that entry |
| CronScheduler.WithoutIsFiltered | app/plugin/cron/cron.go:347-355 | exactly the entries with another ID stay, in their order |
| Sequences.FilteredPlaces | app/plugin/cron/cron.go:347-355 | the elements that are kept are those at the places to be kept, each once, in rising order |
| CronScheduler.ActivationsIncrease | app/plugin/cron/cron.go:264-277 | in every run the activations of one entry increase strictly, and no job starts before its time |
| CronScheduler.TimerIsEarliest | app/plugin/cron/cron.go:249-260 | in every run the timer is set to the earliest pending activation, and to 100000 hours from now when there is none |
| Cron.SortByTime | app/plugin/cron/cron.go:79-94 | the result is a sorted permutation of the same entry objects |
| Cron.Cron.Start | app/plugin/cron/cron.go:215-247 | starting schedules every entry from now and is otherwise the step of the state machine |
| Cron.Cron.RunDueEntries | app/plugin/cron/cron.go:268-277 | the loop over the entry objects with its early stop does what the state machine does |
| Cron.Cron.Wake | app/plugin/cron/cron.go:249-277 | the firing of the timer is the wake-up step |
| Cron.Cron.Schedule | app/plugin/cron/cron.go:158-174 | adding takes the next ID and is the step of the state machine, running or not |
| Cron.Cron.RemoveEntry | app/plugin/cron/cron.go:347-355 | exactly the entries with another ID stay, in their order |
| Cron.Cron.Remove | app/plugin/cron/cron.go:204-212 | removing is the step of the state machine, running or not |
| Cron.Cron.Entries | app/plugin/cron/cron.go:177-186 | the snapshot is a copy, and the sorted entries stay as they are |
| Cron.Cron.Stop | app/plugin/cron/cron.go:323-336 | stopping is the step of the state machine |
| CronChain.Then | app/plugin/cron/chain.go:25-39 | the first wrapper is the outermost and the last is next to the job |
| CronChain.WrappedOne | app/plugin/cron/chain.go:25-39 | a job without wrappers is as it was, one wrapper is applied to it, and of two the first is applied to what the second gives |
| CronChain.WrappedTwice | app/plugin/cron/chain.go:25-39 | a chain of two chains is the outer around the inner |
| CronChain.StepKeepsInv | app/plugin/cron/chain.go:65-96 | every step keeps: tokens in the channel and invocations holding one are one together, bodies alternate between start and end, and each has started as often as its phase says |
| CronChain.RunKeepsInv | app/plugin/cron/chain.go:65-96 | so does every run, in any order of steps and with jobs that panic |
| CronChain.OneAtATime | app/plugin/cron/chain.go:65-96 | in every run at most one invocation runs its body or has still to leave |
| CronChain.LeavingNeverBlocks | app/plugin/cron/chain.go:88-90 | giving the token back, or unlocking, never blocks, after a panic too |
| CronChain.SkippedIffHeld | app/plugin/cron/chain.go:87-93 | an invocation is skipped exactly when another one holds the token |
| CronChain.NeverStuck | app/plugin/cron/chain.go:68-76 | while an invocation is not done, some invocation can take a step |
| CronChain.StepsRunOut | app/plugin/cron/chain.go:68-76 | every step but a new invocation leaves less to do, so the invocations come to rest |
| CronChain.ComesToRest | app/plugin/cron/chain.go:65-96 | from wherever a run stands, the invocations there are can all be brought to an end |
| CronChain.AllWaiting | app/plugin/cron/chain.go:65-96 | any number of invocations can be waiting at once |
| CronChain.DelayRunsEachOnce | app/plugin/cron/chain.go:65-78 | when a delayed job has come to rest, the body has run exactly once for every invocation, one after the other |
| CronChain.SkipRunsTheOthersOnce | app/plugin/cron/chain.go:82-96 | a body runs once for every invocation that is not skipped, and never for one that is |
| Cache.NewestIndex | app/store/cache/cache.go:282-288 | the loop finds a candidate that expires no earlier than any other |
| Cache.SelectOlder | app/store/cache/cache.go:290-293 | replacing the newest candidate by an older item keeps: every candidate expires no later than every item passed over |
| Cache.SelectOldest | app/store/cache/cache.go:264-296 | in whatever order the map is walked, the candidates are as many as the threshold asks for (or all items), and each expires no later than every item left |
| Cache.Threshold | app/store/cache/cache.go:254-255 | a fifth of the limit, rounded down, and at least one |
| Cache.Cache.CleanupOldest | app/store/cache/cache.go:253-313 | over the limit, exactly the threshold's number of items goes, each expiring no later than every survivor and reported once; otherwise nothing changes |
| Cache.Cache.SetWithTTL | app/store/cache/cache.go:98-120 | a set stores the item with its expiry, counts it only when the key is new, and cleans up when the limit is passed |
| Cache.Cache.Get | app/store/cache/cache.go:123-147 | a hit is the stored value before its expiry; an expired item is removed and reported |
| Cache.Cache.Delete | app/store/cache/cache.go:150-160 | a stored key is removed, counted down and reported; any other changes nothing |
| Cache.Cache.Clear | app/store/cache/cache.go:163-179 | every item is reported once and gone |
| Cache.Cache.Size | app/store/cache/cache.go:182-184 | the counter is the number of stored keys |
| Cache.Cache.DropExpired | app/store/cache/cache.go:222-238 | the walk removes only items expired at its end and all that were expired at its beginning |
| Cache.Cache.Cleanup | app/store/cache/cache.go:218-250 | the sweep removes them, counts them down and reports each once, after the walk |
| Cache.SetKeepsInv | app/store/cache/cache.go:98-120 | a set keeps the invariant of the cache |
| Cache.HitIsLastWrite | app/store/cache/cache.go:123-147 | a hit answers the value last written for its key, whose expiry has not passed |
| Cache.StepKeepsInv | app/store/cache/cache.go:98-313 | every operation keeps the invariant |
| Cache.SizesInEveryRun | app/store/cache/cache.go:98-313 | in every run the size is the number of stored keys and at most a positive limit, and keys inserted are keys present and evictions reported together |
| Cache.HitsInEveryRun | app/store/cache/cache.go:98-179 | in every run a hit answers the most recent value set for the key, with no delete or clear since, before its expiry |
| Cache.GetAfterSet | app/store/cache/cache.go:98-147 | in every run a get answers the value of the last set of its key while its time has not run out, if every set since found room, and answers nothing once the time has run out |
| Cache.DataAfterSet | app/store/cache/cache.go:98-120 | after a set, every stored item is the new one or was there before under another key |
| Cache.SetWithRoom | app/store/cache/cache.go:98-120 | a set that needs no cleanup leaves its value in the cache and removes nothing |
| Cache.DataAfterCleanup | app/store/cache/cache.go:218-250 | after a sweep every stored item was there before |
| UserStore.SharedKeys | app/store/user.go:104-104 | two IDs have the same cache key exactly when they are equal or neither is told apart from the replacement character |
| UserStore.KeyOfNumber | app/store/user.go:104-104 | the key of an ID that is a Unicode scalar value is that character, and any other ID has the replacement character |
| UserStore.SeparateIDs | app/store/user.go:104-135 | the keys tell a set of IDs apart exactly when at most one of them is, or is keyed as, the replacement character |
| UserStore.CollidingIDs | app/store/user.go:135-140 | with two such IDs, asking for the one just after the other was cached answers the other |
| UserStore.CollidingInput | app/store/user.go:104-104 | a negative ID and one in the surrogate range share their key |
| UserStore.HitsAreRight | app/store/user.go:135-140 | for every cache that holds rows under their own keys, a hit for an ID is its row: exactly when no other row shares the key of the ID |
| UserStore.FilterIsRows | app/store/user.go:118-128 | a query filters exactly the rows that meet the further conditions and have the ID, where one is asked for |
| UserStore.QueryIsRows | app/store/user.go:118-128 | a query finds the first of these rows, as many as the limit allows |
| UserStore.FilterInOrder | app/store/user.go:118-128 | the rows that are found keep their order |
| UserStore.WithoutInOrder | app/store/user.go:156-163 | a deletion takes away the row of the ID and leaves the others in their order |
| UserStore.FilterByID | app/store/user.go:143-151 | a query by ID finds the row if it meets the other conditions, or nothing |
| UserStore.ConditionsIgnored | app/store/user.go:135-140 | the answers with and without the conditions beside an ID agree exactly when there is no such row or it meets them |
| UserStore.HitIgnoresCondition | app/store/user.go:135-140 | a cached user who fails a condition is found by a hit and not without a cache |
| UserStore.Store.CreateUser | app/store/user.go:98-106 | the new row joins the table and, when there is room, the cache, and every cached user stays its row; after a failure table and cache are unchanged |
| UserStore.Store.UpdateUser | app/store/user.go:108-116 | the row of the ID with its profile changed is the answer, and replaces the old one in the table and, when there is room, in the cache; after a failure table and cache are unchanged |
| UserStore.Store.ListUsers | app/store/user.go:118-128 | the answer is the database's, and every cached user is its row |
| UserStore.Store.GetUser | app/store/user.go:130-154 | for every store, without a hit the answer is that of the store without a cache; a cached key that has not expired is a hit; a hit answers a row with that key, and if it has the ID this is the answer for the ID alone, which is right exactly when the row meets the further conditions; by an ID whose key no other row shares the answer is always that without a cache |
| UserStore.Store.DeleteUser | app/store/user.go:156-163 | the row and the cached user go together |
| UserStore.Store.Sweep | app/store/cache/cache.go:218-250 | a sweep of the cache keeps every cached user its row |
| UserSettingStore.CacheKeyInjective | app/store/cache.go:7-9 | the key gives the user ID and the name back, for every ID and every name |
| UserSettingStore.UpsertedRows | app/store/user_setting.go:29-29 | an upsert changes the row of its user and name and no other, and keeps the primary key |
| UserSettingStore.QueryOne | app/store/user_setting.go:76-85 | a query for one user and one key finds at most that row |
| UserSettingStore.QueryInOrder | app/store/user_setting.go:45-64 | a query finds exactly the rows of the user and the key, where they are asked for, in their order |
| UserSettingStore.UncachedOfRow | app/store/user_setting.go:66-90 | without a cache the answer for a user and a key is what the row decodes to |
| UserSettingStore.WrittenDecodes | app/store/user_setting.go:24-43 | every setting with a key is read back as it was written, or as the empty message when its message is not of the kind of its key |
| UserSettingStore.Store.UpsertUserSetting | app/store/user_setting.go:24-43 | the row is written and its decoded form is cached in a new message, when there is room; its key is stale no longer; after an error nothing is changed |
| UserSettingStore.Store.ListUserSettings | app/store/user_setting.go:45-64 | the answer is what the rows decode to, unsupported keys skipped, the first bad value an error, whatever is stale |
| UserSettingStore.Store.GetUserSetting | app/store/user_setting.go:66-90 | unless the database fails, the answer is that of the store without a cache; only under a stale key it can be the cached setting instead |
| UserSettingStore.Store.GetUserSessions | app/store/user_setting.go:137-151 | the sessions are those of the row or, under a stale key, those in the cache |
| UserSettingStore.Store.AddUserSession | app/store/user_setting.go:181-215 | the row gets the sessions that were read, with the session added; after a failure it is unchanged |
| UserSettingStore.Store.RemoveUserSession | app/store/user_setting.go:154-178 | the row gets the sessions that were read, without the ID; after a failure it is unchanged |
| UserSettingStore.Store.UpdateUserSessionLastAccessed | app/store/user_setting.go:218-242 | on success the row gets the sessions that were read, with the new time; on failure the row is unchanged, and the key becomes stale exactly when the cache holds the sessions and the edit changed them; a key that has become stale holds the edited list, which is that of no row |
| UserSettingStore.Store.Sweep | app/store/cache/cache.go:218-250 | a sweep of the cache makes no key stale |
| UserSettingStore.Store.Touch | app/store/user_setting.go:224-229 | the edit gives the first session with the ID the new time in the message itself; the key becomes stale exactly when the cache holds the message and the edit changes it |
| UserSettingStore.TouchedUnchanged | app/store/user_setting.go:224-229 | the edit changes nothing exactly when no session has the ID or the first that has it has that time already |
| UserSettingStore.TouchChanges | app/store/user_setting.go:224-229 | a list that the edit changes |
| UserSettingStore.StaleSessions | app/store/user_setting.go:66-90 | a cached list that is not that of the row answers for no row |
| UserSettingStore.AddedSession | app/store/user_setting.go:187-202 | adding leaves the other sessions as they were, in their order, and the ID then denotes the new one alone |
| UserSettingStore.RemovedSession | app/store/user_setting.go:160-165 | exactly the sessions with another ID stay |
| UserSettingStore.SessionsInOrder | app/store/user_setting.go:160-165 | and in their order |
| UserSettingStore.TouchedSession | app/store/user_setting.go:224-229 | the first session with the ID has the new time, and every other is as it was |
| UserSettingStore.SessionsAfterUpsert | app/store/user_setting.go:137-215 | writing a list of sessions and reading it back gives the list |
| WorkspaceStore.DefaultedTwice | app/store/workspace_setting.go:161-203 | defaulting is idempotent and keeps the kind of the message |
| WorkspaceStore.DefaultsKeepWhatIsSet | app/store/workspace_setting.go:140-203 | a content length limit of at least 8192 and any other field that is set are kept; an unset field becomes 8192, the eight reactions, the tag nsfw, the database, 30 or the stated template |
| WorkspaceStore.RowsOfKeys | app/store/workspace_setting.go:102-209 | each key reads the row of its name, or the empty message |
| WorkspaceStore.KeptRows | app/store/workspace_setting.go:60-79 | exactly the rows of the four names are kept |
| WorkspaceStore.KeptInOrder | app/store/workspace_setting.go:60-79 | and in their order |
| WorkspaceStore.QueryInOrder | app/store/workspace_setting.go:60-79 | a name finds its rows, and the empty name every row, in their order |
| WorkspaceStore.UpsertedRows | app/store/workspace_setting.go:48-48 | an upsert changes the row of its name and no other |
| WorkspaceStore.Store.UpsertWorkspaceSetting | app/store/workspace_setting.go:26-58 | a key that is none of the four is refused; otherwise the row is written and, when there is room, a new message with its content is cached; after an error table and cache are unchanged |
| WorkspaceStore.Store.ListWorkspaceSettings | app/store/workspace_setting.go:60-79 | every supported row is answered by a new message with its content |
| WorkspaceStore.Store.GetWorkspaceSetting | app/store/workspace_setting.go:81-100 | for any name, the answer has that name and says the same as its row, up to defaults; there is none only where no supported row has the name; only the empty name, which asks for all rows, can find several |
| WorkspaceStore.Store.GetWorkspaceBasicSetting | app/store/workspace_setting.go:102-119 | the answer is the row, or the empty setting |
| WorkspaceStore.Store.GetWorkspaceGeneralSetting | app/store/workspace_setting.go:121-138 | the answer is the row, or the empty setting |
| WorkspaceStore.Store.GetWorkspaceMemoRelatedSetting | app/store/workspace_setting.go:149-175 | from cache or database, the answer keeps what the row sets, a content length limit only from 8192 on, and has the defaults elsewhere, although they are written into the cached message |
| WorkspaceStore.Store.GetWorkspaceStorageSetting | app/store/workspace_setting.go:183-209 | from cache or database, the answer keeps what the row sets and has the database, 30 and the stated template elsewhere |
| FilterExpr.WrapCommutes | app/plugin/filter/expr.go:56-112 | wrapping a and b to 64 bits first does not change the wrapped a - b, a * b and a + b |
| FilterExpr.FoldingWrapsOnce | app/plugin/filter/expr.go:44-127 | folding with 64-bit wrap-around at every operation is wrapping once what the differences, products and sums are over the integers |
| FilterExpr.FoldsArithmetic | app/plugin/filter/expr.go:44-127 | the folder gives an integer for exactly the integer constants, now() and their differences, products and sums |
| FilterExpr.WrapIsUnique | app/plugin/filter/expr.go:56-112 | the wrapped number is the one within 64 bits that differs by a multiple of 2 to the power of 64 |
| FilterTranslate.HandledIsComplete | app/plugin/filter/common_converter.go:51-71 | when every boolean position holds a call or an identifier and no list is empty, something is written for every part |
| FilterConverter.WrittenTwice | app/plugin/filter/common_converter.go:73-104 | writing one text behind another continues the numbering |
| FilterConverter.CommonSQLConverter.ConvertExprToSQL | app/plugin/filter/common_converter.go:51-71 | converting fails exactly when there is no translation, with its error; otherwise the buffer, the arguments and the counter have grown by the numbered text of the translation, its arguments and their number |
| FilterConverter.CommonSQLConverter.HandleLogicalOperator | app/plugin/filter/common_converter.go:73-104 | both operands are written in parentheses around the operator |
| FilterConverter.CommonSQLConverter.HandleNotOperator | app/plugin/filter/common_converter.go:106-124 | the operand is written in parentheses behind NOT |
| FilterConverter.CommonSQLConverter.HandleComparisonOperator | app/plugin/filter/common_converter.go:126-183 | sizes, allowed fields and their values are told apart, with the same errors in the same order |
| FilterConverter.CommonSQLConverter.HandleSizeComparison | app/plugin/filter/common_converter.go:185-222 | only the number of tags can be compared, with an integer |
| FilterConverter.CommonSQLConverter.HandleInOperator | app/plugin/filter/common_converter.go:224-267 | an element of the tags, or a list of constants for a tag, a visibility, a content ID or a memo ID, with the errors in the order of the source |
| FilterConverter.CommonSQLConverter.HandleElementInTags | app/plugin/filter/common_converter.go:269-293 | one condition with the argument in the form of the dialect |
| FilterConverter.CommonSQLConverter.HandleTagInList | app/plugin/filter/common_converter.go:295-325 | one condition per tag, each with the next placeholder and its own argument, in parentheses unless there is one |
| FilterConverter.CommonSQLConverter.HandleColumnInList | app/plugin/filter/common_converter.go:327-391 | one placeholder per value, in order |
| FilterConverter.CommonSQLConverter.HandleContainsOperator | app/plugin/filter/common_converter.go:393-429 | a search in the content with the pattern as argument |
| FilterConverter.CommonSQLConverter.HandleIdentifier | app/plugin/filter/common_converter.go:431-473 | a boolean column or property by itself |
| FilterConverter.CommonSQLConverter.HandleTimestampComparison | app/plugin/filter/common_converter.go:475-490 | a time column compared with an integer |
| FilterConverter.CommonSQLConverter.HandleStringComparison | app/plugin/filter/common_converter.go:492-556 | a text column compared for equality only |
| FilterConverter.CommonSQLConverter.HandleIntComparison | app/plugin/filter/common_converter.go:558-586 | the creator compared for equality only |
| FilterConverter.CommonSQLConverter.HandlePinnedComparison | app/plugin/filter/common_converter.go:588-615 | the pin compared with 1 or 0, or with the boolean, as the dialect has it |
| FilterConverter.CommonSQLConverter.HandleBooleanComparison | app/plugin/filter/common_converter.go:617-727 | a property compared with a literal, an argument or IS TRUE, as dialect and property have it |
| FilterSql.PlaceholdersInOrder | app/plugin/filter/common_converter.go:185-429 | the placeholders of an emitted text are the next ones, in order, each once, and as many as its arguments |
| FilterSql.BindOfNumber | app/plugin/filter/dialect.go:60-165 | binding an emitted text to its argument list puts every argument in the place it was written for, in every dialect |
| FilterSql.BindBehind | app/plugin/filter/common_converter.go:31-38 | so it does behind another text, when the numbers or the positions point at its arguments |
| FilterSyntax.ShowIsUnit | app/plugin/filter/common_converter.go:73-124 | the text of a condition reads as one operand, whatever stands behind it |
| FilterSyntax.ParseOfShow | app/plugin/filter/common_converter.go:73-124 | reading the text with NOT before AND before OR gives the structure of the source back, with nothing left over |
| FilterSyntax.ReadableIffComplete | app/plugin/filter/common_converter.go:51-71 | the text can be read as a condition exactly when something is written for every part and no list is empty |
| FilterSyntax.ParseOfClauses | app/store/db/postgres/memo.go:114-119 | clauses joined by AND read as their conjunction |
| FilterMeaning.MeaningPreserved | app/plugin/filter/common_converter.go:51-71 | in each database and on every row, the emitted text with its arguments bound, read back with the usual precedence, is true only if the CEL expression is, and is true exactly when the CEL expression is if and only if the row decides the filter or the filter does not hold; CEL has its own reading of functions, fields, constants and comparisons |
| FilterMeaning.AcceptedExactly | app/plugin/filter/common_converter.go:51-71 | in each dialect a filter is converted without error exactly when every leaf is one that can be asked of a memo: a comparison that suits its field, a membership test of constants, a search in the content or a boolean field |
| FilterMeaning.FilterValue | app/plugin/filter/common_converter.go:51-124 | in each database and on every row, a tree of and, or and not over the handled leaves is NULL unless the row decides it, and then it is what CEL says |
| FilterMeaning.NeverMissedIsRight | app/plugin/filter/common_converter.go:51-124 | a filter without tests that a missing property makes NULL, and with tag tests only under an even number of negations, is right on every row |
| FilterMeaning.ComparisonValue | app/plugin/filter/common_converter.go:126-222 | a comparison is NULL only where a missing property makes it so, and otherwise what CEL says |
| FilterMeaning.InValue | app/plugin/filter/common_converter.go:224-391 | a membership test is NULL only for tags without a tag list, and otherwise what CEL says |
| FilterMeaning.NegatedTagIsMissed | app/plugin/filter/common_converter.go:269-293 | a memo without a tag list satisfies a negated tag test in CEL, and the condition is NULL |
| FilterMeaning.OtherOperandDecides | app/plugin/filter/common_converter.go:73-104 | a pinned memo without the property is found by has_task_list == false or pinned |
| FilterMeaning.PropertyValue | app/plugin/filter/common_converter.go:617-727 | in each dialect a comparison of a property is NULL without the property, except where SQLite uses IS TRUE, and otherwise right for both operators and both booleans |
| FilterMeaning.FieldTest | app/plugin/filter/common_converter.go:126-183 | a comparison of any field is NULL only for a property that the payload does not have, and otherwise what comparing the values says |
| FilterMeaning.IdentifierValue | app/plugin/filter/common_converter.go:431-473 | a boolean field by itself is NULL only in MySQL without the property, and otherwise the value of the field |
| FilterMeaning.AbsentTaskListIsMissed | app/plugin/filter/common_converter.go:644-664 | a memo without the property satisfies has_task_list == false in CEL, and the condition is NULL in every database |
| FilterMeaning.TagListValue | app/plugin/filter/common_converter.go:295-325 | a list of tag tests is NULL without tags, and otherwise true when one of the tags is there |
| FilterQueries.ClauseAppended | app/store/db/postgres/memo.go:57-86 | appending a clause numbered behind the arguments so far keeps the query the numbered form of its clauses |
| FilterQueries.BuiltQueryIsBound | app/store/db/postgres/memo.go:42-127 | the placeholders of a built query are $1 to $n in order, each once, with n arguments, and each stands for the value of its own clause |
| FilterQueries.CompileFilter | app/store/db/postgres/memo.go:45-58 | a filter compiled behind an offset is numbered from there, with its own arguments only |
| FilterQueries.AppendField | app/store/db/postgres/memo.go:64-75 | a find option adds its clause when it is given, and nothing otherwise |
| FilterQueries.AppendVisibilities | app/store/db/postgres/memo.go:76-83 | a visibility list adds one clause with a placeholder per visibility |
| FilterQueries.AppendFilter | app/store/db/postgres/memo.go:44-63 | a filter adds its text in parentheses, or nothing when nothing was written |
| FilterQueries.ListMemos | app/store/db/postgres/memo.go:41-86 | for any number of filters and any find options, the query is the numbered form of their clauses, or the first bad filter is the error |
| FilterQueries.MemoQueryReads | app/store/db/postgres/memo.go:114-119 | the condition reads as the conjunction of every filter's own structure and every find option |
| FilterQueries.PositionalAnywhere | app/plugin/filter/dialect.go:60-62 | with question marks a text is the same wherever it is spliced in |
| FilterQueries.ListMemoRelationsSQLite | app/store/db/sqlite/memo_relation.go:40-79 | the condition stands in both subqueries and its arguments are given twice, so both copies are bound to the same constants |
| FilterQueries.RepeatedClause | app/store/db/postgres/memo_relation.go:65-70 | repeating the placeholders of the last clause, without further arguments, binds to the same values |
| FilterQueries.ListMemoRelationsPostgreSQL | app/store/db/postgres/memo_relation.go:40-79 | the condition stands in both subqueries with the same placeholders and its arguments are given once, and both copies are bound to the same constants |
| FilterQueries.RelationQueryReads | app/store/db/postgres/memo_relation.go:65-79 | the bound statement asks both memos of a relation for the filter |
| FilterQueries.UpdateMemoStatement | app/store/db/postgres/memo.go:183-223 | each given field has the next placeholder, standing for its own value, and the last one is the ID; with no field there is no statement |
| FilterQueries.AssignmentsGiven | app/store/db/postgres/memo.go:183-213 | an update assigns each column that is given its own value, once, and no other |
| FilterSelection.OptionsPass | app/store/db/postgres/memo.go:64-86 | the clauses of the find options are true of exactly the memos with the given ID, UID, creator and row status, one of the visibilities, and no comment where comments are excluded |
| FilterSelection.MemosSelected | app/store/db/postgres/memo.go:41-119 | a query of ListMemos, bound and evaluated, selects exactly the memos that meet every find option and satisfy every filter in CEL while deciding it |
| FilterSelection.RelationsSelected | app/store/db/postgres/memo_relation.go:40-79 | a query of ListMemoRelations with a filter selects exactly the relations that meet the find options and join two memos that satisfy the filter in CEL while deciding it |
| MemoFilter.Utf8RoundTrip | app/web/src/store/memoFilter.ts:28-38 | decoding the UTF-8 octets of a character, with all checks, gives the character |
| MemoFilter.Utf8Ranges | app/web/src/store/memoFilter.ts:37-39 | the octets lie in the ranges of well-formed UTF-8, and as many as the character needs |
| MemoFilter.OnlyUtf8 | app/web/src/store/memoFilter.ts:28-28 | no other octets are accepted for a character |
| MemoFilter.ComponentRoundTrip | app/web/src/store/memoFilter.ts:28-38 | percent-decoding inverts percent-encoding on every well-formed text |
| MemoFilter.EncodedIsSafe | app/web/src/store/memoFilter.ts:37-39 | commas and colons never survive encoding |
| MemoFilter.PlainIsKept | app/web/src/store/memoFilter.ts:37-39 | letters, digits and the nine marks are left as they are |
| MemoFilter.OthersAreEscaped | app/web/src/store/memoFilter.ts:37-39 | every other character is written with percent signs and capital hexadecimal digits only |
| MemoFilter.QueryText | app/web/src/store/memoFilter.ts:37-39 | factor and encoded value have a colon between them, and filters a comma |
| MemoFilter.QueryRoundTrip | app/web/src/store/memoFilter.ts:21-39 | parsing a stringified list gives it back, for the empty list and empty values too, whenever no factor has a comma or a colon |
| MemoFilter.FactorsArePlain | app/web/src/store/memoFilter.ts:4-12 | no factor there is has a comma or a colon |
| MemoFilter.OddQueries | app/web/src/store/memoFilter.ts:21-35 | a filter without a colon has the value undefined, and a value that does not decode drops the whole list |
| MemoFilter.FilterKeyInjective | app/web/src/store/memoFilter.ts:19-19 | the key tells filters apart whose factors have no colon |
| MemoFilter.ParsedFactors | app/web/src/store/memoFilter.ts:24-30 | no factor that comes out of a query has a colon |
| MemoFilter.UniqIsUnique | app/web/src/store/memoFilter.ts:63-65 | removing repeated keys leaves the same filters without duplicates |
| MemoFilter.UniqSnoc | app/web/src/store/memoFilter.ts:63-65 | a filter that is there already is dropped, and any other comes behind those before it |
| MemoFilter.SelectInOrder | app/web/src/store/memoFilter.ts:59-69 | the filters that are kept stay in their order |
| MemoFilter.MemoFilterState.constructor | app/web/src/store/memoFilter.ts:45-53 | the list comes from the query, with factors without colons |
| MemoFilter.MemoFilterState.GetFiltersByFactor | app/web/src/store/memoFilter.ts:59-61 | exactly the filters of the factor, in their order |
| MemoFilter.MemoFilterState.AddFilter | app/web/src/store/memoFilter.ts:63-65 | the list has the filter and no duplicates, whatever it was before; without duplicates before it only grows at its end |
| MemoFilter.MemoFilterState.RemoveFilter | app/web/src/store/memoFilter.ts:67-69 | exactly the other filters stay, in their order |
| MemoFilter.MemoFilterState.HandleTagClick | app/web/src/components/TagTree.tsx:100-109 | a click turns the search for the tag on or off and leaves the other filters |
| MemoFilter.ClickTwice | app/web/src/components/TagTree.tsx:100-109 | two clicks on a tag that is not searched for restore a list without duplicates |
| MemoFilter.ClickTwiceOnSearched | app/web/src/components/TagTree.tsx:100-109 | two clicks on a tag that is searched for move its filter to the end |
| TagTree.UnitsOfCharacter | app/web/src/components/TagTree.tsx:23-23 | texts are compared by UTF-16 code units: one for a character of the basic plane, otherwise the surrogate pair that stands for it |
| TagTree.TagBeforeItsSubtags | app/web/src/components/TagTree.tsx:23-23 | in the default order a tag comes strictly before every tag below it, whatever their counts |
| TagTree.SortSorts | app/web/src/components/TagTree.tsx:23-23 | sorting gives a sorted permutation |
| TagTree.PathIsPrefix | app/web/src/components/TagTree.tsx:32-44 | the text of a path to a tag is the tag or what stands before one of its slashes |
| TagTree.PrefixIsPath | app/web/src/components/TagTree.tsx:32-44 | and every such text is one |
| TagTree.FirstOnPathIsOwn | app/web/src/components/TagTree.tsx:31-47 | when a node for the text of a tag is made, the entry at hand is the tag's own |
| TagTree.NewNodeIsShown | app/web/src/components/TagTree.tsx:38-47 | the amount a new node gets is its own tag's count where that exceeds 1, and 0 otherwise |
| TagTree.FindSubTag | app/web/src/components/TagTree.tsx:49-56 | the search finds a node below with the text, or there is none |
| TagTree.AddSubTag | app/web/src/components/TagTree.tsx:58-66 | hanging a new node below another keeps the tree well-formed |
| TagTree.AddTag | app/web/src/components/TagTree.tsx:31-70 | walking down a tag adds exactly the missing nodes on its path |
| TagTree.BuildTree | app/web/src/components/TagTree.tsx:22-73 | for every list of different tags, the tree has a node for exactly the prefixes of the tags at slashes, and every node shows its own tag's count where that exceeds 1, and 0 otherwise |
| TagTree.RootsAreFirstSegments | app/web/src/components/TagTree.tsx:72-72 | the nodes that are shown at the top have the first segments of the tags as their texts |
| TagTree.NodeTextIsPrefix | app/web/src/components/TagTree.tsx:36-69 | every node's text is a tag or what stands before one of its slashes |
| TagTree.PrefixHasNode | app/web/src/components/TagTree.tsx:36-69 | every tag, and what stands before its slashes, has a node |
| TagTree.NodeTextsAreDistinct | app/web/src/components/TagTree.tsx:51-56 | no two nodes have the same text, so neither have siblings |

## Left out

- Time zones and daylight saving: the `TZ=` prefix of a spec, the location of a scheduler and the midnight correction; everything is in UTC, and times are unbounded integers.
- Splitting a spec at white space, empty specs and descriptors such as `@daily`: `CronLine.Parse` begins with the fields.
- The job bodies, real goroutines, timers, logging, stack capture and the context that `Stop` returns: a timer fires at some time not before its deadline, and a job that starts is a record of when.
- Channels between callers and the scheduler: each request and its handling are one step.
- Fairness of the mutex: `CronChain.NeverStuck` and `CronChain.StepsRunOut` show that waiting invocations come to an end, assuming that job bodies do.
- Interleavings inside one cache operation (two sets of the same new key can both count it), stored values that are not items, `Close`, the ticker of the sweep and the size estimate; an operation is one step.
- Changes that callers make through returned pointers. A message of sessions is one object here; the sessions in it are not objects of their own.
- UserStore.Store.GetUser: with conditions beside the ID a hit answers for the ID alone, and the contract says so.
- UserSettingStore.Store.UpdateUserSessionLastAccessed: after a failed upsert the cache is not promised to answer the row under the key of the sessions, because the cached message is edited first; when that happens is stated exactly.
- Access tokens and webhooks of users, which read, change and write a list as sessions do (a webhook is edited in place like a session), and the raw converters of the remaining settings.
- JSON encoding of settings, assumed to decode to what was encoded.
- The text of the dialects' leaf conditions, including the JSON paths of PostgreSQL: a leaf is its kind, column, operator and arguments.
- Parsing and type checking of CEL; an expression is its tree, and a filter that does not parse is an error.
- What LIKE finds, which is an oracle shared by both sides, and collations: texts are equal or not.
- Overflow in CEL, where it is an error: the value of an arithmetic expression is its exact value as a 64-bit integer, as in Go.
- FilterMeaning.MeaningPreserved: leaves out bare constants in a boolean position, for which nothing is written, and empty lists, for which the text is no condition (`FilterSyntax.ReadableIffComplete`); in MySQL and PostgreSQL also tests of tags, which are compared as JSON there.
- FilterSelection.MemosSelected: leaves out tests of tags for the same reason.
- A call of `contains` without a target, and `in` with something that is neither a name nor a list: there the source reads through a nil pointer, and the model answers an error.
- The queries of users, reactions and attachments, where every filter starts again at $1, the row scanning, ordering and limits of queries.
- The SQLite and MySQL builders of `ListMemos`, which differ from the PostgreSQL one in their placeholders only.
- Decoding of the address by the browser before a query is parsed, texts with unpaired surrogates, and rendering.
- Tag lists with repeated tags, which the source does not produce.
- The migrator, storage, HTTP, RSS, OAuth and the Markdown parser.
