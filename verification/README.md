# A verified model of the gosched scheduling engine

This project models a task scheduler that keeps its tasks and runs in SQLite, and proves what it promises: that the cron
skip search finds exactly the matching minutes, that tags stored as one string behave as a list, and what the run tables
satisfy in every state the engine can reach, with a ticker, manual triggers, manual retries, pauses, deletions and crashes
interleaved in any way.

| module | models |
|---|---|
| `Text`, `Calendar`, `DayKeys` | the parts of Go's `strings`, `strconv` and `time` packages that the code uses; the day strings of the statistics |
| `CronParse`, `CronGrammar`, `CronNames`, `CronRender` | `Parse`, `parseField`, `parsePart`, `resolve`, with 64-bit steps; a grammar of the parts that does not mention how they are taken apart; the roles and bounds of the five fields and the names of months and weekdays; the way back from a schedule to an expression |
| `CronNext`, `CronCivil`, `CronProperties`, `CronUnion` | `Next` as a loop over minutes, months, days and hours; what it means in terms of the civil date alone, by closed forms; what follows from its being the least match of its window; when its conjunction of the day fields differs from a union |
| `Tags`, `Retry`, `Model` | the tag column and its LIKE clause; retry budget and backoff; tasks, runs, validation |
| `Tables`, `Query`, `Store` | the tables as values and what each repository function does to them; row loops; the class `Store`, proved against those functions |
| `Engine`, `EngineEvents` | the scheduler as a state machine whose events are committed transactions, lost executions, aborted dispatches and crashes; when each event can happen and what it writes, column by column |
| `EngineInvariants`, `EngineRuns`, `EngineStats`, `EngineSchedule` | inductive invariants of that machine |
| `EngineTheorems`, `StrandedRetry` | the main results, stated for every state reachable from an empty database; a concrete run that strands a retry |
| `FaultFree`, `Effects`, `TickCounts`, `RecoveryLoop`, `Reporting`, `SchedulerSteps`, `Scheduler` | the class `Scheduler` with `Tick`, `Recover`, `TriggerNow`, `RetryRunByID`, `ScheduleNew` and `Report` when nothing fails and nothing intervenes; each of its transactions is recorded as an event of `Engine`, so the theorems hold of its states too |

Times are Unix milliseconds and, inside the cron search, minutes since 1970; days are numbered from 1970-01-01. A next or
last run time of 0 means none, as in the code.

Assumptions: times are UTC; the clock never goes back and starts at 0 or later; identifiers are fresh (natural numbers
here); a committed transaction is atomic and a rolled-back one changes nothing; one ticker goroutine per process; recovery
runs before the ticker and the server start (main.go:56-69); the database starts empty.

## Findings

The code is modelled as it is. Where it does less than one might expect, the exact condition is proved, together with an
input at which it fails.

- Day of month and day of week are combined by conjunction (internal/cron/parser.go:146-153). The project's description
  (BENZHI_README.md:9) calls the expressions standard; the crontab utility of POSIX.1-2017 asks for the union when both
  fields are restricted. The two agree on every day if and only if one of the day fields allows everything
  (`CronUnion.UnionIff`). Read literally, the standard also frees the day of week from the month; with that reading they
  agree if and only if every weekday is allowed, or every month and every day of the month (`CronUnion.PosixIff`).
- The end of the five-year window is not monotone in its start: February 29 and March 1 have the same day five years on.
  So `Next` can find a time from one start and nothing from a later start before that time
  (`CronProperties.LimitMonotone`, `CronProperties.SameAnswerIff`, `CronProperties.SecondCallCanFindNothing`).
- A step whose first addition exceeds the 64-bit range puts negative values, which match nothing, into a field's set
  (`CronParse.VisitedIff`, `CronParse.FieldValuesInRange`). Such fields are accepted: `1/9223372036854775807 * * * *`
  parses and has the least 64-bit number among its minutes (`CronRender.OverflowIsAccepted`,
  `CronRender.OverflowingExpression`).
- `BackoffMillis` is the capped power of two up to attempt 54; from 55 on the shift wraps and the cap no longer applies,
  except at attempt 60 (`Retry.BackoffIff`).
- A retry is committed as pending, but recovery looks for running rows only. A pending run can still end if and only if
  it has a worker in the process (`EngineTheorems.PendingEndsIff`), so a retry that is pending at a crash, or whose
  execution returned an error, never does; `StrandedRetry.RetryIsStranded` is a run of the engine that gets there.
- Orphaned runs are counted as failed by `OverallStats` but are in no day's counter
  (`EngineTheorems.CountersAreRecounts`).
- What was written for a list of tags reads back if and only if no tag has a comma (`Tags.WriteThenRead`), and a column
  survives being loaded and written if and only if its parts are trimmed, non-empty and distinct (`Tags.RewriteIff`;
  `Tags.CommaTagIsNotStable` is a case where it does not).
- The LIKE clause for a tag is list membership, for all columns in lower case, if and only if the tag has no comma and no
  wildcard (`Tags.MembershipIff`), and for all columns whatsoever if and only if it also has no ASCII letter, since LIKE
  folds case (`Tags.AnyCaseMembershipIff`).
- `cleanTag` slices off both ends at once and panics if and only if it arrives at a single space: the tag has an odd
  number of characters, a space in the middle, and a space in each pair around it (`Tags.CleanTag`). The task is then not
  created (`Scheduler.Scheduler.ScheduleNew`).

## Model

| member | source | states |
|---|---|---|
| `CronNext.Next` | internal/cron/parser.go:138-165 | The skip search returns what trying every minute from the rounded start up to the limit returns, whatever the five sets are, and that is the answer of `CronCivil.NextCronIsCivil`; for sets that each hold a value of their range it goes round its loop fewer than 2,000 times |
| `CronNext.NextMatchIsLeast` | internal/cron/parser.go:135-165 | The answer is m if and only if m is the first matching minute strictly after `from` and lies before the five-year limit; there is no answer if and only if no minute strictly after `from` and before the limit matches |
| `CronNext.SkipKeepsSearch` | internal/cron/parser.go:141-163 | Skipping minutes that do not match never changes the answer of the search |
| `CronNext.MonthJump` | internal/cron/parser.go:142-145 | The jump to the next month goes forward, passes over no match, and costs one turn of the budget from which the bound on turns follows |
| `CronNext.DayJump` | internal/cron/parser.go:146-153 | The same for the jump to the next day, for either day field |
| `CronNext.HourJump` | internal/cron/parser.go:154-157 | The same for the jump to the next hour of a matching day |
| `CronNext.MinuteJump` | internal/cron/parser.go:158-161 | The same for the step to the next minute of a matching hour |
| `CronNext.SameMonthUntilNext` | internal/cron/parser.go:167-171 | Every minute before the first of the next month has the month of the start |
| `CronNext.NextMonthIsNext` | internal/cron/parser.go:167-171 | The first of the next month has the following month number, or January after December, is a day 1, and starts at midnight |
| `CronNext.NextDayIsNext` | internal/cron/parser.go:173-176 | The next day is midnight of the following day number, and every minute before it belongs to the same day |
| `CronNext.NextHourIsNext` | internal/cron/parser.go:178-181 | Every minute before the next hour has the same day and hour |
| `CronNext.WindowLength` | internal/cron/parser.go:140 | The window holds 1825 to 1827 days |
| `Calendar.DateOfDay` | internal/cron/parser.go:173-176 | The date of a day number is a real Gregorian date, and it denotes that day |
| `Calendar.DayOfDateInverse` | internal/cron/parser.go:167-171 | Taking a real date to its day number and back gives its year, month and day |
| `Calendar.YearStartClosedForm` | internal/cron/parser.go:140 | The recursive day count agrees with the closed form of the Gregorian calendar for every year |
| `Calendar.DayOfDateClosedForm` | internal/cron/parser.go:167-176 | The day number of a date is the closed Gregorian form with the twelve month offsets 0, 31, 59, ..., 334 and the leap day from March on |
| `Calendar.CivilDate` | internal/cron/parser.go:142-153 | The year, month and day of month of a day number are a date with the literal month lengths whose closed form is that day |
| `CronCivil.MatchesIsCivil` | internal/cron/parser.go:142-163 | A minute matches exactly when it is the start of a minute of some date of the closed form whose month, day, weekday (1970-01-04 was a Sunday), hour and minute are all allowed |
| `CronCivil.SearchEndIsCivil` | internal/cron/parser.go:139-140 | The search ends five years after its first minute: same month, day and time of day, with February 29 counting as March 1 |
| `CronCivil.NextCronIsCivil` | internal/model/model.go:177-190 | For a cron task whose expression parses: the first instant strictly after the start and before that end at which a civil minute is allowed, and none if there is no such instant; none for other tasks |
| `CronProperties.IterationEnumerates` | internal/cron/parser.go:138-165 | Repeated calls from any start list, up to the last answer, exactly the matching minutes after the start in increasing order |
| `CronProperties.LimitMonotone` | internal/cron/parser.go:140 | A later start has a limit at least as late, if and only if it is not the case that the first start is on a February 29 and the second on the next day at an earlier time of day |
| `CronProperties.SameAnswerIff` | internal/cron/parser.go:138-165 | From any instant before the answer, the answer is the same if and only if it lies before the limit of that instant |
| `CronProperties.SameAnswer` | internal/cron/parser.go:138-165 | It is always the same outside the February 29 exception |
| `CronProperties.SecondCallCanFindNothing` | internal/cron/parser.go:138-165 | A concrete schedule and two starts at which the second call finds nothing although the first found a later time |
| `CronProperties.YearlyDateIsFound` | internal/cron/parser.go:138-165 | If all weekdays are allowed and some allowed date exists in every non-leap year, there is an answer, within 366 days of the start minute |
| `CronProperties.LeapDayScheduleRunsDry` | internal/cron/parser.go:138-165 | A February 29 schedule asked between a leap day and a century year without one has no answer |
| `CronUnion.UnionIff` | internal/cron/parser.go:146-153 | The conjunction selects the same days as the union of restricted day fields if and only if one of the two fields allows everything |
| `CronUnion.PosixIff` | internal/cron/parser.go:142-153 | It selects the days that the wording of the standard asks for if and only if every weekday is allowed, or every month and every day of the month |
| `CronParse.ParsePart` | internal/cron/parser.go:82-124 | The loop adds to the set, in place, the values its steps visit with 64-bit wrap-around; a part that is rejected leaves the set alone |
| `CronParse.ParseField` | internal/cron/parser.go:67-80 | A field is accepted exactly when `FieldValues` gives it a set, and the set it fills is that one |
| `CronParse.Parse` | internal/cron/parser.go:36-64 | The schedule of the five fields, or none for any other number of fields or a rejected field |
| `CronNames.FiveNumbers` | internal/cron/parser.go:36-64 | Five decimal numbers are minute, hour, day of month, month and day of week, in this order, and are accepted exactly within 0-59, 0-23, 1-31, 1-12 and 0-6 |
| `CronNames.FiveStars` | internal/cron/parser.go:36-64 | Five stars allow exactly these ranges |
| `CronNames.NotFiveWords` | internal/cron/parser.go:37-40 | Any other number of words is rejected |
| `CronNames.SpacingIsFree` | internal/cron/parser.go:37 | Only the words count, not the white space between or around them |
| `CronNames.MonthNames` | internal/cron/parser.go:17-20 | The names jan to dec, in any mix of letter cases, mean in the month field exactly what the numbers 1 to 12 mean |
| `CronNames.WeekdayNames` | internal/cron/parser.go:22-24 | The names sun to sat mean in the weekday field exactly what 0 to 6 mean |
| `CronNames.NoOtherMonths` | internal/cron/parser.go:126-133 | Any other word is rejected in the month field |
| `CronNames.NoOtherWeekdays` | internal/cron/parser.go:126-133 | Any other word is rejected in the weekday field |
| `CronNames.NamesElsewhere` | internal/cron/parser.go:42-56 | In the other three fields every word that is no number is rejected |
| `CronParse.VisitedIff` | internal/cron/parser.go:120-122 | The loop visits exactly lo, lo + step, ... up to hi if and only if its first step does not overflow 64 bits, and leaves the range [lo, hi] if and only if it does |
| `CronParse.PartsValuesAreUnion` | internal/cron/parser.go:71-79 | A field is accepted exactly when all parts are, and holds exactly the values of its parts |
| `CronParse.PartOrderIsIrrelevant` | internal/cron/parser.go:71-79 | Any order of the same parts is accepted or rejected alike and gives the same set |
| `CronParse.FieldValuesInRange` | internal/cron/parser.go:67-124 | An accepted field holds a value of its range; it holds nothing else if and only if no part's first step overflows |
| `CronGrammar.GrammarIff` | internal/cron/parser.go:82-133 | The parser gives a part a meaning exactly when the part reads as a star, a value, or a range, with or without a positive step, within bounds |
| `CronGrammar.MalformedIff` | internal/cron/parser.go:82-133 | It rejects exactly the parts that read as nothing of this kind, and no part reads in two ways |
| `CronRender.OverflowIsAccepted` | internal/cron/parser.go:85-92 | Every field of one number in range and a step in 64-bit range is accepted, and holds a negative value if their sum overflows |
| `CronRender.StepText` | internal/cron/parser.go:87 | The text of the step in the next row is 9223372036854775807 |
| `CronRender.OverflowingExpression` | internal/cron/parser.go:36-64 | A concrete accepted expression with the least 64-bit number among its minutes |
| `CronParse.ParsedIsUsable` | internal/cron/parser.go:36-64 | Every accepted expression has a value in range in each field, which is what the bound on the turns of `Next` asks for |
| `CronRender.RenderedFieldValues` | internal/cron/parser.go:67-124 | The comma-joined decimal list of any non-empty selection of values in range is accepted and means exactly that set |
| `CronRender.ParseOfRender` | internal/cron/parser.go:36-64 | Parsing the rendering of a schedule gives the schedule back |
| `CronRender.EveryScheduleIsReached` | internal/cron/parser.go:36-64 | Every schedule with non-empty fields in range is the meaning of some expression |
| `Text.SplitJoin` | internal/model/model.go:207 | Joining comma-free parts and splitting them gives the parts back |
| `Text.FieldsOfJoin` | internal/cron/parser.go:37 | Words joined by spaces come apart again |
| `Text.FieldsAppend` | internal/cron/parser.go:37 | A white-space character separates the words before it from those after it |
| `Text.FieldOfWord` | internal/cron/parser.go:37 | A text without white space is its only word |
| `Text.IsSpaceIff` | internal/model/model.go:193-208 | The white-space characters are the 25 code points of Unicode |
| `Text.TrimSpaceIs` | internal/model/model.go:193-208 | Trimming takes only white space, from the two ends, until none is left there |
| `Text.DecimalDigits` | internal/cron/parser.go:126-133 | Appending one of the ten digits multiplies the value by ten and adds the digit, both in reading and in writing |
| `Text.AtoiItoa` | internal/cron/parser.go:126-133 | Every number in 64-bit range is read back from its decimal text, with a minus for negative ones, and every larger one is rejected |
| `Tags.TagsCSV` | internal/model/model.go:193-208 | The loop with its set of seen tags returns the comma-joined clean tags |
| `Tags.CleanTagsAre` | internal/model/model.go:193-208 | The clean tags are exactly the trimmed non-empty tags, each once |
| `Tags.CleanTagsOrder` | internal/model/model.go:193-208 | They come in the order of their first occurrence |
| `Tags.WriteThenRead` | internal/store/task_repo.go:40-42 | What is written for a list of tags reads back as the clean tags if and only if no tag has a comma |
| `Tags.RewriteIff` | internal/store/task_repo.go:73-82 | Loading any column and writing it back leaves it unchanged if and only if its parts are trimmed, non-empty and distinct |
| `Tags.RewriteOfWritten` | internal/store/task_repo.go:73-82 | It is always unchanged for a column written from comma-free tags |
| `Tags.CommaTagIsNotStable` | internal/model/model.go:193-208 | A tag with a comma inside is a concrete case in which it changes |
| `Tags.LikeMeaning` | internal/store/task_repo.go:123-127 | In a LIKE pattern a percent sign stands for any text, an underscore for any one character, an ASCII letter for itself in either case, anything else for itself |
| `Tags.TagClauseMeaning` | internal/store/task_repo.go:123-127 | For a tag without comma and wildcards: the column is the tag, or it has several parts and one of them is the tag up to ASCII case |
| `Tags.TagClauseIsMembership` | internal/store/task_repo.go:123-127 | With all text in lower case the four-way clause holds exactly when the tag is an element of the comma-split list |
| `Tags.MembershipIff` | internal/store/task_repo.go:123-127 | For a non-empty tag in lower case: the clause is membership for all columns in lower case if and only if the tag has no comma and no wildcard |
| `Tags.AnyCaseMembershipIff` | internal/store/task_repo.go:123-127 | For a non-empty tag: the clause is membership for all columns if and only if the tag has no comma, no wildcard and no ASCII letter |
| `Tags.WildcardOvermatches` | internal/store/task_repo.go:123-127 | A concrete tag with a wildcard that matches a list without it |
| `Tags.CapitalsMatchListsOnly` | internal/store/task_repo.go:123-127 | A concrete tag in capitals that is found in a list of two but not in a list of one |
| `Tags.CleanTag` | internal/scheduler/scheduler.go:342-347 | Slices the same number of characters off both ends until neither is a space; panics if and only if that arrives at a single space |
| `Tags.CleanEach` | internal/scheduler/scheduler.go:85-91 | The names passed on are not empty; the loop panics if and only if one of the tags makes `cleanTag` panic |
| `Retry.BackoffIff` | internal/scheduler/retry.go:15-21 | For attempts from 1 on, the 64-bit computation equals min(1000 * 2^(attempt - 1), 60000) if and only if the attempt is at most 54, or is 60 |
| `Retry.BackoffTable` | internal/scheduler/retry.go:15-21 | Up to attempt 54 the backoff is 1000, 2000, 4000, 8000, 16000, 32000 and then always 60000 milliseconds |
| `Retry.BackoffMonotone` | internal/scheduler/retry.go:15-21 | Up to attempt 54 the backoff never shrinks and stays between a second and a minute |
| `Retry.ShiftIsProduct` | internal/scheduler/retry.go:16 | The shift is the product with the power of two modulo 2^64 |
| `DayKeys.DayStringOrder` | internal/scheduler/scheduler.go:149 | For years 0 to 9999 day strings order as the days do, and differ for different days |
| `DayKeys.DayStringDistinct` | internal/scheduler/scheduler.go:149 | In any year, different days have different day strings |
| `CronCivil.DayStringIsCivil` | internal/scheduler/scheduler.go:149 | The day string of an instant is the year with at least four digits, the month and the day of its civil date in UTC, joined by hyphens |
| `DayKeys.RangeIsChronological` | internal/store/stats.go:31-36 | A day's string lies between those of two days exactly when the day does |
| `Model.Validate` | internal/model/model.go:141-174 | Accepts exactly the tasks whose name is not all white space, whose kind is one of the four, whose schedule is a cron expression that parses, once, or a positive delay, and whose two limits are not negative |
| `Model.ComputeNextCron` | internal/model/model.go:177-190 | The first matching minute in milliseconds, and an error for other tasks, rejected expressions and an empty window |
| `Model.NextCronIsLater` | internal/model/model.go:177-190 | Its result is strictly later and a matching minute; there is one for every expression with a yearly date |
| `Query.OrderBy` | internal/store/task_repo.go:160 | ORDER BY: every key once, least first, by any order on the keys |
| `Store.Store.DueTasks` | internal/store/task_repo.go:158-176 | Exactly the enabled, unpaused tasks with 0 < next_run_at <= now, each once, in the order of next run times |
| `Store.Store.ListTasks` | internal/store/task_repo.go:104-155 | All tasks that meet each filter column that is given, each once, newest first, cut from the offset on to at most the limit; everything without a positive limit |
| `Store.Store.Conditions` | internal/store/task_repo.go:105-128 | The conditions collected step by step hold together exactly for the tasks that meet the filter |
| `Store.Store.OrphanedRuns` | internal/store/run_repo.go:144-159 | Exactly the running rows, each once, by scheduled time |
| `Store.Store.RecordRunOutcome` | internal/store/stats.go:13-29 | Increments the one counter of the day that the status stands for, creating the row if needed; nothing for pending |
| `Store.Store.DailyStats` | internal/store/stats.go:33-51 | Exactly the rows whose day string lies in the range, each once, sorted by day string |
| `Store.DayListIsChronological` | internal/store/stats.go:31-36 | Where all years have four digits, that is the order of the days |
| `Store.DayListIsExact` | internal/store/stats.go:31-51 | There, the rows between the strings of two days are exactly those of the days between them, in their order |
| `Store.Store.OverallStats` | internal/store/stats.go:54-78 | The numbers of tasks and runs in each state, by enabled, paused and status columns, with failed including orphaned |
| `FaultFree.DispatchAllTasks` | internal/scheduler/scheduler.go:187-209 | Dispatching a list of tasks advances the rows of exactly these tasks |
| `FaultFree.DispatchAllRuns` | internal/scheduler/scheduler.go:187-209 | It adds exactly one ended run per task, and leaves the other runs alone |
| `FaultFree.DispatchAllStats` | internal/scheduler/scheduler.go:131-161 | It counts every outcome once, on the day of the Tick, and touches no other day |
| `FaultFree.TickKeepsPromise` | internal/scheduler/scheduler.go:187-209 | After a Tick: each task that was due has exactly one new schedule-triggered run and a later or no next run time, every other task and every old run is unchanged, and no task is due at the time of the Tick |
| `FaultFree.RepeatedTick` | internal/scheduler/scheduler.go:187-209 | A second Tick at the same time finds no task to dispatch |
| `TickCounts.DueIffMinutePassed` | internal/model/model.go:133-138 | An active cron task is due exactly when a matching minute of the window has passed since its next run time was computed |
| `TickCounts.NewTaskIsScheduled` | internal/scheduler/scheduler.go:65-71 | The next run time of a new active cron task is the one computed from its creation |
| `TickCounts.TickFiresIff` | internal/scheduler/scheduler.go:164-209 | One Tick adds exactly one schedule-triggered run of the task if such a minute has passed, and leaves the task and its runs alone otherwise |
| `TickCounts.TicksFireExactly` | internal/scheduler/scheduler.go:164-209 | Over any series of Ticks the schedule-triggered runs added for a cron task are exactly the Ticks that find such a minute |
| `TickCounts.PlainTaskFiresIff` | internal/scheduler/scheduler.go:164-209 | One Tick adds exactly one schedule-triggered run of a once or delayed task, and clears its next run time, if the task is enabled, not paused, and 0 < next_run_at <= now; otherwise it leaves the task and its runs alone |
| `TickCounts.PlainTaskFiresOnce` | internal/scheduler/scheduler.go:164-209 | Over any series of Ticks that reaches the next run time of such a task there is exactly one new run, scheduled by the first Tick that reaches it |
| `TickCounts.PlainTaskWaits` | internal/scheduler/scheduler.go:164-209 | A series that does not reach it, or finds the task disabled, paused or without one, leaves it alone |
| `TickCounts.OnceTaskRunsAtOnce` | internal/scheduler/scheduler.go:74-77 | A once task created without a time is run exactly once, by the first Tick from its creation on |
| `FaultFree.CreateAndFinish` | internal/scheduler/scheduler.go:104-161 | A run that is created and executed at once adds one ended row, adds one to one counter of the UTC day on which it was scheduled, and becomes the last run of its task; nothing else changes |
| `FaultFree.OutcomeCommitted` | internal/scheduler/scheduler.go:131-161 | The transaction of executeRun: the columns of the run, the one counter and the last run of the task that it changes |
| `FaultFree.FinishAllRuns` | internal/scheduler/scheduler.go:253-256 | Executing the retries of a recovery ends their rows and no others |
| `FaultFree.RecoveryKeepsPromise` | internal/scheduler/scheduler.go:214-258 | After a recovery: every running row is orphaned, each orphan whose task exists and has budget left has exactly one retry that counts one more attempt and has ended, there is no other new row, no other row has changed, and none is running |
| `FaultFree.SecondRecovery` | internal/scheduler/scheduler.go:214-258 | Recovering again retries nothing and changes nothing |
| `Effects.TickColumns` | internal/scheduler/scheduler.go:187-209 | What a Tick leaves in each column of tasks, runs and day counters, old and new rows alike |
| `Effects.RecoveryColumns` | internal/scheduler/scheduler.go:214-258 | What a recovery leaves in each column of runs, tasks and day counters; exactly the running rows with a task and attempt <= max_retries are retried, each once |
| `Reporting.TallyAll` | internal/scheduler/report.go:38-50 | Tallying the listed tasks gives the sizes of the sets of all, enabled, paused and due tasks |
| `Reporting.NothingDueAfterTick` | internal/scheduler/report.go:38-50 | A report about the time of a Tick that has just run shows no due task |
| `Scheduler.Scheduler.ScheduleNew` | internal/scheduler/scheduler.go:56-100 | Rejects exactly the invalid tasks and the cron tasks without a next time; of the others panics exactly for tags on which `cleanTag` does, and then adds nothing; otherwise adds the one row with clean tags, the current time, and the first run time: the next cron time, now plus the delay, the given time, or now if none is given |
| `Scheduler.Scheduler.RunOnce` | internal/scheduler/scheduler.go:104-127 | Commits a running row and then its outcome, as two events of the machine |
| `Scheduler.Scheduler.ExecuteRun` | internal/scheduler/scheduler.go:131-161 | Commits status, day counter and last run together, with the outcome of the executor |
| `Scheduler.Scheduler.Dispatch` | internal/scheduler/scheduler.go:164-183 | Runs the task and advances its schedule from the time after the execution |
| `Scheduler.Scheduler.Tick` | internal/scheduler/scheduler.go:187-209 | Dispatches exactly the enabled, unpaused tasks with 0 < next_run_at <= now, in the order of their next run times: each gets one new run with the outcome that the executor decides, the next identifier and times in order, and its next run time from the clock after the execution; every other row stays, and each outcome counts once (`Effects.TickColumns`) |
| `Scheduler.Scheduler.MarkOrphans` | internal/scheduler/scheduler.go:215-252 | The loop over the orphans marks each and creates the retries that are within budget, in one transaction |
| `Scheduler.Scheduler.Recover` | internal/scheduler/scheduler.go:214-258 | Returns the number of rows that were running; marks exactly these, executes one retry for each of them that has a task and attempt <= max_retries, as the executor decides, and changes nothing else but last runs and counters (`Effects.RecoveryColumns`); changes nothing when it returns 0 |
| `Scheduler.Scheduler.TriggerNow` | internal/scheduler/scheduler.go:261-276 | Creates and executes one manual run of an existing task, which becomes its last run, and changes nothing otherwise |
| `Scheduler.Scheduler.RetryRunByID` | internal/scheduler/scheduler.go:279-319 | Is accepted if and only if the run exists, its task exists and attempt <= max_retries; each refusal names the first of these that fails and changes nothing. An accepted one executes one more attempt, whatever the status of the run was |
| `Scheduler.Scheduler.Report` | internal/scheduler/report.go:21-52 | The numbers of all, enabled and paused tasks and of those that are enabled, unpaused and have 0 < next_run_at <= now, and the durable totals |
| `RecoveryLoop.OrphanRetried` | internal/scheduler/scheduler.go:240-250 | One turn of the recovery loop for an orphan within budget keeps the account of what has been marked and retried |
| `RecoveryLoop.OrphanMarked` | internal/scheduler/scheduler.go:229-239 | The same for an orphan that is not retried |
| `EngineEvents.HandlersAccept` | main.go:56-69 | Time may pass and the process crash at any moment; while it is up it accepts every pause, resumption and deletion |
| `EngineEvents.RequestsAccepted` | internal/scheduler/scheduler.go:261-319 | A manual trigger is accepted exactly when the task exists, a manual retry exactly when run and task exist and attempt <= max_retries |
| `EngineEvents.TickerAccepts` | internal/scheduler/scheduler.go:187-209 | A Tick begins exactly when the ticker is idle, with the due tasks, and ends exactly when none is left; each task may be dispatched or skipped, each dispatch whose run has ended advanced or aborted |
| `EngineEvents.WorkersAccept` | internal/scheduler/scheduler.go:131-161 | Each worker may end its run either way or fail; each request that has been read may be written or dropped |
| `EngineEvents.RecoveryAccepted` | internal/scheduler/scheduler.go:214-258 | Recovery comes after a crash, marks exactly the running rows and retries exactly those within budget |
| `EngineEvents.CreationAccepted` | internal/scheduler/scheduler.go:56-100 | A new task is accepted exactly when it is valid and has the first run time of its kind of schedule |
| `EngineEvents.NothingIsWritten` | internal/scheduler/scheduler.go:187-209 | Waiting, reading, skipping and giving up write no table and lose no worker |
| `EngineEvents.CrashForgets` | main.go:56-61 | A crash writes no table and empties the memory of the process |
| `EngineEvents.FailureIsLost` | internal/scheduler/scheduler.go:118-127 | A failed execution writes no table, its worker is gone, and the dispatch that waited for it ends |
| `EngineEvents.DispatchesDo` | internal/scheduler/scheduler.go:104-183 | The row that a dispatch creates and the three columns of the task that it sets at the end |
| `EngineEvents.RequestsDo` | internal/scheduler/scheduler.go:261-319 | The running row that a manual trigger creates and the pending row that a manual retry creates |
| `EngineEvents.FinishDoes` | internal/scheduler/scheduler.go:131-161 | The columns that the end of an execution writes |
| `EngineEvents.RecoveryDoes` | internal/scheduler/scheduler.go:214-258 | The rows that the transaction of a recovery writes |
| `EngineEvents.RemovalsDo` | internal/store/task_repo.go:84-91 | Deleting a task deletes its row and those of its runs, deleting a run its row |
| `EngineEvents.CreationDoes` | internal/scheduler/scheduler.go:78-98 | A creation adds the one row |
| `EngineEvents.ResumedTaskIsActive` | internal/store/task_repo.go:178-188 | Undoing pause and disable makes a task active again and leaves its other columns as they were |
| `EngineEvents.AbortsAreCounted` | internal/scheduler/scheduler.go:164-183 | The number of aborted dispatches of a task, which the bounds below mention, grows exactly when a dispatch of it ends without advancing the schedule: by an abort, a failed execution, or a crash |
| `EngineEvents.EventsKeepCourse` | main.go:56-69 | Only waiting moves the clock, only crash and recovery move the phase, only deletions count as deletions, only failed executions are lost |
| `EngineInvariants.StepKeepsBasic` | internal/scheduler/scheduler.go:102-258 | Every event keeps rows and memory in agreement with the history and every running row owned |
| `EngineInvariants.AlwaysBasic` | internal/scheduler/scheduler.go:102-258 | So does every run of the machine |
| `EngineInvariants.RecoveredRows` | internal/scheduler/scheduler.go:229-252 | What the transaction of a recovery makes of each row; none is left running |
| `EngineRuns.StepMovesRows` | internal/store/run_repo.go:111-117 | Although the update does not check the old status, every event moves a row only from running or pending to succeeded or failed, or, in a recovery only, from running to orphaned, and no identifier returns |
| `EngineRuns.TerminalForever` | internal/scheduler/scheduler.go:131-161 | A terminal row never changes again, over any run of the machine |
| `EngineRuns.StrandedForever` | internal/store/run_repo.go:144-145 | A pending row without a worker stays pending over any run of the machine, restarts included |
| `EngineRuns.StepKeepsChains` | internal/scheduler/scheduler.go:240-247 | Every event keeps retry chains well formed and within budget |
| `EngineRuns.ChainDepth` | internal/scheduler/retry.go:8-10 | The chain of a run is finite, ends at a run that is no retry, stays with one task, and is as long as its attempt |
| `EngineStats.StepKeepsStats` | internal/scheduler/scheduler.go:131-161 | Every event keeps the counters equal to the recount, or at least as large once something was deleted |
| `EngineStats.FinishCounts` | internal/scheduler/scheduler.go:143-156 | An outcome counts exactly once, on the day of the run |
| `EngineStats.SumsAreTotals` | internal/store/stats.go:66-76 | Counters that equal the recount of every day sum to the totals of OverallStats, without the orphaned runs |
| `EngineSchedule.StepKeepsSchedule` | internal/scheduler/scheduler.go:164-209 | Every event keeps the account of each task: its schedule-triggered runs are paid for by dispatched due times and aborted dispatches |
| `EngineSchedule.ScheduleRunsBounded` | internal/scheduler/scheduler.go:164-209 | The bound on schedule-triggered runs that follows from a balanced account |
| `EngineSchedule.StepKeepsNeverIdle` | internal/scheduler/scheduler.go:168-179 | Every event leaves a cron task with a yearly date a next run time |
| `EngineSchedule.StoppedTaskRunsAtMostOnce` | internal/scheduler/scheduler.go:187-209 | While a task stays paused, disabled or deleted, only the dispatch that a Tick in progress still holds can create a schedule-triggered run |
| `EngineSchedule.HeldStays` | internal/store/task_repo.go:178-188 | A paused or disabled task stays so until an event resumes it |
| `EngineTheorems.RunningRowsAreOwned` | main.go:56-61 | In every reachable state between a recovery and the next crash, each running row belongs to exactly one of a live worker and an execution that returned an error |
| `EngineTheorems.RowsOnlyMove` | internal/scheduler/scheduler.go:102-161 | In every reachable state, every event moves rows legally |
| `EngineTheorems.TerminalRowsStay` | internal/scheduler/scheduler.go:131-161 | A terminal row of a reachable state is the same in every later state in which it exists |
| `EngineTheorems.PendingAtCrashStays` | internal/scheduler/scheduler.go:250-255 | A row that is pending at a crash is the same in every later state in which it exists |
| `EngineTheorems.PendingEndsIff` | internal/scheduler/scheduler.go:250-256 | In every reachable state, some continuation ends a pending run if and only if a worker of the process has it |
| `StrandedRetry.RetryIsStranded` | internal/scheduler/scheduler.go:250-255 | A concrete run to a crash with a pending retry, after which no continuation ends it |
| `EngineTheorems.AttemptsAreDepths` | internal/scheduler/scheduler.go:302-318 | In every reachable state the attempt of a row is the depth of its chain of retries, which starts at a run that is no retry, and is at most max_retries + 1 |
| `EngineTheorems.CountersAreRecounts` | internal/store/stats.go:13-29 | In every reachable state without deletions, the counters of each day are the recount of the succeeded and failed rows scheduled that day, and sum to RunsSucceeded and RunsFailed - RunsOrphaned |
| `EngineTheorems.CountersCoverRecounts` | internal/store/stats.go:13-29 | With deletions they are at least the recount |
| `EngineTheorems.ScheduleFiresAtMost` | internal/scheduler/scheduler.go:104-209 | In every reachable state, the schedule-triggered runs of a cron task number at most the matching minutes after its creation and up to now plus its aborted dispatches; those of a once or delayed task at most one plus its aborted dispatches |
| `EngineTheorems.YearlyTasksGoOn` | internal/scheduler/scheduler.go:168-179 | In every reachable state, a cron task with a date in every year has a next run time |
| `EngineTheorems.StoppedTasksFireAtMostOnce` | internal/scheduler/scheduler.go:187-209 | After a pause or disable commits in a reachable state, at most one schedule-triggered run of the task is created before an event resumes it, and only if the Tick in progress had found it due |

## Left out

- The HTTP layer, JSON, authentication, flags and signals: the operations of its handlers are events of `Engine`.
- SQLite and the text of the SQL statements: a statement is a function on the tables, a transaction one event. Ties in ORDER BY come in some order.
- Time zones with daylight saving: `Next` is modelled in UTC.
- `UpdateTask` as an event of the engine, since it can change the schedule without the next run time; the column it writes for tags is covered by `Tags.RewriteIff`.
- `ListRuns`, whose LIMIT and OFFSET arguments are bound in swapped order, and `BulkPauseByTag`, whose third pattern has a stray character; pauses are single events.
- The tags table, into which `ScheduleNew` puts what `cleanTag` returns, and metrics: no other operation modelled here reads them.
- Payloads, outputs, error texts, task versions, and which error is reported.
- The width of time stamps: milliseconds are unbounded integers; only the steps of the cron parser and the backoff are modelled with 64 bits.
- Strings are sequences of characters, so `cleanTag` is exact for ASCII tags, where characters are bytes; case folding beyond ASCII is modelled as far as it can yield an ASCII letter.
- The key of stats_daily is the number of the day; `DayKeys.DayStringDistinct` is what makes it stand for the day string.
- Scheduler.Scheduler.Tick: assumes that no statement fails and no other goroutine intervenes; failures and interleavings are the events DispatchSkip, WorkerError, DispatchAbort and Crash of `Engine`.
- Scheduler.Scheduler.ExecuteRun: the same assumption; its error returns are WorkerError.
- Scheduler.Scheduler.Dispatch: the same assumption; its error returns are DispatchSkip, WorkerError and DispatchAbort.
- Scheduler.Scheduler.TriggerNow: the same assumption; interleaved, it is ReadTrigger, WriteTrigger or DropRequest, and Finish or WorkerError.
- Scheduler.Scheduler.RetryRunByID: the same assumption; interleaved, it is ReadRetry, WriteRetry or DropRequest, and Finish or WorkerError.
- Scheduler.Scheduler.Recover: the same assumption, and that the process has just started.
- Scheduler.Scheduler.Report: without the runtime metrics.
- Scheduler.Scheduler.ScheduleNew: the same assumption, and a task whose identifier is new.
