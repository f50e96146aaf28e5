# The scheduling engine of fcron

fcron runs commands for its users: at times given by minute, hour, day, month and week
day (with `&` and `%` for lines that count or that run once in a period), and after
spans of system up time (`@`). This project models the daemon's engine, in database.c
and the parts of conf.c, save.c, u_list.c, fileconf.c, bitstring.h and fcron.c that it
stands on, and proves what it does.

Where the program works in place, so does the model: `struct tm` is a class whose
fields the search advances, the job queue is a linked list, the serial queue a circular
array, the lists of running and load-average jobs are growable arrays with a cursor,
files are written through a buffer, bit fields are bytes. Each such method is proved
against a specification of its own, and what the program promises is proved of the
specification.

| file | what it is about |
|---|---|
| Calendar | civil time without DST; `mktime` and `localtime` as the count of minutes since 2000 |
| Search | the search of `set_next_exe` for the next matching minute, and when it ends |
| Period, Interval | the jump to the next period, the walk out of an interval |
| Gap, IntervalCheck | why that walk ends, and the parser's check that is meant to ensure it |
| NextExe | `set_next_exe`: where the search starts, random times, the time found |
| OncePerPeriod | what that means for a %-line over any run, with a period or without |
| JobQueue, TestJobs | the sorted list of lines and the loop that handles those that are due |
| UList, SerialQueue | the growable list with a cursor; the circular serial queue |
| Scheduler, Outcomes, SchedulerInvariant, SerialAccounting, SerialDrift, LavgAccounting, LostCounts | queues, running jobs and counters as one state machine; what each step does; its invariant; what `serial_running` and `lavg_serial_running` count, and how far they can be off; what is lost for good |
| Daemon, Passes, MainLoop | the same functions in place, over the lists and the array; what their loops come to; a turn of the main loop with the job queue |
| Records, SaveBuffer, Fcrontab, SaveFile, SaveAndLoad | the record format, the buffer, the fields of a saved file, writing and reading it, and what a saved file becomes when it is read back |
| Uptime | @-lines over sessions, crashes, downtimes and suspensions |
| Bits, Field, ReadField, FieldText | packed bits, and the parser of fields |
| Synchronize | a new version of a user's file takes the place of the old one |
| Words, Wrappers | integers of a given width, `Option` |

## Where the code does not do what it is meant to

Each of these is stated of the code as it is, with the exact condition where there is one.

- A `dayor` line can be given a time on the day after the last of a month, because the
  bit is looked at before the limit (`database.c:1172-1174`). The time found is the first
  match if and only if the search does not meet such a day first
  (`Search.ReachedIsFirstIffNoOvershoot`, `Search.OvershootExample`).
- The search for a `dayor` line does not end if the line is allowed every day of the week,
  in some month, but at no time of day, as with every hour removed (`*~0~1...~23`), which
  the parser accepts: the days of the month are counted for ever, since the end of the
  month is looked at only on a day that is not allowed (`database.c:1167-1216`). It ends
  for all other lines (`Search.EndsIff`, `Search.EndlessExample`).
- The weekly jump reads the length of February for a year counted from 1900
  (`database.c:728`, compare line 835). It lands on the boundary if and only if no such
  February lies on its way; the years are those that are 0 or 300 modulo 400
  (`Period.JumpIsNext`, `Period.LeapSlipYears`, `Period.LeapSlipExample`).
- A mid-hourly line launched at minute 29 loses the period that begins a minute later
  (`OncePerPeriod.NoPeriodIsLeftOut`, `OncePerPeriod.MinuteBeforePeriodExample`).
- The parser's check for lines without an interval counts bit 0 of the days
  (`fileconf.c:1765-1777`), so that a line with all days from 1 to 31 passes it without a
  gap (`IntervalCheck.PassesIffGap`, `IntervalCheck.GaplessExample`). The walk out of an
  interval ends within its limits if and only if the line has a gap
  (`Gap.EndsInTimeIffGap`). Without one it gives up on January 1st of the tenth year or,
  where the limit of ten times 365 days is passed before, leaves the date of a `struct tm`
  that was never set (`database.c:1005-1010`, `Interval.WalkBounded`), which is a parameter
  here.
- `%hours,daily` and the like set a period and the bit of the minutes, which comes first
  where the period is looked up: the jump to the next period does not move
  (`Interval.MoveToBegin`), and the search for such a line starts as if it were no %-line
  (`NextExe.SearchedFromBase`).
- Growing the serial array rotates its contents (`database.c:419-424`); the order is kept
  if and only if the first job is at index 0 or in the middle
  (`SerialQueue.GrowthKeepsOrderIff`, `SerialQueue.RotationExample`). The slot behind the
  last job is computed in a short int; it is right as long as the sum of the two indices
  fits (`SerialQueue.SlotIsRightIff`).
- A launch that fails leaves `cl_numexe` and, for a serial job, `serial_running`
  incremented (`database.c:208-250`), and `wait_all` never decrements `serial_running`
  (`database.c:605-639`). A line that may have one job at a time never gets another
  (`LostCounts.NeverLaunchedAgain`); a serial slot that is lost is lost for good
  (`LostCounts.SlotsAreLostForGood`).
- `serial_once` stays set when `add_serial_job` refuses the line
  (`database.c:1466-1470`, `database.c:1531-1536`); when the running job of that line
  ends, it gives back a slot that it did not take, and two serial jobs run where one may
  (`LostCounts.TwoSerialJobsForOneSlot`). Over any run `serial_running` is off by exactly
  the jobs that did not end as what they were launched as
  (`SerialDrift.SerialRunningDrifts`). An invariant rules them out, and
  `SerialAccounting.StepConsistent` says which steps keep it. After a step that does not,
  the end of a job that runs already makes the account wrong, or that of the next job of the
  line, launched at once or from the lavg list (`SerialDrift.UncleanRunLate`,
  `SerialDrift.UncleanLoad`, `SerialDrift.FireBreaks`, `SerialDrift.LavgRunBreaks`,
  `SerialDrift.ExitBreaks`), but for lines that lost counts or were one-offs already.
- An @-line that is never to run again, its period being written as 9223372036854775807s,
  is overdue after a restart or a suspension if and only if any time has passed
  (`Uptime.NeverComesRoundAgain`, `database.c:1601-1622`). (`@reboot` and `@resume` lines
  have runonce as well, and are not looked at again.)
- `read_file` is meant to take the lines of a broken file out again
  (`conf.c:796-822`), but its error path frees `cl`, which makes it NULL (`mem.h:40-46`),
  before it asks whether there is a `cl`, and `cl` is a fresh line wherever an error is met. The
  lines that were complete stay in the job queue, in no file. The queue is as it was before
  the file was read if and only if each of them runs once and has
  (`Synchronize.Config.ReadFile`, `Synchronize.Config.Err`); a file cut inside a line behind
  its first one is such a file (`SaveAndLoad.CutInNextLine`). Installing the corrected file
  does not take them out either (`Synchronize.Config.Reinstall`).
- A buffer that the disk takes byte by byte is given up after half of it
  (`SaveBuffer.OneByteIsNotEnough`, `save.c:136-152`).
- Every reload reverses the order of a file's lines (`SaveAndLoad.LoadOfSave`); two bring
  it back (`SaveAndLoad.TwoRoundTrips`).
- `5-5` in a field stands for the whole field (`FieldText.RangeIsBetween`,
  `fileconf.c:1963-1974`), and the name of a month for the month before
  (`FieldText.MonthNames`, `fileconf.c:1834-1840`, `fileconf.c:1915-1919`), where
  fcrontab(5) says that names are used exactly as numbers.
- A change of the time difference, which is in hours, moves the times of a file's lines
  by as many seconds (`conf.c:283-291`, `Synchronize.LocalTimeIsKeptIff`).

## Assumptions

- Civil time has no DST, and the clock stands after 2000-01-01. Times of time-and-date
  lines are counted in seconds from then.
- `run_job` yields a pid or fails; `rand` is a number in its range; `write` takes any
  number of the bytes it is given, or fails; which children have ended, whether the load
  is low, whether an interval is over and what a new file contains are given. An unset
  `struct tm` holds some date of this century.
- Lines have the form that the parser gives them (`NextExe.Timing.WellFormed`): both Sunday
  bits or none, and a unit wherever a period is set, as every option that sets
  freq_periodically does (`fileconf.c:1140-1195`). Where the search does not end, nothing
  can be said of what follows: `NextExe.Schedulable` asks for one that does.
- `serial_queue_max` is small enough for the sum of two indices of the serial array to fit a
  short int; it is at least 5, as the command line demands. Both queues have one limit.

## Model

| member | source | states |
|---|---|---|
| Calendar.GetNbMdays | database.c:652-671 | the number of days of each month, February in leap years included |
| Calendar.LtIsEarlier | database.c:119-173 | the order of civil times is the order of their minute numbers: `mktime` is strictly increasing |
| Calendar.LocaltimeOfMktime | database.c:119-173 | from 2000 on, `localtime` undoes `mktime` on every valid minute |
| Calendar.Localtime | database.c:1110-1123 | every minute number from 2000-01-01 on has a valid civil minute with that number |
| Calendar.WdayAdvances | database.c:675-702 | the week day goes on by one from each day to the next, over ends of months, leap days and centuries |
| Calendar.WeekdaySince2000 | database.c:675-702 | the sum of days that `set_wday` forms from 2000 on is, modulo 7, the Gregorian week day |
| Calendar.Tm.SetWday | database.c:675-702 | sets the week day of the date in the fields, for every date from 2000 on, by its loops over years and months |
| Calendar.Tm.MktimeNoDst | database.c:119-173 | normalizes the fields to the same moment and yields its time |
| Search.NextBit | database.c:1112-1128 | the first allowed value from the present one on, or the limit |
| Search.NextDayOr | database.c:1165-1198 | the first day whose month day or week day is allowed, looking at the day behind the last of the month too |
| Search.MonthKeeps | database.c:1094-1129 | a pass at setMonth goes to the first allowed month, resetting the lower fields when the month changes, or gives up in the tenth year; no slot is skipped |
| Search.DayAndKeeps | database.c:1131-1163 | a pass at setDay goes to the first day allowed by month day and week day, or back for the next month; no slot is skipped |
| Search.DayOrKeeps | database.c:1165-1200 | the same where either is enough |
| Search.HourKeeps | database.c:1202-1228 | a pass at setHour goes to the first allowed hour and minute, or back for the next hour or day; no slot is skipped |
| Search.Turn | database.c:1094-1228 | the code from a label to the next goto, in place, is that pass: it keeps what holds at the labels and gets on by a year, month, day, hour or label |
| Search.EndsIff | database.c:1094-1228 | the search ends if and only if the line is not a dayor line on every week day, in some month, without a time of day |
| Search.CountsForEver | database.c:1167-1216 | for those it stays in the same month at the labels setDay and setHour, whatever the number of passes |
| Search.EndlessExample | database.c:1202-1216 | such a line: no hour, every week day |
| Search.NextMatch | database.c:1069-1228 | for all lines whose search ends: the minute found is the first match from the start on if and only if no stray day comes first (never for a dayand line); a dayand line gives up exactly when nothing matches up to the end of the ninth year |
| Search.ReachedIsFirstIffNoOvershoot | database.c:1131-1200 | the time reached is the first match exactly when the search does not overshoot a month first |
| Search.GivingUp | database.c:1069-1108 | where the search gives up, nothing matches up to its horizon |
| Search.FirstMatchIsLeastTime | database.c:1043-1228 | the first match is the least minute number, from the start on, whose civil minute matches: the scan minute by minute |
| Search.OvershootExample | database.c:1172-1174 | a line on the 31st searched from April 1st comes out on May 1st |
| Period.GotoBeginningNextPeriod | database.c:706-843 | jumps to the first boundary of an hour, day, week or month (or the middle of one) after the start, if and only if February does not slip |
| Period.JumpIsNext | database.c:727-822 | the same of the jump as a function, for each unit |
| Period.JumpLandsOn | database.c:727-822 | the jump lands on the full hour, midnight, a Monday or the 1st, or for mid-periods on the half hour, noon, a Thursday or the 15th, the smallest unit that is set counting |
| Period.LeapSlipYears | database.c:728-728 | the two ways of counting years disagree on February in the years 0 and 300 modulo 400 only |
| Period.FixOverflows | database.c:823-842 | fields of which none is more than one step over its last value are carried into a valid minute, and denote the same moment |
| Period.JumpIsOneStepOver | database.c:727-822 | so they are after each jump |
| Period.LeapSlipExample | database.c:728-728 | a weekly line jumps to a Sunday in March 2300 |
| Interval.WalkOut | database.c:928-1003 | jumps to the first minute that is outside the interval, or gives up at the limit of years, having met only minutes inside |
| Interval.StepOut | database.c:928-988 | one turn of that walk skips only minutes that are inside |
| Interval.WalkBounded | database.c:897-1010 | for a line with a period, the first minute outside the interval or the beginning of the next period, whichever comes first; for others the first minute outside if the interval ends in time, and if not January 1st of the tenth year, the date in the unset struct, or the minute of the limit |
| Interval.MoveToBegin | database.c:890-1010 | BEGIN_NEXT_PERIOD: the beginning of the next period (the same minute where the unit is the minute), or where the walk with the ignored fields removed stops |
| Interval.MoveToEnd | database.c:897-1039 | END_OF_INTERVAL: the last minute such that all minutes up to it match, within the period; a minute before where the walk stops, if the interval does not end in time |
| IntervalCheck.Fields.Check | fileconf.c:1748-1792 | the check finds a clear bit of a field that counts, among the bits of the field, if and only if there is one |
| IntervalCheck.PassesIffGap | fileconf.c:1748-1792 | a line passes it if and only if it has a gap, or if only bit 0 of its days is missing |
| Gap.GapIsMet | fileconf.c:1744-1798 | a line with a gap in a field that counts has a minute outside its interval within six years |
| IntervalCheck.GaplessExample | fileconf.c:1765-1777 | `%mins * * 1-31 * *` passes, and no walk of it ends outside its interval |
| Gap.EndsInTimeIffGap | fileconf.c:1744-1798 | started within a year of now, the walk out of the interval ends within its limits if and only if the line has a gap |
| NextExe.NextUptimeIsLater | database.c:1307-1333 | an @-line is due later than now if and only if its period is positive and the sum fits a long (or it is never to run again) |
| NextExe.NextUptimeIs | database.c:1305-1333 | the time of an @-line is exactly its period after the base where that is later and fits a long; the last time there is if it is never to run again; else its period after now, as far as a long can say it |
| NextExe.RandomStaysInside | database.c:1237-1257 | a random time lies in the interval of the match |
| NextExe.RandomTime | database.c:1237-1257 | the time chosen lies as far behind the first match as `rand` lies in its range, up to the end of the interval; it is in the interval if its end is known |
| NextExe.LaterReaches | database.c:1252-1254 | each second up to the end can be chosen |
| NextExe.SearchAndNormalize | database.c:1094-1236 | the match in normalized fields and as a time |
| NextExe.StartsInTimeIffGap | database.c:1083-1092 | the search for a %-line without a period starts outside its interval if and only if the line has a gap |
| NextExe.SearchedFromBase | database.c:735-737 | the search for a line with the bit of the minutes and a period starts as if it were no %-line |
| NextExe.Plan | database.c:1061-1290 | where the search starts for each mode, the first match from there, and a time that the line may run at |
| NextExe.PlannedLater | database.c:1269-1304 | planned with STD from such a start, the time is never the past: the sanity check changes nothing |
| NextExe.SetNextExe | database.c:1043-1355 | the new time is later than now for every time-and-date line whose search ends, and is the planned one with the time difference, or five seconds from now if that is past; a line that does not move to its next period is searched from its base minute, or the minute after that with STD, a first sleep, or for an &-line; an @-line is due exactly its period after now, or after its old time, with the overflow cases stated |
| OncePerPeriod.NextRunIsInALaterPeriod | database.c:706-843 | a period begins between a launch and the next time searched from, if and only if February does not slip early |
| OncePerPeriod.NoPeriodIsLeftOut | database.c:1083-1092 | and it is the first boundary after the launch, but for minute 29 of a mid-hourly line |
| OncePerPeriod.MinuteBeforePeriodExample | database.c:738-742 | launched at 10:29, such a line is next searched from 11:30 |
| OncePerPeriod.AtMostOncePerPeriod | database.c:46-84 | between any two launches of a %-line with a period, over any run, a period begins |
| OncePerPeriod.AtMostOncePerInterval | database.c:46-84 | between any two launches of one without a period, that has a gap, lies a minute outside its interval with the ignored fields removed |
| JobQueue.Queue.Remove | database.c:276-318 | takes the line out, keeps the others in their order, and yields the entry before it |
| JobQueue.Queue.Insert | database.c:321-379 | puts a line whose time has already been changed behind all that are due no later and before all others: sorted, without duplicates, stable |
| JobQueue.Queue.FindPlace | database.c:344-361 | the walk finds that place, from the entry that was before it or from the beginning |
| JobQueue.RestAt | database.c:276-318 | taking a line out of a sequence leaves what was before and behind it |
| JobQueue.InsertedIsSorted | database.c:321-379 | a line put in that place leaves the list sorted |
| JobQueue.Queue.NextWakeTime | database.c:1870-1888 | the larger of now and the least of the limit and all queued times |
| TestJobs.Handle | database.c:55-82 | one due line: counts down or launches, and is planned again behind now, or is taken out if it runs once |
| TestJobs.TestJobs | database.c:46-84 | ends; handles each line that was due exactly once, in order, launches exactly those whose count is down, plans each of them as set_next_exe does, leaves the others as they were, and leaves none that is due; a line is out of the queue then if and only if it was due, runs once and has |
| TestJobs.Calls | fcron.c:928-957 | over any calls of test_jobs a queued %-line stays queued; it is launched at exactly those calls at which its planned time has come, and planned anew then and only then; so no two of its launches lie in one period, or in one interval if it has no period but a gap |
| TestJobs.LaunchedOncePerPeriod | database.c:46-84 | so a %-line with a period is launched at most once in each period: between two launches a period begins |
| TestJobs.LaunchedOncePerInterval | database.c:46-84 | and one without a period at most once in each interval |
| UList.RemovedAtLosesOne | u_list.c:239-259 | removing an entry by moving the last one loses exactly that entry |
| UList.List.ResizeArray | u_list.c:90-130 | grows the array and keeps its entries and the cursor, or refuses at the limit |
| UList.List.Add | u_list.c:144-166 | appends, growing if need be, and fails exactly when the array is full at its limit |
| UList.List.Next | u_list.c:196-227 | the entry behind the cursor, or the one that took the place of a removed entry |
| UList.List.RemoveCur | u_list.c:239-259 | removes the entry under the cursor |
| UList.VisitStands | u_list.c:179-259 | visited entries and entries to come stay all entries, and those in front are the ones kept |
| UList.Iterate | u_list.c:179-259 | an iteration visits every entry once and keeps exactly those that are not removed, whatever is removed |
| UList.ReplaceCurrent | database.c:560-596 | a job that is launched while the finished one is under the cursor does not get lost; the finished one does, even when the array is moved |
| SerialQueue.Queue.constructor | fcron.c:734-740 | an empty array of the initial size |
| SerialQueue.Queue.Add | database.c:399-436 | appends to the waiting jobs, after growing the array if it is full; refuses exactly when the queue is at its limit; empty slots stay NULL, and the array within its bound |
| SerialQueue.Queue.Grow | database.c:408-428 | the copy into the larger array rotates the jobs and loses none |
| SerialQueue.Queue.TakeFirst | database.c:216-226 | takes the first job, FIFO, and empties its slot |
| SerialQueue.Queue.Remove | conf.c:939-972 | removes the lines of a file and moves the others together in their order |
| SerialQueue.Queue.MovedTogether | conf.c:958-969 | the slots in use, from the first job on, without gaps |
| SerialQueue.GrowthKeepsAll | database.c:419-424 | growth keeps every waiting job exactly once |
| SerialQueue.GrowthKeepsOrderIff | database.c:419-424 | and their order if and only if the first is at index 0 or in the middle |
| SerialQueue.RotationExample | database.c:419-424 | of ten jobs of which the first is at index 3, the fifth comes first |
| SerialQueue.SlotIsRightIff | database.c:430-431 | the slot computed in a short int is right if and only if the sum does not wrap |
| SerialQueue.WithoutShorter | conf.c:939-956 | the queue gets shorter if and only if a waiting line is removed |
| SerialQueue.WithoutConcat | conf.c:939-956 | what is left of the queue is what is left of its parts, in their order |
| Outcomes.SerialOutcome | database.c:382-443 | a line joins the end of the serial queue if and only if it is admitted (no entry, or one of several that fit a byte) and the queue or its array has room; its count grows by one then, and nothing else changes |
| Outcomes.LavgOutcome | database.c:447-478 | so it joins the lavg list |
| Outcomes.FireOutcome | database.c:60-72 | a line that is due goes to the list if it waits for a low load, to the queue if it is serial, and is run with its pid otherwise, each where it is admitted and there is room |
| Outcomes.RunLateOutcome | database.c:1531-1536 | a late line goes to the list, or to the queue with `serial_once`, which it gets even if it is refused |
| Outcomes.LoadOutcome | database.c:1453-1471 | a loaded line is queued again if and only if its job was cut short, it does not run at reboot, and, where it waits for a low load, it is not strict |
| Outcomes.DrainOutcome | database.c:208-227 | the first job of the queue is taken, takes a slot, and runs or leaves its slot and its count lost |
| Outcomes.ExitOutcome | database.c:563-596 | the job that ended runs no more; its line loses one count and `serial_once`; its slot, if it held one, goes to the first job that waits, if the limit allows it |
| Outcomes.WaitOutcome | database.c:605-639 | a job that was waited for runs no more and gives back its count, but not its slot |
| Outcomes.DeleteOutcome | conf.c:893-1009 | the running jobs of a removed file stay without their line, its waiting ones leave both queues, its lines are gone; all others are as they were |
| SchedulerInvariant.CountsRemoved | database.c:592-593 | taking out an entry lowers the count of its line by one and of no other |
| SchedulerInvariant.RunNormalJobKeeps | database.c:177-193 | a launch keeps the invariant, also when it fails |
| SchedulerInvariant.AddSerialJobKeeps | database.c:382-443 | so does an addition to the serial queue, also when it grows or refuses |
| SchedulerInvariant.RunSerialJobKeeps | database.c:208-227 | and a launch from it, if a slot is free |
| SchedulerInvariant.AddLavgJobKeeps | database.c:447-478 | and an addition to the lavg list |
| SchedulerInvariant.RunLavgJobKeeps | database.c:196-204 | and a launch from it |
| SchedulerInvariant.DropLavgJobKeeps | database.c:1789-1805 | and the removal of a line whose time is over |
| SchedulerInvariant.ChildExitKeeps | database.c:550-601 | and the end of a job, with the launch that it lets happen |
| SchedulerInvariant.WaitedForKeeps | database.c:605-639 | and waiting for a job |
| SchedulerInvariant.DeleteFileKeeps | conf.c:893-1009 | and the removal of a file: running jobs are detached, waiting ones removed |
| SchedulerInvariant.LoadKeeps | database.c:1453-1471 | and loading a line, whose job was cut short or not |
| SchedulerInvariant.StepKeeps | database.c:550-601 | every step keeps it |
| SchedulerInvariant.AlwaysInv | database.c:177-250 | in every reachable state `cl_numexe` of each line is its entries in both queues and among the running jobs plus the counts left behind, and at most 255; `serial_running` is at most its limit; the serial array is within its bound |
| SerialAccounting.StepConsistent | database.c:550-601 | the invariant from which `serial_running` is exact (every job accounted for as it was launched, one-offs with their one entry) is kept by a step if and only if it does not set `serial_once` out of place |
| SerialAccounting.RunLateConsistent | database.c:1531-1536 | when a line that is found to be late keeps that invariant |
| SerialAccounting.LoadConsistent | database.c:1453-1471 | when a line that is loaded does |
| SerialAccounting.ChildExitConsistent | database.c:568-590 | the end of a job gives back what it took |
| SerialAccounting.DeleteFileConsistent | conf.c:914-929 | the removal of a file gives back the slots of its running jobs |
| SerialAccounting.SerialRunningIsExact | database.c:208-227 | over runs of such steps `serial_running` is the number of running serial jobs plus the slots lost, so no more serial jobs run than allowed |
| SerialDrift.StepDrift | database.c:550-601 | each step, clean or not, moves `serial_running` away from what it counts by exactly the jobs that end other than as they were launched |
| SerialDrift.DeleteDrift | conf.c:914-929 | for the removal of a file that is the sum over its running jobs: one for each that was launched as serial, less one for each that gives a slot back |
| SerialDrift.SerialRunningDrifts | database.c:550-601 | so over any run it is the running serial jobs, plus the slots lost, plus the sum of those |
| SerialDrift.ExitBreaks | database.c:574-578 | a job that was not launched as serial gives back a slot that it did not take, if its line has `serial_once` when it ends |
| SerialDrift.FireBreaks | database.c:177-193 | so does the next job of a line with `serial_once` that can be launched |
| SerialDrift.LavgRunBreaks | database.c:196-204 | and that of a line that waits for a low load |
| SerialDrift.SecondOneOff | database.c:574-578 | the second of two one-off jobs of a line never gives its slot back |
| SerialDrift.UncleanRunLate | database.c:1531-1536 | after a late run that is not clean one of these is at hand, unless the line lost counts before or was a one-off already |
| SerialDrift.UncleanLoad | database.c:1453-1471 | after a load that is not clean the next job of the line, launched at once or from the lavg list, lowers the account by one, unless the line lost counts |
| LavgAccounting.LavgRemoved | database.c:592-593 | taking out an entry lowers the count of running lavg serial jobs by one if it is one |
| LavgAccounting.ChildExitExact | database.c:574-590 | the end of a job takes it off `lavg_serial_running` if and only if it counted there |
| LavgAccounting.DeleteFileExact | conf.c:914-929 | so does the removal of its file |
| LavgAccounting.LavgSerialRunningIsExact | database.c:196-204 | over such runs `lavg_serial_running` is the number of running serial jobs that waited for a low load, plus those lost |
| LavgAccounting.StartIsRight | fcron.c:734-745 | all these invariants hold when the daemon starts |
| LostCounts.NeverLaunchedAgain | database.c:244-248 | after a failed launch of a line with one job at a time the number of its entries never grows again |
| LostCounts.SlotsAreLostForGood | database.c:605-639 | running serial jobs are at most the limit less the slots lost at any earlier time; when all are lost the queue is not served any more |
| LostCounts.TwoSerialJobsForOneSlot | database.c:1531-1536 | a run of three steps after which two serial jobs run where one may |
| Daemon.Fcron.constructor | fcron.c:734-745 | the empty daemon |
| Daemon.Fcron.RunQueueJob | database.c:231-250 | adds the running job if the launch succeeds, and nothing else |
| Daemon.Fcron.RunNormalJob | database.c:177-193 | is the step RunNormalJob, in place |
| Daemon.Fcron.AddSerialJob | database.c:382-443 | is the step AddSerialJob, over the circular array |
| Daemon.Fcron.RunSerialJob | database.c:208-227 | is the step RunSerialJob |
| Daemon.Fcron.AddLavgJob | database.c:447-478 | is the step AddLavgJob, over the list |
| Daemon.Fcron.GiveBack | database.c:574-590 | what the end of a job gives back, and the next serial job launched |
| Daemon.Fcron.ChildExit | database.c:563-596 | is the step ChildExit for the entry under the cursor, though the list grows meanwhile |
| Daemon.Fcron.Find | database.c:560-563 | the first entry with the pid, or none |
| Daemon.Fcron.WaitChld | database.c:550-601 | handles all finished children, in order, and keeps the invariant |
| Passes.ReapedAreOver | database.c:550-601 | over all reports, of the running jobs with a pid as many are gone as there were reports of it |
| Daemon.Fcron.Await | database.c:605-639 | is the step WaitedFor for the entry of the pid |
| Passes.AwaitedIsOver | database.c:605-639 | waiting for a pid that runs takes one running job with that pid away, and no other |
| Daemon.Fcron.DrainSerial | fcron.c:936-938 | ends, with no serial job waiting or every slot in use, and keeps the invariant |
| Daemon.DrainServesInOrder | fcron.c:936-938 | it launches as many jobs as wait or as slots are free, the first ones, each taking a slot |
| Passes.DrainStarts | fcron.c:936-938 | the first jobs that waited run then, each with what its launch yielded |
| Daemon.Fcron.CheckUntil | database.c:1786-1811 | the first loop of check_lavg ends, applies each decision to its entry, and keeps the invariant |
| Daemon.Fcron.CheckLoad | database.c:1826-1855 | so does the second, which skips serial lines when no slot is free and runs the others where the load is low; `Passes.LoadVisits` says who leaves the list |
| Daemon.LoadPassInLimit | database.c:1829-1833 | the second loop does not take `lavg_serial_running` over the limit, and loses no entry |
| Passes.UntilVisits | database.c:1786-1811 | over the first loop each entry is visited once; it stays in the list, is started, leaves a lost count or is dropped, as was decided, and no other line, job or counter changes |
| Passes.LoadVisits | database.c:1826-1855 | over the second loop each entry is visited once; it leaves the list, as a running job or a lost count, if and only if the load is low at its visit and it is not a serial line while every slot is in use; else it stays |
| Passes.HighLoad | database.c:1834-1852 | while the load is high the second loop changes nothing |
| Passes.LowLoad | database.c:1834-1852 | while it is low all lines run, if none is serial: the list ends empty, with a running job for each launch that succeeds |
| Daemon.Fcron.Fire | database.c:55-82 | a line that is to be run goes to the lavg list, the serial queue or is launched |
| Passes.AllFiredGet | database.c:55-82 | over all lines that are due: each that has no entry yet waits in the lavg list, waits in the serial queue, or runs with its pid, as its options say, where there is room for all |
| Passes.AllFiredGrow | database.c:55-82 | no waiting or running job is lost by that, and no other line changes |
| Daemon.Fcron.RunJobs | fcron.c:928-938 | finished children, due lines and the drain, one after the other, are those steps in that order; they keep the invariant, and no serial job waits while a slot is free |
| Passes.DueLinesRun | fcron.c:928-938 | after finished children, due lines and the drain, each line that was due and had no entry waits or has been started |
| Daemon.Fcron.Turn | fcron.c:928-957 | a whole turn of the main loop is those steps and then both passes of check_lavg; it keeps the invariant, and no serial job waits while a slot is free |
| Passes.CheckedVisits | fcron.c:928-957 | and check_lavg at the end of the turn is both passes over the list, one after the other |
| MainLoop.RunDue | fcron.c:928-938 | the job queue and the launching side together: what is handed over to be run is, in the order of the queue, exactly each line that was due and whose count was down, with what its launch yields; each line that was due has its new count, time and option, the others are as they were, no line is left due, and only lines that run once and have are out of the queue |
| Daemon.Fcron.DetachAll | conf.c:914-929 | the running jobs of a file lose their line, and the counters what those held |
| Daemon.Fcron.PurgeLavg | conf.c:931-937 | the entries of a file leave the lavg list, during the iteration |
| Daemon.Fcron.DeleteFile | conf.c:893-1009 | is the step DeleteFile |
| Records.SignedOfBytes | save.c:104-123 | an integer that fits its bytes comes back with its sign |
| Records.BytesAre | save.c:42-123 | a record is its type and its length, in two bytes each with the low one first, and its data |
| Records.StreamIsParsed | conf.c:404-417 | records that were written are read back, whatever follows |
| Records.CutStreamIsParsed | conf.c:404-417 | of a file cut anywhere the whole records in front are read, and it is broken exactly when data are missing behind a header |
| SaveBuffer.Flushed | save.c:127-163 | a flush takes at most half the buffer length and one more calls, writes no more than there is, and all of it on success |
| SaveBuffer.TwoBytesAreEnough | save.c:136-152 | it succeeds if each call takes two bytes, or the rest |
| SaveBuffer.OneByteIsNotEnough | save.c:136-152 | with one byte a call it succeeds exactly while the retries last |
| SaveBuffer.Writer.WriteBufToDisk | save.c:127-163 | the bytes go to disk once and in order, under short writes |
| SaveBuffer.Writer.SaveStrn | save.c:42-123 | saved bytes, on disk and in the buffer, grow by exactly the record, wherever the buffer is flushed; on failure the disk holds the first bytes of them; it does not fail while each call of write takes two bytes, or the rest |
| Fcrontab.Filled | conf.c:624-782 | each record leaves the options at their length and the count in its byte, as the next one needs |
| SaveAndLoad.HeadTurns | save.c:241-248 | the fields of every line are read back |
| SaveAndLoad.CountsTurn | save.c:250-268 | so are the counts, limits and priorities that are saved if needed |
| SaveAndLoad.ExtrasTurn | save.c:269-279 | and the time zone, the jitter and the sender |
| SaveAndLoad.TimingTurns | save.c:281-300 | and the times: up time or bit fields |
| SaveAndLoad.LineIsRead | save.c:238-304 | the records of a line add that line, as far as it is saved, in front of those read before |
| SaveAndLoad.LoadOfSave | save.c:204-324 | a saved file is read back with its user, time, time difference and environment, and its lines, as far as they are saved, in reverse |
| SaveAndLoad.SavedComesBack | save.c:204-324 | in its fields: user, time and time difference are the same; each line has its command, user, options, next execution, counts, priority, time zone and jitter; its times, or a day where an @-line has none; its addresses, unless they may not be given to the mailer; of the environment the last entry of each name but USER and LOGNAME |
| SaveAndLoad.LineComesBack | conf.c:830-880 | so for one line; where nothing needs correction it is the line as far as it is saved |
| SaveAndLoad.LoadOfCut | conf.c:624-794 | a file that is cut anywhere is refused, or its first lines are read as if it had no others |
| SaveAndLoad.CutInNextLine | conf.c:624-794 | every file that is cut inside the command of a line is refused, after all lines before that one were read |
| SaveAndLoad.RenewedIsStable | conf.c:834-878 | what was read once is saved and read unchanged from then on |
| SaveAndLoad.EnvOfDistinct | conf.c:628-649 | an environment with one entry a name is read as it was saved |
| SaveAndLoad.InEnvOf | env_list.c:92-120 | an entry is in the environment that is read if and only if it is the last one with its name, is not empty and does not set USER or LOGNAME |
| SaveAndLoad.TwoRoundTrips | conf.c:887-888 | two cycles bring the lines back in their order, and keep everything else that the first one kept |
| SaveFile.SaveLine | save.c:238-304 | saves exactly the records of the line, or fails with the first bytes of the file on disk, which it does not while each call of write takes two bytes, or the rest |
| SaveFile.WriteFileToDisk | save.c:204-324 | on success the disk holds the records of the file and nothing else; on failure, their first bytes; it succeeds if each call of write takes two bytes, or the rest |
| SaveFile.Reader.ReadType | conf.c:404-417 | type and size, exactly when a whole header is left |
| SaveFile.Reader.ReadData | conf.c:386-401 | the data, exactly when all of them are left |
| SaveFile.Reader.ReadRecords | conf.c:624-782 | the loop reads what the specification reads |
| SaveFile.Reader.ReadFile | conf.c:580-794 | so does read_file, from the header on |
| SaveFile.SaveThenLoad | save.c:204-324 | saving and reading: the file as it is kept, with its lines in their fields, or its first lines if the save failed, or nothing; the file for certain if each call of write takes two bytes, or the rest |
| Uptime.Line.SetNextExeStartup | database.c:1437-1629 | for each context and set of options: due now, waiting afresh, or going on with what was left |
| Uptime.StartKeepsTheRest | database.c:1601-1622 | a start keeps what was left to wait if and only if the line was not overdue at the save and the sum is a time (or the whole period was left) |
| Uptime.ContinuedIs | database.c:1601-1622 | a line goes on waiting for what it had left; where it is overdue it is due at once on a resume, and after its whole period at a start, as it is where the time is beyond all times |
| Uptime.NeverComesRoundAgain | database.c:1601-1622 | a line that is never to run again is overdue after a restart or a suspension if and only if time has passed |
| Uptime.StepConserves | conf.c:834-880 | passing time, launches, saves, restarts and suspensions keep what is left equal to what is due less the up time that counts |
| Uptime.LaunchIsPlanned | database.c:1305-1333 | after a launch the line waits for the time that set_next_exe sets |
| Uptime.WaitsForUpTime | database.c:1575-1622 | over any run of sessions an @-line that is neither volatile nor set to run or to wait afresh at a start (rebootreset, runonce, runatreboot, runatresume) can be launched if and only if the up time that counts has reached what is due |
| Uptime.DowntimeDoesNotCount | conf.c:834-834 | without launches, what is left depends on the up time up to the last saves alone, not on how long the daemon was down |
| Bits.BitTest | bitstring.h:51-52 | whether the bit is in the set |
| Bits.BitSet | bitstring.h:55-56 | adds the bit to the set and changes no other |
| Bits.BitClear | bitstring.h:59-60 | takes the bit out of the set and changes no other |
| Bits.BitNSet | bitstring.h:80-94 | adds the bits from start to stop and changes no other, whole bytes at once |
| Bits.BitFfc | bitstring.h:97-109 | a bit below `nbits` is found if and only if one is clear, and it is the first |
| Bits.SpannedAt | bitstring.h:80-94 | what the masks of the first, the last and the bytes between do to each bit |
| Field.GetNum | fileconf.c:1816-1881 | a number is at most the maximum, and at least one character is taken unless there is none; a decimal point is not followed |
| Field.ItemAt | fileconf.c:1894-2004 | what is read lies in the field, and the text gets shorter, so that the loop ends |
| ReadField.Fill | fileconf.c:1963-1974 | the two loops set exactly the numbers of the range with its step, over the end of the field if it wraps |
| ReadField.FillUpTo | fileconf.c:1963-1974 | each loop sets the steps up to its end |
| ReadField.ReadNum | fileconf.c:1816-1881 | digits or a name |
| ReadField.Prune | fileconf.c:1976-2004 | the removals are taken out one after the other, both Sundays together; `FieldText.InWithout` says what is left |
| ReadField.ReadItem | fileconf.c:1902-2004 | an item does to the bits what it means |
| ReadField.ReadField | fileconf.c:1885-2022 | a bit is set at the end if and only if it was set before or an item adds it, and neither that item nor a later one removes it, the two Sundays counting as one; nothing behind the field is touched, also on errors |
| ReadField.BlanksAreSkipped | fileconf.c:2015-2019 | the blanks behind the field are passed over, and nothing else |
| FieldText.FieldIsRead | fileconf.c:1885-2022 | every field written as fcrontab(5) says is read as the items it was written from |
| FieldText.InSteps | fileconf.c:1963-1974 | which numbers a range with a step contains, wrapping or not |
| FieldText.InWithout | fileconf.c:1976-2004 | after removals a number is left if and only if it is not removed, nor, a Sunday, the other Sunday |
| FieldText.InMeaning | fileconf.c:1902-2004 | so for one item, which adds a number, or those on the steps of its range |
| FieldText.FieldMeans | fileconf.c:1885-2022 | and for a whole field, its items from left to right |
| FieldText.StarIsAll | fileconf.c:1905-1911 | "*" is every number of the field, twelve for months |
| FieldText.RangeIsBetween | fileconf.c:1963-1974 | a range is what lies between its ends if and only if they differ; otherwise it is the whole field |
| FieldText.WeekdayNames | fileconf.c:1826-1848 | the name of a week day is its number |
| FieldText.InAnyCase | fileconf.c:1826-1848 | names may be written with capitals |
| FieldText.MonthNames | fileconf.c:1834-1840 | the name of a month is the month before, and its number is that month |
| Synchronize.Model | conf.c:264-280 | the first line of the old file with the same command and schedule |
| Synchronize.SameMeans | conf.c:266-280 | lines are the same if and only if they have one command and equal fields, or equal up times; then they match at the same minutes |
| Synchronize.LocalTimeIsKeptIff | conf.c:283-291 | a line keeps its time of day if and only if the time difference is the same |
| Synchronize.TakenOverIs | conf.c:283-291 | the time is moved forward by the growth of the difference, where that is later than now |
| Synchronize.TakeOver | conf.c:281-306 | the new line has the old time (moved where the time difference changed), the old count if the frequency is the same, and its place in the queue, unless it has run already |
| Synchronize.TakeOverFirst | conf.c:265-323 | it takes that over from the first line it repeats, or stays as it is |
| Synchronize.TakeOverAll | conf.c:262-323 | so do all lines of the new file, and no other line moves in or out of the queue |
| Synchronize.RemoveAll | conf.c:976-987 | the lines of the old file leave the queue, and no others |
| Synchronize.Config.DeleteFile | conf.c:893-1009 | removes the first file of the user |
| Synchronize.Config.Replace | conf.c:229-330 | the new file takes the place of the old one: its lines go on where those they repeat were, the old lines are out of the queue, and all others as they were |
| Synchronize.Config.Err | conf.c:796-822 | the error path takes the lines of the file out of the queue if `cl` is in a list in front of another line, and changes nothing otherwise |
| Synchronize.Config.ReadFile | conf.c:755-822 | the lines read are queued unless they run once and have, also if the file then fails; the queue is as it was if and only if all of them have; the file list does not change |
| Synchronize.Config.SynchronizeFile | conf.c:206-382 | a new file takes the place of the user's old one, in front, or is put there if there is none; a file without a dot is put there without a look, which leaves one file a user if and only if there was none; on an error the files are as before, and the lines that were read stay queued |
| Synchronize.Config.Reinstall | conf.c:222-382 | the lines of a broken file are still queued, and in no file, after the corrected one was installed |

## Left out

- DST repair in `mktime_no_dst`, time zones and `localtime`: the system's own.
- `run_job`, mail, PAM, SELinux, sockets, the client and server of fcrondyn, signals, lock
  files, suspend clocks: only their effect as an event or as a result.
- The reading of the load average and its comparison with that of a line: a decision that
  is given for each entry.
- `set_next_exe_notrun`, and the calls of `set_next_exe` from `check_lavg`: they send mail
  and plan again as modelled in NextExe; the time limits of lavg entries are not computed.
- `cf_running`, the number of running jobs of a file, which ends the loop of `wait_all`.
- The startup of time-and-date lines (`database.c:1491-1565`): many cases, each of which calls
  `set_next_exe`.
- `add_line_to_file` for files that are not owned by root, and line ids.
- Records longer than the field they are read into, negative sizes, an S_ENDLINE_T with
  data, and the unknown-field branch of `read_file`: `Fcrontab.Loaded` yields `Unmodelled`.
- Month 0, which has no bit: `Field.Value` yields `Beyond`, as for decimal numbers.
- Directory scanning, user lookup, options, environment lists, quoting and the other parts of
  the parser; `bit_nclear` and `bit_ffs`; `fifo_list.c`, which is not built.
- Search.NextMatch: asks for a search that ends (`Search.EndsIff` is exact), and for week day
  bits 0 and 7 that agree, which read_field ensures. Bits are those of a finite set: what
  lies in memory behind the arrays, which the endless search would read, is not modelled.
- NextExe.SetNextExe: needs a clock after 2000-01-01, and for a time-and-date line a search
  that ends.
- NextExe.RandomTime: says nothing of the interval for a line without a period whose interval
  does not end in time.
- TestJobs.Calls: nothing but test_jobs plans the lines between the calls (as `check_lavg`,
  the installation of a new file and fcrondyn can), and lines with runonce are left out.
- OncePerPeriod.AtMostOncePerPeriod: leaves out launches in the last days of February of years
  that are 300 modulo 400, for weekly lines (`OncePerPeriod.NextRunIsInALaterPeriod` is exact).
- SerialDrift.UncleanRunLate: does not follow a line that lost counts, or a one-off that is
  added twice, to the point where its account is wrong: if all its counts or all slots are lost
  there is none.
- Daemon.Fcron.CheckUntil: whether the time of a waiting line is over is given for each entry.
- Daemon.Fcron.Turn: which lines are due is given; `MainLoop.RunDue` takes it from the job queue.
- Synchronize.Config.SynchronizeFile: the times that set_next_exe_startup sets are given with the
  lines, and the file is not saved under its new name.
- SerialQueue.Queue.constructor: needs the same limit as Add.
- SerialQueue.Queue.Add: needs a limit of the queue that keeps sums of two indices in a short int;
  `SerialQueue.SlotIsRightIff` says what happens otherwise.
- SaveBuffer.Writer.SaveStrn: needs a record that fits the buffer, which the program does not check.
- Bits.BitFfc: takes the byte behind the array as a parameter, which the code looks at when all
  bits of the array are set.
- Bits.BitNSet: needs its last bit in the memory passed; `fileconf.c:1717` sets bits 1 to 32 of a
  field of 32 bits, the last of which is bit 0 of the months that follow.
- Field.GetNum: a decimal point ends in `Decimal`; the rounding that the program does there is not followed.
- Fcrontab.Filled: what each record does to the fields is stated by the lemmas of SaveAndLoad.
- Synchronize.Config.DeleteFile: the file list and the job queue; the running jobs and the other
  queues are in Daemon.Fcron.DeleteFile.
- Uptime.WaitsForUpTime: a line is not overdue when it is saved or when the system is suspended,
  and times stay below TIME_T_MAX; `Uptime.StartKeepsTheRest` is exact.
