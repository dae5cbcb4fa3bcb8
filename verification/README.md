# GoXidized: verified models of the scheduler, the planner, the diff and the stores

GoXidized backs up the configurations of network devices. This project models the four parts of it whose
correctness is hard to see from the code, and proves what they are for.

- **The job manager and the worker leases.** A manager queues backup requests, keeps one request per target in
  flight, limits concurrency by four layers of counting semaphores, trips a circuit breaker after repeated
  failures, retries with exponential backoff, and holds a lease per target in a table shared by all managers.
  `ManagerModel` is one manager as a transition system in which every mutex section, channel operation and
  store call is one step; `FleetModel` puts any number of managers on one lease table and one clock. The clock
  reading of the renewer and its snapshot are separate steps, as they are in the code. `JobManagers` and
  `Leases` hold the same sections as methods of objects; each mutex section is proved to be its step of the
  transition system, on the fields, whatever the processes are.
- **The planner.** Cron expressions and schedule windows are searched minute by minute, with a deadline. The
  model has 64-bit loop arithmetic for cron steps, the Gregorian calendar, and locations as functions from
  minutes to offsets, and compares each search with what it is a search for, over all instants.
- **The diff.** A greedy two-cursor loop with a lookahead of six lines, its text, and the text read back.
- **The Git store, the backup handler and the sweep simulation.** Per-target histories are found by searching
  a log shared by all targets of a shard; recorded diffs replay; and the simulation schedules sessions on a
  pool of workers behind a rate limit.

Time is in integer nanoseconds (in the simulation, in real seconds). Names that are only compared are numbers.

Six promises do not hold of the code for all inputs. Each has a counterexample and the exact condition for it:

- Exclusion between managers needs every renewal snapshot to be in order: no unexpired lease in it may be
  younger than the clock reading taken before it. With that, no fleet loses exclusion
  (`LeaseExclusion.Exclusion`); without it, every fleet of two managers can (`LeaseOrder.ExclusionNeedsOrder`);
  and as long as another manager is free for the targets in question, a snapshot is safe precisely when it is
  in order (`LeaseOrder.SnapshotSafeIff`).
- The window search misses windows that open within a minute, although clock values may have seconds
  (`WindowSearch.SecondsAreMissed`); it is exact precisely for schedules that open on whole minutes
  (`WindowSearch.SearchExactIff`), such as those whose windows open, and whose blackouts close, on them
  (`WindowSearch.AlignedSearchExact`).
- A cron step close to 2^63 overflows the loop variable and adds values that the field does not denote
  (`CronSpecs.OverflowAccepted`); a field is right, and within its bounds, precisely when no part's first step
  overflows (`CronFields.FieldExactIff`, `CronFields.FieldRangeIff`).
- The backoff can overflow to a negative delay at 2^62 ns (`Backoff.BackoffOverflow`); it is
  min(initial * 2^(attempt-1), max) precisely when the doublings stay in range (`Backoff.BackoffExactIff`),
  and monotone precisely when, besides, the initial delay is at most the maximum (`Backoff.BackoffMonotoneIff`).
- The jitter bound is the configured percentage of the interval precisely when their product fits in 64 bits
  (`Planners.MaxJitterExactIff`); at 1068 days and 100 percent there is no jitter left
  (`Planners.JitterVanishes`).
- A target that moves to another shard or vendor leaves its file behind (`GitHistory.MovedTargetIsStale`); what
  the search by name finds is right, whichever file it picks, precisely when the target never moved
  (`GitHistory.LatestRightIff`).

Assumptions: the clock that managers share does not go back; worker identifiers are distinct and job
identifiers are fresh for every reservation; each lease statement is atomic; handlers return; a file write and
its commit happen together; the Go library behaves as documented.

## Model

| member | source | states |
|---|---|---|
| `LeaseExclusion.Exclusion` | internal/scheduler/manager.go:143-180 | In every state of every run of any number of managers on one lease table, with snapshots in order (no unexpired lease younger than the reading before), two managers never both hold an unexpired lease for one target; store answers may be lost, delayed or refused, and everything interleaves. |
| `LeaseExclusion.HandlersExclude` | internal/scheduler/manager.go:211-241 | Two handlers for one target run together only if they are in different managers and one of the two leases has lapsed; a handler is not stopped when its lease lapses. |
| `LeaseExclusion.SoundKept` | internal/scheduler/manager.go:307-370 | The inductive invariant: every unexpired local lease, recorded or about to be, has a row with the same worker and job and an expiry no earlier. Every step of every manager and of the clock keeps it, including late renewals, stale releases and takeovers. |
| `LeaseExclusion.RenewalCoversIff` | internal/scheduler/manager.go:357-370 | A renewal leaves the local lease covered by its row if and only if the local lease does not outlast the renewal. |
| `LeaseOrder.OutOfOrderBreaks` | internal/scheduler/manager.go:357-359 | From every state that meets the invariant, after the zero instant, in which a manager is about to take a snapshot while it holds an unexpired lease younger than its reading, and another manager is free for that target: the snapshot and an orderly run after it lead to both holding an unexpired lease for it. |
| `LeaseOrder.SnapshotSafeIff` | internal/scheduler/manager.go:357-370 | In such states, with another manager free for every target that is out of order: after the snapshot all orderly runs keep exclusion if and only if the snapshot was in order. |
| `LeaseOrder.ExclusionNeedsOrder` | internal/scheduler/manager.go:357-370 | Such a state is reachable: from every initial fleet with two managers that use the store, some run breaks exclusion. |
| `LeaseOrder.Reserves` | internal/scheduler/manager.go:143-180 | The exclusion is not bought by refusing: a manager can reserve any target whose row is missing or expired, which is not active in it and whose circuit is closed. |
| `FleetModel.StatementsMean` | internal/metadata/postgres/store.go:294-341 | A statement of a manager takes effect in the table whatever reply the manager gets: a missing, expired or own row becomes the lease asked for, an own row unexpired at the renewer's clock reading is extended from there, an own row is deleted. |
| `Leases.UnexpiredIsSafe` | internal/metadata/postgres/store.go:294-341 | No statement sent for another worker or job before the expiry changes an unexpired row. |
| `Leases.AcquireThenRelease` | internal/metadata/postgres/store.go:294-341 | A granted lease that is released leaves exactly the table without a row for the target. |
| `Leases.Validate` | internal/scheduler/lease.go:23-40 | A lease is valid if and only if its three names and two times are set and it expires after now. |
| `Leases.LeaseTable.TryAcquireLease` | internal/metadata/postgres/store.go:294-315 | The upsert is granted if and only if the row is missing, expired or the caller's own, and writes exactly that row. |
| `Leases.LeaseTable.RenewLease` | internal/metadata/postgres/store.go:317-330 | The update is granted if and only if the row is the caller's own and unexpired, and writes exactly that row. |
| `Leases.LeaseTable.ReleaseLease` | internal/metadata/postgres/store.go:332-341 | The delete removes exactly the caller's own row, expired or not, and reports missing names. |
| `ManagerRuns.SingleFlightHolds` | internal/scheduler/manager.go:85-116 | In every reachable state `active` is exactly the set of targets with a request in flight, one request each; reservations minus releases of a target are 1 or 0 as it is active or not; every lease entry belongs to the job in flight for its target. |
| `ManagerRuns.TokensHold` | internal/scheduler/manager.go:243-282 | In every reachable state the tokens in each semaphore are the number of requests that hold it, within the cap; every receive of `release` finds a token, so its default branch is never taken; a cancelled `acquire` never blocks while giving back. |
| `ManagerRuns.CapsHold` | internal/scheduler/manager.go:243-282 | In every reachable state at most `maxGlobal` handlers run, at most `maxPerVendor` for targets of any one vendor, at most `maxPerGroup` for any one group and at most `maxPerSite` at any one site. |
| `ManagerRuns.TakesInOrder` | internal/scheduler/manager.go:243-258 | In every reachable state a request that holds n layers takes the next one if and only if fewer requests than the setting of that layer hold it for the same vendor, group or site. |
| `ManagerRuns.BusyRequestsFinish` | internal/scheduler/manager.go:211-268 | In every reachable state with a dequeued unfinished request some such request can step; some run finishes them all; no run of theirs, whatever is cancelled, is longer than the work there was. |
| `ManagerRuns.BreakerHolds` | internal/scheduler/manager.go:290-305 | In every reachable state the stored count is the number of failures the handler has returned since the last success it returned, up to one outcome still to be recorded; every reservation made at or past the threshold is no earlier than the last failure plus the open duration, although `reserve` reads its clock before it takes the lock. |
| `ManagerRuns.OutcomesRecorded` | internal/scheduler/manager.go:211-241 | In every reachable history each success or failure recorded for a target is what its handler last returned. |
| `ManagerRuns.AdmittedIff` | internal/scheduler/manager.go:143-155 | In every reachable state a request is admitted if and only if none for its target is in flight and its circuit is not open: fewer failures since the last success than the threshold, or the open duration after the last one is over. |
| `ManagerRuns.FailedRunRetries` | internal/scheduler/manager.go:218-239 | A success leaves no retry and closes the circuit; a failure counts in it, opens it from the threshold on, and leaves a request for the same target with the next attempt number if and only if its attempt is below `maxAttempts`. |
| `Submissions.SubmissionIsHandled` | internal/scheduler/manager.go:85-258 | From every reachable state in which the target is free, its circuit not open, its lease valid and room in all four layers, some run of a submission that waits for its time reaches the handler: with the attempt number given or 1, the target active, its lease recorded and one token more in each of its layers. |
| `Submissions.SuccessLeavesNothing` | internal/scheduler/manager.go:85-325 | When that handler succeeds, the run can end with every process, active target, lease and token count as before the submission and the circuit closed: nothing is left behind. |
| `Submissions.NoneIsStuck` | internal/scheduler/manager.go:85-370 | In every reachable state every process can take a step that is not a cancellation, unless it waits for room in a layer, and so can the renewer. |
| `RenewalRounds.RoundRenews` | internal/scheduler/manager.go:357-370 | From every reachable state with an idle renewer, a round in which the store grants every valid renewal renews every lease in the book to a lease period from its clock reading, and changes nothing else. |
| `RenewalRounds.RoundAsksAll` | internal/scheduler/manager.go:357-370 | A round begins with every lease in the book, asks for each once, whatever the store answers and whatever else happens, and ends with none left to ask for. |
| `Outcomes.LogMeans` | internal/scheduler/manager.go:85-241 | The history these statements are about records what happens: a target becoming active or free, a handler called, and what it returns. |
| `ManagerRuns.RetriesBounded` | internal/scheduler/manager.go:226-239 | A submission with attempt n calls the handler at most max(1, MaxAttempts - n + 1) times, so at most MaxAttempts times from attempt 0 or 1. |
| `ManagerRuns.FleetProjects` | internal/scheduler/manager.go:45-68 | Every manager of a fleet makes a run of a manager alone, so all of the above holds of each. |
| `ManagerRuns.StepSound` | internal/scheduler/manager.go:85-370 | The invariants behind these five theorems are kept by every step. |
| `Semaphores.ConservedProceed` | internal/scheduler/manager.go:243-282 | One step of one request keeps, for every semaphore, tokens equal to holders and within the cap. |
| `Semaphores.BlockedByFurther` | internal/scheduler/manager.go:243-258 | A request that blocks at a layer is blocked by a request that holds more layers than itself: the induction behind freedom from deadlock. |
| `Progress.StepUsesWork` | internal/scheduler/manager.go:211-241 | Every step of a dequeued request lowers a measure of the work left, also when it is cancelled or starts a retry. |
| `Settings.Normalize` | internal/scheduler/manager.go:379-429 | Defaulting turns any settings into normal ones (caps, attempts, threshold and durations at least 1) and leaves normal ones alone. |
| `Settings.GivenKept` | internal/scheduler/manager.go:379-429 | Every setting that is given is kept. |
| `Settings.DefaultsTaken` | internal/scheduler/manager.go:379-429 | Every other setting has its default: caps follow the global cap, renewal is a third of the lease period. |
| `JobManagers.JobManager.Reserve` | internal/scheduler/manager.go:143-180 | A reservation is refused for exactly the stated reasons and then leaves nothing behind; otherwise the target is active and the lease is in the book and in the table. |
| `JobManagers.JobManager.ReleaseReservation` | internal/scheduler/manager.go:307-325 | Frees the target and the lease entry, and deletes the row exactly if it is still this job's; without an entry the table is untouched. |
| `JobManagers.JobManager.RenewLeases` | internal/scheduler/manager.go:357-370 | One undisturbed round extends, in book and table alike, exactly the leases the table still grants, and changes nothing else. |
| `JobManagers.TakesStep` | internal/scheduler/manager.go:143-180 | A section that leaves the fields as a step of the transition system leaves them is that step in every manager with the same fields, whatever its processes and history. |
| `JobManagers.JobManager.MarkActive` | internal/scheduler/manager.go:144-155 | The first section of `reserve` turns away for exactly the stated reasons, and is the step `Enter`. |
| `JobManagers.JobManager.RecordLease` | internal/scheduler/manager.go:176-178 | The last section of `reserve` is the step `Record`. |
| `JobManagers.JobManager.TakeLease` | internal/scheduler/manager.go:317-325 | Removes and returns the entry, if any, and is the step `TakeLease`. |
| `JobManagers.JobManager.WriteBack` | internal/scheduler/manager.go:363-367 | Writes a renewed lease back only if its job still holds the target, and is the step `RenewWrite`. |
| `JobManagers.JobManager.RecordSuccess` | internal/scheduler/manager.go:290-294 | Afterwards the circuit of the target is closed with no failures counted, every other circuit is as before, and the section is the step `Report` of a run that succeeded. |
| `JobManagers.JobManager.RecordFailure` | internal/scheduler/manager.go:296-305 | Counts a failure, opens the circuit from the threshold on, and is the step `Report` of a run that failed. |
| `JobManagers.JobManager.Acquire` | internal/scheduler/manager.go:243-258 | Takes one token in each of the four semaphores, or, when cancelled at any layer, leaves every count as it was. |
| `JobManagers.JobManager.Release` | internal/scheduler/manager.go:260-268 | Gives back exactly the four tokens of the target. |
| `Backoff.BackoffDelay` | internal/scheduler/manager.go:431-440 | The loop, in wrapping 64-bit arithmetic, doubles until the maximum cuts it off. |
| `Backoff.BackoffExactIff` | internal/scheduler/manager.go:431-440 | For every attempt the delay is min(initial * 2^(attempt-1), max), if and only if no doubling below the maximum leaves the int64 range. |
| `Backoff.SmallSettingsFit` | internal/scheduler/manager.go:431-440 | An initial delay below 2^62 ns and a maximum of at most 2^62 ns meet that condition. |
| `Backoff.BackoffMonotoneIff` | internal/scheduler/manager.go:431-440 | The delay never shrinks from one attempt to a later one, if and only if no doubling below the maximum overflows and the initial delay is at most the maximum. |
| `Backoff.BackoffOverflow` | internal/scheduler/manager.go:431-440 | With both settings at 2^62 ns the second attempt waits a negative time. |
| `Windows.NextAllowed` | internal/scheduler/schedule.go:135-159 | The search returns the first allowed instant among the candidate and the minute marks after it, or nothing up to one year on; its two flags say exactly whether windows or blackouts forbade one of the instants before. |
| `Windows.AllowedAt` | internal/scheduler/schedule.go:171-190 | The two loops decide whether some window holds the instant and no blackout does, and which of the two forbids it. |
| `Windows.ContainsMeans` | internal/scheduler/schedule.go:192-250 | A window holds an instant if and only if an opening on one of its days is under way on the local clock; a window past midnight counts by the day on which it opens, and equal bounds mean the whole day. |
| `WindowSearch.SearchExactIff` | internal/scheduler/schedule.go:135-159 | From every candidate the result is the least allowed instant among all nanoseconds, or there is none within the year, if and only if the schedule opens on whole minutes only. |
| `WindowSearch.AlignedSearchExact` | internal/scheduler/schedule.go:135-212 | Schedules whose windows open, and whose blackouts close, on whole minutes, or have equal bounds, are searched exactly, in any locations. |
| `WindowSearch.SearchIsClosure` | internal/scheduler/schedule.go:135-159 | The search is extensive, monotone and idempotent. |
| `WindowSearch.CutoffComplete` | internal/scheduler/schedule.go:148-158 | With fixed offsets the error is returned if and only if no instant is ever allowed, before or after. |
| `WindowSearch.WaitsLessThanAWeek` | internal/scheduler/schedule.go:148-158 | With fixed offsets a target waits less than a week if it is ever allowed. |
| `WindowSearch.SecondsAreMissed` | internal/scheduler/schedule.go:144-157 | A window from 00:00:30 to 00:00:45, open every day, is never found from outside it. |
| `Calendar.YearsOnUTC` | internal/scheduler/schedule.go:148 | The deadline n years on is at least 365 n days later and keeps the second. |
| `Calendar.FromLocalShows` | internal/scheduler/schedule.go:461 | The wall clock shows the reading of the deadline there if and only if the offset there is the one in force at the first guess. |
| `Calendar.WeekdaysFollow` | internal/scheduler/schedule.go:471-481 | Weekdays follow each other in order, from Thursday 1 January 1970. |
| `Planners.NewPlanner` | internal/scheduler/schedule.go:55-77 | A planner is built if and only if the cron text is blank or parses and every window has bounds within a day. |
| `Planners.MaxJitterExactIff` | internal/scheduler/schedule.go:122-133 | Without an explicit maximum the jitter bound is the percentage of the interval, rounded down, if and only if their product fits in 64 bits. |
| `Planners.MaxJitterSettings` | internal/scheduler/schedule.go:122-133 | Without a percentage there is no jitter, an explicit maximum stands, and without an interval the bound is zero. |
| `Planners.JitterVanishes` | internal/scheduler/schedule.go:122-133 | At an interval of 1068 days and 100 percent the bound is negative and no target gets any jitter. |
| `Planners.JitterFor` | internal/scheduler/schedule.go:99-133 | The jitter lies between 0 and the maximum, whatever the jitter function returns and even if the maximum overflows. |
| `Planners.QueueTime` | internal/scheduler/schedule.go:99-120 | Stated on the windows and blackouts of the planner: the target is queued at an instant in no blackout that concerns it and in some window that concerns it, if one does, where each selector is empty or holds the group, site, vendor or role of the target; the jittered time is the base time plus a jitter within bounds; the flags say what forbade it; with openings on whole minutes the instant is the least such from there, and without a decision none follows within the year. |
| `Planners.DecisionRight` | internal/scheduler/schedule.go:99-190 | The same of the decision as a function of the planner, the base time and the target. |
| `Planners.QueuedWhenAllowed` | internal/scheduler/schedule.go:99-120 | A target is queued at an allowed instant, not before its base time plus jitter, at that time exactly if it is allowed, and otherwise with a flag that says why; when windows open and blackouts close on whole minutes, at the least allowed instant. |
| `CronFields.ParseCronField` | internal/scheduler/schedule.go:377-408 | The loops, in 64-bit arithmetic, collect what the parts sweep out, or the first error; they terminate although the loop variable may overflow. |
| `CronFields.PartExactIff` | internal/scheduler/schedule.go:398-405 | The values of a part are those from start to end congruent to start modulo the step, with 7 folded to 0 for weekdays, if and only if the first step stays in the int64 range. |
| `CronFields.FieldExactIff` | internal/scheduler/schedule.go:377-408 | The values of a field are the union of what its parts denote, if and only if no part overflows; otherwise the field has a negative value. |
| `CronFields.FieldRangeIff` | internal/scheduler/schedule.go:377-408 | All values of a field lie within its bounds, with Sunday folded to 0, if and only if no part overflows. |
| `CronSpecs.OverflowAccepted` | internal/scheduler/schedule.go:384-405 | The minute field "5/n" with n = 2^63-1 in decimal is accepted, and also matches minutes 3 and 1. |
| `CronSpecs.StepTextParses` | internal/scheduler/schedule.go:384-408 | Every field "n/k" in decimal, within bounds and with k up to 2^63-1, is read as the progression from n, to n, by k. |
| `CronTexts.WrittenExpressionReads` | internal/scheduler/schedule.go:349-375 | Every expression that can be written with "*", numbers, names in any case, ranges, steps and lists is read back as what was written: five fields, each the union of its parts, a wildcard only where it is "*" alone; or the first refusal. Any other number of fields is refused. |
| `CronTexts.WrittenFieldReads` | internal/scheduler/schedule.go:377-408 | Every written field is read as the union of the progressions its parts stand for, if and only if none of them overflows; otherwise its first refused part decides. |
| `CronTexts.PartReads` | internal/scheduler/schedule.go:379-405 | Every written part, with any white space around it, is read as its span by its step, or refused: a step that is no positive int64 first, then a value that is none, a descending range, and a value out of bounds. |
| `CronTexts.AtomReads` | internal/scheduler/schedule.go:445-457 | A number up to 2^63-1 is read as itself and a name, in any case, as what it is an alias of; nothing else is a value. |
| `CronTexts.LowerSpells` | internal/scheduler/schedule.go:445-446 | A name stands for an alias if and only if it is spelled with the same letters, capital or not. |
| `CronTexts.SignedSteps` | internal/scheduler/schedule.go:384-393 | A step with a plus sign is read as without; one with a minus sign is refused. |
| `CronTexts.SecondStepRefused` | internal/scheduler/schedule.go:384-396 | A second "/" in a part is refused. |
| `CronTexts.SecondDashRefused` | internal/scheduler/schedule.go:414-418 | A second "-" in a range is refused. |
| `CronTexts.BlankPartRefused` | internal/scheduler/schedule.go:380-383 | A part of white space is refused. |
| `CronTexts.MonthsMean` | internal/scheduler/schedule.go:487-500 | A month name stands for the month that it abbreviates, to three letters at least. |
| `CronTexts.WeekdaysMean` | internal/scheduler/schedule.go:502-510 | A weekday name stands for the weekday that it abbreviates, counted from Sunday. |
| `CronSpecs.AcceptedRangeIff` | internal/scheduler/schedule.go:377-408 | The values of every accepted field text lie within its bounds if and only if no part of the text has an overflowing step. |
| `CronSpecs.AcceptedWellFormed` | internal/scheduler/schedule.go:349-375 | Every accepted expression has, in each field, a value within the bounds of the field, and all of them where it is "*"; all values of all fields are within bounds if and only if no part has an overflowing step. |
| `CronSpecs.ParseCron` | internal/scheduler/schedule.go:349-375 | The five fields are parsed in order with their bounds and aliases; the first error is returned. |
| `CronSearch.NextMatchFirst` | internal/scheduler/schedule.go:459-469 | In every location the result is the first matching minute strictly after the given instant, or none matches up to the deadline. |
| `CronSearch.SelectedIff` | internal/scheduler/schedule.go:471-481 | In every location an expression matches an instant if and only if what a wall clock shows there is in its fields; of two restricted day fields one is enough, otherwise both count. |
| `CronSearch.DayFieldsCombine` | internal/scheduler/schedule.go:471-481 | With both day fields restricted an expression matches what it matches with the one or with the other replaced by "*"; with one of them "*", what it matches with each replaced. |
| `CronSearch.NextMatchCombines` | internal/scheduler/schedule.go:459-481 | So its next time, with both restricted, is the earlier of the next times with the one and with the other replaced by "*". |
| `CronSearch.CronNext` | internal/scheduler/schedule.go:459-469 | The loop computes it. |
| `CronSearch.NeverGivesUpIff` | internal/scheduler/schedule.go:459-481 | In UTC an accepted expression finds a match within five years of every instant, if and only if its weekday field is not "*" or one of its months has, every year, one of its days. |
| `Sweepers.Sweep` | internal/app/app.go:201-235 | Over any number of rounds the bases are, with a cron expression, exactly the matching minutes after the start up to the last base, in strictly increasing order, and with an interval the multiples of it from the start; every request of round i is for an enabled target, at a time that is right for base i; the loop stops early if and only if no base follows. |
| `Sweepers.ScheduleGrows` | internal/scheduler/schedule.go:79-97 | Appending what `NextBase` returns keeps the enumeration complete, with no minute skipped or repeated. |
| `Sweepers.StopsAtGap` | internal/scheduler/schedule.go:459-469 | When the loop stops with a cron expression, no minute of the next five years matches. |
| `Sweepers.SweepsForever` | internal/app/app.go:211-233 | In UTC a recurring expression, and anywhere a positive interval, never stops the loop. |
| `Sweepers.OrdersExactly` | internal/app/app.go:237-257 | A sweep makes a request for exactly the enabled targets that have a decision, at the decided instants. |
| `Sweepers.RoundMeans` | internal/app/app.go:237-257 | A round makes requests for exactly the enabled targets for which a time is found, each at a right time for the base of the round; a failing inventory makes none. |
| `Sweepers.OrdersInOrder` | internal/app/app.go:237-257 | Requests come in inventory order. |
| `Sweepers.EnqueueSweep` | internal/app/app.go:237-257 | The loop over the inventory makes these requests, in inventory order. |
| `EditScripts.ScriptApplies` | internal/pipeline/diff.go:21-38 | The edit script turns the old lines into the new ones and applies to no other list. |
| `EditScripts.ChoiceAtCursors` | internal/pipeline/diff.go:21-38 | Each line emitted is decided by the two cursors: added if and only if the new line is absent from the next six old lines, kept if and only if the lines at the cursors are equal, otherwise the old line is removed. |
| `EditScripts.DropRunShape` | internal/pipeline/diff.go:21-38 | A maximal run of removed lines is at most five long and followed at once by context, or is the final tail after all new lines are consumed. |
| `EditScripts.NoChangesIff` | internal/pipeline/diff.go:21-38 | There are no changes if and only if the line lists are equal; additions minus removals is the change of length. |
| `Diffs.ContainsAhead` | internal/pipeline/diff.go:57-68 | The loop finds a value if and only if it is among the next lines, clipped at the end. |
| `Diffs.Compare` | internal/pipeline/diff.go:19-38 | The two-cursor loop emits the lines and counts of the edit script; its branch that emits nothing is unreachable. |
| `Diffs.UnifiedDiff` | internal/pipeline/diff.go:10-46 | The target, the revisions, the text and the counters of the result, or the error of a cancelled context. |
| `Diffs.DiffReversible` | internal/pipeline/diff.go:10-46 | For all contents and newline-free revision names both line lists can be read back from the text, and the operations read back turn the old lines into the new. |
| `Diffs.DiffCounts` | internal/pipeline/diff.go:10-46 | The counters are the numbers of marked lines after the header; both are zero if and only if the contents are equal up to line endings and a final newline. |
| `Diffs.SameLinesIff` | internal/pipeline/diff.go:48-55 | Two contents have the same lines if and only if they are equal once "\r\n" is "\n" and one final newline is dropped. |
| `Diffs.EndingsRead` | internal/pipeline/diff.go:48-55 | Lines written each with "\n" or with "\r\n" are read back as those lines, whichever ending each has. |
| `Diffs.EndingsAreNoChange` | internal/pipeline/diff.go:10-55 | Between two texts of the same lines nothing is added or removed, whichever line endings each uses. |
| `GitStore.LatestCommitForFile` | internal/storage/gitstore/store.go:326-366 | The scan from the head finds the newest commit that touches the file. |
| `GitStore.TouchingCommits` | internal/storage/gitstore/store.go:135-160 | The scan of a history query yields the touching commits, newest first: all of them, or as many as the limit, which is 100 when not positive. |
| `GitStore.Store.Save` | internal/storage/gitstore/store.go:41-101 | A save is a function of the repositories; cancelled, it changes nothing. |
| `GitStore.Store.Latest` | internal/storage/gitstore/store.go:103-124 | Returns the content and newest commit of some file that the search by name finds, and an error if and only if there is none. |
| `GitStore.Store.History` | internal/storage/gitstore/store.go:126-161 | Returns the touching commits of some such file, or an error if and only if there is none. |
| `GitHistory.RunHolds` | internal/storage/gitstore/store.go:41-161 | After any interleaving of saves, wherever targets move, the file at each place has, in the log shared by its shard, exactly the versions of the saves to that place. |
| `GitHistory.RunAgrees` | internal/storage/gitstore/store.go:41-161 | So a target that keeps its place has exactly the versions that its own saves alone give it. |
| `GitHistory.SaveMeans` | internal/storage/gitstore/store.go:62-100 | A save reports a change if and only if it is the first of its target or its content differs from the last; its identifier and parent are those of the target's own versions. |
| `GitHistory.LatestMeans` | internal/storage/gitstore/store.go:103-124 | What the store reads for a target is its last saved content, with the identifier of its last changed save. |
| `GitHistory.HistoryMeans` | internal/storage/gitstore/store.go:126-161 | The history is exactly the changed saves of the target, newest first: all of them, or as many as the limit, which is 100 when not positive. |
| `GitHistory.LocatedIff` | internal/storage/gitstore/store.go:220-236 | The search by name finds the target's own file and no other, as soon as it was saved. |
| `GitHistory.LatestRightIff` | internal/storage/gitstore/store.go:103-124 | For every run with distinct commit identifiers: each file found by the name of a target is what its last save left if and only if all its saves were to one shard and vendor. |
| `GitHistory.MovedTargetIsStale` | internal/storage/gitstore/store.go:220-236 | For example, after a target moves to another shard the search can still find the file it left, with old content. |
| `Backups.BackupRunner.Handle` | internal/worker/backup.go:84-112 | Reads the latest configuration, saves, and records the diff from what was read exactly when the save is a change; cancelled at the save it changes nothing, cancelled between save and diff it keeps the version and loses the diff. |
| `Backups.HandleIsRecorded` | internal/worker/backup.go:84-108 | What the handler does when no diff is lost is, for its target and for all others, what the next row assumes of one more backup. |
| `Backups.HistoryReplays` | internal/worker/backup.go:84-99 | For backups of a target run one at a time, interleaved with those of any others between reading and saving, the diffs recorded after the first turn the lines of its first saved configuration into the lines of its latest, and each record leads from the revision of one version to the next, with counters that balance the numbers of lines. |
| `Bench.MinWorker` | cmd/goxidized-bench/main.go:230-238 | The first index of a least value. |
| `Bench.Schedule` | cmd/goxidized-bench/main.go:81-93 | The loop, in place on the array of workers, computes the schedule that the next rows are about. |
| `Bench.FullSweep` | cmd/goxidized-bench/main.go:70-93 | With its defaults for settings that are not positive. |
| `Bench.StartsInOrder` | cmd/goxidized-bench/main.go:83-93 | Sessions start in nondecreasing order, none before its gate. |
| `Bench.ConcurrencyBound` | cmd/goxidized-bench/main.go:81-93 | At no instant do more than `concurrency` sessions overlap. |
| `Bench.CompletionBound` | cmd/goxidized-bench/main.go:83-93 | Each completion is at most its own gate, plus all earlier work divided by `concurrency`, plus its own duration. |
| `Bench.SweepProper` | cmd/goxidized-bench/main.go:84-90 | The gates and durations of the simulation meet what these bounds need. |
| `Bench.DurationClass` | cmd/goxidized-bench/main.go:214-223 | Sessions take from 2.8 s to less than 6.3 s, every 37th 8 s more and every 211th 22 s more. |
| `Bench.SweepBounds` | cmd/goxidized-bench/main.go:70-93 | Session i of the simulation completes no earlier than i / rate plus its own duration, and no later than that plus an equal share of all earlier work. |
| `Bench.SweepConcurrency` | cmd/goxidized-bench/main.go:70-93 | In the simulation no more than `concurrency` sessions overlap, at any rate. |

## Left out

- The order and the capacity of the queue: any queued request may be dequeued next, which allows every order a channel has and more.
- The token-bucket limiter: its wait is a step that succeeds or is cancelled.
- The defaults that `prepare` fills in besides the attempt number and the job identifier, and the text of errors.
- The defaults of the connection rate, the worker identifier and the clock, which are not settings of the model.
- Clock values and weekday lists as texts: windows hold them read.
- Fairness between goroutines: completion is stated as freedom from deadlock, a bound on every run and a run that finishes.
- Stopping a handler whose lease has lapsed: the code does not, so the model does not.
- `JobManagers.JobManager`: its methods are the mutex sections and the undisturbed calls built from them; interleaving is in the transition system, and its semaphore loops are tied to it by their effect on the counts only.
- `LeaseExclusion.Exclusion`: proved for runs with snapshots in order; that this is needed is `LeaseOrder.ExclusionNeedsOrder`.
- `CronSearch.NeverGivesUpIff`: for UTC, where the calendar model needs no transitions; `CronSearch.NextMatchFirst` is for every location.
- `WindowSearch.CutoffComplete`: for fixed offsets, since a location with changing offsets has no weekly period.
- Locations with offsets of fractions of a minute, and named time zones.
- String functions on characters outside ASCII.
- `Diffs.DiffReversible`: for revision names without newlines, which commit identifiers are.
- `GitHistory.RunAgrees`: assumes that a target keeps its shard and vendor; `GitHistory.RunHolds` does not. Both take sanitized names to be distinct and no write to fail between file and commit.
- `Backups.BackupRunner.Handle`: failures of the metadata store, transports, drivers, redaction, audit and notifications.
- `ClassifyRisk`, the regular expressions of drivers and redaction, and the diff of two named revisions.
- `Bench.FullSweep`: the sorting of completions, their truncation to whole milliseconds and the percentiles.
- `Diffs.UnifiedDiff`: the risk level, categories and rule hits of the result, which `ClassifyRisk` finds.
- `GitStore.Store.Latest`: which of several files the search by name returns first, an order of paths; `GitHistory.LatestRightIff` covers every choice.
- `GitStore.Store.History`: the same choice among several files.
- HTTP, authentication, inventories, configuration files and the other PostgreSQL statements.
