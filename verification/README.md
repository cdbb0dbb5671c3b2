# Verified models of Junior's scheduler, memory store and dashboard accounting

Dafny 4.11 models of the stateful cores of the Junior repository, with proofs of what those cores are for.
`dafny verify dfyconfig.toml` checks everything.

**Scheduler** (`packages/junior-scheduler`). `SqlSchedulerStore` is a class over a task table and a run table; each of its
calls is one atomic step (`SchedulerStore`), specified by a function on the two tables (`SchedulerModel`). `SchedulerRuns`
says how one call can change a run row, `SchedulerHistory` how often an occurrence is created, dispatched and finished over
any history of calls, `SchedulerSafety` what keeps runs of one entry apart, fences old claims and advances an entry once,
and `ClaimScan` what the claim scan picks and what recovery of missed runs may not lose. `HeartbeatCaller` is a heartbeat as
a caller: what it has in hand between two store calls (its frozen time, the rows it listed, the run it claimed, the mark it
won) and its next call. `SchedulerSystem` interleaves the calls of any number of heartbeats with edits in every possible
way, and draws the results together for all runs from an empty store. `SchedulerLaws` and `HeartbeatLaws` state what claims,
recovery, marks, advances and each answer of the agent runtime leave, on the fields of the rows. `Heartbeat` is the plugin's
loop as methods on the class, proved to make exactly the moves of that caller. `SchedulerSeries` says how long recurring
entries keep going, and `TaskIndex` covers the id lists of the key-value store.

**Recurrences** (`cadence.ts`). `Calendar` is the proleptic Gregorian calendar of section 21.4.1 of ECMA-262, pinned to its
epoch in `CalendarLaws`, `LocalTime` the search for the instant that shows a local time in a zone given as an arbitrary
offset function, `Cadence` the search for the next run, `NextRunLoops` the program's four loops proved against it, `Series`
what happens when a recurrence is followed from run to run, and `GridSearch` the next run by its meaning, the earliest date
of the grid that is still to come.

**Memories** (`packages/junior-memory`). `MemoryModel` has the two tables and what a write does to them, with the embedding
provider, the vector index and the supersession decider as arbitrary functions; `MemoryInvariants` and `MemoryHistory` prove
what every history keeps; `MemoryStore` is the store as a class, its methods proved against the model; `MemoryLaws` states
what a write leaves on the fields of the rows, and which contexts share a scope.

**Dashboard** (`packages/junior-dashboard`, `packages/junior/src/chat/usage.ts`). `Transcript` merges tool activity into the
messages of a turn, with results in `TranscriptResults`, `TranscriptShown`, `TranscriptActivity` (what is shown) and
`TranscriptOrder` (where and in what order); `Usage` and `UsageLaws` add up token usage; `Contributions`, `Stats` and
`StatsReport` attribute cumulative durations and tokens to runs, requesters and locations, with the orders, labels and
counts of the report in `StatsLaws`.

What the proofs show that the code's own text does not say:

- A weekly series on its start's own weekday has a next run if and only if the last whole number of intervals within the 3660
  days searched is positive and its day is still to come. So it stops after its first run when the interval is 523 weeks or
  more, and also, for every interval, when the search begins some ten years after the slot
  (`Series.WeeklySeriesContinuesIff`, `Series.LateSearchFindsNothing`).
- A recurrence anchored in a year with more than four digits writes a start date that it cannot read back, and never fires
  (`Series.BuiltIsAnchored`, `Calendar.DateTextRoundTrip`).
- A task with an empty id is stored and listed by no index, since the lists drop empty strings
  (`TaskIndex.IndexesAreAlwaysExact`, `TaskIndex.EmptyIdIsNeverListed`).
- Two runs of one entry can be running at once, with a single clock and from an empty store: it takes a dispatch that is
  recorded after its claim went stale and another occurrence was claimed (`SchedulerSafety.LateDispatchRunsTwo`). Nothing
  else is needed to exclude it than that no accepted dispatch is overtaken in this way; the clocks of callers may disagree
  (`SchedulerSafety.AtMostOneRunIsEverRunning`), and it is enough that each heartbeat records its dispatches within a minute
  of its beginning (`SchedulerSystem.MutualExclusion`).
- A finished occurrence is repeated only through the reactivation of a blocked one; every "at most once" therefore counts
  the reactivations (`SchedulerHistory.HistoryBounds`).
- Writing a memory fails after it has archived expired ones when a Slack source has neither a thread nor a message time and
  the write is not a retry (`MemoryStore.Store.CreateScopedMemory`).
- The id given to archive a memory is a LIKE pattern. It selects by prefix, as its name and its error message say, if and only
  if it has no percent sign, underscore or backslash (`MemoryStore.SelectsByPrefixIff`).
- A tool call that has activity is shown once only if the source shows it at most once: a repeated part is shown again as it
  is (`TranscriptShown.ShownExactlyOnceIff`, `TranscriptShown.RepeatedCallIsShownTwice`).
- Activity placed by its time can be shown before an earlier source message, even if the source times ascend: a call that was
  placed before its result, although it is later, draws it there. Without such a call it cannot
  (`TranscriptOrder.ActivityStandsByTime`, `TranscriptOrder.LateCallMisleads`).
- A slot in a skipped local time stays on its date unless the gap carries it over midnight; then a monthly, yearly or longer daily
  series leaves its grid (`Series.ShowsItsDateIff`, `Series.LeavingTheDateLeavesTheGrid`).
- A usage whose tokens are all zero has an aggregate but no summary (`Usage.AggregateAndSummaryKeepTheTotal`).

## Model

| member | source | states |
|---|---|---|
| Calendar.CivilDate | packages/junior-scheduler/src/cadence.ts:169-176 | the date read off a day number is valid and has that day number |
| Calendar.CivilRoundTrip | packages/junior-scheduler/src/cadence.ts:162-176 | a valid date survives conversion to a day number and back |
| Calendar.DayNumberOrders | packages/junior-scheduler/src/cadence.ts:162-167 | comparing dates by their UTC value is comparing them in calendar order, and equal values mean equal dates |
| Calendar.DaysInMonthIsLength | packages/junior-scheduler/src/cadence.ts:178-180 | day 0 of the next month is the last day of the month, in leap years and in December too |
| Calendar.ParsedDateIsValid | packages/junior-scheduler/src/cadence.ts:182-204 | whatever text is accepted as a start date is a date of the calendar |
| Calendar.DateTextRoundTrip | packages/junior-scheduler/src/cadence.ts:182-212 | a written date reads back as itself if its year has at most four digits, and is rejected otherwise |
| CalendarLaws.MonthStarts | packages/junior-scheduler/src/cadence.ts:162-167 | the days before each month of a common and of a leap year, month by month |
| CalendarLaws.WeekdaysFromTheEpoch | packages/junior-scheduler/src/cadence.ts:92-94 | 1 January 1970 is day 0 and a Thursday, with Sunday as 0, and the weekday goes up by one from day to day and back to 0 after 6 |
| LocalTime.OffsetDropsMilliseconds | packages/junior-scheduler/src/cadence.ts:97-133 | the offset computed from formatted parts is the zone's offset less the milliseconds of the clock reading |
| LocalTime.LocalDateTimeToTimestamp | packages/junior-scheduler/src/cadence.ts:135-160 | the loop computes the specified conversion, whose meaning the following rows state |
| LocalTime.ResolvedIsNear | packages/junior-scheduler/src/cadence.ts:135-160 | in any zone the chosen instant is a whole second less than a day from the reading taken as UTC |
| LocalTime.FixpointShowsRequest | packages/junior-scheduler/src/cadence.ts:151-157 | the rounds end in a fixpoint if and only if the zone's clock then shows exactly the requested date and time |
| LocalTime.ExactIffLocalTimeExists | packages/junior-scheduler/src/cadence.ts:148-160 | with at most one offset change nearby, the conversion is exact if and only if some instant shows the reading |
| LocalTime.SkippedTimeMovesByTheGap | packages/junior-scheduler/src/cadence.ts:148-160 | a reading in a skipped interval is displaced by exactly the gap, and in which direction |
| LocalTime.RepeatedTimeChoice | packages/junior-scheduler/src/cadence.ts:148-160 | which of the two instants a repeated reading resolves to |
| LocalTime.FourCorrections | packages/junior-scheduler/src/cadence.ts:148-160 | the loop with its early exit is, in every zone, exactly four corrections of the reading taken as UTC |
| Cadence.NextRunIsFirstAfter | packages/junior-scheduler/src/cadence.ts:237-394 | the next run is strictly later than the given time, every grid date looked at before is invalid or not later, and no next run means an unusable recurrence or an exhausted search that is not daily |
| Cadence.NextRunIsLater | packages/junior-scheduler/src/cadence.ts:450-501 | a next run, if there is one, is strictly later than the given time |
| Cadence.DailyAlwaysHits | packages/junior-scheduler/src/cadence.ts:261-268 | the unbounded daily loop ends, in every zone with bounded offsets and for every positive interval |
| NextRunLoops.DailyNextRun | packages/junior-scheduler/src/cadence.ts:237-270 | the daily loop terminates and finds the specified next run |
| NextRunLoops.WeeklyNextRun | packages/junior-scheduler/src/cadence.ts:272-318 | the weekly loop over single days finds the specified next run; on which days that can be is `GridSearch.WeeklyRunsAreOnChosenDays` |
| NextRunLoops.MonthlyNextRun | packages/junior-scheduler/src/cadence.ts:320-357 | the monthly loop, with its clamping to the start month and its skipping of short months, finds the specified next run |
| NextRunLoops.YearlyNextRun | packages/junior-scheduler/src/cadence.ts:359-394 | the yearly loop, with its clamping to the start year and its skipping of common years, finds the specified next run |
| NextRunLoops.GetNextRun | packages/junior-scheduler/src/cadence.ts:459-500 | the dispatch over frequencies, with the rejection of intervals that are not positive, finds the specified next run |
| Series.BuiltIsAnchored | packages/junior-scheduler/src/cadence.ts:397-447 | a built recurrence is usable and anchored on the local date of its instant if and only if that year has at most four digits, and otherwise never fires |
| Series.GridDatesStayOnGrid | packages/junior-scheduler/src/cadence.ts:237-394 | from a date on the anchor's grid every date the search yields is a valid date on that grid |
| Series.UnskippedIsExact | packages/junior-scheduler/src/cadence.ts:225-235 | a slot that is not in a skipped interval is at exactly the anchor's wall-clock time |
| Series.SeriesKeepsGrid | packages/junior-scheduler/src/cadence.ts:397-501 | followed for any number of steps taken at any times, a series stays on the anchor's grid and strictly increases while each slot shows its own date |
| Series.SeriesKeepsGridAndTime | packages/junior-scheduler/src/cadence.ts:397-501 | it also keeps the anchor's wall-clock time while no slot falls in a skipped local time |
| Series.ShowsItsDateIff | packages/junior-scheduler/src/cadence.ts:135-160 | near at most one change of offset, a slot shows its own date if and only if its time exists or the gap does not carry it over midnight |
| Series.LeavingTheDateLeavesTheGrid | packages/junior-scheduler/src/cadence.ts:135-160 | for monthly, yearly and longer daily intervals a slot that leaves its date is off the grid, and only such a slot |
| Series.WeeklySlotStaysOnTheGridIff | packages/junior-scheduler/src/cadence.ts:292-304 | a weekly slot that shows another day is on the grid if and only if that day is a chosen weekday of the same week counted from the start, or of any week for interval 1 |
| Series.OffGridStaysOff | packages/junior-scheduler/src/cadence.ts:248-268 | a daily series that has left its grid never returns to it, and one on it stays |
| Series.LeapYearWithin16Steps | packages/junior-scheduler/src/cadence.ts:375-391 | from a leap year, stepping by any positive interval meets a leap year within 16 steps |
| Series.LeapYearInEvery16Steps | packages/junior-scheduler/src/cadence.ts:375-391 | one of any 16 consecutive steps from a leap year is a leap year |
| Series.SixteenStepsCanBeNeeded | packages/junior-scheduler/src/cadence.ts:375-391 | sixteen is the best such bound |
| Series.NoTwoShortMonthsInARow | packages/junior-scheduler/src/cadence.ts:336-345 | a monthly rule with interval 1 never skips two months in a row |
| Series.SameMonthInEvery16 | packages/junior-scheduler/src/cadence.ts:320-394 | in any 16 consecutive intervals of years the anchor's month has room for the anchor's day |
| Series.GridDatesAscend | packages/junior-scheduler/src/cadence.ts:272-394 | later attempts look at later dates, four weeks or more apart in a monthly or yearly search |
| Series.ContinuesIff | packages/junior-scheduler/src/cadence.ts:272-394 | for every rule that is not daily and every time to search after, there is a next run if and only if the last date looked at comes after it (in a weekly search, that or the day before it) |
| Series.LateSearchFindsNothing | packages/junior-scheduler/src/cadence.ts:272-394 | no such rule has a next run for a search that begins too late, and from when on |
| Series.MonthlyContinues | packages/junior-scheduler/src/cadence.ts:336-356 | from a slot on its grid a monthly series has a next run for every positive interval and every search that begins up to 85 intervals of years after the slot |
| Series.YearlyContinues | packages/junior-scheduler/src/cadence.ts:375-393 | the same for a yearly series |
| Series.WeeklyContinues | packages/junior-scheduler/src/cadence.ts:288-317 | from its start or a slot on its grid a weekly series of up to 522 weeks has a next run for every search that begins one interval before the end of the 3660 days searched |
| Series.SeriesContinues | packages/junior-scheduler/src/cadence.ts:450-501 | an anchored series has a next run whenever it is asked for by the horizon of its slot, a daily one always |
| Series.SeriesNeverEnds | packages/junior-scheduler/src/cadence.ts:397-501 | followed for any number of steps, each taken by the horizon of the slot before it, an anchored series never ends |
| Series.WeeklySeriesContinuesIff | packages/junior-scheduler/src/cadence.ts:288-317 | on the start's own weekday, for every interval and every time to search after, there is a next run if and only if the last whole number of intervals within 3660 days is positive and its day comes after that time; it is positive up to 522 weeks |
| GridSearch.NextRunIsEarliestOnTheGrid | packages/junior-scheduler/src/cadence.ts:237-394 | from a slot on its grid, a series' next run is at the earliest grid date behind the slot whose instant comes after the given time, and there is none only if no grid date within reach has such an instant |
| GridSearch.UnusableNeverFires | packages/junior-scheduler/src/cadence.ts:237-394 | a recurrence with no positive interval, no readable start date, or without the valid weekdays, day or month that its frequency needs (zero included) never fires |
| GridSearch.WeeklyRunsAreOnChosenDays | packages/junior-scheduler/src/cadence.ts:272-318 | a weekly next run lies a whole number of weeks behind Sunday, 4 January 1970, plus a chosen weekday |
| GridSearch.BuiltKeepsTheRequest | packages/junior-scheduler/src/cadence.ts:397-447 | a built recurrence has the frequency asked for, the interval if it is positive and 1 otherwise, and exactly the valid weekdays asked for, or the weekday of its own date if there are none |
| GridSearch.BuiltKeepsTheInstant | packages/junior-scheduler/src/cadence.ts:397-447 | on its own date it fires at the minute it was built at, if the offset does not change nearby |
| SchedulerModel.NextOccurrenceIsLater | packages/junior-scheduler/src/cadence.ts:449-466 | the next occurrence of a scheduled entry is strictly later than the given time |
| SchedulerModel.EarlierIsTotalOrder | packages/junior-scheduler/src/store.ts:455-460 | age then id orders entries strictly and totally |
| SchedulerModel.Ordered | packages/junior-scheduler/src/store.ts:1288-1291 | the ordered query lists exactly the selected rows, strictly oldest first |
| SchedulerStore.SqlSchedulerStore.SaveTask | packages/junior-scheduler/src/store.ts:1221-1227 | writes the row on top of the one that is there, with the reactivation rule |
| SchedulerStore.SqlSchedulerStore.SaveTaskRecord | packages/junior-scheduler/src/store.ts:1229-1252 | reactivating a blocked entry forgets its next slot's run only if that run is blocked, and nothing else of the run table changes |
| SchedulerStore.SqlSchedulerStore.ClaimDueRun | packages/junior-scheduler/src/store.ts:1266-1350 | the loop over the due rows refines the specified scan, including the rows it rewrites on the way |
| SchedulerStore.SqlSchedulerStore.SkipMissedRun | packages/junior-scheduler/src/store.ts:1352-1407 | leaves the two tables as specified for a run given up as missed, or untouched when the slot has moved; the rows it leaves are in `SchedulerLaws.ClaimRecovers` |
| SchedulerStore.SqlSchedulerStore.UpdateRun | packages/junior-scheduler/src/store.ts:1624-1644 | replaces one run row if it exists and the update accepts it, and changes nothing otherwise |
| SchedulerStore.SqlSchedulerStore.MarkRunDispatched | packages/junior-scheduler/src/store.ts:1444-1460 | succeeds exactly on a pending run with the caller's claim stamp |
| SchedulerStore.SqlSchedulerStore.MarkRunCompleted | packages/junior-scheduler/src/store.ts:1462-1479 | succeeds exactly on a run that may finish for the caller's start time |
| SchedulerStore.SqlSchedulerStore.MarkRunFailed | packages/junior-scheduler/src/store.ts:1481-1497 | the same for failures, with or without a start time |
| SchedulerStore.SqlSchedulerStore.MarkRunSkipped | packages/junior-scheduler/src/store.ts:1499-1514 | succeeds exactly on a pending run |
| SchedulerStore.SqlSchedulerStore.MarkRunBlocked | packages/junior-scheduler/src/store.ts:1516-1532 | the same as failing, into the blocked state |
| SchedulerStore.SqlSchedulerStore.UpdateTaskAfterRun | packages/junior-scheduler/src/store.ts:1534-1622 | advances the row as specified; what it leaves in each case is in the rows of `SchedulerLaws` on finished runs |
| SchedulerRuns.CallChangesRowLegally | packages/junior-scheduler/src/store.ts:1221-1645 | any call changes any run row in one of six listed ways or not at all; each way names the call, the state before and the whole row after |
| SchedulerRuns.ScanRow | packages/junior-scheduler/src/store.ts:1293-1348 | the whole scan creates, gives up or reclaims a row only while its slot is targeted and no other run holds it up |
| SchedulerRuns.DueTasksAreCurrent | packages/junior-scheduler/src/store.ts:1270-1291 | the rows read once at the start are the due rows, ordered, and still read the same in the tables |
| SchedulerRuns.RestStaysCurrent | packages/junior-scheduler/src/store.ts:1293-1337 | visiting one row leaves the remaining rows as they were read, so reading them once is safe |
| SchedulerHistory.HistoryBounds | packages/junior-scheduler/src/store.ts:1221-1645 | over every history rows are conserved (created plus present before equals forgotten plus present after), and dispatches and finishes exceed reactivations by at most one |
| SchedulerHistory.OnceBetweenReactivations | packages/junior-scheduler/src/store.ts:1313-1345 | from an empty occurrence it is created, dispatched and finished at most once, plus once for each reactivation |
| SchedulerHistory.AttemptsAreSpaced | packages/junior-scheduler/src/store.ts:1313-1324 | attempt k is claimed at least 60 000 (k - 1) ms after the first, over every history that does not forget the row |
| SchedulerHistory.FinishedIsForever | packages/junior-scheduler/src/store.ts:462-470 | no finished row ever changes again, over every history; a blocked one can only be forgotten |
| SchedulerHistory.CompletedOnlyFromRunning | packages/junior-scheduler/src/store.ts:1462-1479 | a run becomes completed only from running and only by the call that names its start time |
| SchedulerHistory.RowsAlwaysMakeSense | packages/junior-scheduler/src/store.ts:1330-1345 | in every reachable state a first attempt that was not skipped was claimed between 0 and 24 h after its slot, and exactly the dispatched runs have a start time |
| SchedulerSafety.IncompleteRowOrigin | packages/junior-scheduler/src/store.ts:1303-1345 | an incomplete row was there before with the same claim, or was claimed by this call while nothing else held its slot up |
| SchedulerSafety.IncompleteRunsStayApart | packages/junior-scheduler/src/store.ts:1303-1345 | over every history, whatever the clocks show, distinct incomplete runs of one entry have claim times at least 60 000 ms apart |
| SchedulerSafety.EarlierClaimsWaitIff | packages/junior-scheduler/src/store.ts:1303-1345 | a call keeps earlier claims waiting for dispatch if and only if it is not a dispatch on an overtaken claim |
| SchedulerSafety.AtMostOneRunIsEverRunning | packages/junior-scheduler/src/store.ts:1303-1345 | whatever the clocks show and however calls interleave, at most one run of an entry is ever running if no accepted dispatch is overtaken, that is, if no other run of its entry was claimed once its claim had gone stale |
| SchedulerSafety.OvertakenDispatchRunsTwo | packages/junior-scheduler/src/store.ts:1444-1459 | a dispatch on an overtaken claim leaves two runs running, or lets the next punctual dispatch do so |
| SchedulerSafety.LateDispatchRunsTwo | packages/junior-scheduler/src/store.ts:1266-1459 | a history from an empty store with a single clock in which a late dispatch leaves two runs of one entry running |
| SchedulerSafety.LandingInTimeIsPunctual | packages/junior-scheduler/src/store.ts:342-350 | dispatches that are made before their claims go stale are never overtaken, even when callers with older and newer stamps interleave |
| SchedulerSafety.OlderClaimIsFenced | packages/junior-scheduler/src/store.ts:1444-1459 | once an occurrence was claimed anew and while it is not forgotten, no call dispatches it on an older claim stamp, whatever the clocks show |
| SchedulerSafety.OlderClaimStaysFenced | packages/junior-scheduler/src/store.ts:1444-1459 | nor after it was forgotten and created again, as long as later claims carry later stamps |
| SchedulerSafety.EarnedByFinishing | packages/junior-scheduler/src/plugin.ts:127-235 | a mark that succeeds is one that moves the run from incomplete to finished, so only one caller wins it |
| SchedulerSafety.AdvancedOncePerFinish | packages/junior-scheduler/src/plugin.ts:127-235 | in a history in which only winners advance, an occurrence is advanced at most once for each time it was finished; that only winners advance is proved of every run of the system below |
| SchedulerSafety.AdvancedOnceBetweenReactivations | packages/junior-scheduler/src/plugin.ts:127-235 | in such a history an empty occurrence is advanced at most once, plus once for each reactivation |
| SchedulerSafety.AdvancingLeavesTheSlot | packages/junior-scheduler/src/store.ts:1534-1622 | after an advance the entry is inactive or neither its next nor its run-now slot is the finished one, given that the clock has reached the slot |
| SchedulerSafety.AdvancesLeaveTheirSlots | packages/junior-scheduler/src/store.ts:1534-1622 | over every history, every advance whose clock has reached the slot leaves it in that sense |
| ClaimScan.VisitClaimsUnlessHeldUp | packages/junior-scheduler/src/store.ts:1298-1345 | one step of the scan claims a due row exactly when nothing holds it up, with a new row or one more attempt |
| ClaimScan.ClaimTakesOldestFreeTask | packages/junior-scheduler/src/store.ts:1266-1350 | a claim finds nothing exactly when every active due row is held up (finished or fresh run on its slot, another fresh run, or an unclaimed slot over 24 h late), and otherwise takes the oldest that is not, although the scan rewrites what it skips |
| ClaimScan.CanonicalIsEarlierDuplicate | packages/junior-scheduler/src/store.ts:1409-1425 | a canonical entry is an earlier active duplicate, and there is one exactly when such a duplicate exists; which entries are duplicates is `SchedulerLaws.DuplicatesIff` |
| ClaimScan.RecoveryKeepsEveryClass | packages/junior-scheduler/src/store.ts:1369-1425 | a class of duplicates loses its active members in recovery only when each of them missed its slot and has no next occurrence |
| ClaimScan.RecoveryKeepsEarliest | packages/junior-scheduler/src/store.ts:1369-1425 | pruning never pauses the earliest active member of a class, which keeps its fingerprint |
| SchedulerLaws.DuplicatesIff | packages/junior-scheduler/src/store.ts:428-460 | one entry counts as a duplicate of another if and only if the other is active and older (or as old with the smaller id) and both have the same place, schedule kind, timezone, normalised text, slot if they are one-off, and recurrence, field by field and with the same weekdays in any order |
| SchedulerLaws.CanonicalIff | packages/junior-scheduler/src/store.ts:1409-1425 | the canonical entry is the earliest of all active duplicates that are earlier, and is missing only if there is none |
| SchedulerLaws.DueSlotIff | packages/junior-scheduler/src/store.ts:352-386 | which slot is due: a request to run now once its time has come, and otherwise the scheduled slot |
| SchedulerLaws.HeldUpIff | packages/junior-scheduler/src/store.ts:1298-1337 | a due slot is held up if and only if its run is over, some run of the entry is running or was claimed less than 60 000 ms ago, or the slot has no run and is more than 86 400 000 ms old |
| SchedulerLaws.ClaimedRow | packages/junior-scheduler/src/store.ts:1313-1345 | every field of a claimed run: a first attempt where there was none, or one more attempt on a run left pending for 60 000 ms |
| SchedulerLaws.ClaimRecovers | packages/junior-scheduler/src/store.ts:1266-1407 | a claim gives up exactly the missed slots of the entries it goes past: the skipped run and the entry are given field by field, with the canonical duplicate or the slot that follows, and all other rows but the claimed run stay as they were |
| SchedulerLaws.PausedByRecovery | packages/junior-scheduler/src/store.ts:1352-1425 | an entry that a claim pauses had an older active entry asking for the same in all those fields, or was more than a day late with no slot to follow |
| SchedulerLaws.AdvanceTouchesItsTask | packages/junior-scheduler/src/store.ts:1540-1544 | recording a finished run changes the row of its entry only, no run, and nothing of a deleted entry |
| SchedulerLaws.RunNowKeepsTheSchedule | packages/junior-scheduler/src/store.ts:1546-1580 | a run on request before the scheduled slot, if it is not blocked, keeps that slot and the status and clears the request; the whole row is given |
| SchedulerLaws.RunNowCatchesUp | packages/junior-scheduler/src/store.ts:1546-1580 | a run on request at or after the scheduled slot, if it is not blocked, moves the entry to the first run after now counted from that slot, or pauses it |
| SchedulerLaws.ScheduledRunMovesOn | packages/junior-scheduler/src/store.ts:1597-1620 | a run of the scheduled slot, if it is not blocked, moves the entry to the first run after now, or pauses it |
| SchedulerLaws.BlockedRunBlocksItsTask | packages/junior-scheduler/src/store.ts:1546-1620 | a blocked run blocks the entry with the message; the scheduled slot is kept if the run was on request and dropped if it was its own |
| SchedulerLaws.TaskThatMovedOnStays | packages/junior-scheduler/src/store.ts:1582-1595 | an entry that no longer waits for the slot gets the two times of the run and nothing else |
| SchedulerLaws.ReactivationForgets | packages/junior-scheduler/src/store.ts:1229-1252 | saving writes the row and forgets exactly one run: the blocked run of the next slot of a blocked entry that is made active |
| SchedulerLaws.ReactivatedSlotIsFree | packages/junior-scheduler/src/store.ts:1234-1250 | so the slot, held up before, is free after it, and a due claim makes a first attempt on it |
| SchedulerLaws.MarksAreAcceptedIff | packages/junior-scheduler/src/store.ts:1444-1532 | for each of the five marks: exactly when it is accepted, every field of the row it leaves, and that nothing else changes |
| HeartbeatCaller.RunTextsDiffer | packages/junior-scheduler/src/store.ts:216-218 | the text id of a run tells entry and slot apart, whatever the entry id looks like |
| HeartbeatCaller.ListedRuns | packages/junior-scheduler/src/store.ts:1195-1216 | the incomplete runs of entries that are not deleted, exactly those and as stored, strictly by slot and then text id |
| HeartbeatLaws.ListedIff | packages/junior-scheduler/src/store.ts:1192-1216 | listed are exactly the stored runs that are pending or running and whose entry is there and not deleted |
| HeartbeatLaws.ListedInOrder | packages/junior-scheduler/src/store.ts:1195-1216 | the listed runs come by slot, and by the text `entry:slot` within a slot |
| SchedulerSystem.MoveSpendsAndEarns | packages/junior-scheduler/src/plugin.ts:127-235 | a step of a heartbeat advances only on a right it holds, and gains one only by a mark that wins |
| SchedulerSystem.OnlyWinnersAdvanceInEveryRun | packages/junior-scheduler/src/plugin.ts:443-556 | however the calls of any number of heartbeats and edits interleave, every advance spends a right that a winning mark earned |
| SchedulerSystem.PausingBeforeTheStartSkips | packages/junior-scheduler/src/plugin.ts:482-499 | a pause that comes between the claim of a run and its start is seen, and the run is skipped |
| SchedulerSystem.EveryRunIsSafe | packages/junior-scheduler/src/plugin.ts:443-556 | for every number of heartbeats and edits, interleaved call by call in any way from an empty store: incomplete runs of an entry are apart, rows make sense, each occurrence is created, dispatched, finished and advanced at most once plus once for each reactivation, and every advance whose clock has reached its slot leaves it |
| SchedulerSystem.ClaimIsStamped | packages/junior-scheduler/src/store.ts:1317-1345 | a claimed run carries the time of its claim |
| SchedulerSystem.MutualExclusion | packages/junior-scheduler/src/plugin.ts:443-556 | in all those runs at most one run of an entry is ever running, if each heartbeat records the dispatches that are accepted less than a minute after it began |
| SchedulerSystem.HeartbeatsAreLimited | packages/junior-scheduler/src/plugin.ts:473-555 | whatever the others do, a heartbeat that dispatches anything processes and dispatches at most ten runs |
| SchedulerSystem.LoneHeartbeatIsARun | packages/junior-scheduler/src/plugin.ts:443-556 | a heartbeat that is left alone is one of those runs |
| HeartbeatLaws.CompletedDispatch | packages/junior-scheduler/src/plugin.ts:133-149 | a running run whose dispatch completed ends completed with the result's time, its entry is told of a completion, and it counts as processed |
| HeartbeatLaws.BlockedDispatch | packages/junior-scheduler/src/plugin.ts:151-168 | one whose dispatch is blocked ends blocked with the reason or the default message, and its entry is told of it with that message |
| HeartbeatLaws.FailedDispatch | packages/junior-scheduler/src/plugin.ts:170-187 | the same for a failed dispatch |
| HeartbeatLaws.MissingDispatch | packages/junior-scheduler/src/plugin.ts:447-460 | one whose dispatch has no record fails with the missing-record message, its entry is told of a failure, and it does not count as processed |
| HeartbeatLaws.SettlingWaits | packages/junior-scheduler/src/plugin.ts:447-471 | a run that was not dispatched or is in progress is left alone |
| HeartbeatLaws.SettledElsewhere | packages/junior-scheduler/src/plugin.ts:139-141 | nor is a run touched, or its entry told, if another heartbeat settled it since it was listed |
| HeartbeatLaws.ClosingAClaim | packages/junior-scheduler/src/plugin.ts:482-499 | a claimed run fails if its entry is gone and is skipped if the entry is not active or waits for neither slot, with which message, and the entry is not told |
| HeartbeatLaws.StartFails | packages/junior-scheduler/src/plugin.ts:500-545 | if the dispatch cannot be described or created, the run and its entry are blocked with the reason |
| HeartbeatLaws.StartSucceeds | packages/junior-scheduler/src/plugin.ts:546-553 | otherwise the run is running under the dispatch and counted, and its entry is not told |
| HeartbeatLaws.TurnsOfAHeartbeat | packages/junior-scheduler/src/plugin.ts:473-481 | the claiming starts with the count of processed runs, takes one due run a turn, and ends at ten or when nothing is due |
| Heartbeat.ApplyDispatchResult | packages/junior-scheduler/src/plugin.ts:127-190 | an ended dispatch is settled by the moves of the caller (a mark and, exactly if it won, an advance), and the answer is whether it counts as processed |
| Heartbeat.CompleteAndAdvance | packages/junior-scheduler/src/plugin.ts:133-149 | completing a run makes the moves of the caller: a mark and, exactly if it won, an advance |
| Heartbeat.BlockAndAdvance | packages/junior-scheduler/src/plugin.ts:192-212 | the same for blocking a run |
| Heartbeat.FailAndAdvance | packages/junior-scheduler/src/plugin.ts:214-235 | the same for failing a run |
| Heartbeat.SettleListedRuns | packages/junior-scheduler/src/plugin.ts:445-471 | the loop over the listed runs makes the moves of the caller and counts the runs that it processed |
| Heartbeat.StartClaimedRun | packages/junior-scheduler/src/plugin.ts:482-552 | reading the entry of a claimed run and dispatching, skipping, failing or blocking it are the moves of the caller |
| Heartbeat.StartDueRuns | packages/junior-scheduler/src/plugin.ts:473-555 | the claiming loop makes the moves of the caller until nothing is due or its turns are used up |
| Heartbeat.Beat | packages/junior-scheduler/src/plugin.ts:443-556 | the whole loop, left alone, ends exactly where the moves of a fresh caller end, and counts that caller's dispatches, at most ten |
| SchedulerSeries.FinishedTaskGoesOn | packages/junior-scheduler/src/store.ts:1547-1620 | a run that finishes on its slot, and not blocked, leaves a recurring entry active with a later slot, when it finishes by the horizon of that slot |
| SchedulerSeries.MissedTaskGoesOn | packages/junior-scheduler/src/store.ts:1383-1406 | a missed slot does not end a recurring entry: recovery keeps it or an earlier active duplicate |
| TaskIndex.Unique | packages/junior-scheduler/src/store.ts:220-222 | keeps each non-empty value once and nothing else |
| TaskIndex.PluginStateStore.AddToIndex | packages/junior-scheduler/src/store.ts:232-243 | one list holds its non-empty ids and the new one, each once; the other lists are as before |
| TaskIndex.PluginStateStore.RemoveFromIndex | packages/junior-scheduler/src/store.ts:245-266 | one list loses exactly the id, and is deleted rather than left empty; the other lists are as before |
| TaskIndex.PluginStateStore.SaveTask | packages/junior-scheduler/src/store.ts:600-652 | a save keeps every index exact |
| TaskIndex.SavedStaysExact | packages/junior-scheduler/src/store.ts:608-652 | also when it deletes the entry or moves it to another team |
| TaskIndex.IndexesAreAlwaysExact | packages/junior-scheduler/src/store.ts:600-652 | after any sequence of saves an id that is not deleted is listed without repetition globally and for its team and nowhere else, if and only if it is not empty |
| TaskIndex.EmptyIdIsNeverListed | packages/junior-scheduler/src/store.ts:220-222 | an entry with an empty id is stored but listed nowhere |
| MemoryModel.ScopeDeterminesSubject | packages/junior-memory/src/scope.ts:46-85 | once a scope was derived the subject derivation cannot fail, and its answer depends on the scope alone |
| MemoryModel.AliasId | packages/junior-memory/src/store.ts:307-321 | alias ids are recognisable as such |
| MemoryInvariants.ArchiveKeepsInv | packages/junior-memory/src/store.ts:486-542 | archiving live rows keeps all invariants of the two tables |
| MemoryInvariants.PutAliasKeepsInv | packages/junior-memory/src/store.ts:742-779 | remembering the key of a duplicate keeps them, and the key still resolves to one memory |
| MemoryInvariants.InsertNeverConflicts | packages/junior-memory/src/db/schema.ts:61-65 | after the clean-up and a lookup that found nothing, no live row has the scope and key, so the insert cannot run into the partial unique index |
| MemoryInvariants.InsertKeepsInv | packages/junior-memory/src/store.ts:1248-1304 | inserting a memory that supersedes others keeps all invariants |
| MemoryInvariants.CreateKeepsInv | packages/junior-memory/src/store.ts:1111-1335 | a whole write keeps them for every answer of embedder, vector index and decider |
| MemoryHistory.HistoryKeepsInv | packages/junior-memory/src/store.ts:1111-1445 | so does every history of writes and archivings with a clock that never goes back |
| MemoryHistory.ChainEndsInItsScope | packages/junior-memory/src/store.ts:1279-1296 | from any row of any reachable table, following supersession ends at an unsuperseded row of the same scope and never passes through an alias |
| MemoryHistory.MemoriesAreDistinctAndIndexed | packages/junior-memory/src/store.ts:587-694 | in every reachable table no two active memories share scope, kind, subject and content, and every embedding belongs to an unarchived, unsuperseded memory and has the hash of its present content |
| MemoryHistory.HistoryEvolves | packages/junior-memory/src/store.ts:1111-1445 | rows are never lost or rewritten, and once archived or superseded never touched again |
| MemoryHistory.AnswerIsHeld | packages/junior-memory/src/store.ts:1154-1316 | a write leaves a row through which its key resolves to its answer and which expires with it |
| MemoryHistory.RetryReturnsTheSameMemory | packages/junior-memory/src/store.ts:1135-1152 | repeating a write with the same scope and key, after any other writes, returns the same memory and adds no row while that memory is active and the row holding the key has not expired |
| MemoryHistory.WritingTwiceWritesOnce | packages/junior-memory/src/store.ts:1111-1335 | from empty tables, after any history, a write, any history and the write again, with whatever other content, kind or answers from outside: the same memory and no new row while it is active; only if the first write was itself a retry must the row through which its key resolved be unexpired too |
| MemoryStore.SelectOldest | packages/junior-memory/src/store.ts:511-519 | picks the first rows in order of expiry, as many as the limit allows |
| MemoryStore.OneBatchIsEnough | packages/junior-memory/src/store.ts:1128-1134 | archiving one expired row with the key is enough to leave none behind |
| MemoryStore.Store.FindByIdempotencyKey | packages/junior-memory/src/store.ts:405-481 | finds the one memory that the key resolves to, in whatever order aliases are tried, or none if there is none |
| MemoryStore.Store.ArchiveExpiredMemoryBatch | packages/junior-memory/src/store.ts:486-542 | archives exactly the rows that expired first, up to the limit, and drops exactly their embeddings |
| MemoryStore.Store.StoreEmbedding | packages/junior-memory/src/store.ts:587-641 | an existing embedding stays, and a new one carries the hash of the stored content |
| MemoryStore.Store.RememberDuplicateIdempotency | packages/junior-memory/src/store.ts:742-779 | fails without a change when the source has no key, and otherwise adds the alias row unless it is there, and touches nothing else |
| MemoryStore.Store.FindExactDuplicateMemory | packages/junior-memory/src/store.ts:671-694 | finds an active memory of the same scope, kind and content exactly when there is one, and there is never a second to choose from |
| MemoryStore.Store.CleanUp | packages/junior-memory/src/store.ts:1123-1134 | archives only expired rows of the scope, and leaves no expired live row with the key |
| MemoryStore.Store.WriteMemory | packages/junior-memory/src/store.ts:1135-1316 | fails, with nothing written, exactly when the source has no key and the write is not a retry; otherwise answers and writes as specified and keeps the invariants, without a conflict; the rows and vectors it leaves are in `MemoryLaws` |
| MemoryStore.Store.CreateScopedMemory | packages/junior-memory/src/store.ts:1111-1335 | fails with nothing written without a scope or with too long a content; fails with the clean-up done exactly when the source has no key and the write is not a retry; otherwise it is a clean-up followed by a write; which rows it supersedes is `MemoryLaws.RowIsSupersededIff` |
| MemoryStore.Store.ArchiveMemory | packages/junior-memory/src/store.ts:1401-1445 | succeeds exactly when one visible active memory has the trimmed id or matches it as the start of a LIKE pattern, archives that one and drops its embedding, and otherwise changes nothing |
| MemoryStore.PlainIdsMatchByPrefix | packages/junior-memory/src/store.ts:1417-1420 | without wildcards the pattern matches exactly the ids that start with the given text |
| MemoryStore.SelectsByPrefixIff | packages/junior-memory/src/store.ts:1406-1431 | the given text selects exactly the ids that start with it if and only if it has no percent sign, underscore or backslash |
| MemoryStore.UnderscoreMatchesEveryId | packages/junior-memory/src/store.ts:1417-1420 | the simplest failing input: an underscore matches every id but the empty one |
| MemoryLaws.WriteIsAnswered | packages/junior-memory/src/store.ts:1135-1225 | which memory answers a write: the holder of its key; if there is none, one that says the same; if there is none, the one that the index proposes with an up-to-date vector; otherwise, and only then, a new one |
| MemoryLaws.RowIsSupersededIff | packages/junior-memory/src/store.ts:1227-1305 | an older row changes if and only if the write made a new memory, scope and kind are personal preference, it is not born expired, there is a decider, the row is shortlisted and in force in that scope, kind and subject, and the decider names it when asked about exactly such rows; it is then superseded now by the new memory |
| MemoryLaws.RowsAddedByAWrite | packages/junior-memory/src/store.ts:742-779 | every field of the row that a write adds: the memory, or the alias that passes the key of a duplicate on and expires with it; a retry adds none |
| MemoryLaws.EmbeddingsAfterAWrite | packages/junior-memory/src/store.ts:587-641 | superseded memories lose their vectors, the memory that answers gets one for its own content if it has none, and no other changes |
| MemoryLaws.BatchIsTheOldest | packages/junior-memory/src/store.ts:323-328 | a batch holds the expired live rows of the scopes, with the key if one is given, that expire first, and 1 to 200 of them, by default 100 |
| MemoryLaws.VisibleIff | packages/junior-memory/src/store.ts:1405-1431 | a memory can be archived from a context if and only if it is in force in a scope that the context derives and its id is the given text or is matched by it |
| MemoryLaws.LikeIff | packages/junior-memory/src/store.ts:1417-1420 | an id matches a LIKE pattern if and only if it can be cut into pieces that fit the pattern's tokens one by one: any text, one character, or a given one |
| MemoryLaws.PersonalScopeIsTheUser | packages/junior-memory/src/scope.ts:34-56 | there is a personal scope exactly with a user id, and two contexts share it if and only if the user is the same |
| MemoryLaws.ConversationScopeIsTheThread | packages/junior-memory/src/scope.ts:20-63 | two Slack contexts share a conversation scope if and only if both are public in one team, or both private in one thread of one channel of one team |
| MemoryLaws.SourceIsTheThread | packages/junior-memory/src/store.ts:331-343 | the source key of a Slack message is that of its thread, private or not, and in private it is the key of the conversation scope |
| MemoryLaws.SourcesWithoutKeys | packages/junior-memory/src/scope.ts:20-33 | which sources have no conversation scope, and which have no source key |
| Text.TrimCuts | packages/junior-memory/src/store.ts:1406 | trimming cuts all space off both ends and nothing else |
| Text.TextLessIff | packages/junior-scheduler/src/store.ts:455-460 | text is less if and only if it is a proper prefix, or has the smaller character at the first difference |
| Transcript.FindActivity | packages/junior-dashboard/src/client/transcriptActivity.ts:127-132 | finds an unused matching activity exactly when there is one |
| Transcript.UpgradeToolCalls | packages/junior-dashboard/src/client/transcriptActivity.ts:110-143 | the nested loops with their growing set of used ids compute the specified upgrade |
| Transcript.SyntheticMessages | packages/junior-dashboard/src/client/transcriptActivity.ts:145-200 | the loops with their sets of emitted calls and subagents compute the specified rows |
| Transcript.SubagentInsertionIndex | packages/junior-dashboard/src/client/transcriptActivity.ts:253-268 | finds the end of the subagents that follow the first message with the parent call |
| Transcript.MergeMessages | packages/junior-dashboard/src/client/transcriptActivity.ts:295-308 | the splicing loop computes the specified merge; where that puts each row is `TranscriptOrder.EachRowIsPlaced` |
| Transcript.TurnTranscriptMessages | packages/junior-dashboard/src/client/transcriptActivity.ts:311-329 | a turn's transcript is the specified one, also when there is no activity |
| TranscriptResults.MergeKeepsRenderings | packages/junior-dashboard/src/client/transcriptActivity.ts:295-308 | merging neither drops nor repeats what the two inputs render |
| TranscriptResults.EachActivityIsRenderedOnce | packages/junior-dashboard/src/client/transcriptActivity.ts:110-200 | each distinct tool-call id and each subagent key of the activity gives rise to exactly one part, an upgraded source part or one in a row of its own, which is a tool-call part with that id or a subagent part with that key; nothing else does |
| TranscriptShown.CallsAreShown | packages/junior-dashboard/src/client/transcriptActivity.ts:110-329 | the rendered messages show every non-empty tool-call id as often as the source does, and once more exactly if there is activity with the id and the source does not show it |
| TranscriptShown.AgentsAreShown | packages/junior-dashboard/src/client/transcriptActivity.ts:145-329 | they show every subagent key as often as the source does, and once more exactly if it is in the activity |
| TranscriptShown.ShownExactlyOnceIff | packages/junior-dashboard/src/client/transcriptActivity.ts:110-329 | so an activity's tool call is shown exactly once if and only if the source shows it at most once, and its subagent if and only if the source does not show it |
| TranscriptShown.RepeatedCallIsShownTwice | packages/junior-dashboard/src/client/transcriptActivity.ts:126-136 | a source with the id of one activity in two parts has it shown twice |
| TranscriptResults.SourceStaysInOrder | packages/junior-dashboard/src/client/transcriptActivity.ts:295-308 | the rows that do not come from activity are the given messages in their order, each changed only where a part matches an activity |
| TranscriptResults.CallsPrecedeTheirResults | packages/junior-dashboard/src/client/transcriptActivity.ts:270-278 | in the final transcript every call row made for activity stands before all results that match it |
| TranscriptResults.SubagentsFollowTheirCalls | packages/junior-dashboard/src/client/transcriptActivity.ts:253-283 | a subagent's row stands after a row with its parent call if that call is shown when it is inserted |
| TranscriptActivity.UpgradeIsGreedy | packages/junior-dashboard/src/client/transcriptActivity.ts:110-143 | each part of the source is upgraded by the first activity that fits it and that no earlier part shows, with which part, and otherwise stays as it is |
| TranscriptActivity.RowsAreMadeInOrder | packages/junior-dashboard/src/client/transcriptActivity.ts:145-200 | there is one row of role `tool`, with the time of its activity, for exactly those calls and subagents that neither the source nor an earlier piece of activity shows, in the order of the activity; redacted input is not in it |
| TranscriptActivity.NestedSubagentsFollowTheirCalls | packages/junior-dashboard/src/client/transcriptActivity.ts:163-283 | if subagents are listed under the calls they name, every one of them stands behind its call in the final transcript |
| TranscriptOrder.EachRowIsPlaced | packages/junior-dashboard/src/client/transcriptActivity.ts:270-308 | where each row is inserted among those that are there: a call before the first row with its result; a subagent behind the first row with its call and the subagents that follow that; any other timed row with no later row before it and a later one directly behind it, if any; an untimed one at the end |
| TranscriptOrder.NothingLaterStandsBefore | packages/junior-dashboard/src/client/transcriptActivity.ts:285-308 | in the final transcript no source message, and no row made earlier, that stands before a row placed by its time is later than it |
| TranscriptOrder.ActivityStandsByTime | packages/junior-dashboard/src/client/transcriptActivity.ts:285-329 | so for the messages of a turn; and if the source times ascend, every source message behind the row is later than it if and only if no row made earlier is later than it and yet stands before a source message that is not |
| TranscriptOrder.TurnIsInTimeOrderIff | packages/junior-dashboard/src/client/transcriptActivity.ts:285-329 | if no activity goes by a result or a parent, the whole transcript is in the order of times if and only if its source is |
| TranscriptOrder.LateCallMisleads | packages/junior-dashboard/src/client/transcriptActivity.ts:270-308 | an input with ascending source times in which a call is shown before an earlier source message |
| Usage.GetComponentTotal | packages/junior/src/chat/usage.ts:49-57 | the loop sums the finite components, and yields nothing if there is none |
| Usage.AddAgentTurnUsage | packages/junior/src/chat/usage.ts:60-92 | the loops compute the specified aggregate |
| Usage.PartOfFinish | packages/junior/src/chat/usage.ts:84-91 | reading an aggregate back gives the sums it was made from, folded into one total if it holds only a total |
| Usage.AggregateOfParts | packages/junior/src/chat/usage.ts:60-92 | aggregating a concatenation equals aggregating the two partial aggregates, so grouping does not matter |
| Usage.AggregateIgnoresOrder | packages/junior/src/chat/usage.ts:60-92 | nor does order |
| Usage.SummarizeUsage | packages/junior-dashboard/src/client/format.ts:460-499 | the loop computes the specified summary |
| Usage.AggregateAndSummaryKeepTheTotal | packages/junior-dashboard/src/client/format.ts:460-499 | aggregate and summary stand for the sum of what the usages stand for one by one, with no provider total counted twice; the summary is missing exactly when that sum is zero |
| UsageLaws.SummaryIsSummed | packages/junior-dashboard/src/client/format.ts:460-499 | each component of a summary is the sum of that component, floored and not below zero, over the usages that have components, the provider total is the sum over the others, and the total is all of them together |
| UsageLaws.AggregateIsSummed | packages/junior/src/chat/usage.ts:58-92 | an aggregate has the same component sums if no usage came with a total only, and otherwise nothing but the sum of everything |
| Contributions.LargestIsTheMaximum | packages/junior-dashboard/src/mock-conversations.ts:1027-1046 | the running maximum is one of the snapshots and no snapshot exceeds it |
| Contributions.DeltasTelescope | packages/junior-dashboard/src/client/format.ts:947-961 | contributions over the running maximum add up to the largest snapshot, whatever the order |
| Contributions.ComputeRunContributions | packages/junior-dashboard/src/mock-conversations.ts:1027-1046 | the loop with its two running maxima computes the specified contributions |
| Contributions.ContributionsAddUp | packages/junior-dashboard/src/mock-conversations.ts:1027-1069 | per conversation the duration and token contributions add up to the largest cumulative snapshots, one contribution for each run |
| Contributions.TotalsIgnoreRunOrder | packages/junior-dashboard/src/mock-conversations.ts:1027-1069 | the totals of a conversation are the same for every order of its runs |
| Contributions.TurnContributions | packages/junior-dashboard/src/client/format.ts:947-961 | the client's loop computes the same contributions, where a turn without a finite duration adds nothing |
| Contributions.ConversationRuntimeMs | packages/junior-dashboard/src/client/format.ts:543-550 | the runtime shown is the largest finite snapshot, and is missing exactly when there is none |
| Sorting.SortIsASortedPermutation | packages/junior-dashboard/src/mock-conversations.ts:987-995 | sorting permutes, and puts nothing before what must precede it, for every weak order |
| Stats.GroupsPartition | packages/junior-dashboard/src/mock-conversations.ts:979-985 | grouping through a map partitions: distinct keys, no empty group, each group exactly the elements with its key in their order |
| Stats.NewestIsSeenLast | packages/junior-dashboard/src/mock-conversations.ts:967-973 | the newest run is a run of the conversation, and no run of it was seen later |
| Stats.GroupRecentConversations | packages/junior-dashboard/src/mock-conversations.ts:975-1001 | the grouping loop, sort and filter compute the specified conversations |
| Stats.ReportedConversations | packages/junior-dashboard/src/mock-conversations.ts:975-1001 | a list of runs is reported if and only if it is the whole of one conversation, by start time, whose newest run was seen within the window |
| Stats.EachConversationIsReportedOnce | packages/junior-dashboard/src/mock-conversations.ts:975-1001 | no conversation is reported twice |
| Stats.TotalOfSort | packages/junior-dashboard/src/mock-conversations.ts:1131-1139 | sorting the items for display changes no sum |
| StatsReport.BuildConversationStatsReport | packages/junior-dashboard/src/mock-conversations.ts:875-953 | the nested loops over conversations, contributions and requesters compute the specified report |
| StatsReport.GroupingKeepsAmounts | packages/junior-dashboard/src/mock-conversations.ts:898-921 | splitting contributions by requester loses and repeats nothing |
| StatsReport.ReportConserves | packages/junior-dashboard/src/mock-conversations.ts:875-953 | durations, runs and tokens summed over requesters, and again over locations, equal the report's totals, which are the sums of the largest snapshots of the conversations; locations also split conversations and status signals |
| StatsReport.ItemsAreShares | packages/junior-dashboard/src/mock-conversations.ts:898-932 | every listed requester or location has exactly its own share of the conversations, and everyone with a share is listed |
| StatsLaws.RunIsCountedWith | packages/junior-dashboard/src/mock-conversations.ts:1004-1033 | the duration and the tokens that a run is counted with |
| StatsLaws.NewestRunDecides | packages/junior-dashboard/src/mock-conversations.ts:961-1001 | the newest run was seen last, with the greatest id of those, and decides whether its conversation was seen within 604 800 000 ms |
| StatsLaws.RunsAreInOrder | packages/junior-dashboard/src/mock-conversations.ts:987-995 | the runs of a reported conversation come by start and then by id |
| StatsLaws.ReportIsOrdered | packages/junior-dashboard/src/mock-conversations.ts:1131-1139 | requesters and locations come by conversations, runs and time, the larger first, and then by name |
| StatsLaws.RequesterGoesBy | packages/junior-dashboard/src/mock-conversations.ts:1071-1078 | a requester goes by the first of the three names that is not blank, trimmed, or by the Slack id, or as unknown |
| StatsLaws.LocationGoesBy | packages/junior-dashboard/src/mock-conversations.ts:1080-1100 | the location of a run for each kind of channel and of origin |
| StatsLaws.StatusesAreCounted | packages/junior-dashboard/src/mock-conversations.ts:882-894 | the report counts the conversations with a run that is active, failed or hung |
| StatsLaws.RequesterIsCounted | packages/junior-dashboard/src/mock-conversations.ts:898-921 | so does a requester's item, over the conversations with such a run of their own |

## Left out

Assumptions of the models:

- Each store call is one step, although the store takes different locks for claims, entries and runs
  (`packages/junior-scheduler/src/store.ts:1269`, `:1540`, `:1630`). A memory write is one step too.
- Timestamps, intervals and attempts are unbounded integers, so NaN, fractions and the range of `Date` are not modelled, nor
  are the years before 100 that `Date.UTC` reinterprets.
- A time zone is any function with offsets under 24 hours in whole seconds; IANA data is not modelled, and the exactness
  results assume at most one offset change within a day of the local time.
- One order of text stands for SQL collation, `<` and `localeCompare`.
- Text normalisation and digests are arbitrary functions. That retries of duplicates find their alias row assumes that the
  digest tells its inputs apart.
- Token counts are exact integers; floating-point addition beyond 2^53 is not modelled.
- Subagent keys are triples, so text that contains the separator character is not modelled.

Contracts weaker than the code, or than one might want:

- Series.WeeklyContinues: the horizon is sufficient, not exact, for several weekdays; Series.ContinuesIff is exact for all rules.
- SchedulerSystem.MutualExclusion: that dispatches are recorded within a minute is assumed, not proved of the agent runtime.
- Heartbeat.StartClaimedRun: a failure to prepare or create a dispatch carries a message; thrown values without one are not modelled, and the writing of an instant as text is a parameter.
- TranscriptShown.CallsAreShown: not for activity with an empty tool-call id, which is matched to parts by tool name alone.
- TranscriptActivity.NestedSubagentsFollowTheirCalls: relative order only; a later insertion by timestamp can separate subagents from their parent.

Parts of the repository that are not modelled:

- The claim path of the key-value scheduler store: its steps are not atomic, and mutual exclusion does not hold there.
- That every due entry is eventually claimed: a finished row on a slot that is still targeted is never reclaimed.
- Credentials, prompts, result metadata and the other fields of scheduled entries that the calls carry along unchanged.
- Listing and searching memories, vector distances, and the archiving of expired memories as a call of its own.
- The migration between the two scheduler stores, and the decoding of stored records, which are taken as valid.
- Slack, OAuth, model calls, queues and HTTP: input and output.
- The rendering of the dashboard, date formatting and the merging of fixture feeds into real ones.
