/** What the calls on the scheduler's tables do, on the fields of the rows before and after. */
module SchedulerLaws {
  import opened Wrappers
  import opened Text
  import opened SchedulerModel
  import opened SchedulerRuns
  import opened ClaimScan
  import Cadence

  // ---------- duplicates ----------

  ghost predicate SameRecurrence(a: Cadence.Recurrence, b: Cadence.Recurrence) {
    && a.frequency == b.frequency && a.interval == b.interval && a.startDate == b.startDate
    && a.hour == b.hour && a.minute == b.minute && a.dayOfMonth == b.dayOfMonth && a.month == b.month
    && forall day :: Chosen(a, day) == Chosen(b, day)
  }

  /** How often a recurrence names a weekday. */
  ghost function Chosen(r: Cadence.Recurrence, day: int): nat {
    if r.weekdays.Some? then multiset(r.weekdays.value)[day] else 0
  }

  /** Two tasks have the same place, schedule and text; the next slot counts for one-off tasks only. */
  ghost predicate AskForTheSame(env: Env, a: Task, b: Task) {
    && a.destination.teamId == b.destination.teamId && a.destination.channelId == b.destination.channelId
    && a.schedule.kind == b.schedule.kind && a.schedule.timezone == b.schedule.timezone
    && (a.schedule.kind == OneOff ==> a.nextRunAtMs == b.nextRunAtMs)
    && env.normalize(a.text) == env.normalize(b.text)
    && match (a.schedule.recurrence, b.schedule.recurrence)
       case (Some(r), Some(s)) => SameRecurrence(r, s)
       case (None, None) => true
       case _ => false
  }

  lemma SameFingerprintIff(env: Env, a: Task, b: Task)
    ensures TaskFingerprint(env, a) == TaskFingerprint(env, b) <==> AskForTheSame(env, a, b)
  {
    var x, y := TaskFingerprint(env, a), TaskFingerprint(env, b);
    if a.schedule.recurrence.Some? && b.schedule.recurrence.Some? {
      var r, s := a.schedule.recurrence.value, b.schedule.recurrence.value;
      assert x.recurrence == y.recurrence <==> r.(weekdays := None) == s.(weekdays := None);
      SameWeekdaysIff(r, s);
    }
  }

  function Weekdays(r: Cadence.Recurrence): multiset<int> {
    if r.weekdays.Some? then multiset(r.weekdays.value) else multiset{}
  }

  lemma SameWeekdaysIff(r: Cadence.Recurrence, s: Cadence.Recurrence)
    ensures Weekdays(r) == Weekdays(s) <==> forall day :: Chosen(r, day) == Chosen(s, day)
  {
    if forall day :: Chosen(r, day) == Chosen(s, day) {
      forall day ensures Weekdays(r)[day] == Weekdays(s)[day] {
        assert Chosen(r, day) == Chosen(s, day);
      }
      assert Weekdays(r) == Weekdays(s);
    }
  }

  /** A task counts as a duplicate of another exactly when the other is active, older or as old with a smaller id,
      and asks for the same. */
  lemma DuplicatesIff(env: Env, a: Task, b: Task)
    ensures EarlierDuplicate(env, a, b) <==>
            && a.id != b.id && a.status == Active
            && (a.createdAtMs < b.createdAtMs || (a.createdAtMs == b.createdAtMs && TextLess(a.id, b.id)))
            && AskForTheSame(env, a, b)
  {
    hide TaskFingerprint, AskForTheSame;
    SameFingerprintIff(env, a, b);
  }

  /** The earliest of the active tasks that a task duplicates. */
  ghost predicate IsCanonical(env: Env, db: Db, task: Task, c: string) {
    && c in db.tasks && EarlierDuplicate(env, db.tasks[c], task)
    && forall o | o in db.tasks && o != c && EarlierDuplicate(env, db.tasks[o], task) :: Earlier(db.tasks[c], db.tasks[o])
  }

  lemma CanonicalIff(env: Env, db: Db, task: Task)
    requires WellFormed(db)
    ensures var canonical := CanonicalTask(env, db, task);
            if canonical.Some? then IsCanonical(env, db, task, canonical.value.id)
            else forall k | k in db.tasks :: !EarlierDuplicate(env, db.tasks[k], task)
  {
    hide EarlierDuplicate, Earlier;
    var ids := set id | id in db.tasks && EarlierDuplicate(env, db.tasks[id], task);
    var rows := Ordered(db.tasks, ids);
    assert forall k | k in ids :: db.tasks[k] in rows;
    if rows != [] {
      assert rows[0] in rows;
      forall o | o in ids && o != rows[0].id ensures Earlier(rows[0], db.tasks[o]) {
        assert db.tasks[o] in rows;
        var j :| 0 <= j < |rows| && rows[j] == db.tasks[o];
      }
    }
  }

  lemma OneCanonical(env: Env, db: Db, task: Task, c: string, d: string)
    requires WellFormed(db) && IsCanonical(env, db, task, c) && IsCanonical(env, db, task, d)
    ensures c == d
  {
    hide EarlierDuplicate, Earlier;
    EarlierIsTotalOrder(db.tasks[c], db.tasks[d], db.tasks[c]);
  }

  // ---------- the slot that is due ----------

  /** A request to run now goes before the schedule once its time has come. */
  lemma DueSlotIff(task: Task, now: int, slot: int)
    ensures Due(task, now) && DueSlot(task, now) == Some(slot) <==>
            && task.status == Active && slot <= now
            && (task.runNowAtMs == Some(slot)
                || (task.nextRunAtMs == Some(slot) && (task.runNowAtMs.None? || now < task.runNowAtMs.value)))
  {}

  /** What holds up the due slot of a task: a run of the slot that is over, a run of the task that is running or
      was claimed less than a minute ago, or a slot without a run from more than a day ago. */
  lemma HeldUpIff(db: Db, task: Task, now: int, slot: int)
    requires WellFormed(db) && Due(task, now) && DueSlot(task, now) == Some(slot)
    ensures HeldUp(db, task, now) <==>
            || (RunId(task.id, slot) in db.runs
                && db.runs[RunId(task.id, slot)].status != Pending && db.runs[RunId(task.id, slot)].status != Running)
            || (exists id | id in db.runs && id.taskId == task.id ::
                  || db.runs[id].status == Running
                  || (db.runs[id].status == Pending && now < db.runs[id].claimedAtMs + 60_000))
            || (RunId(task.id, slot) !in db.runs && slot + 86_400_000 < now)
  {
    hide DueSlot;
    var own := RunId(task.id, slot);
    if Busy(db, own, now) {
      var k :| k in db.runs && k.taskId == own.taskId && k != own && Incomplete(db.runs[k]) && !StalePending(db.runs[k], now);
    }
  }

  /** The run that a claim yields: a first attempt where there was no run, and otherwise one more attempt on a run
      that was claimed a minute ago or longer and never dispatched. */
  lemma ClaimedRow(env: Env, db: Db, now: int)
    requires WellFormed(db) && ClaimDueRun(env, db, now).1.Some?
    ensures var run := ClaimDueRun(env, db, now).1.value;
            && run.id.taskId in db.tasks && DueSlot(db.tasks[run.id.taskId], now) == Some(run.id.slot)
            && if run.id !in db.runs then
                 run == Run(run.id, 1, now, None, None, None, None, None, Pending) && now <= run.id.slot + 86_400_000
               else
                 var row := db.runs[run.id];
                 && row.status == Pending && row.claimedAtMs + 60_000 <= now
                 && run == row.(attempt := row.attempt + 1, claimedAtMs := now)
  {
    hide ClaimDueRun, Busy;
    ClaimTakesOldestFreeTask(env, db, now);
  }

  // ---------- missed runs ----------

  /** The due slot of the task is more than a day old, and there is neither a run of it nor a live run beside it. */
  predicate Misses(db: Db, task: Task, now: int) {
    && Due(task, now)
    && var id := RunId(task.id, DueSlot(task, now).value);
       id !in db.runs && id.slot + 86_400_000 < now && !Busy(db, id, now)
  }

  /** The skipped run that recovery leaves for a missed slot. */
  ghost predicate ClosedRun(after: Db, id: RunId, now: int, message: string) {
    RunRow(after, id) == Some(Run(id, 1, now, Some(now), None, Some(message), None, None, Skipped))
  }

  /** The task after recovery gave up a missed slot, waiting for `next`. */
  ghost predicate MovedOn(after: Db, task: Task, slot: int, now: int, next: Option<int>, message: string) {
    && task.id in after.tasks
    && var row, waits := after.tasks[task.id], next.Some? && next.value != 0;
       row == task.(
         nextRunAtMs := next,
         runNowAtMs := if task.runNowAtMs == Some(slot) then None else task.runNowAtMs,
         status := if waits then Active else Paused,
         statusReason := if waits then None else Some(message),
         updatedAtMs := now)
  }

  /** The first run of a task's recurrence after now, counted from one of its slots. */
  ghost predicate Recurs(env: Env, task: Task, slot: int, now: int, next: Option<int>) {
    match (task.schedule.kind, task.schedule.recurrence)
    case (Recurring, Some(r)) => next == Cadence.NextRun(env.zones(task.schedule.timezone), r, slot, now)
    case _ => next == None
  }

  /** Which slot follows a missed one: a missed run on request leaves the schedule alone, and a missed scheduled run
      goes to the first run after now if the task recurs. */
  ghost predicate Follows(env: Env, task: Task, slot: int, now: int, next: Option<int>) {
    if task.runNowAtMs == Some(slot) && task.nextRunAtMs != Some(slot) then next == task.nextRunAtMs
    else Recurs(env, task, slot, now, next)
  }

  function NamesCanonical(id: string): string {
    "Duplicate stale scheduled task was skipped without dispatch. Canonical task: " + id + "."
  }

  /** A missed slot was given up: as a duplicate of the canonical task, or because it was late. */
  ghost predicate GivenUp(env: Env, after: Db, task: Task, now: int) {
    && DueSlot(task, now).Some?
    && var id := RunId(task.id, DueSlot(task, now).value);
       if forall k | k in after.tasks :: !EarlierDuplicate(env, after.tasks[k], task)
       then ClosedRun(after, id, now, LATE_MESSAGE)
            && exists next :: Follows(env, task, id.slot, now, next) && MovedOn(after, task, id.slot, now, next, LATE_MESSAGE)
       else exists c ::
              IsCanonical(env, after, task, c)
              && ClosedRun(after, id, now, NamesCanonical(c))
              && MovedOn(after, task, id.slot, now, None, NamesCanonical(c))
  }

  /** The tasks that could be canonical for `task` are the same in both tables. */
  ghost predicate SameBefore(a: Db, b: Db, task: Task) {
    && a.tasks.Keys == b.tasks.Keys
    && forall k | k in a.tasks ::
         b.tasks[k] == a.tasks[k] || k == task.id || (!Earlier(a.tasks[k], task) && !Earlier(b.tasks[k], task))
  }

  lemma SameDuplicates(env: Env, a: Db, b: Db, task: Task)
    requires WellFormed(a) && WellFormed(b) && SameBefore(a, b, task)
    ensures forall k | k in a.tasks :: EarlierDuplicate(env, a.tasks[k], task) == EarlierDuplicate(env, b.tasks[k], task)
    ensures forall k | k in a.tasks && EarlierDuplicate(env, a.tasks[k], task) :: a.tasks[k] == b.tasks[k]
  {
    hide TaskFingerprint, Earlier;
  }

  lemma DuplicateMessageIs(id: string)
    ensures DuplicateMessage(id) == NamesCanonical(id)
  {}

  lemma SkipGivesUp(env: Env, db: Db, task: Task, slot: int, now: int, after: Db)
    requires WellFormed(db) && TaskRow(db, task.id) == Some(task) && task.status == Active && DueSlot(task, now) == Some(slot)
    requires var skipped := SkipMissedRun(env, db, RunId(task.id, slot), now);
             WellFormed(after) && SameBefore(db, after, task) && SameFor(skipped, after, task.id)
    ensures GivenUp(env, after, task, now)
  {
    hide EarlierDuplicate, Earlier, CanonicalTask, DueSlot, DuplicateMessage, NamesCanonical, SameBefore;
    var skipped := SkipMissedRun(env, db, RunId(task.id, slot), now);
    var id := RunId(task.id, slot);
    var canonical := CanonicalTask(env, db, task);
    CanonicalIff(env, db, task);
    if canonical.Some? { DuplicateMessageIs(canonical.value.id); }
    SameDuplicates(env, db, after, task);
    SameForBusy(skipped, after, id, now);
    assert TaskRow(after, task.id) == TaskRow(skipped, task.id);
    assert db.tasks.Keys == after.tasks.Keys by { hide *; KeysAreTheSame(db, after, task); }
    if canonical.Some? {
      var c := canonical.value.id;
      assert IsCanonical(env, after, task, c);
      assert MovedOn(after, task, slot, now, None, NamesCanonical(c));
    } else {
      var next := SlotAfterMiss(env, task, slot, now, false);
      assert Follows(env, task, slot, now, next);
      assert MovedOn(after, task, slot, now, next, LATE_MESSAGE);
    }
  }

  /** A run is not given up, and nothing changes, once its task is gone, not active, or due on another slot. */
  lemma MovedSlotIsNotSkipped(env: Env, db: Db, id: RunId, now: int)
    requires WellFormed(db)
    requires id.taskId in db.tasks ==> db.tasks[id.taskId].status != Active || DueSlot(db.tasks[id.taskId], now) != Some(id.slot)
    ensures SkipMissedRun(env, db, id, now) == db
  {
    hide CanonicalTask, DueSlot;
  }

  lemma KeysAreTheSame(a: Db, b: Db, task: Task)
    requires SameBefore(a, b, task)
    ensures a.tasks.Keys == b.tasks.Keys
  {}

  /** A visit and a scan keep every task's id and age. */
  lemma VisitKeepsAge(env: Env, db: Db, task: Task, now: int, k: string)
    requires WellFormed(db)
    requires TaskRow(db, task.id) == Some(task) && task.status == Active
    ensures var after := Visit(env, db, task, now).db;
            (k in after.tasks <==> k in db.tasks)
            && (k in db.tasks ==> after.tasks[k].id == k && after.tasks[k].createdAtMs == db.tasks[k].createdAtMs)
  {
    hide Visit;
    assert k in db.tasks ==> TaskRow(db, k) == Some(db.tasks[k]);
    var after := Visit(env, db, task, now).db;
    if k != task.id {
      VisitTouchesOneTask(env, db, task, now, k);
      assert TaskRow(after, k) == TaskRow(db, k);
    } else {
      VisitOutcome(env, db, task, now);
      assert TaskRow(after, k).Some?;
    }
  }

  lemma {:induction false} ScanKeepsAges(env: Env, db: Db, rows: seq<Task>, now: int, k: string)
    requires WellFormed(db) && Ascending(rows) && Current(db, rows)
    ensures var after := Scan(env, db, rows, now).0;
            (k in after.tasks <==> k in db.tasks)
            && (k in db.tasks ==> after.tasks[k].id == k && after.tasks[k].createdAtMs == db.tasks[k].createdAtMs)
    decreases rows
  {
    hide Visit, Earlier;
    if rows != [] {
      VisitKeepsAge(env, db, rows[0], now, k);
      RestStaysCurrent(env, db, rows, now);
      if Visit(env, db, rows[0], now).Passed? {
        ScanKeepsAges(env, Visit(env, db, rows[0], now).db, rows[1..], now, k);
      }
    }
  }

  lemma SameAge(a: Task, b: Task, task: Task)
    requires a.id == b.id && a.createdAtMs == b.createdAtMs
    ensures Earlier(a, task) == Earlier(b, task)
  {}

  /** What comes after a row in the scan cannot be canonical for it. */
  lemma ScanKeepsEarlierTasks(env: Env, db: Db, rows: seq<Task>, now: int)
    requires WellFormed(db) && Ascending(rows) && Current(db, rows) && rows != []
    ensures WellFormed(Scan(env, db, rows, now).0)
    ensures SameBefore(db, Scan(env, db, rows, now).0, rows[0])
  {
    hide Visit, Earlier, Scan;
    var after := Scan(env, db, rows, now).0;
    RowsAreDistinct(db, rows);
    ScanIsWellFormed(env, db, rows, now);
    forall k ensures k in after.tasks <==> k in db.tasks {
      ScanKeepsAges(env, db, rows, now, k);
    }
    forall k | k in db.tasks
      ensures after.tasks[k] == db.tasks[k] || k == rows[0].id
              || (!Earlier(db.tasks[k], rows[0]) && !Earlier(after.tasks[k], rows[0]))
    {
      ScanKeepsAges(env, db, rows, now, k);
      SameAge(after.tasks[k], db.tasks[k], rows[0]);
      if i :| 1 <= i < |rows| && rows[i].id == k {
        assert TaskRow(db, k) == Some(rows[i]);
        EarlierIsTotalOrder(rows[0], rows[i], rows[0]);
      } else if k != rows[0].id {
        ScanTouchesListedTasks(env, db, rows, now, k);
        assert TaskRow(db, k) == TaskRow(after, k);
      }
    }
  }

  /** The scan went past the task: it claimed nothing, or a later task. */
  ghost predicate WentPast(db: Db, claimed: Option<Run>, task: Task) {
    claimed.Some? ==> claimed.value.id.taskId in db.tasks && Earlier(task, db.tasks[claimed.value.id.taskId])
  }

  lemma VisitOfMissed(env: Env, db: Db, task: Task, now: int)
    requires WellFormed(db) && TaskRow(db, task.id) == Some(task) && Due(task, now)
    ensures var v, id := Visit(env, db, task, now), RunId(task.id, DueSlot(task, now).value);
            if Misses(db, task, now) then v == Passed(SkipMissedRun(env, db, id, now))
            else if v.Claimed? then v.run.id == id && v.db == PutRun(db, v.run)
            else v.db == db
  {
    hide Busy, SkipMissedRun, DueSlot;
  }

  /** The rows of one task after a scan: as they were, but for a claim and for a missed slot that it went past. */
  ghost predicate Recovered(env: Env, db: Db, after: Db, claimed: Option<Run>, task: Task, now: int) {
    if Misses(db, task, now) && WentPast(db, claimed, task) then GivenUp(env, after, task, now)
    else TaskRow(after, task.id) == Some(task)
         && forall slot ::
              RunRow(after, RunId(task.id, slot)) ==
              if claimed.Some? && claimed.value.id == RunId(task.id, slot) then claimed else RunRow(db, RunId(task.id, slot))
  }

  lemma ClaimedIsListed(env: Env, db: Db, rows: seq<Task>, now: int)
    requires WellFormed(db) && Ascending(rows) && Current(db, rows) && forall t | t in rows :: Due(t, now)
    ensures var claimed := Scan(env, db, rows, now).1;
            claimed.Some? ==> exists i | 0 <= i < |rows| :: claimed.value.id.taskId == rows[i].id
  {
    hide Visit, HeldUp, DueSlot, Earlier, Scan;
    ScanTakesFirstFree(env, db, rows, now);
    var (after, claimed) := Scan(env, db, rows, now);
    if claimed.Some? {
      var i :| FirstFree(db, rows, now, i, claimed.value);
      ClaimOfTask(db, rows[i], now);
      assert TaskRow(db, rows[i].id) == Some(rows[i]);
    }
  }

  lemma {:induction false} ScanRecovers(env: Env, db: Db, rows: seq<Task>, now: int, task: Task)
    requires WellFormed(db) && Ascending(rows) && Current(db, rows) && forall t | t in rows :: Due(t, now)
    requires task in rows
    ensures var (after, claimed) := Scan(env, db, rows, now);
            Recovered(env, db, after, claimed, task, now)
    decreases rows
  {
    hide Visit, Earlier, DueSlot, GivenUp, Misses, SkipMissedRun, Recovered;
    var v := Visit(env, db, rows[0], now);
    RestStaysCurrent(env, db, rows, now);
    if rows[0] == task {
      ScanRecoversFirst(env, db, rows, now);
    } else {
      assert task in rows[1..];
      if v.Passed? {
        ScanRecovers(env, v.db, rows[1..], now, task);
        ClaimedIsListed(env, v.db, rows[1..], now);
        RecoveredReadsOneTask(env, db, v.db, rows[1..], now, task);
      } else {
        ClaimEndsTheScan(env, db, rows, now, task);
      }
    }
  }

  lemma ScanRecoversFirst(env: Env, db: Db, rows: seq<Task>, now: int)
    requires WellFormed(db) && Ascending(rows) && Current(db, rows) && forall t | t in rows :: Due(t, now)
    requires rows != []
    ensures var (after, claimed) := Scan(env, db, rows, now);
            Recovered(env, db, after, claimed, rows[0], now)
  {
    hide Visit, Earlier, DueSlot, GivenUp, Misses, SkipMissedRun;
    var task, v := rows[0], Visit(env, db, rows[0], now);
    var (after, claimed) := Scan(env, db, rows, now);
    RestStaysCurrent(env, db, rows, now);
    RowsAreDistinct(db, rows);
    VisitOfMissed(env, db, task, now);
    if v.Passed? {
      ScanTouchesListedTasks(env, v.db, rows[1..], now, task.id);
      ClaimedIsListed(env, v.db, rows[1..], now);
      if Misses(db, task, now) {
        ScanKeepsEarlierTasks(env, db, rows, now);
        SkipGivesUp(env, db, task, DueSlot(task, now).value, now, after);
        assert claimed.Some? ==> TaskRow(db, claimed.value.id.taskId).Some?;
      }
    }
  }

  /** A claim on the first row ends the scan before `task`. */
  lemma ClaimEndsTheScan(env: Env, db: Db, rows: seq<Task>, now: int, task: Task)
    requires WellFormed(db) && Ascending(rows) && Current(db, rows) && forall t | t in rows :: Due(t, now)
    requires rows != [] && task in rows[1..] && Visit(env, db, rows[0], now).Claimed?
    ensures var (after, claimed) := Scan(env, db, rows, now);
            Recovered(env, db, after, claimed, task, now)
  {
    hide Visit, Earlier, DueSlot, GivenUp, Misses;
    RowsAreDistinct(db, rows);
    RestStaysCurrent(env, db, rows, now);
    VisitOfMissed(env, db, rows[0], now);
    assert TaskRow(db, rows[0].id) == Some(rows[0]) && TaskRow(db, task.id) == Some(task);
    EarlierIsTotalOrder(rows[0], task, rows[0]);
  }

  lemma RecoveredReadsOneTask(env: Env, db: Db, mid: Db, rows: seq<Task>, now: int, task: Task)
    requires WellFormed(db) && WellFormed(mid) && task in rows && (forall t | t in rows :: Due(t, now) && SameFor(db, mid, t.id))
    requires var (after, claimed) := Scan(env, mid, rows, now);
             Recovered(env, mid, after, claimed, task, now)
             && (claimed.Some? ==> exists i | 0 <= i < |rows| :: claimed.value.id.taskId == rows[i].id)
    ensures var (after, claimed) := Scan(env, mid, rows, now);
            Recovered(env, db, after, claimed, task, now)
  {
    hide Scan, Earlier, DueSlot, GivenUp, Busy;
    var id := RunId(task.id, DueSlot(task, now).value);
    SameForBusy(db, mid, id, now);
    var claimed := Scan(env, mid, rows, now).1;
    if claimed.Some? {
      assert SameFor(db, mid, claimed.value.id.taskId);
      assert TaskRow(db, claimed.value.id.taskId) == TaskRow(mid, claimed.value.id.taskId);
    }
  }

  /** Recovery is determined: a claim gives up every missed slot of the tasks it goes past, and leaves the rows of
      all other tasks alone, but for the run that it claims. */
  lemma ClaimRecovers(env: Env, db: Db, now: int, k: string)
    requires WellFormed(db) && k in db.tasks
    ensures var (after, claimed) := ClaimDueRun(env, db, now);
            Recovered(env, db, after, claimed, db.tasks[k], now)
  {
    hide Scan, DueTasks, Earlier, DueSlot, GivenUp, Busy;
    var rows := DueTasks(db, now);
    DueTasksAreCurrent(db, now);
    if db.tasks[k] in rows {
      ScanRecovers(env, db, rows, now, db.tasks[k]);
    } else {
      forall t | t in rows ensures t.id != k { assert TaskRow(db, t.id) == Some(t); }
      ScanTouchesListedTasks(env, db, rows, now, k);
      ClaimedIsListed(env, db, rows, now);
    }
  }

  /** A task that was active and is paused by a claim had an older active task asking for the same, or its slot was
      more than a day late and no slot follows. */
  lemma PausedByRecovery(env: Env, db: Db, now: int, k: string)
    requires WellFormed(db) && k in db.tasks && db.tasks[k].status == Active
    requires var after := TaskRow(ClaimDueRun(env, db, now).0, k); after.None? || after.value.status != Active
    ensures || (exists c | c in db.tasks ::
                  && c != k && db.tasks[c].status == Active && AskForTheSame(env, db.tasks[c], db.tasks[k])
                  && (db.tasks[c].createdAtMs < db.tasks[k].createdAtMs
                      || (db.tasks[c].createdAtMs == db.tasks[k].createdAtMs && TextLess(c, k))))
            || (exists slot, next ::
                  && DueSlot(db.tasks[k], now) == Some(slot) && slot + 86_400_000 < now
                  && Follows(env, db.tasks[k], slot, now, next) && (next == None || next == Some(0)))
  {
    hide ClaimDueRun, AskForTheSame, DueSlot, EarlierDuplicate;
    var task := db.tasks[k];
    if c :| c in db.tasks && EarlierDuplicate(env, db.tasks[c], task) {
      DuplicatesIff(env, db.tasks[c], task);
    } else {
      if !RunsOut(env, task, now) { RecoveryKeepsEarliest(env, db, now, k); }
      var slot := DueSlot(task, now).value;
      assert Follows(env, task, slot, now, SlotAfterMiss(env, task, slot, now, false));
    }
  }

  // ---------- after a run ----------

  /** Recording a finished run touches the row of its task only, and not that of a deleted task. */
  lemma AdvanceTouchesItsTask(env: Env, db: Db, id: RunId, outcome: Outcome, message: Option<string>, now: int)
    requires WellFormed(db)
    ensures var after := UpdateTaskAfterRun(env, db, id, outcome, message, now);
            && after.runs == db.runs && after.tasks.Keys == db.tasks.Keys
            && (forall k | k in db.tasks && k != id.taskId :: after.tasks[k] == db.tasks[k])
            && (id.taskId in db.tasks && db.tasks[id.taskId].status == Deleted ==> after == db)
  {
    hide NextOccurrence;
  }

  /** A run on request that is not blocked and comes before the next scheduled slot leaves that slot and the status. */
  lemma RunNowKeepsTheSchedule(env: Env, db: Db, id: RunId, outcome: Outcome, message: Option<string>, now: int)
    requires WellFormed(db) && id.taskId in db.tasks && db.tasks[id.taskId].status != Deleted && outcome != WasBlocked
    requires var task := db.tasks[id.taskId];
             task.runNowAtMs == Some(id.slot) && (task.nextRunAtMs.None? || id.slot < task.nextRunAtMs.value)
    ensures var task, row := db.tasks[id.taskId], UpdateTaskAfterRun(env, db, id, outcome, message, now).tasks[id.taskId];
            && row.nextRunAtMs == task.nextRunAtMs && row.runNowAtMs == None
            && row.status == (if task.nextRunAtMs == None || task.nextRunAtMs == Some(0) then Paused else task.status)
            && row == task.(lastRunAtMs := Some(id.slot), runNowAtMs := None, status := row.status, statusReason := None,
                            updatedAtMs := now)
  {}

  /** A run on request that is not blocked and comes at or after the scheduled slot stands for it: the task goes to
      the first run after now, or pauses if there is none. */
  lemma RunNowCatchesUp(env: Env, db: Db, id: RunId, outcome: Outcome, message: Option<string>, now: int)
    requires WellFormed(db) && id.taskId in db.tasks && db.tasks[id.taskId].status != Deleted && outcome != WasBlocked
    requires var task := db.tasks[id.taskId];
             task.runNowAtMs == Some(id.slot) && task.nextRunAtMs.Some? && task.nextRunAtMs.value <= id.slot
    ensures var task, row := db.tasks[id.taskId], UpdateTaskAfterRun(env, db, id, outcome, message, now).tasks[id.taskId];
            && Recurs(env, task, task.nextRunAtMs.value, now, row.nextRunAtMs)
            && row.status == (if row.nextRunAtMs == None || row.nextRunAtMs == Some(0) then Paused else task.status)
            && row == task.(lastRunAtMs := Some(id.slot), nextRunAtMs := row.nextRunAtMs, runNowAtMs := None,
                            status := row.status, statusReason := None, updatedAtMs := now)
  {}

  /** A run of the scheduled slot that is not blocked moves the task to the first run after now, or pauses it. */
  lemma ScheduledRunMovesOn(env: Env, db: Db, id: RunId, outcome: Outcome, message: Option<string>, now: int)
    requires WellFormed(db) && id.taskId in db.tasks && outcome != WasBlocked
    requires var task := db.tasks[id.taskId];
             task.status == Active && task.runNowAtMs != Some(id.slot) && task.nextRunAtMs == Some(id.slot)
    ensures var task, row := db.tasks[id.taskId], UpdateTaskAfterRun(env, db, id, outcome, message, now).tasks[id.taskId];
            && Recurs(env, task, id.slot, now, row.nextRunAtMs)
            && row.status == (if row.nextRunAtMs == None || row.nextRunAtMs == Some(0) then Paused else Active)
            && row == task.(lastRunAtMs := Some(id.slot), nextRunAtMs := row.nextRunAtMs, status := row.status,
                            statusReason := None, updatedAtMs := now)
  {}

  /** A blocked run blocks its task with the message: on request the scheduled slot is kept, and otherwise dropped. */
  lemma BlockedRunBlocksItsTask(env: Env, db: Db, id: RunId, message: Option<string>, now: int)
    requires WellFormed(db) && id.taskId in db.tasks && db.tasks[id.taskId].status != Deleted
    requires var task := db.tasks[id.taskId];
             task.runNowAtMs == Some(id.slot) || (task.status == Active && task.nextRunAtMs == Some(id.slot))
    ensures var task, row := db.tasks[id.taskId], UpdateTaskAfterRun(env, db, id, WasBlocked, message, now).tasks[id.taskId];
            var requested := task.runNowAtMs == Some(id.slot);
            row == task.(
              lastRunAtMs := Some(id.slot),
              nextRunAtMs := if requested then task.nextRunAtMs else None,
              runNowAtMs := if requested then None else task.runNowAtMs,
              status := TaskBlocked, statusReason := message, updatedAtMs := now)
  {
    hide NextOccurrence;
  }

  /** A task that is not waiting for the slot any more only gets the times of the run. */
  lemma TaskThatMovedOnStays(env: Env, db: Db, id: RunId, outcome: Outcome, message: Option<string>, now: int)
    requires WellFormed(db) && id.taskId in db.tasks && db.tasks[id.taskId].status != Deleted
    requires var task := db.tasks[id.taskId];
             task.runNowAtMs != Some(id.slot) && (task.status != Active || task.nextRunAtMs != Some(id.slot))
    ensures UpdateTaskAfterRun(env, db, id, outcome, message, now).tasks[id.taskId] ==
            db.tasks[id.taskId].(lastRunAtMs := Some(id.slot), updatedAtMs := now)
  {}

  // ---------- saving a task ----------

  /** Saving a task writes its row. It forgets one run exactly when it makes a blocked task active with a next slot
      whose run is blocked; no other row changes. */
  lemma ReactivationForgets(db: Db, task: Task)
    requires WellFormed(db)
    ensures var after, id := SaveTask(db, task), RunId(task.id, if task.nextRunAtMs.Some? then task.nextRunAtMs.value else 0);
            var reactivated := task.id in db.tasks && db.tasks[task.id].status == TaskBlocked && task.status == Active
                               && task.nextRunAtMs.Some? && id in db.runs && db.runs[id].status == RunBlocked;
            && TaskRow(after, task.id) == Some(task)
            && (forall k | k != task.id :: TaskRow(after, k) == TaskRow(db, k))
            && (forall k :: RunRow(after, k) == if reactivated && k == id then None else RunRow(db, k))
  {}

  /** Reactivating a blocked task with a next slot whose run was blocked frees the slot: once it is due, not more than
      a day late and no other run of the task is live, it is not held up and a claim yields a first attempt on it. */
  lemma ReactivatedSlotIsFree(db: Db, task: Task, now: int)
    requires WellFormed(db) && task.id in db.tasks && db.tasks[task.id].status == TaskBlocked
    requires task.status == Active && task.nextRunAtMs.Some? && DueSlot(task, now) == task.nextRunAtMs
    requires RunRow(db, RunId(task.id, task.nextRunAtMs.value)).Some?
    requires db.runs[RunId(task.id, task.nextRunAtMs.value)].status == RunBlocked
    requires now <= task.nextRunAtMs.value + 86_400_000
    requires forall id | id in db.runs && id.taskId == task.id ::
               db.runs[id].status != Running && (db.runs[id].status == Pending ==> db.runs[id].claimedAtMs + 60_000 <= now)
    ensures HeldUp(db, task, now)
    ensures !HeldUp(SaveTask(db, task), task, now)
    ensures ClaimOf(SaveTask(db, task), task, now) ==
            Run(RunId(task.id, task.nextRunAtMs.value), 1, now, None, None, None, None, None, Pending)
  {
    hide DueSlot, Busy;
    HeldUpIff(db, task, now, task.nextRunAtMs.value);
    HeldUpIff(SaveTask(db, task), task, now, task.nextRunAtMs.value);
  }

  // ---------- marks ----------

  /** Whether a mark is accepted: on a pending run by the claim it names, on a running run by the start it names. */
  ghost predicate Accepts(run: Run, ev: Event) {
    match ev
    case Dispatch(_, claimedAt, _, _) => run.status == Pending && run.claimedAtMs == claimedAt
    case Complete(_, startedAt, _, _) => run.status == Running && run.startedAtMs == Some(startedAt)
    case Fail(_, startedAt, _, _) =>
      (run.status == Pending && startedAt == None) || (run.status == Running && run.startedAtMs == startedAt)
    case Block(_, startedAt, _, _) =>
      (run.status == Pending && startedAt == None) || (run.status == Running && run.startedAtMs == startedAt)
    case Skip(_, _, _) => run.status == Pending
    case _ => false
  }

  /** A mark is accepted exactly when its run is there and as it says, and then changes the named fields of that row;
      nothing else changes. */
  lemma MarksAreAcceptedIff(env: Env, db: Db, ev: Event)
    requires WellFormed(db) && (ev.Dispatch? || ev.Complete? || ev.Fail? || ev.Block? || ev.Skip?)
    ensures var after := Apply(env, db, ev);
            && after.tasks == db.tasks && (forall k | k != ev.id :: RunRow(after, k) == RunRow(db, k))
            && if ev.id in db.runs && Accepts(db.runs[ev.id], ev) then
                 && ev.id in after.runs
                 && var was, row := db.runs[ev.id], after.runs[ev.id];
                    match ev
                    case Dispatch(_, _, dispatchId, now) =>
                      row == was.(status := Running, startedAtMs := Some(now), dispatchId := Some(dispatchId))
                    case Complete(_, _, now, ts) =>
                      row == was.(status := Completed, completedAtMs := Some(now), resultMessageTs := ts)
                    case Fail(_, _, now, message) =>
                      row == was.(status := Failed, completedAtMs := Some(now), errorMessage := Some(message))
                    case Block(_, _, now, message) =>
                      row == was.(status := RunBlocked, completedAtMs := Some(now), errorMessage := Some(message))
                    case Skip(_, now, message) =>
                      row == was.(status := Skipped, completedAtMs := Some(now), errorMessage := Some(message))
                    case _ => true
               else after == db
  {}
}
