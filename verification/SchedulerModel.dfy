/** Scheduled tasks and their runs: the two tables and what each store call does to them. */
module SchedulerModel {
  import opened Wrappers
  import opened LocalTime
  import opened Text
  import Cadence

  const PENDING_CLAIM_STALE_MS := 60_000
  const MISSED_RUN_MAX_AGE_MS := 86_400_000

  datatype TaskStatus = Active | Paused | TaskBlocked | Deleted
  datatype RunStatus = Pending | Running | Completed | Failed | RunBlocked | Skipped
  datatype ScheduleKind = OneOff | Recurring
  datatype Outcome = WasBlocked | WasCompleted | WasFailed

  datatype Schedule = Schedule(kind: ScheduleKind, timezone: string, recurrence: Option<Cadence.Recurrence>)
  datatype Destination = Destination(teamId: string, channelId: string)

  datatype Task = Task(
    id: string,
    createdAtMs: int,
    destination: Destination,
    lastRunAtMs: Option<int>,
    nextRunAtMs: Option<int>,
    runNowAtMs: Option<int>,
    schedule: Schedule,
    status: TaskStatus,
    statusReason: Option<string>,
    text: string,
    updatedAtMs: int)

  /** One occurrence of a task: the run table has at most one row for it. */
  datatype RunId = RunId(taskId: string, slot: int)

  datatype Run = Run(
    id: RunId,
    attempt: int,
    claimedAtMs: int,
    completedAtMs: Option<int>,
    dispatchId: Option<string>,
    errorMessage: Option<string>,
    resultMessageTs: Option<string>,
    startedAtMs: Option<int>,
    status: RunStatus)

  datatype Db = Db(tasks: map<string, Task>, runs: map<RunId, Run>)

  /** What the store takes from its surroundings: time zones by name, and text normalisation. */
  datatype Env = Env(zones: string -> Zone, normalize: string -> string)

  ghost predicate WellFormed(db: Db) {
    && (forall k | k in db.tasks :: db.tasks[k].id == k)
    && (forall k | k in db.runs :: db.runs[k].id == k)
  }

  function TaskRow(db: Db, id: string): Option<Task> {
    if id in db.tasks then Some(db.tasks[id]) else None
  }

  function RunRow(db: Db, id: RunId): Option<Run> {
    if id in db.runs then Some(db.runs[id]) else None
  }

  // ---------- runs ----------

  predicate Finished(run: Run) {
    run.status == Completed || run.status == Failed || run.status == RunBlocked || run.status == Skipped
  }

  predicate Incomplete(run: Run) {
    run.status == Pending || run.status == Running
  }

  /** A claim that was not dispatched in time. */
  predicate StalePending(run: Run, now: int) {
    run.status == Pending && run.claimedAtMs + PENDING_CLAIM_STALE_MS <= now
  }

  predicate CanFinish(run: Run, startedAt: Option<int>) {
    if run.status == Pending then startedAt.None?
    else run.status == Running && run.startedAtMs == startedAt
  }

  function NewRun(id: RunId, now: int): Run {
    Run(id, 1, now, None, None, None, None, None, Pending)
  }

  function Reclaimed(run: Run, now: int): Run {
    run.(attempt := run.attempt + 1, claimedAtMs := now)
  }

  // ---------- tasks ----------

  /** A number that JavaScript takes for true. */
  predicate Truthy(value: Option<int>) {
    value.Some? && value.value != 0
  }

  function DueSlot(task: Task, now: int): Option<int> {
    if task.runNowAtMs.Some? && task.runNowAtMs.value <= now then task.runNowAtMs
    else if task.nextRunAtMs.Some? && task.nextRunAtMs.value <= now then task.nextRunAtMs
    else None
  }

  predicate Due(task: Task, now: int) {
    task.status == Active && DueSlot(task, now).Some?
  }

  predicate TooOld(slot: int, now: int) {
    slot + MISSED_RUN_MAX_AGE_MS < now
  }

  function NextOccurrence(env: Env, task: Task, scheduledFor: int, after: int): Option<int> {
    if task.schedule.kind != Recurring || task.schedule.recurrence.None? then None
    else Cadence.NextRun(env.zones(task.schedule.timezone), task.schedule.recurrence.value, scheduledFor, after)
  }

  lemma NextOccurrenceIsLater(env: Env, task: Task, scheduledFor: int, after: int)
    ensures var next := NextOccurrence(env, task, scheduledFor, after); next.Some? ==> next.value > after
  {
    if task.schedule.kind == Recurring && task.schedule.recurrence.Some? {
      Cadence.NextRunIsLater(env.zones(task.schedule.timezone), task.schedule.recurrence.value, scheduledFor, after);
    }
  }

  // ---------- the order of tasks ----------

  predicate Earlier(a: Task, b: Task) {
    a.createdAtMs < b.createdAtMs || (a.createdAtMs == b.createdAtMs && TextLess(a.id, b.id))
  }

  lemma EarlierIsTotalOrder(a: Task, b: Task, c: Task)
    ensures a.id != b.id ==> Earlier(a, b) || Earlier(b, a)
    ensures !(Earlier(a, b) && Earlier(b, a)) && !Earlier(a, a)
    ensures Earlier(a, b) && Earlier(b, c) ==> Earlier(a, c)
  {
    TextOrderTotal(a.id, b.id);
    TextOrderTotal(a.id, a.id);
    if TextLess(a.id, b.id) && TextLess(b.id, c.id) { TextOrderTransitive(a.id, b.id, c.id); }
  }

  ghost predicate KeysMatch(tasks: map<string, Task>) {
    forall k | k in tasks :: tasks[k].id == k
  }

  predicate First(tasks: map<string, Task>, ids: set<string>, id: string)
    requires ids <= tasks.Keys
  {
    id in ids && forall x | x in ids :: x != id ==> Earlier(tasks[id], tasks[x])
  }

  lemma {:induction false} FirstExists(tasks: map<string, Task>, ids: set<string>)
    requires KeysMatch(tasks) && ids <= tasks.Keys && ids != {}
    ensures exists id :: First(tasks, ids, id)
    decreases ids
  {
    hide Earlier;
    var x :| x in ids;
    if ids == {x} {
      assert First(tasks, ids, x);
    } else {
      var rest := ids - {x};
      assert ids == rest + {x};
      FirstExists(tasks, rest);
      var y :| First(tasks, rest, y);
      EarlierIsTotalOrder(tasks[x], tasks[y], tasks[y]);
      if Earlier(tasks[x], tasks[y]) {
        forall w | w in ids && w != x ensures Earlier(tasks[x], tasks[w]) {
          EarlierIsTotalOrder(tasks[x], tasks[y], tasks[w]);
        }
        assert First(tasks, ids, x);
      } else {
        assert First(tasks, ids, y);
      }
    }
  }

  ghost predicate Ascending(rows: seq<Task>) {
    forall i, j | 0 <= i < j < |rows| :: Earlier(rows[i], rows[j])
  }

  /** The rows with the given ids, oldest first: `ORDER BY created_at_ms, id`. */
  function Ordered(tasks: map<string, Task>, ids: set<string>): (rows: seq<Task>)
    requires KeysMatch(tasks) && ids <= tasks.Keys
    ensures Ascending(rows)
    ensures forall t :: t in rows <==> t.id in ids && tasks[t.id] == t
    decreases ids
  {
    hide Earlier;
    if ids == {} then []
    else
      FirstExists(tasks, ids);
      assert forall a, b | First(tasks, ids, a) && First(tasks, ids, b) :: a == b by {
        forall a, b | First(tasks, ids, a) && First(tasks, ids, b) ensures a == b {
          EarlierIsTotalOrder(tasks[a], tasks[b], tasks[b]);
        }
      }
      var id :| First(tasks, ids, id);
      var rest := Ordered(tasks, ids - {id});
      assert forall j | 0 <= j < |rest| :: rest[j] in rest && Earlier(tasks[id], rest[j]);
      [tasks[id]] + rest
  }

  // ---------- duplicates ----------

  datatype Fingerprint = Fingerprint(
    destination: Destination,
    kind: ScheduleKind,
    oneOffAtMs: Option<int>,
    recurrence: Option<Cadence.Recurrence>,
    weekdays: multiset<int>,
    timezone: string,
    text: string)

  function TaskFingerprint(env: Env, task: Task): Fingerprint {
    var r := task.schedule.recurrence;
    Fingerprint(
      task.destination, task.schedule.kind,
      if task.schedule.kind == OneOff then task.nextRunAtMs else None,
      if r.Some? then Some(r.value.(weekdays := None)) else None,
      if r.Some? && r.value.weekdays.Some? then multiset(r.value.weekdays.value) else multiset{},
      task.schedule.timezone,
      env.normalize(task.text))
  }

  /** An active task that is earlier than `task` and asks for the same thing. */
  predicate EarlierDuplicate(env: Env, candidate: Task, task: Task) {
    candidate.id != task.id && candidate.status == Active && Earlier(candidate, task)
    && TaskFingerprint(env, candidate) == TaskFingerprint(env, task)
  }

  function CanonicalTask(env: Env, db: Db, task: Task): Option<Task>
    requires WellFormed(db)
  {
    var ids := set id | id in db.tasks && EarlierDuplicate(env, db.tasks[id], task);
    var rows := Ordered(db.tasks, ids);
    if rows == [] then None else Some(rows[0])
  }

  // ---------- store calls ----------

  /** Writes a task row. Reactivating a blocked task forgets the blocked run of its next slot. */
  function SaveTaskRecord(db: Db, task: Task, current: Option<Task>): Db {
    var reactivates := current.Some? && current.value.status == TaskBlocked && task.status == Active
                       && task.nextRunAtMs.Some?;
    var runs :=
      if reactivates then
        var id := RunId(task.id, task.nextRunAtMs.value);
        if id in db.runs && db.runs[id].status == RunBlocked then db.runs - {id} else db.runs
      else db.runs;
    Db(db.tasks[task.id := task], runs)
  }

  function SaveTask(db: Db, task: Task): Db {
    SaveTaskRecord(db, task, TaskRow(db, task.id))
  }

  function PutRun(db: Db, run: Run): Db {
    db.(runs := db.runs[run.id := run])
  }

  function UpdateRun(db: Db, id: RunId, update: Run -> Option<Run>): (Db, Option<Run>) {
    if id !in db.runs then (db, None)
    else
      var next := update(db.runs[id]);
      if next.None? then (db, None) else (PutRun(db, next.value), next)
  }

  function DispatchedRun(claimedAt: int, dispatchId: string, now: int): Run -> Option<Run> {
    (run: Run) =>
      if run.status == Pending && run.claimedAtMs == claimedAt
      then Some(run.(dispatchId := Some(dispatchId), startedAtMs := Some(now), status := Running))
      else None
  }

  function CompletedRun(startedAt: int, now: int, resultMessageTs: Option<string>): Run -> Option<Run> {
    (run: Run) =>
      if CanFinish(run, Some(startedAt))
      then Some(run.(completedAtMs := Some(now), resultMessageTs := resultMessageTs, status := Completed))
      else None
  }

  function FailedRun(startedAt: Option<int>, now: int, message: string): Run -> Option<Run> {
    (run: Run) =>
      if CanFinish(run, startedAt)
      then Some(run.(completedAtMs := Some(now), errorMessage := Some(message), status := Failed))
      else None
  }

  function BlockedRun(startedAt: Option<int>, now: int, message: string): Run -> Option<Run> {
    (run: Run) =>
      if CanFinish(run, startedAt)
      then Some(run.(completedAtMs := Some(now), errorMessage := Some(message), status := RunBlocked))
      else None
  }

  function SkippedRun(now: int, message: string): Run -> Option<Run> {
    (run: Run) =>
      if run.status == Pending
      then Some(run.(completedAtMs := Some(now), errorMessage := Some(message), status := Skipped))
      else None
  }

  const LATE_MESSAGE := "Scheduled occurrence was more than 24 hours late and was skipped without dispatch."

  function DuplicateMessage(id: string): string {
    "Duplicate stale scheduled task was skipped without dispatch. Canonical task: " + id + "."
  }

  function MissedRun(id: RunId, now: int, message: string): Run {
    NewRun(id, now).(completedAtMs := Some(now), errorMessage := Some(message), status := Skipped)
  }

  /** The task's next slot once its missed `slot` is given up; none when it duplicates another task. */
  function SlotAfterMiss(env: Env, current: Task, slot: int, now: int, duplicate: bool): Option<int> {
    if duplicate then None
    else if current.runNowAtMs == Some(slot) && current.nextRunAtMs != Some(slot) then current.nextRunAtMs
    else NextOccurrence(env, current, slot, now)
  }

  function TaskAfterMiss(env: Env, current: Task, slot: int, now: int, duplicate: bool, message: string): Task {
    var next := SlotAfterMiss(env, current, slot, now, duplicate);
    var status := if Truthy(next) then Active else Paused;
    current.(
      nextRunAtMs := next,
      runNowAtMs := if current.runNowAtMs == Some(slot) then None else current.runNowAtMs,
      status := status,
      statusReason := if status == Paused then Some(message) else None,
      updatedAtMs := now)
  }

  function SkipMissedRun(env: Env, db: Db, id: RunId, now: int): Db
    requires WellFormed(db)
  {
    if id.taskId !in db.tasks then db
    else
      var current := db.tasks[id.taskId];
      if current.status != Active || DueSlot(current, now) != Some(id.slot) then db
      else
        var canonical := CanonicalTask(env, db, current);
        var message := if canonical.Some? then DuplicateMessage(canonical.value.id) else LATE_MESSAGE;
        SaveTaskRecord(
          PutRun(db, MissedRun(id, now, message)),
          TaskAfterMiss(env, current, id.slot, now, canonical.Some?, message),
          Some(current))
  }

  /** Another run of the task holds a fresh claim or is running. */
  predicate Busy(db: Db, id: RunId, now: int) {
    exists k | k in db.runs ::
      k.taskId == id.taskId && k != id && Incomplete(db.runs[k]) && !StalePending(db.runs[k], now)
  }

  datatype Visited = Passed(db: Db) | Claimed(db: Db, run: Run)

  /** What the claim scan does for one due task. */
  function Visit(env: Env, db: Db, task: Task, now: int): Visited
    requires WellFormed(db)
  {
    var slot := DueSlot(task, now);
    if slot.None? then Passed(db)
    else
      var id := RunId(task.id, slot.value);
      if Busy(db, id, now) then Passed(db)
      else if id in db.runs && Incomplete(db.runs[id]) then
        if !StalePending(db.runs[id], now) then Passed(db)
        else Claimed(PutRun(db, Reclaimed(db.runs[id], now)), Reclaimed(db.runs[id], now))
      else if id in db.runs then Passed(db)
      else if TooOld(slot.value, now) then Passed(SkipMissedRun(env, db, id, now))
      else Claimed(PutRun(db, NewRun(id, now)), NewRun(id, now))
  }

  lemma VisitKeepsWellFormed(env: Env, db: Db, task: Task, now: int)
    requires WellFormed(db)
    ensures WellFormed(Visit(env, db, task, now).db)
  {
    hide Busy, CanonicalTask, NextOccurrence;
  }

  function Scan(env: Env, db: Db, rows: seq<Task>, now: int): (Db, Option<Run>)
    requires WellFormed(db)
    decreases rows
  {
    if rows == [] then (db, None)
    else
      VisitKeepsWellFormed(env, db, rows[0], now);
      match Visit(env, db, rows[0], now)
      case Claimed(after, run) => (after, Some(run))
      case Passed(after) => Scan(env, after, rows[1..], now)
  }

  /** The active tasks due by now, oldest first, as the scan reads them once at its start. */
  function DueTasks(db: Db, now: int): seq<Task>
    requires WellFormed(db)
  {
    Ordered(db.tasks, set id | id in db.tasks && Due(db.tasks[id], now))
  }

  function ClaimDueRun(env: Env, db: Db, now: int): (Db, Option<Run>)
    requires WellFormed(db)
  {
    Scan(env, db, DueTasks(db, now), now)
  }

  function TaskAfterRun(env: Env, current: Task, slot: int, outcome: Outcome, message: Option<string>, now: int): Task {
    if current.runNowAtMs == Some(slot) then
      var next :=
        if outcome != WasBlocked && current.nextRunAtMs.Some? && current.nextRunAtMs.value <= slot
        then NextOccurrence(env, current, current.nextRunAtMs.value, now)
        else current.nextRunAtMs;
      current.(
        lastRunAtMs := Some(slot),
        nextRunAtMs := next,
        runNowAtMs := None,
        status := if outcome == WasBlocked then TaskBlocked else if Truthy(next) then current.status else Paused,
        statusReason := if outcome == WasBlocked then message else None,
        updatedAtMs := now)
    else if current.status != Active || current.nextRunAtMs != Some(slot) then
      current.(lastRunAtMs := Some(slot), updatedAtMs := now)
    else
      var next := if outcome == WasBlocked then None else NextOccurrence(env, current, slot, now);
      current.(
        lastRunAtMs := Some(slot),
        nextRunAtMs := next,
        status := if outcome == WasBlocked then TaskBlocked else if Truthy(next) then Active else Paused,
        statusReason := if outcome == WasBlocked then message else None,
        updatedAtMs := now)
  }

  function UpdateTaskAfterRun(env: Env, db: Db, id: RunId, outcome: Outcome, message: Option<string>, now: int): Db {
    if id.taskId !in db.tasks || db.tasks[id.taskId].status == Deleted then db
    else
      var current := db.tasks[id.taskId];
      SaveTaskRecord(db, TaskAfterRun(env, current, id.slot, outcome, message, now), Some(current))
  }
}
