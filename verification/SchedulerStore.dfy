/** The SQL scheduler store: an object over the task and run tables. Its calls are serialised. */
module SchedulerStore {
  import opened Wrappers
  import opened SchedulerModel
  import NextRunLoops

  class SqlSchedulerStore {
    const env: Env
    var tasks: map<string, Task>
    var runs: map<RunId, Run>

    function State(): Db
      reads this
    {
      Db(tasks, runs)
    }

    ghost predicate Valid()
      reads this
    {
      WellFormed(State())
    }

    constructor (env: Env)
      ensures Valid() && State() == Db(map[], map[]) && this.env == env
    {
      this.env := env;
      tasks := map[];
      runs := map[];
    }

    method SaveTask(task: Task)
      requires Valid()
      modifies this
      ensures Valid() && State() == SchedulerModel.SaveTask(old(State()), task)
    {
      SaveTaskRecord(task, TaskRow(State(), task.id));
    }

    method SaveTaskRecord(task: Task, current: Option<Task>)
      requires Valid()
      modifies this
      ensures Valid() && State() == SchedulerModel.SaveTaskRecord(old(State()), task, current)
    {
      if current.Some? && current.value.status == TaskBlocked && task.status == Active && task.nextRunAtMs.Some? {
        var id := RunId(task.id, task.nextRunAtMs.value);
        if id in runs && runs[id].status == RunBlocked {
          runs := runs - {id};
        }
      }
      tasks := tasks[task.id := task];
    }

    /** Scans the due tasks, oldest first, skipping runs missed by more than a day on the way. */
    method ClaimDueRun(now: int) returns (claimed: Option<Run>)
      requires Valid()
      modifies this
      ensures Valid() && (State(), claimed) == SchedulerModel.ClaimDueRun(env, old(State()), now)
    {
      hide Busy, SchedulerModel.SkipMissedRun, Ordered;
      var rows := DueTasks(State(), now);
      var i := 0;
      while i < |rows|
        invariant 0 <= i <= |rows| && Valid()
        invariant Scan(env, State(), rows[i..], now) == SchedulerModel.ClaimDueRun(env, old(State()), now)
      {
        var task := rows[i];
        assert rows[i..][0] == task && rows[i..][1..] == rows[i + 1..];
        VisitKeepsWellFormed(env, State(), task, now);
        i := i + 1;
        var slot := DueSlot(task, now);
        if slot.None? {
          continue;
        }
        var id := RunId(task.id, slot.value);
        if Busy(State(), id, now) {
          continue;
        }
        if id in runs && Incomplete(runs[id]) {
          if !StalePending(runs[id], now) {
            continue;
          }
          var reclaimed := runs[id].(attempt := runs[id].attempt + 1, claimedAtMs := now);
          runs := runs[id := reclaimed];
          return Some(reclaimed);
        }
        if id in runs {
          continue;
        }
        if TooOld(slot.value, now) {
          SkipMissedRun(id, now);
          continue;
        }
        var run := NewRun(id, now);
        runs := runs[id := run];
        return Some(run);
      }
      claimed := None;
    }

    method SkipMissedRun(id: RunId, now: int)
      requires Valid()
      modifies this
      ensures Valid() && State() == SchedulerModel.SkipMissedRun(env, old(State()), id, now)
    {
      hide CanonicalTask, NextOccurrence, DueSlot, DuplicateMessage;
      if id.taskId !in tasks {
        return;
      }
      var current := tasks[id.taskId];
      if current.status != Active || DueSlot(current, now) != Some(id.slot) {
        return;
      }
      var duplicateOf := CanonicalTask(env, State(), current);
      var message := if duplicateOf.Some? then DuplicateMessage(duplicateOf.value.id) else LATE_MESSAGE;
      runs := runs[id := MissedRun(id, now, message)];

      var isRunNow := current.runNowAtMs == Some(id.slot);
      var next: Option<int> := None;
      if duplicateOf.None? {
        if isRunNow && current.nextRunAtMs != Some(id.slot) {
          next := current.nextRunAtMs;
        } else {
          next := GetNextRunAtMs(current, id.slot, now);
        }
      }
      var status := if Truthy(next) then Active else Paused;
      SaveTaskRecord(
        current.(
          nextRunAtMs := next,
          runNowAtMs := if isRunNow then None else current.runNowAtMs,
          status := status,
          statusReason := if status == Paused then Some(message) else None,
          updatedAtMs := now),
        Some(current));
    }

    method GetNextRunAtMs(task: Task, scheduledFor: int, after: int) returns (next: Option<int>)
      ensures next == NextOccurrence(env, task, scheduledFor, after)
    {
      if task.schedule.kind != Recurring || task.schedule.recurrence.None? {
        return None;
      }
      next := NextRunLoops.GetNextRun(
        env.zones(task.schedule.timezone), task.schedule.recurrence.value, scheduledFor, after);
    }

    method UpdateRun(id: RunId, update: Run -> Option<Run>) returns (next: Option<Run>)
      requires Valid()
      requires forall run: Run :: update(run).Some? ==> update(run).value.id == run.id
      modifies this
      ensures Valid() && (State(), next) == SchedulerModel.UpdateRun(old(State()), id, update)
    {
      if id !in runs {
        return None;
      }
      next := update(runs[id]);
      if next.Some? {
        runs := runs[next.value.id := next.value];
      }
    }

    method MarkRunDispatched(id: RunId, claimedAt: int, dispatchId: string, now: int) returns (next: Option<Run>)
      requires Valid()
      modifies this
      ensures Valid()
      ensures (State(), next) == SchedulerModel.UpdateRun(old(State()), id, DispatchedRun(claimedAt, dispatchId, now))
    {
      next := UpdateRun(id, DispatchedRun(claimedAt, dispatchId, now));
    }

    method MarkRunCompleted(id: RunId, startedAt: int, now: int, resultMessageTs: Option<string>) returns (next: Option<Run>)
      requires Valid()
      modifies this
      ensures Valid()
      ensures (State(), next) == SchedulerModel.UpdateRun(old(State()), id, CompletedRun(startedAt, now, resultMessageTs))
    {
      next := UpdateRun(id, CompletedRun(startedAt, now, resultMessageTs));
    }

    method MarkRunFailed(id: RunId, startedAt: Option<int>, now: int, message: string) returns (next: Option<Run>)
      requires Valid()
      modifies this
      ensures Valid()
      ensures (State(), next) == SchedulerModel.UpdateRun(old(State()), id, FailedRun(startedAt, now, message))
    {
      next := UpdateRun(id, FailedRun(startedAt, now, message));
    }

    method MarkRunSkipped(id: RunId, now: int, message: string) returns (next: Option<Run>)
      requires Valid()
      modifies this
      ensures Valid()
      ensures (State(), next) == SchedulerModel.UpdateRun(old(State()), id, SkippedRun(now, message))
    {
      next := UpdateRun(id, SkippedRun(now, message));
    }

    method MarkRunBlocked(id: RunId, startedAt: Option<int>, now: int, message: string) returns (next: Option<Run>)
      requires Valid()
      modifies this
      ensures Valid()
      ensures (State(), next) == SchedulerModel.UpdateRun(old(State()), id, BlockedRun(startedAt, now, message))
    {
      next := UpdateRun(id, BlockedRun(startedAt, now, message));
    }

    /** Records a finished run on its task and moves the task to its next slot. */
    method UpdateTaskAfterRun(id: RunId, outcome: Outcome, message: Option<string>, now: int)
      requires Valid()
      modifies this
      ensures Valid()
      ensures State() == SchedulerModel.UpdateTaskAfterRun(env, old(State()), id, outcome, message, now)
    {
      hide NextOccurrence;
      if id.taskId !in tasks || tasks[id.taskId].status == Deleted {
        return;
      }
      var current := tasks[id.taskId];
      if current.runNowAtMs == Some(id.slot) {
        var next := current.nextRunAtMs;
        if outcome != WasBlocked && current.nextRunAtMs.Some? && current.nextRunAtMs.value <= id.slot {
          next := GetNextRunAtMs(current, current.nextRunAtMs.value, now);
        }
        SaveTaskRecord(
          current.(
            lastRunAtMs := Some(id.slot),
            nextRunAtMs := next,
            runNowAtMs := None,
            status := if outcome == WasBlocked then TaskBlocked else if Truthy(next) then current.status else Paused,
            statusReason := if outcome == WasBlocked then message else None,
            updatedAtMs := now),
          Some(current));
        return;
      }
      if current.status != Active || current.nextRunAtMs != Some(id.slot) {
        SaveTaskRecord(current.(lastRunAtMs := Some(id.slot), updatedAtMs := now), Some(current));
        return;
      }
      var next: Option<int> := None;
      if outcome != WasBlocked {
        next := GetNextRunAtMs(current, id.slot, now);
      }
      SaveTaskRecord(
        current.(
          lastRunAtMs := Some(id.slot),
          nextRunAtMs := next,
          status := if outcome == WasBlocked then TaskBlocked else if Truthy(next) then Active else Paused,
          statusReason := if outcome == WasBlocked then message else None,
          updatedAtMs := now),
        Some(current));
    }
  }
}
