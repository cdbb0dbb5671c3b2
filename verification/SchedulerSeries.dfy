/** Recurring tasks in the scheduler: how long finishing and missing runs keep them going. */
module SchedulerSeries {
  import opened Wrappers
  import opened LocalTime
  import opened SchedulerModel
  import opened Cadence
  import opened Series
  import opened ClaimScan
  import Calendar

  /** The task follows a recurrence anchored on `start`, `slot` is one of its dates, and `now` is not too late for
      the search from it. */
  ghost predicate Follows(env: Env, task: Task, start: Calendar.LocalDate, slot: int, now: int) {
    && task.schedule.kind == Recurring && task.schedule.recurrence.Some?
    && var z, r := env.zones(task.schedule.timezone), task.schedule.recurrence.value;
       && AnchoredOn(r, start)
       && (LocalDateAt(z, slot) == start || OnGrid(r, start, LocalDateAt(z, slot)))
       && (r.frequency == Weekly ==> r.interval <= 522)
       && (r.frequency == Daily || now <= Horizon(r, LocalDateAt(z, slot)))
  }

  lemma NextOccurrenceExists(env: Env, task: Task, start: Calendar.LocalDate, slot: int, now: int)
    requires Follows(env, task, start, slot, now) && 0 <= now
    ensures Truthy(NextOccurrence(env, task, slot, now)) && NextOccurrence(env, task, slot, now).value > now
  {
    hide AnchoredOn, OnGrid, Horizon, NextRun, ZonedParts;
    var z, r := env.zones(task.schedule.timezone), task.schedule.recurrence.value;
    SeriesContinues(z, r, start, slot, now);
    NextOccurrenceIsLater(env, task, slot, now);
  }

  /** A run that finishes at its slot's turn, and not blocked, leaves its recurring task active with a next slot
      that is still to come. */
  lemma FinishedTaskGoesOn(env: Env, db: Db, id: RunId, start: Calendar.LocalDate, outcome: Outcome, reason: Option<string>, now: int)
    requires WellFormed(db) && id.taskId in db.tasks && outcome != WasBlocked && 0 <= now
    requires var task := db.tasks[id.taskId];
             task.status == Active && task.nextRunAtMs == Some(id.slot) && Follows(env, task, start, id.slot, now)
    ensures var after := UpdateTaskAfterRun(env, db, id, outcome, reason, now).tasks;
            && id.taskId in after && after[id.taskId].status == Active
            && after[id.taskId].nextRunAtMs.Some? && after[id.taskId].nextRunAtMs.value > now
  {
    hide Follows, NextOccurrence;
    NextOccurrenceExists(env, db.tasks[id.taskId], start, id.slot, now);
  }

  /** Missing a slot does not end a recurring task: it does not run out, so recovery keeps it or an earlier duplicate. */
  lemma MissedTaskGoesOn(env: Env, db: Db, start: Calendar.LocalDate, slot: int, now: int, k: string)
    requires WellFormed(db) && k in db.tasks && 0 <= now
    requires var task := db.tasks[k];
             task.status == Active && task.nextRunAtMs == Some(slot) && DueSlot(task, now) == Some(slot)
             && Follows(env, task, start, slot, now)
    ensures Represented(env, ClaimDueRun(env, db, now).0, db.tasks[k])
  {
    hide Follows, NextOccurrence, ClaimDueRun, Represented;
    NextOccurrenceExists(env, db.tasks[k], start, slot, now);
    RecoveryKeepsEveryClass(env, db, now, k);
  }
}
