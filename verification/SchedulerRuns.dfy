/** The life of a run row under every call on the store, in any order: what one call may do to
    it, and what follows over whole histories. */
module SchedulerRuns {
  import opened Wrappers
  import opened SchedulerModel

  /** A store call, as the heartbeat and the chat tools issue it. */
  datatype Event =
    | Claim(now: int)
    | Dispatch(id: RunId, claimedAt: int, dispatchId: string, now: int)
    | Complete(id: RunId, startedAt: int, now: int, resultMessageTs: Option<string>)
    | Fail(id: RunId, startedAtMs: Option<int>, now: int, message: string)
    | Block(id: RunId, startedAtMs: Option<int>, now: int, message: string)
    | Skip(id: RunId, now: int, message: string)
    | Advance(id: RunId, outcome: Outcome, reason: Option<string>, now: int)
    | Save(task: Task)

  function Apply(env: Env, db: Db, ev: Event): Db
    requires WellFormed(db)
  {
    match ev
    case Claim(now) => ClaimDueRun(env, db, now).0
    case Dispatch(id, claimedAt, dispatchId, now) => UpdateRun(db, id, DispatchedRun(claimedAt, dispatchId, now)).0
    case Complete(id, startedAt, now, ts) => UpdateRun(db, id, CompletedRun(startedAt, now, ts)).0
    case Fail(id, startedAt, now, message) => UpdateRun(db, id, FailedRun(startedAt, now, message)).0
    case Block(id, startedAt, now, message) => UpdateRun(db, id, BlockedRun(startedAt, now, message)).0
    case Skip(id, now, message) => UpdateRun(db, id, SkippedRun(now, message)).0
    case Advance(id, outcome, reason, now) => UpdateTaskAfterRun(env, db, id, outcome, reason, now)
    case Save(task) => SaveTask(db, task)
  }

  // ---------- frames ----------

  /** Two databases hold the same task row and the same run rows for one task. */
  ghost predicate SameFor(a: Db, b: Db, taskId: string) {
    && TaskRow(a, taskId) == TaskRow(b, taskId)
    && forall slot :: RunRow(a, RunId(taskId, slot)) == RunRow(b, RunId(taskId, slot))
  }

  lemma SameForBusy(a: Db, b: Db, id: RunId, now: int)
    requires SameFor(a, b, id.taskId)
    ensures Busy(a, id, now) == Busy(b, id, now)
    ensures RunRow(a, id) == RunRow(b, id)
  {
    assert id == RunId(id.taskId, id.slot);
    forall k: RunId | k.taskId == id.taskId ensures RunRow(a, k) == RunRow(b, k) {
      assert k == RunId(id.taskId, k.slot);
    }
    if Busy(a, id, now) {
      var k :| k in a.runs && k.taskId == id.taskId && k != id && Incomplete(a.runs[k]) && !StalePending(a.runs[k], now);
      assert RunRow(a, k) == RunRow(b, k);
    }
    if Busy(b, id, now) {
      var k :| k in b.runs && k.taskId == id.taskId && k != id && Incomplete(b.runs[k]) && !StalePending(b.runs[k], now);
      assert RunRow(a, k) == RunRow(b, k);
    }
  }

  lemma VisitTouchesOneTask(env: Env, db: Db, task: Task, now: int, other: string)
    requires WellFormed(db) && other != task.id
    ensures SameFor(db, Visit(env, db, task, now).db, other)
  {
    hide Busy, CanonicalTask, NextOccurrence;
  }

  lemma {:induction false} ScanTouchesListedTasks(env: Env, db: Db, rows: seq<Task>, now: int, other: string)
    requires WellFormed(db) && forall t | t in rows :: t.id != other
    ensures SameFor(db, Scan(env, db, rows, now).0, other)
    ensures WellFormed(Scan(env, db, rows, now).0)
    decreases rows
  {
    hide Visit;
    if rows != [] {
      VisitTouchesOneTask(env, db, rows[0], now, other);
      VisitKeepsWellFormed(env, db, rows[0], now);
      if Visit(env, db, rows[0], now).Passed? {
        ScanTouchesListedTasks(env, Visit(env, db, rows[0], now).db, rows[1..], now, other);
      }
    }
  }

  // ---------- what one call does to one row ----------

  datatype Change = Same | Created | Missed | Retaken | Sent | Done | Forgotten

  /** The slot that a claim at `now` would work on for the task. */
  predicate TargetedAt(db: Db, id: RunId, now: int) {
    id.taskId in db.tasks && db.tasks[id.taskId].status == Active
    && DueSlot(db.tasks[id.taskId], now) == Some(id.slot)
  }

  function FinalStatus(ev: Event): RunStatus
    requires ev.Complete? || ev.Fail? || ev.Block? || ev.Skip?
  {
    match ev
    case Complete(_, _, _, _) => Completed
    case Fail(_, _, _, _) => Failed
    case Block(_, _, _, _) => RunBlocked
    case Skip(_, _, _) => Skipped
  }

  /** The ways in which one call can change the run row of one occurrence. */
  predicate IsChange(c: Change, db: Db, ev: Event, id: RunId, before: Option<Run>, after: Option<Run>) {
    match c
    case Same => before == after
    case Created =>
      ev.Claim? && before.None? && after == Some(NewRun(id, ev.now))
      && TargetedAt(db, id, ev.now) && !Busy(db, id, ev.now) && !TooOld(id.slot, ev.now)
    case Missed =>
      ev.Claim? && before.None? && after.Some? && after.value.errorMessage.Some?
      && after.value == MissedRun(id, ev.now, after.value.errorMessage.value)
      && TargetedAt(db, id, ev.now) && !Busy(db, id, ev.now) && TooOld(id.slot, ev.now)
    case Retaken =>
      ev.Claim? && before.Some? && StalePending(before.value, ev.now)
      && after == Some(Reclaimed(before.value, ev.now))
      && TargetedAt(db, id, ev.now) && !Busy(db, id, ev.now)
    case Sent =>
      ev.Dispatch? && ev.id == id && before.Some? && before.value.status == Pending
      && before.value.claimedAtMs == ev.claimedAt
      && after == Some(before.value.(dispatchId := Some(ev.dispatchId), startedAtMs := Some(ev.now), status := Running))
    case Done =>
      (ev.Complete? || ev.Fail? || ev.Block? || ev.Skip?) && ev.id == id
      && before.Some? && Incomplete(before.value) && after.Some? && Finished(after.value)
      && after.value == before.value.(
           completedAtMs := Some(ev.now), errorMessage := after.value.errorMessage,
           resultMessageTs := after.value.resultMessageTs, status := after.value.status)
      && after.value.status == FinalStatus(ev)
      && (ev.Complete? ==> before.value.status == Running && before.value.startedAtMs == Some(ev.startedAt))
      && (ev.Skip? ==> before.value.status == Pending)
      && (ev.Fail? || ev.Block? ==> CanFinish(before.value, ev.startedAtMs))
    case Forgotten =>
      ev.Save? && before.Some? && before.value.status == RunBlocked && after.None?
      && ev.task.id == id.taskId && ev.task.status == Active && ev.task.nextRunAtMs == Some(id.slot)
      && id.taskId in db.tasks && db.tasks[id.taskId].status == TaskBlocked
  }

  ghost predicate ChangesLegally(db: Db, ev: Event, id: RunId, before: Option<Run>, after: Option<Run>) {
    exists c :: IsChange(c, db, ev, id, before, after)
  }

  lemma VisitRow(env: Env, db: Db, task: Task, now: int, id: RunId)
    requires WellFormed(db) && TaskRow(db, task.id) == Some(task) && task.status == Active
    ensures ChangesLegally(db, Claim(now), id, RunRow(db, id), RunRow(Visit(env, db, task, now).db, id))
  {
    hide Busy, CanonicalTask, NextOccurrence, DueSlot;
    var slot := DueSlot(task, now);
    var before, after := RunRow(db, id), RunRow(Visit(env, db, task, now).db, id);
    if before == after {
      assert IsChange(Same, db, Claim(now), id, before, after);
    } else {
      assert slot.Some? && id == RunId(task.id, slot.value);
      if before.Some? {
        assert IsChange(Retaken, db, Claim(now), id, before, after);
      } else if TooOld(id.slot, now) {
        assert IsChange(Missed, db, Claim(now), id, before, after);
      } else {
        assert IsChange(Created, db, Claim(now), id, before, after);
      }
    }
  }

  ghost predicate Current(db: Db, rows: seq<Task>) {
    forall t | t in rows :: TaskRow(db, t.id) == Some(t) && t.status == Active
  }

  lemma RowsAreDistinct(db: Db, rows: seq<Task>)
    requires Ascending(rows) && rows != [] && Current(db, rows)
    ensures Ascending(rows[1..])
    ensures forall t | t in rows[1..] :: t.id != rows[0].id && Earlier(rows[0], t)
  {
    hide Earlier;
    forall t | t in rows[1..] ensures t.id != rows[0].id && Earlier(rows[0], t) {
      var j :| 0 <= j < |rows[1..]| && rows[1..][j] == t;
      assert rows[j + 1] == t && Earlier(rows[0], rows[j + 1]);
      EarlierIsTotalOrder(t, t, t);
      assert TaskRow(db, t.id) == Some(t) && TaskRow(db, rows[0].id) == Some(rows[0]);
    }
  }

  /** After one task is visited, the remaining rows still read as they did at the start of the scan. */
  lemma RestStaysCurrent(env: Env, db: Db, rows: seq<Task>, now: int)
    requires WellFormed(db) && Ascending(rows) && rows != [] && Current(db, rows)
    ensures var after := Visit(env, db, rows[0], now).db;
            WellFormed(after) && Current(after, rows[1..]) && Ascending(rows[1..])
            && forall t | t in rows[1..] :: t.id != rows[0].id && SameFor(db, after, t.id)
  {
    hide Visit, Earlier;
    RowsAreDistinct(db, rows);
    VisitKeepsWellFormed(env, db, rows[0], now);
    forall t | t in rows[1..] ensures SameFor(db, Visit(env, db, rows[0], now).db, t.id) {
      VisitTouchesOneTask(env, db, rows[0], now, t.id);
    }
  }

  lemma ChangeReadsOneTask(a: Db, b: Db, ev: Event, id: RunId, before: Option<Run>, after: Option<Run>)
    requires SameFor(a, b, id.taskId) && ChangesLegally(b, ev, id, before, after)
    ensures ChangesLegally(a, ev, id, before, after)
  {
    hide Busy, DueSlot;
    var c :| IsChange(c, b, ev, id, before, after);
    if ev.Claim? { SameForBusy(a, b, id, ev.now); }
    assert IsChange(c, a, ev, id, before, after);
  }

  lemma {:induction false} ScanRow(env: Env, db: Db, rows: seq<Task>, now: int, id: RunId)
    requires WellFormed(db) && Ascending(rows) && Current(db, rows)
    ensures ChangesLegally(db, Claim(now), id, RunRow(db, id), RunRow(Scan(env, db, rows, now).0, id))
    decreases rows
  {
    hide Visit, IsChange, Earlier;
    if rows == [] {
      NoChange(db, Claim(now), id, RunRow(db, id));
    } else {
      var visited := Visit(env, db, rows[0], now);
      VisitRow(env, db, rows[0], now, id);
      RestStaysCurrent(env, db, rows, now);
      if visited.Passed? {
        if rows[0].id == id.taskId {
          ScanTouchesListedTasks(env, visited.db, rows[1..], now, id.taskId);
          SameForBusy(visited.db, Scan(env, db, rows, now).0, id, now);
        } else {
          VisitTouchesOneTask(env, db, rows[0], now, id.taskId);
          SameForBusy(db, visited.db, id, now);
          ScanRow(env, visited.db, rows[1..], now, id);
          ChangeReadsOneTask(db, visited.db, Claim(now), id, RunRow(db, id), RunRow(Scan(env, db, rows, now).0, id));
        }
      }
    }
  }

  lemma NoChange(db: Db, ev: Event, id: RunId, row: Option<Run>)
    ensures ChangesLegally(db, ev, id, row, row)
  {
    assert IsChange(Same, db, ev, id, row, row);
  }

  lemma DueTasksAreCurrent(db: Db, now: int)
    requires WellFormed(db)
    ensures Ascending(DueTasks(db, now)) && Current(db, DueTasks(db, now))
    ensures forall t | t in DueTasks(db, now) :: Due(t, now)
    ensures forall k | k in db.tasks && Due(db.tasks[k], now) :: db.tasks[k] in DueTasks(db, now)
  {
    hide Ordered, Earlier, DueSlot;
  }

  lemma FinishRow(env: Env, db: Db, ev: Event, id: RunId)
    requires WellFormed(db) && (ev.Dispatch? || ev.Complete? || ev.Fail? || ev.Block? || ev.Skip?)
    ensures ChangesLegally(db, ev, id, RunRow(db, id), RunRow(Apply(env, db, ev), id))
    ensures WellFormed(Apply(env, db, ev))
  {
    var before, after := RunRow(db, id), RunRow(Apply(env, db, ev), id);
    var c := if before == after then Same else if ev.Dispatch? then Sent else Done;
    assert IsChange(c, db, ev, id, before, after);
  }

  lemma TaskWriteRow(env: Env, db: Db, ev: Event, id: RunId)
    requires WellFormed(db) && (ev.Advance? || ev.Save?)
    ensures ChangesLegally(db, ev, id, RunRow(db, id), RunRow(Apply(env, db, ev), id))
    ensures WellFormed(Apply(env, db, ev))
  {
    hide NextOccurrence;
    var before, after := RunRow(db, id), RunRow(Apply(env, db, ev), id);
    var c := if before == after then Same else Forgotten;
    assert IsChange(c, db, ev, id, before, after);
  }

  /** Any store call changes a run row in one of the listed ways, or not at all. */
  lemma CallChangesRowLegally(env: Env, db: Db, ev: Event, id: RunId)
    requires WellFormed(db)
    ensures WellFormed(Apply(env, db, ev))
    ensures ChangesLegally(db, ev, id, RunRow(db, id), RunRow(Apply(env, db, ev), id))
  {
    hide ChangesLegally, Scan, UpdateTaskAfterRun, SaveTask, UpdateRun, DueTasks;
    if ev.Claim? {
      DueTasksAreCurrent(db, ev.now);
      ScanRow(env, db, DueTasks(db, ev.now), ev.now, id);
      ScanIsWellFormed(env, db, DueTasks(db, ev.now), ev.now);
    } else if ev.Advance? || ev.Save? {
      TaskWriteRow(env, db, ev, id);
    } else {
      FinishRow(env, db, ev, id);
    }
  }

  lemma {:induction false} ScanIsWellFormed(env: Env, db: Db, rows: seq<Task>, now: int)
    requires WellFormed(db)
    ensures WellFormed(Scan(env, db, rows, now).0)
    decreases rows
  {
    hide Visit;
    if rows != [] {
      VisitKeepsWellFormed(env, db, rows[0], now);
      if Visit(env, db, rows[0], now).Passed? {
        ScanIsWellFormed(env, Visit(env, db, rows[0], now).db, rows[1..], now);
      }
    }
  }
}
