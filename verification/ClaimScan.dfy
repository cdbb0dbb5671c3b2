/** What the claim scan picks, and what it does to the tasks it passes over. */
module ClaimScan {
  import opened Wrappers
  import opened SchedulerModel
  import opened SchedulerRuns

  // ---------- the choice ----------

  /** A due task cannot be claimed: its slot has a finished run or a fresh claim, another run of
      the task is fresh, or the slot was never claimed and is more than a day old. */
  predicate HeldUp(db: Db, task: Task, now: int)
    requires Due(task, now)
  {
    var id := RunId(task.id, DueSlot(task, now).value);
    || (id in db.runs && Finished(db.runs[id]))
    || (id in db.runs && Incomplete(db.runs[id]) && !StalePending(db.runs[id], now))
    || Busy(db, id, now)
    || (id !in db.runs && TooOld(id.slot, now))
  }

  /** The run that claiming the task yields: a new row, or a further attempt on the stale one. */
  function ClaimOf(db: Db, task: Task, now: int): Run
    requires Due(task, now)
  {
    var id := RunId(task.id, DueSlot(task, now).value);
    if id in db.runs then Reclaimed(db.runs[id], now) else NewRun(id, now)
  }

  lemma VisitClaimsUnlessHeldUp(env: Env, db: Db, task: Task, now: int)
    requires WellFormed(db) && Due(task, now)
    ensures var v := Visit(env, db, task, now);
            (v.Claimed? <==> !HeldUp(db, task, now))
            && (v.Claimed? ==> v.run == ClaimOf(db, task, now) && RunRow(v.db, v.run.id) == Some(v.run)
                               && v.db.tasks == db.tasks)
  {
    hide Busy, SkipMissedRun, DueSlot;
  }

  lemma HeldUpReadsOneTask(a: Db, b: Db, task: Task, now: int)
    requires SameFor(a, b, task.id) && Due(task, now)
    ensures HeldUp(a, task, now) == HeldUp(b, task, now) && ClaimOf(a, task, now) == ClaimOf(b, task, now)
  {
    hide Busy, DueSlot;
    SameForBusy(a, b, RunId(task.id, DueSlot(task, now).value), now);
  }

  /** The scan's result belongs to the first row that is not held up. */
  ghost predicate FirstFree(db: Db, rows: seq<Task>, now: int, i: int, claimed: Run)
    requires forall t | t in rows :: Due(t, now)
  {
    0 <= i < |rows| && !HeldUp(db, rows[i], now) && claimed == ClaimOf(db, rows[i], now)
    && forall j | 0 <= j < i :: HeldUp(db, rows[j], now)
  }

  lemma {:induction false} ScanTakesFirstFree(env: Env, db: Db, rows: seq<Task>, now: int)
    requires WellFormed(db) && Ascending(rows) && Current(db, rows) && forall t | t in rows :: Due(t, now)
    ensures var (after, claimed) := Scan(env, db, rows, now);
            if claimed.None? then forall t | t in rows :: HeldUp(db, t, now)
            else RunRow(after, claimed.value.id) == claimed && exists i :: FirstFree(db, rows, now, i, claimed.value)
    decreases rows
  {
    hide Visit, HeldUp, ClaimOf, DueSlot, Earlier;
    if rows != [] {
      var v := Visit(env, db, rows[0], now);
      VisitClaimsUnlessHeldUp(env, db, rows[0], now);
      RestStaysCurrent(env, db, rows, now);
      if v.Claimed? {
        assert FirstFree(db, rows, now, 0, v.run);
      } else {
        forall t | t in rows[1..]
          ensures HeldUp(v.db, t, now) == HeldUp(db, t, now) && ClaimOf(v.db, t, now) == ClaimOf(db, t, now)
        {
          HeldUpReadsOneTask(v.db, db, t, now);
        }
        ScanTakesFirstFree(env, v.db, rows[1..], now);
        var claimed := Scan(env, db, rows, now).1;
        if claimed.Some? {
          var i :| FirstFree(v.db, rows[1..], now, i, claimed.value);
          assert rows[1..][i] == rows[i + 1];
          forall j | 0 <= j < i + 1 ensures HeldUp(db, rows[j], now) {
            if j > 0 { assert rows[1..][j - 1] == rows[j]; }
          }
          assert FirstFree(db, rows, now, i + 1, claimed.value);
        }
      }
    }
  }

  /** `claimDueRun` finds nothing exactly when every due active task is held up in the database it
      started from. Otherwise it claims the oldest one that is not, although the scan itself
      rewrites the tasks and runs that it skips on the way. */
  lemma ClaimTakesOldestFreeTask(env: Env, db: Db, now: int)
    requires WellFormed(db)
    ensures var (after, claimed) := ClaimDueRun(env, db, now);
            (claimed.None? <==> forall k | k in db.tasks && Due(db.tasks[k], now) :: HeldUp(db, db.tasks[k], now))
            && (claimed.Some? ==>
                  var k := claimed.value.id.taskId;
                  k in db.tasks && Due(db.tasks[k], now) && !HeldUp(db, db.tasks[k], now)
                  && claimed.value == ClaimOf(db, db.tasks[k], now)
                  && RunRow(after, claimed.value.id) == claimed
                  && forall o | o in db.tasks && o != k && Due(db.tasks[o], now) && !HeldUp(db, db.tasks[o], now) ::
                       Earlier(db.tasks[k], db.tasks[o]))
  {
    hide HeldUp, Scan, DueTasks, Earlier, DueSlot;
    var rows := DueTasks(db, now);
    DueTasksAreCurrent(db, now);
    ScanTakesFirstFree(env, db, rows, now);
    var claimed := Scan(env, db, rows, now).1;
    if claimed.Some? {
      var i :| FirstFree(db, rows, now, i, claimed.value);
      var t := rows[i];
      assert TaskRow(db, t.id) == Some(t);
      ClaimOfTask(db, t, now);
      forall o | o in db.tasks && o != t.id && Due(db.tasks[o], now) && !HeldUp(db, db.tasks[o], now)
        ensures Earlier(t, db.tasks[o])
      {
        var j :| 0 <= j < |rows| && rows[j] == db.tasks[o];
        assert j > i;
      }
    } else {
      forall k | k in db.tasks && Due(db.tasks[k], now) ensures HeldUp(db, db.tasks[k], now) {
        assert db.tasks[k] in rows;
      }
    }
  }

  lemma ClaimOfTask(db: Db, task: Task, now: int)
    requires WellFormed(db) && Due(task, now)
    ensures ClaimOf(db, task, now).id.taskId == task.id
  {}

  // ---------- missed runs and duplicates ----------

  /** A canonical task is an earlier active duplicate, and there is one exactly when one exists. */
  lemma CanonicalIsEarlierDuplicate(env: Env, db: Db, task: Task)
    requires WellFormed(db)
    ensures var c := CanonicalTask(env, db, task);
            c.Some? ==> TaskRow(db, c.value.id) == c && EarlierDuplicate(env, c.value, task)
    ensures CanonicalTask(env, db, task).None? <==>
            forall k | k in db.tasks :: !EarlierDuplicate(env, db.tasks[k], task)
  {
    hide EarlierDuplicate, Earlier;
    var ids := set id | id in db.tasks && EarlierDuplicate(env, db.tasks[id], task);
    var rows := Ordered(db.tasks, ids);
    assert forall k | k in ids :: db.tasks[k] in rows;
    if rows != [] {
      assert rows[0] in rows;
    }
  }

  /** The task missed its slot by more than a day and has nothing left to wait for. */
  predicate RunsOut(env: Env, task: Task, now: int) {
    Due(task, now) && TooOld(DueSlot(task, now).value, now)
    && !Truthy(SlotAfterMiss(env, task, DueSlot(task, now).value, now, false))
  }

  /** Skipping a missed run leaves the task's place in its class alone if the task stays active. */
  lemma SkipKeepsFingerprint(env: Env, task: Task, slot: int, now: int, duplicate: bool, message: string)
    requires task.status == Active
    ensures var after := TaskAfterMiss(env, task, slot, now, duplicate, message);
            after.id == task.id && after.createdAtMs == task.createdAtMs
            && (after.status == Active ==> TaskFingerprint(env, after) == TaskFingerprint(env, task) && !duplicate)
            && (duplicate || !Truthy(SlotAfterMiss(env, task, slot, now, false)) <==> after.status == Paused)
            && (after.status == Active || after.status == Paused)
  {}

  /** After a visit the task is as before, or was skipped: then it is paused if it had an earlier
      duplicate or has run out, and is otherwise active. Its fingerprint changes only in pausing. */
  lemma VisitOutcome(env: Env, db: Db, task: Task, now: int)
    requires WellFormed(db) && TaskRow(db, task.id) == Some(task) && task.status == Active
    ensures var after := TaskRow(Visit(env, db, task, now).db, task.id);
            after.Some? && after.value.id == task.id && after.value.createdAtMs == task.createdAtMs
            && (after.value.status == Active ==> TaskFingerprint(env, after.value) == TaskFingerprint(env, task))
            && (after.value == task || after.value.status == Active
                || CanonicalTask(env, db, task).Some? || RunsOut(env, task, now))
  {
    hide Busy, CanonicalTask, TaskFingerprint, TaskAfterMiss, DueSlot, SlotAfterMiss, SkipMissedRun, DuplicateMessage,
         Incomplete, StalePending, WellFormed;
    var slot := DueSlot(task, now);
    if slot.Some? {
      MissedTaskRow(env, db, task, slot.value, now);
      var canonical := CanonicalTask(env, db, task);
      var message := if canonical.Some? then DuplicateMessage(canonical.value.id) else LATE_MESSAGE;
      SkipKeepsFingerprint(env, task, slot.value, now, canonical.Some?, message);
    }
  }

  lemma MissedTaskRow(env: Env, db: Db, task: Task, slot: int, now: int)
    requires WellFormed(db) && TaskRow(db, task.id) == Some(task)
    ensures var after := TaskRow(SkipMissedRun(env, db, RunId(task.id, slot), now), task.id);
            var canonical := CanonicalTask(env, db, task);
            var message := if canonical.Some? then DuplicateMessage(canonical.value.id) else LATE_MESSAGE;
            after == Some(task) || after == Some(TaskAfterMiss(env, task, slot, now, canonical.Some?, message))
  {
    hide CanonicalTask, DueSlot, SlotAfterMiss, DuplicateMessage;
  }

  /** A visit leaves every task with its identity, and an active task was active before with the same fingerprint. */
  lemma VisitAddsNoMember(env: Env, db: Db, task: Task, now: int, k: string)
    requires WellFormed(db) && TaskRow(db, task.id) == Some(task) && task.status == Active
    requires k in Visit(env, db, task, now).db.tasks
    ensures k in db.tasks
    ensures var t := Visit(env, db, task, now).db.tasks[k];
            t.id == k && t.createdAtMs == db.tasks[k].createdAtMs
            && (t.status == Active ==> db.tasks[k].status == Active
                                       && TaskFingerprint(env, t) == TaskFingerprint(env, db.tasks[k]))
  {
    hide Visit, TaskFingerprint, CanonicalTask, RunsOut;
    assert TaskRow(Visit(env, db, task, now).db, k) == Some(Visit(env, db, task, now).db.tasks[k]);
    if k != task.id {
      VisitTouchesOneTask(env, db, task, now, k);
    } else {
      VisitOutcome(env, db, task, now);
    }
  }

  /** The class of `task` still has an active member that is `task` or is earlier than it. */
  ghost predicate Represented(env: Env, db: Db, task: Task) {
    exists k | k in db.tasks ::
      db.tasks[k].status == Active && TaskFingerprint(env, db.tasks[k]) == TaskFingerprint(env, task)
      && (k == task.id || Earlier(db.tasks[k], task))
  }

  lemma {:induction false} ScanKeepsClass(env: Env, db: Db, rows: seq<Task>, now: int, task: Task)
    requires WellFormed(db) && Ascending(rows) && Current(db, rows)
    requires TaskRow(db, task.id) == Some(task) && task.status == Active && !RunsOut(env, task, now)
    ensures Represented(env, Scan(env, db, rows, now).0, task)
    decreases rows
  {
    hide Visit, CanonicalTask, TaskFingerprint, RunsOut, Earlier;
    if rows != [] {
      var v := Visit(env, db, rows[0], now);
      RestStaysCurrent(env, db, rows, now);
      RowsAreDistinct(db, rows);
      if rows[0].id != task.id {
        VisitTouchesOneTask(env, db, rows[0], now, task.id);
        if v.Passed? { ScanKeepsClass(env, v.db, rows[1..], now, task); }
      } else {
        VisitOutcome(env, db, task, now);
        CanonicalIsEarlierDuplicate(env, db, task);
        var c := CanonicalTask(env, db, task);
        var keeper := if c.Some? then c.value.id else task.id;
        KeeperIsNotLater(env, db, rows, task, keeper);
        if c.Some? { VisitTouchesOneTask(env, db, rows[0], now, keeper); }
        if v.Passed? { ScanTouchesListedTasks(env, v.db, rows[1..], now, keeper); }
        var after := Scan(env, db, rows, now).0;
        assert TaskRow(after, keeper) == TaskRow(v.db, keeper);
        if c.Some? { DuplicateIsEarlier(env, c.value, task); }
        assert keeper in after.tasks;
      }
    }
  }

  lemma DuplicateIsEarlier(env: Env, candidate: Task, task: Task)
    requires EarlierDuplicate(env, candidate, task)
    ensures candidate.id != task.id && candidate.status == Active && Earlier(candidate, task)
    ensures TaskFingerprint(env, candidate) == TaskFingerprint(env, task)
  {}

  lemma KeeperIsNotLater(env: Env, db: Db, rows: seq<Task>, task: Task, keeper: string)
    requires WellFormed(db) && Ascending(rows) && Current(db, rows) && rows != [] && rows[0] == task
    requires keeper == task.id || (keeper in db.tasks && EarlierDuplicate(env, db.tasks[keeper], task))
    ensures forall t | t in rows[1..] :: t.id != keeper
  {
    hide Earlier, TaskFingerprint;
    RowsAreDistinct(db, rows);
    forall t | t in rows[1..] ensures t.id != keeper {
      assert TaskRow(db, t.id) == Some(t);
      EarlierIsTotalOrder(task, t, task);
    }
  }

  /** Recovery never leaves a task unrepresented unless that task itself missed its slot and has no
      next occurrence: a class of duplicates loses all its active members only when each of them ran out. */
  lemma RecoveryKeepsEveryClass(env: Env, db: Db, now: int, k: string)
    requires WellFormed(db) && k in db.tasks && db.tasks[k].status == Active && !RunsOut(env, db.tasks[k], now)
    ensures Represented(env, ClaimDueRun(env, db, now).0, db.tasks[k])
  {
    hide Scan, DueTasks, Represented, RunsOut;
    DueTasksAreCurrent(db, now);
    ScanKeepsClass(env, db, DueTasks(db, now), now, db.tasks[k]);
  }

  ghost predicate NoEarlierDuplicate(env: Env, db: Db, task: Task) {
    forall k | k in db.tasks :: !EarlierDuplicate(env, db.tasks[k], task)
  }

  lemma VisitAddsNoDuplicate(env: Env, db: Db, visited: Task, now: int, task: Task)
    requires WellFormed(db) && TaskRow(db, visited.id) == Some(visited) && visited.status == Active
    requires NoEarlierDuplicate(env, db, task)
    ensures NoEarlierDuplicate(env, Visit(env, db, visited, now).db, task)
  {
    hide Visit, TaskFingerprint;
    var after := Visit(env, db, visited, now).db;
    forall k | k in after.tasks ensures !EarlierDuplicate(env, after.tasks[k], task) {
      VisitAddsNoMember(env, db, visited, now, k);
      assert !EarlierDuplicate(env, db.tasks[k], task);
    }
  }

  lemma {:induction false} ScanKeepsEarliest(env: Env, db: Db, rows: seq<Task>, now: int, task: Task)
    requires WellFormed(db) && Ascending(rows) && Current(db, rows)
    requires TaskRow(db, task.id) == Some(task) && task.status == Active && !RunsOut(env, task, now)
    requires NoEarlierDuplicate(env, db, task)
    ensures var after := TaskRow(Scan(env, db, rows, now).0, task.id);
            after.Some? && after.value.status == Active && TaskFingerprint(env, after.value) == TaskFingerprint(env, task)
    decreases rows
  {
    hide Visit, CanonicalTask, TaskFingerprint, RunsOut, Earlier, NoEarlierDuplicate;
    if rows != [] {
      var v := Visit(env, db, rows[0], now);
      RestStaysCurrent(env, db, rows, now);
      if rows[0].id != task.id {
        VisitTouchesOneTask(env, db, rows[0], now, task.id);
        VisitAddsNoDuplicate(env, db, rows[0], now, task);
        if v.Passed? { ScanKeepsEarliest(env, v.db, rows[1..], now, task); }
      } else {
        VisitOutcome(env, db, task, now);
        CanonicalIsEarlierDuplicate(env, db, task);
        EarliestHasNoCanonical(env, db, task);
        if v.Passed? { ScanTouchesListedTasks(env, v.db, rows[1..], now, task.id); }
      }
    }
  }

  lemma EarliestHasNoCanonical(env: Env, db: Db, task: Task)
    requires WellFormed(db) && NoEarlierDuplicate(env, db, task)
    ensures CanonicalTask(env, db, task).None?
  {
    hide EarlierDuplicate;
    CanonicalIsEarlierDuplicate(env, db, task);
  }

  /** Pruning never pauses the earliest active task of a class of duplicates: it stays active with
      the same fingerprint unless it has run out on its own. */
  lemma RecoveryKeepsEarliest(env: Env, db: Db, now: int, k: string)
    requires WellFormed(db) && k in db.tasks && db.tasks[k].status == Active
    requires NoEarlierDuplicate(env, db, db.tasks[k]) && !RunsOut(env, db.tasks[k], now)
    ensures var after := TaskRow(ClaimDueRun(env, db, now).0, k);
            after.Some? && after.value.status == Active
            && TaskFingerprint(env, after.value) == TaskFingerprint(env, db.tasks[k])
  {
    hide Scan, DueTasks, NoEarlierDuplicate, RunsOut, TaskFingerprint;
    DueTasksAreCurrent(db, now);
    ScanKeepsEarliest(env, db, DueTasks(db, now), now, db.tasks[k]);
  }
}
