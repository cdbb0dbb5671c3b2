/** What a heartbeat does for each answer of the agent runtime: the run's last status and what its task is told. */
module HeartbeatLaws {
  import opened Wrappers
  import opened Text
  import opened SchedulerModel
  import opened SchedulerHistory
  import opened SchedulerSafety
  import opened HeartbeatCaller
  import opened SchedulerSystem
  import opened SchedulerLaws
  import SchedulerRuns
  import Calendar

  /** Listed are the stored runs that are pending or running and whose task is there and not deleted. */
  lemma ListedIff(db: Db, run: SchedulerModel.Run)
    requires WellFormed(db)
    ensures run in ListedRuns(db) <==>
            && run.id in db.runs && db.runs[run.id] == run && (run.status == Pending || run.status == Running)
            && run.id.taskId in db.tasks && db.tasks[run.id.taskId].status != Deleted
  {
    hide OrderedRuns;
    var rows := ListedRuns(db);
  }

  /** The listed runs are in the order of their slots, and by the text `task:slot` within a slot. */
  lemma ListedInOrder(db: Db, i: nat, j: nat)
    requires WellFormed(db) && i < j < |ListedRuns(db)|
    ensures var a, b := ListedRuns(db)[i].id, ListedRuns(db)[j].id;
            a.slot < b.slot
            || (a.slot == b.slot
                && TextLess(a.taskId + ":" + Calendar.Text(a.slot), b.taskId + ":" + Calendar.Text(b.slot)))
  {
    hide ListedRuns;
    assert RunBefore(ListedRuns(db)[i].id, ListedRuns(db)[j].id);
  }

  /** The tables after a run was closed and its task told. */
  function Told(env: Env, db: Db, run: SchedulerModel.Run, outcome: Outcome, message: Option<string>, now: int): Db {
    SchedulerModel.UpdateTaskAfterRun(env, db.(runs := db.runs[run.id := run]), run.id, outcome, message, now)
  }

  /** A mark that wins closes its run, and the next move tells the task. */
  lemma MarkThenTell(env: Env, db: Db, c: Caller, agent: Agent, mark: SchedulerRuns.Event, outcome: Outcome, message: Option<string>,
                     counts: bool, next: Phase, closed: SchedulerModel.Run)
    requires WellFormed(db) && (mark.Complete? || mark.Fail? || mark.Block?) && mark.id in db.runs
    requires MoveOf(env, db, c, agent) == Marking(db, c, mark, mark.id, outcome, message, counts, next)
    requires Wins(db, mark) && mark.id == closed.id && Next(env, db, mark) == db.(runs := db.runs[closed.id := closed])
    ensures Alone(env, db, c, agent, 2) ==
            (Told(env, db, closed, outcome, message, c.now),
             c.(processed := if counts then c.processed + 1 else c.processed, phase := next))
  {
    hide MoveOf, Wins, UpdateTaskAfterRun;
    var after, told := Next(env, db, mark), MoveOf(env, db, c, agent).caller;
    assert Alone(env, db, c, agent, 2) == Alone(env, after, told, agent, 1);
    TellingMoves(env, after, told, agent);
  }

  lemma TellingMoves(env: Env, db: Db, c: Caller, agent: Agent)
    requires WellFormed(db) && c.phase.Spending?
    ensures Alone(env, db, c, agent, 1) ==
            (SchedulerModel.UpdateTaskAfterRun(env, db, c.phase.id, c.phase.outcome, c.phase.reason, c.now), c.(phase := c.phase.next))
  {
    hide UpdateTaskAfterRun, ListedRuns, SettleMove, StartMove, ClaimMove;
    OneMove(env, db, c, agent);
  }

  lemma OneMove(env: Env, db: Db, c: Caller, agent: Agent)
    requires WellFormed(db)
    ensures var m := MoveOf(env, db, c, agent);
            Alone(env, db, c, agent, 1) == (AfterCall(env, db, m.call), m.caller)
  {
    hide MoveOf, AfterCall;
    var m := MoveOf(env, db, c, agent);
    assert Alone(env, AfterCall(env, db, m.call), m.caller, agent, 0) == (AfterCall(env, db, m.call), m.caller);
  }

  /** A heartbeat looks at a listed run that is still running. */
  ghost predicate SettlesRunning(db: Db, c: Caller, run: SchedulerModel.Run, rest: seq<SchedulerModel.Run>) {
    && c.phase == Settling([run] + rest) && RunRow(db, run.id) == Some(run)
    && run.status == Running && run.startedAtMs.Some? && run.dispatchId.Some? && run.dispatchId.value != ""
  }

  /** A run whose dispatch completed is completed, and its task goes on. */
  lemma CompletedDispatch(env: Env, db: Db, c: Caller, agent: Agent, run: SchedulerModel.Run, rest: seq<SchedulerModel.Run>, ts: Option<string>)
    requires WellFormed(db) && SettlesRunning(db, c, run, rest) && agent.get(run.dispatchId.value) == Some(DispatchCompleted(ts))
    ensures var closed := run.(status := Completed, completedAtMs := Some(c.now), resultMessageTs := ts);
            Alone(env, db, c, agent, 2) ==
            (Told(env, db, closed, WasCompleted, None, c.now), c.(processed := c.processed + 1, phase := Settling(rest)))
  {
    hide Alone, Told, Marking, ListedRuns, StartMove, ClaimMove, Wins, Next;
    assert ([run] + rest)[1..] == rest;
    var mark := SchedulerRuns.Complete(run.id, run.startedAtMs.value, c.now, ts);
    MarkIsTaken(env, db, mark);
    MarkThenTell(env, db, c, agent, mark, WasCompleted, None, true, Settling(rest), ClosedBy(run, mark));
  }

  /** A run whose dispatch is blocked is blocked with its reason, and so is its task. */
  lemma BlockedDispatch(env: Env, db: Db, c: Caller, agent: Agent, run: SchedulerModel.Run, rest: seq<SchedulerModel.Run>, reason: Option<string>)
    requires WellFormed(db) && SettlesRunning(db, c, run, rest) && agent.get(run.dispatchId.value) == Some(DispatchBlocked(reason))
    ensures var message := if reason.Some? then reason.value else "Dispatch blocked.";
            var closed := run.(status := RunBlocked, completedAtMs := Some(c.now), errorMessage := Some(message));
            Alone(env, db, c, agent, 2) ==
            (Told(env, db, closed, WasBlocked, Some(message), c.now), c.(processed := c.processed + 1, phase := Settling(rest)))
  {
    hide Alone, Told, Marking, ListedRuns, StartMove, ClaimMove, Wins, Next;
    assert ([run] + rest)[1..] == rest;
    var message := if reason.Some? then reason.value else "Dispatch blocked.";
    var mark := SchedulerRuns.Block(run.id, run.startedAtMs, c.now, message);
    MarkIsTaken(env, db, mark);
    MarkThenTell(env, db, c, agent, mark, WasBlocked, Some(message), true, Settling(rest), ClosedBy(run, mark));
  }

  /** A run whose dispatch failed fails with its reason, and its task goes on. */
  lemma FailedDispatch(env: Env, db: Db, c: Caller, agent: Agent, run: SchedulerModel.Run, rest: seq<SchedulerModel.Run>, reason: Option<string>)
    requires WellFormed(db) && SettlesRunning(db, c, run, rest) && agent.get(run.dispatchId.value) == Some(DispatchFailed(reason))
    ensures var message := if reason.Some? then reason.value else "Dispatch failed.";
            var closed := run.(status := Failed, completedAtMs := Some(c.now), errorMessage := Some(message));
            Alone(env, db, c, agent, 2) ==
            (Told(env, db, closed, WasFailed, Some(message), c.now), c.(processed := c.processed + 1, phase := Settling(rest)))
  {
    hide Alone, Told, Marking, ListedRuns, StartMove, ClaimMove, Wins, Next;
    assert ([run] + rest)[1..] == rest;
    var message := if reason.Some? then reason.value else "Dispatch failed.";
    var mark := SchedulerRuns.Fail(run.id, run.startedAtMs, c.now, message);
    MarkIsTaken(env, db, mark);
    MarkThenTell(env, db, c, agent, mark, WasFailed, Some(message), true, Settling(rest), ClosedBy(run, mark));
  }

  /** A run whose dispatch has no record fails without counting as processed, and its task goes on. */
  lemma MissingDispatch(env: Env, db: Db, c: Caller, agent: Agent, run: SchedulerModel.Run, rest: seq<SchedulerModel.Run>)
    requires WellFormed(db) && SettlesRunning(db, c, run, rest) && agent.get(run.dispatchId.value) == None
    ensures var message := "Scheduled task dispatch record is missing.";
            var closed := run.(status := Failed, completedAtMs := Some(c.now), errorMessage := Some(message));
            Alone(env, db, c, agent, 2) ==
            (Told(env, db, closed, WasFailed, Some(message), c.now), c.(phase := Settling(rest)))
  {
    hide Alone, Told, Marking, ListedRuns, StartMove, ClaimMove, Wins, Next;
    assert ([run] + rest)[1..] == rest;
    var message := "Scheduled task dispatch record is missing.";
    var mark := SchedulerRuns.Fail(run.id, run.startedAtMs, c.now, message);
    MarkIsTaken(env, db, mark);
    MarkThenTell(env, db, c, agent, mark, WasFailed, Some(message), false, Settling(rest), ClosedBy(run, mark));
  }

  /** The row that a mark leaves of a run. */
  function ClosedBy(run: SchedulerModel.Run, mark: SchedulerRuns.Event): SchedulerModel.Run {
    match mark
    case Complete(_, _, now, ts) => run.(status := Completed, completedAtMs := Some(now), resultMessageTs := ts)
    case Fail(_, _, now, message) => run.(status := Failed, completedAtMs := Some(now), errorMessage := Some(message))
    case Block(_, _, now, message) => run.(status := RunBlocked, completedAtMs := Some(now), errorMessage := Some(message))
    case Skip(_, now, message) => run.(status := Skipped, completedAtMs := Some(now), errorMessage := Some(message))
    case _ => run
  }

  lemma MarkIsTaken(env: Env, db: Db, mark: SchedulerRuns.Event)
    requires WellFormed(db) && (mark.Complete? || mark.Fail? || mark.Block? || mark.Skip?)
    requires mark.id in db.runs && Accepts(db.runs[mark.id], mark)
    ensures Next(env, db, mark) == db.(runs := db.runs[mark.id := ClosedBy(db.runs[mark.id], mark)])
    ensures !mark.Skip? ==> Wins(db, mark)
  {}

  /** A listed run that is not dispatched, or whose dispatch is in progress, is left alone. */
  lemma SettlingWaits(env: Env, db: Db, c: Caller, agent: Agent, run: SchedulerModel.Run, rest: seq<SchedulerModel.Run>)
    requires WellFormed(db) && c.phase == Settling([run] + rest)
    requires run.dispatchId.None? || run.dispatchId.value == "" || agent.get(run.dispatchId.value) == Some(InProgress)
    ensures Alone(env, db, c, agent, 1) == (db, c.(phase := Settling(rest)))
  {
    hide Alone, ListedRuns, StartMove, ClaimMove, Marking, Next;
    assert ([run] + rest)[1..] == rest;
    OneMove(env, db, c, agent);
  }

  /** A run that someone else settled since it was listed is left alone, and its task is not told twice. */
  lemma SettledElsewhere(env: Env, db: Db, c: Caller, agent: Agent, run: SchedulerModel.Run, rest: seq<SchedulerModel.Run>)
    requires WellFormed(db) && c.phase == Settling([run] + rest) && run.startedAtMs.Some?
    requires run.id !in db.runs || db.runs[run.id].status != Running || db.runs[run.id].startedAtMs != run.startedAtMs
    ensures Alone(env, db, c, agent, 1) == (db, c.(phase := Settling(rest)))
  {
    hide Alone, ListedRuns, StartMove, ClaimMove, Wins, Next;
    assert ([run] + rest)[1..] == rest;
    OneMove(env, db, c, agent);
    var call := MoveOf(env, db, c, agent).call;
    if call.Some? { MarkIsRefused(env, db, call.value); }
  }

  lemma MarkIsRefused(env: Env, db: Db, mark: SchedulerRuns.Event)
    requires WellFormed(db) && (mark.Complete? || mark.Fail? || mark.Block?)
    requires mark.id !in db.runs || !Accepts(db.runs[mark.id], mark)
    ensures Next(env, db, mark) == db && !Wins(db, mark)
  {}

  // ---------- starting ----------

  /** A claimed run whose task is gone, or is not active or does not wait for the slot any more, is closed without a
      word to the task. */
  lemma ClosingAClaim(env: Env, db: Db, c: Caller, agent: Agent, run: SchedulerModel.Run, task: Option<Task>)
    requires WellFormed(db) && c.phase == Starting(run, task) && RunRow(db, run.id) == Some(run) && run.status == Pending
    requires task.None? || task.value.status != Active
             || (task.value.nextRunAtMs != Some(run.id.slot) && task.value.runNowAtMs != Some(run.id.slot))
    ensures var message :=
              if task.None? then "Scheduled task " + run.id.taskId + " was not found"
              else if task.value.status != Active then
                "Scheduled task " + task.value.id + " was "
                + (match task.value.status case Paused => "paused" case TaskBlocked => "blocked" case _ => "deleted")
                + " before the run started."
              else "Scheduled task " + task.value.id + " no longer targets " + agent.iso(run.id.slot) + ".";
            var closed := run.(
              status := if task.None? then Failed else Skipped,
              completedAtMs := Some(c.now), errorMessage := Some(message));
            Alone(env, db, c, agent, 1) == (db.(runs := db.runs[run.id := closed]), c.(phase := Claiming))
  {
    hide Alone, ListedRuns, SettleMove, ClaimMove, Next;
    OneMove(env, db, c, agent);
    var call := MoveOf(env, db, c, agent).call.value;
    MarkIsTaken(env, db, call);
  }

  /** A heartbeat looks at a run that it claimed, of an active task that waits for its slot. */
  ghost predicate StartsWaiting(db: Db, c: Caller, run: SchedulerModel.Run, task: Task) {
    && c.phase == Starting(run, Some(task)) && RunRow(db, run.id) == Some(run) && run.status == Pending
    && task.status == Active && (task.nextRunAtMs == Some(run.id.slot) || task.runNowAtMs == Some(run.id.slot))
  }

  /** If the dispatch cannot be described or created, the run and its task are blocked with the reason. */
  lemma StartFails(env: Env, db: Db, c: Caller, agent: Agent, run: SchedulerModel.Run, task: Task, message: string)
    requires WellFormed(db) && StartsWaiting(db, c, run, task)
    requires var described := agent.describe(run, task);
             if described.Err? then message == "Scheduled task dispatch metadata could not be built: " + described.message
             else var created := agent.dispatch(run.id, task, described.value);
                  created.Err? && message == "Scheduled task dispatch could not be created: " + created.message
    ensures var closed := run.(status := RunBlocked, completedAtMs := Some(c.now), errorMessage := Some(message));
            Alone(env, db, c, agent, 2) == (Told(env, db, closed, WasBlocked, Some(message), c.now), c.(phase := Claiming))
  {
    hide Alone, Told, Marking, ListedRuns, SettleMove, ClaimMove, Wins, Next;
    var mark := SchedulerRuns.Block(run.id, None, c.now, message);
    MarkIsTaken(env, db, mark);
    MarkThenTell(env, db, c, agent, mark, WasBlocked, Some(message), false, Claiming, ClosedBy(run, mark));
  }

  /** Otherwise the run is running under its dispatch, and the task is not told. */
  lemma StartSucceeds(env: Env, db: Db, c: Caller, agent: Agent, run: SchedulerModel.Run, task: Task)
    requires WellFormed(db) && StartsWaiting(db, c, run, task)
    requires agent.describe(run, task).Ok? && agent.dispatch(run.id, task, agent.describe(run, task).value).Ok?
    ensures var dispatchId := agent.dispatch(run.id, task, agent.describe(run, task).value).value;
            var sent := run.(status := Running, startedAtMs := Some(c.now), dispatchId := Some(dispatchId));
            Alone(env, db, c, agent, 1) ==
            (db.(runs := db.runs[run.id := sent]), c.(phase := Claiming, dispatched := c.dispatched + 1))
  {
    hide Alone, ListedRuns, SettleMove, ClaimMove, Wins, Next;
    OneMove(env, db, c, agent);
    PendingRunIsSent(env, db, run, agent.dispatch(run.id, task, agent.describe(run, task).value).value, c.now);
  }

  lemma PendingRunIsSent(env: Env, db: Db, run: SchedulerModel.Run, dispatchId: string, now: int)
    requires WellFormed(db) && RunRow(db, run.id) == Some(run) && run.status == Pending
    ensures var sent := run.(status := Running, startedAtMs := Some(now), dispatchId := Some(dispatchId));
            Next(env, db, SchedulerRuns.Dispatch(run.id, run.claimedAtMs, dispatchId, now)) == db.(runs := db.runs[run.id := sent])
  {}

  /** A heartbeat's turns: it takes up what is due, one run a turn, until it had ten runs in hand, those it settled
      included, or nothing is left. */
  lemma TurnsOfAHeartbeat(env: Env, db: Db, c: Caller, agent: Agent)
    requires WellFormed(db)
    ensures c.phase == Settling([]) ==> Alone(env, db, c, agent, 1) == (db, c.(phase := Claiming, index := c.processed))
    ensures c.phase == Claiming ==>
            var (after, claimed) := SchedulerModel.ClaimDueRun(env, db, c.now);
            Alone(env, db, c, agent, 1) ==
            if c.index >= 10 then (db, c.(phase := Over))
            else if claimed.None? then (after, c.(phase := Over))
            else (after, c.(phase := Holding(claimed.value), index := c.index + 1))
  {
    hide Alone, ListedRuns, SettleMove, StartMove, SchedulerModel.ClaimDueRun;
    OneMove(env, db, c, agent);
  }
}
