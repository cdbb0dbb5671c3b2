/** The scheduler heartbeat as the plugin runs it. Left alone, it makes exactly the moves of the caller whose
    interleavings `SchedulerSystem` is about. */
module Heartbeat {
  import opened Wrappers
  import opened SchedulerModel
  import opened SchedulerRuns
  import opened SchedulerHistory
  import opened SchedulerSafety
  import opened SchedulerStore
  import opened HeartbeatCaller
  import opened SchedulerSystem

  /** One move that made a call and led to `c'`. */
  lemma OneMove(env: Env, db: Db, c: Caller, agent: Agent, c': Caller, call: Option<Event>)
    requires WellFormed(db) && MoveOf(env, db, c, agent) == Move(c', call)
    ensures Alone(env, db, c, agent, 1) == (AfterCall(env, db, call), c')
  {
    hide MoveOf, Next;
    assert Alone(env, AfterCall(env, db, call), c', agent, 0) == (AfterCall(env, db, call), c');
  }

  /** A mark that won, and the advance that follows it. */
  lemma MarkAndAdvance(env: Env, db: Db, c: Caller, agent: Agent, mark: Event, id: RunId, outcome: Outcome,
                       reason: Option<string>, counts: bool, next: Phase)
    requires WellFormed(db) && Wins(db, mark)
    requires MoveOf(env, db, c, agent) == Marking(db, c, mark, id, outcome, reason, counts, next)
    ensures Alone(env, db, c, agent, 2) ==
            (UpdateTaskAfterRun(env, Next(env, db, mark), id, outcome, reason, c.now),
             c.(processed := if counts then c.processed + 1 else c.processed, phase := next))
  {
    hide Earned, UpdateTaskAfterRun, UpdateRun, ClaimMove, StartMove, SettleMove, ListedRuns;
    var m := MoveOf(env, db, c, agent);
    var marked := Next(env, db, mark);
    OneMove(env, db, c, agent, m.caller, m.call);
    AdvanceIsUpdate(env, marked, SchedulerRuns.Advance(id, outcome, reason, c.now));
    OneMove(env, marked, m.caller, agent, m.caller.(phase := next), Some(SchedulerRuns.Advance(id, outcome, reason, c.now)));
    AloneAdds(env, db, c, agent, 1, 1);
  }

  method BlockAndAdvance(store: SqlSchedulerStore, id: RunId, startedAt: Option<int>, message: string, now: int,
                         ghost agent: Agent, ghost c: Caller, ghost counts: bool, ghost next: Phase)
    returns (processed: bool, ghost c': Caller, ghost moves: nat)
    requires store.Valid() && now == c.now
    requires MoveOf(store.env, store.State(), c, agent) ==
             Marking(store.State(), c, Block(id, startedAt, now, message), id, WasBlocked, Some(message), counts, next)
    modifies store
    ensures store.Valid() && Alone(store.env, old(store.State()), c, agent, moves) == (store.State(), c')
    ensures processed <==> Wins(old(store.State()), Block(id, startedAt, now, message))
    ensures c' == c.(processed := if counts && processed then c.processed + 1 else c.processed, phase := next)
  {
    hide MoveOf, Alone, SchedulerModel.UpdateTaskAfterRun;
    ghost var db, mark := store.State(), Block(id, startedAt, now, message);
    var blocked := store.MarkRunBlocked(id, startedAt, now, message);
    processed := blocked.Some?;
    if processed {
      MarkAndAdvance(store.env, db, c, agent, mark, id, WasBlocked, Some(message), counts, next);
      store.UpdateTaskAfterRun(id, WasBlocked, Some(message), now);
      moves := 2;
    } else {
      OneMove(store.env, db, c, agent, c.(phase := next), Some(mark));
      moves := 1;
    }
    c' := c.(processed := if counts && processed then c.processed + 1 else c.processed, phase := next);
  }

  method FailAndAdvance(store: SqlSchedulerStore, id: RunId, startedAt: Option<int>, message: string, now: int,
                        ghost agent: Agent, ghost c: Caller, ghost counts: bool, ghost next: Phase)
    returns (processed: bool, ghost c': Caller, ghost moves: nat)
    requires store.Valid() && now == c.now
    requires MoveOf(store.env, store.State(), c, agent) ==
             Marking(store.State(), c, Fail(id, startedAt, now, message), id, WasFailed, Some(message), counts, next)
    modifies store
    ensures store.Valid() && Alone(store.env, old(store.State()), c, agent, moves) == (store.State(), c')
    ensures processed <==> Wins(old(store.State()), Fail(id, startedAt, now, message))
    ensures c' == c.(processed := if counts && processed then c.processed + 1 else c.processed, phase := next)
  {
    hide MoveOf, Alone, SchedulerModel.UpdateTaskAfterRun;
    ghost var db, mark := store.State(), Fail(id, startedAt, now, message);
    var failed := store.MarkRunFailed(id, startedAt, now, message);
    processed := failed.Some?;
    if processed {
      MarkAndAdvance(store.env, db, c, agent, mark, id, WasFailed, Some(message), counts, next);
      store.UpdateTaskAfterRun(id, WasFailed, Some(message), now);
      moves := 2;
    } else {
      OneMove(store.env, db, c, agent, c.(phase := next), Some(mark));
      moves := 1;
    }
    c' := c.(processed := if counts && processed then c.processed + 1 else c.processed, phase := next);
  }

  method CompleteAndAdvance(store: SqlSchedulerStore, id: RunId, startedAt: int, ts: Option<string>, now: int,
                            ghost agent: Agent, ghost c: Caller, ghost next: Phase)
    returns (processed: bool, ghost c': Caller, ghost moves: nat)
    requires store.Valid() && now == c.now
    requires MoveOf(store.env, store.State(), c, agent) ==
             Marking(store.State(), c, Complete(id, startedAt, now, ts), id, WasCompleted, None, true, next)
    modifies store
    ensures store.Valid() && Alone(store.env, old(store.State()), c, agent, moves) == (store.State(), c')
    ensures processed <==> Wins(old(store.State()), Complete(id, startedAt, now, ts))
    ensures c' == c.(processed := if processed then c.processed + 1 else c.processed, phase := next)
  {
    hide MoveOf, Alone, SchedulerModel.UpdateTaskAfterRun;
    ghost var db, mark := store.State(), Complete(id, startedAt, now, ts);
    var completed := store.MarkRunCompleted(id, startedAt, now, ts);
    processed := completed.Some?;
    if processed {
      MarkAndAdvance(store.env, db, c, agent, mark, id, WasCompleted, None, true, next);
      store.UpdateTaskAfterRun(id, WasCompleted, None, now);
      moves := 2;
    } else {
      OneMove(store.env, db, c, agent, c.(phase := next), Some(mark));
      moves := 1;
    }
    c' := c.(processed := if processed then c.processed + 1 else c.processed, phase := next);
  }

  /** Settles a run whose dispatch has ended; true when this caller's mark finished it. */
  method ApplyDispatchResult(store: SqlSchedulerStore, dispatch: Dispatched, run: Run, now: int,
                             ghost agent: Agent, ghost c: Caller, ghost rest: seq<Run>)
    returns (processed: bool, ghost c': Caller, ghost moves: nat)
    requires store.Valid() && now == c.now && run.startedAtMs.Some?
    requires run.dispatchId.Some? && run.dispatchId.value != "" && agent.get(run.dispatchId.value) == Some(dispatch)
    requires c.phase == Settling([run] + rest)
    modifies store
    ensures store.Valid() && Alone(store.env, old(store.State()), c, agent, moves) == (store.State(), c')
    ensures c' == c.(processed := if processed then c.processed + 1 else c.processed, phase := Settling(rest))
  {
    hide Marking, Alone, ListedRuns, ClaimMove, StartMove;
    ghost var db, next := store.State(), Settling(rest);
    assert MoveOf(store.env, db, c, agent) == SettleMove(db, c, agent, run, next) by {
      assert ([run] + rest)[0] == run && ([run] + rest)[1..] == rest;
    }
    hide MoveOf;
    match dispatch {
      case InProgress =>
        OneMove(store.env, db, c, agent, c.(phase := next), None);
        processed, c', moves := false, c.(phase := next), 1;
      case DispatchCompleted(ts) =>
        processed, c', moves := CompleteAndAdvance(store, run.id, run.startedAtMs.value, ts, now, agent, c, next);
      case DispatchBlocked(reason) =>
        processed, c', moves := BlockAndAdvance(
          store, run.id, run.startedAtMs, MessageOr(reason, "Dispatch blocked."), now, agent, c, true, next);
      case DispatchFailed(reason) =>
        processed, c', moves := FailAndAdvance(
          store, run.id, run.startedAtMs, MessageOr(reason, "Dispatch failed."), now, agent, c, true, next);
    }
  }

  /** Starts a freshly claimed run, or closes it when its task is gone, has moved on, or cannot be dispatched. */
  method StartClaimedRun(store: SqlSchedulerStore, agent: Agent, run: Run, now: int, ghost c: Caller)
    returns (dispatched: bool, ghost c': Caller, ghost moves: nat)
    requires store.Valid() && now == c.now && c.phase == Holding(run)
    modifies store
    ensures store.Valid() && Alone(store.env, old(store.State()), c, agent, moves) == (store.State(), c')
    ensures c' == c.(dispatched := if dispatched then c.dispatched + 1 else c.dispatched, phase := Claiming)
  {
    hide Alone, Marking, ShouldSkipRun, NotFoundMessage, ListedRuns, ClaimMove, SettleMove;
    ghost var db := store.State();
    var task := TaskRow(store.State(), run.id.taskId);
    ghost var d := c.(phase := Starting(run, task));
    OneMove(store.env, db, c, agent, d, None);
    assert MoveOf(store.env, db, d, agent) == StartMove(db, d, agent, run, task);
    hide MoveOf;
    ghost var more;
    dispatched, c', more := ActOnClaimedRun(store, agent, run, task, now, d);
    AloneAdds(store.env, db, c, agent, 1, more);
    moves := 1 + more;
  }

  method ActOnClaimedRun(store: SqlSchedulerStore, agent: Agent, run: Run, task: Option<Task>, now: int, ghost c: Caller)
    returns (dispatched: bool, ghost c': Caller, ghost moves: nat)
    requires store.Valid() && now == c.now
    requires MoveOf(store.env, store.State(), c, agent) == StartMove(store.State(), c, agent, run, task)
    modifies store
    ensures store.Valid() && Alone(store.env, old(store.State()), c, agent, moves) == (store.State(), c')
    ensures c' == c.(dispatched := if dispatched then c.dispatched + 1 else c.dispatched, phase := Claiming)
  {
    hide Alone, Marking, ShouldSkipRun, NotFoundMessage, MoveOf;
    ghost var db := store.State();
    c', moves := c.(phase := Claiming), 1;
    if task.None? {
      OneMove(store.env, db, c, agent, c', Some(Fail(run.id, None, now, NotFoundMessage(run.id.taskId))));
      var _ := store.MarkRunFailed(run.id, None, now, NotFoundMessage(run.id.taskId));
      return false, c', moves;
    }
    var skippedReason := ShouldSkipRun(agent, task.value, run);
    if skippedReason.Some? {
      OneMove(store.env, db, c, agent, c', Some(Skip(run.id, now, skippedReason.value)));
      var _ := store.MarkRunSkipped(run.id, now, skippedReason.value);
      return false, c', moves;
    }
    var metadata := agent.describe(run, task.value);
    if metadata.Err? {
      var blocked;
      blocked, c', moves := BlockAndAdvance(store, run.id, None, NO_METADATA + metadata.message, now, agent, c, false, Claiming);
      return false, c', moves;
    }
    var dispatch := agent.dispatch(run.id, task.value, metadata.value);
    if dispatch.Err? {
      var blocked;
      blocked, c', moves := BlockAndAdvance(store, run.id, None, NO_DISPATCH + dispatch.message, now, agent, c, false, Claiming);
      return false, c', moves;
    }
    c' := c.(dispatched := c.dispatched + 1, phase := Claiming);
    OneMove(store.env, db, c, agent, c', Some(SchedulerRuns.Dispatch(run.id, run.claimedAtMs, dispatch.value, now)));
    var _ := store.MarkRunDispatched(run.id, run.claimedAtMs, dispatch.value, now);
    dispatched := true;
  }

  /** Looks at the listed runs one after another; counts those whose ended dispatch it has settled. */
  method SettleListedRuns(store: SqlSchedulerStore, agent: Agent, rows: seq<Run>, now: int, ghost c: Caller)
    returns (processedCount: nat, ghost c': Caller, ghost moves: nat)
    requires store.Valid() && now == c.now && c.phase == Settling(rows) && c.processed == 0
    requires forall run | run in rows && run.dispatchId.Some? :: run.startedAtMs.Some?
    modifies store
    ensures store.Valid() && Alone(store.env, old(store.State()), c, agent, moves) == (store.State(), c')
    ensures c' == c.(processed := processedCount, phase := Settling([]))
  {
    hide Alone, MoveOf;
    ghost var db := store.State();
    c', moves := c, 0;
    assert Alone(store.env, db, c, agent, 0) == (db, c) by { NoMove(store.env, db, c, agent); }
    processedCount := 0;
    var i := 0;
    while i < |rows|
      invariant 0 <= i <= |rows| && store.Valid()
      invariant Alone(store.env, db, c, agent, moves) == (store.State(), c')
      invariant c' == c.(processed := processedCount, phase := Settling(rows[i..]))
    {
      var run := rows[i];
      assert run in rows && rows[i..] == [run] + rows[i + 1..];
      ghost var more;
      var processed;
      processed, c', more := SettleListedRun(store, agent, run, now, c', rows[i + 1..]);
      AloneAdds(store.env, db, c, agent, moves, more);
      moves := moves + more;
      if processed {
        processedCount := processedCount + 1;
      }
      i := i + 1;
    }
    assert rows[i..] == [];
  }

  lemma NoMove(env: Env, db: Db, c: Caller, agent: Agent)
    requires WellFormed(db)
    ensures Alone(env, db, c, agent, 0) == (db, c)
  {}

  method SettleListedRun(store: SqlSchedulerStore, agent: Agent, run: Run, now: int, ghost c: Caller, ghost rest: seq<Run>)
    returns (processed: bool, ghost c': Caller, ghost moves: nat)
    requires store.Valid() && now == c.now && c.phase == Settling([run] + rest)
    requires run.dispatchId.Some? ==> run.startedAtMs.Some?
    modifies store
    ensures store.Valid() && Alone(store.env, old(store.State()), c, agent, moves) == (store.State(), c')
    ensures c' == c.(processed := if processed then c.processed + 1 else c.processed, phase := Settling(rest))
  {
    hide Alone, Marking, ListedRuns, ClaimMove, StartMove;
    ghost var db := store.State();
    assert MoveOf(store.env, db, c, agent) == SettleMove(db, c, agent, run, Settling(rest)) by {
      assert ([run] + rest)[0] == run && ([run] + rest)[1..] == rest;
    }
    hide MoveOf;
    if run.dispatchId.None? || run.dispatchId.value == "" {
      OneMove(store.env, db, c, agent, c.(phase := Settling(rest)), None);
      return false, c.(phase := Settling(rest)), 1;
    }
    var dispatch := agent.get(run.dispatchId.value);
    if dispatch.None? {
      var failed;
      failed, c', moves := FailAndAdvance(store, run.id, run.startedAtMs, MISSING_MESSAGE, now, agent, c, false, Settling(rest));
      return false, c', moves;
    }
    processed, c', moves := ApplyDispatchResult(store, dispatch.value, run, now, agent, c, rest);
  }

  /** Claims and starts due runs in the turns that are left. */
  method StartDueRuns(store: SqlSchedulerStore, agent: Agent, processedCount: nat, now: int, ghost c: Caller)
    returns (dispatchCount: nat, ghost c': Caller, ghost moves: nat)
    requires store.Valid() && now == c.now && c.phase == Claiming && c.index == processedCount && c.dispatched == 0
    modifies store
    ensures store.Valid() && Alone(store.env, old(store.State()), c, agent, moves) == (store.State(), c')
    ensures c'.phase.Over? && c'.dispatched == dispatchCount
  {
    hide Alone, MoveOf, SchedulerModel.ClaimDueRun;
    ghost var db := store.State();
    c', moves := c, 0;
    assert Alone(store.env, db, c, agent, 0) == (db, c) by { NoMove(store.env, db, c, agent); }
    dispatchCount := 0;
    var index := processedCount;
    while index < HEARTBEAT_LIMIT
      invariant store.Valid() && Alone(store.env, db, c, agent, moves) == (store.State(), c')
      invariant c'.phase == Claiming && c'.now == now && c'.index == index && c'.dispatched == dispatchCount
      decreases HEARTBEAT_LIMIT - index
    {
      ghost var mid := store.State();
      ClaimingMoves(store.env, mid, c', agent);
      var claimed := store.ClaimDueRun(now);
      AloneAdds(store.env, db, c, agent, moves, 1);
      moves := moves + 1;
      if claimed.None? {
        c' := c'.(phase := Over);
        return;
      }
      c' := c'.(phase := Holding(claimed.value), index := index + 1);
      ghost var more;
      var dispatched;
      dispatched, c', more := StartClaimedRun(store, agent, claimed.value, now, c');
      AloneAdds(store.env, db, c, agent, moves, more);
      moves := moves + more;
      if dispatched {
        dispatchCount := dispatchCount + 1;
      }
      index := index + 1;
    }
    ClaimingMoves(store.env, store.State(), c', agent);
    AloneAdds(store.env, db, c, agent, moves, 1);
    moves := moves + 1;
    c' := c'.(phase := Over);
  }

  lemma ClaimingMoves(env: Env, db: Db, c: Caller, agent: Agent)
    requires WellFormed(db) && c.phase == Claiming
    ensures Alone(env, db, c, agent, 1) ==
            if c.index >= HEARTBEAT_LIMIT then (db, c.(phase := Over))
            else
              var (after, claimed) := SchedulerModel.ClaimDueRun(env, db, c.now);
              (after, if claimed.None? then c.(phase := Over) else c.(phase := Holding(claimed.value), index := c.index + 1))
  {
    hide Alone, ListedRuns, StartMove, SettleMove, SchedulerModel.ClaimDueRun;
    var m := MoveOf(env, db, c, agent);
    OneMove(env, db, c, agent, m.caller, m.call);
  }

  /** One heartbeat. Left alone, it ends where the moves of a fresh caller end, and it counts the dispatches of
      that caller, which are at most ten. */
  method Beat(store: SqlSchedulerStore, agent: Agent, now: int) returns (dispatchCount: nat, ghost moves: nat)
    requires store.Valid() && RowsMakeSense(store.State())
    modifies store
    ensures store.Valid()
    ensures var (db, c) := Alone(store.env, old(store.State()), Fresh(now), agent, moves);
            store.State() == db && c.phase.Over? && c.dispatched == dispatchCount
    ensures dispatchCount <= HEARTBEAT_LIMIT
  {
    hide Alone, MoveOf, RowMakesSense, Limited;
    ghost var db, c := store.State(), Fresh(now);
    var rows := ListedRuns(store.State());
    forall run | run in rows && run.dispatchId.Some? ensures run.startedAtMs.Some? {
      DispatchedHasStart(db, run);
    }
    ListingMoves(store.env, db, now, agent);
    var processedCount;
    ghost var c2, c4, settling, claiming;
    processedCount, c2, settling := SettleListedRuns(store, agent, rows, now, c.(phase := Settling(rows)));
    AloneAdds(store.env, db, c, agent, 1, settling);
    SettledMoves(store.env, store.State(), c2, agent);
    AloneAdds(store.env, db, c, agent, 1 + settling, 1);
    dispatchCount, c4, claiming := StartDueRuns(
      store, agent, processedCount, now, c2.(phase := Claiming, index := processedCount));
    AloneAdds(store.env, db, c, agent, settling + 2, claiming);
    moves := settling + 2 + claiming;
    FreshIsLimited(now);
    LoneIsLimited(store.env, db, c, agent, moves);
  }

  lemma FreshIsLimited(now: int)
    ensures Limited(Fresh(now))
  {}

  lemma ListingMoves(env: Env, db: Db, now: int, agent: Agent)
    requires WellFormed(db)
    ensures Alone(env, db, Fresh(now), agent, 1) == (db, Fresh(now).(phase := Settling(ListedRuns(db))))
  {
    hide Alone, ListedRuns, StartMove, SettleMove, ClaimMove;
    OneMove(env, db, Fresh(now), agent, Fresh(now).(phase := Settling(ListedRuns(db))), None);
  }

  lemma SettledMoves(env: Env, db: Db, c: Caller, agent: Agent)
    requires WellFormed(db) && c.phase == Settling([])
    ensures Alone(env, db, c, agent, 1) == (db, c.(phase := Claiming, index := c.processed))
  {
    hide Alone, ListedRuns, StartMove, SettleMove, ClaimMove;
    OneMove(env, db, c, agent, c.(phase := Claiming, index := c.processed), None);
  }

  lemma {:induction false} LoneIsLimited(env: Env, db: Db, c: Caller, agent: Agent, n: nat)
    requires WellFormed(db) && Limited(c)
    ensures var after := Alone(env, db, c, agent, n).1;
            Limited(after) && (after.phase.Over? ==> after.dispatched <= HEARTBEAT_LIMIT)
    decreases n
  {
    hide MoveOf, Next;
    if n > 0 {
      var m := MoveOf(env, db, c, agent);
      MoveIsLimited(env, db, c, agent);
      LoneIsLimited(env, AfterCall(env, db, m.call), m.caller, agent, n - 1);
    }
  }

  lemma DispatchedHasStart(db: Db, run: Run)
    requires RowsMakeSense(db) && run.id in db.runs && db.runs[run.id] == run && run.dispatchId.Some?
    ensures run.startedAtMs.Some?
  {}
}
