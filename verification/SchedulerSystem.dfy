/** Any number of heartbeats and edits at one store, their calls interleaved in any way: what holds of every run
    from an empty store. */
module SchedulerSystem {
  import opened Wrappers
  import opened SchedulerModel
  import opened SchedulerRuns
  import opened SchedulerHistory
  import opened SchedulerSafety
  import opened HeartbeatCaller

  datatype System = System(db: Db, callers: seq<Caller>)

  const EMPTY := System(Db(map[], map[]), [])

  /** What happens next, and when: a heartbeat begins, one of them moves, or a task is saved by someone else. */
  datatype Step =
    | Begin(at: int)
    | Act(at: int, caller: nat, agent: Agent)
    | Edit(at: int, task: Task)

  function CallOf(env: Env, s: System, step: Step): Option<Event>
    requires WellFormed(s.db)
  {
    match step
    case Begin(_) => None
    case Act(_, i, agent) => if i < |s.callers| then MoveOf(env, s.db, s.callers[i], agent).call else None
    case Edit(_, task) => Some(Save(task))
  }

  function After(env: Env, s: System, step: Step): (after: System)
    requires WellFormed(s.db)
    ensures WellFormed(after.db)
  {
    var db := AfterCall(env, s.db, CallOf(env, s, step));
    match step
    case Begin(at) => System(db, s.callers + [Fresh(at)])
    case Act(_, i, agent) =>
      if i < |s.callers| then System(db, s.callers[i := MoveOf(env, s.db, s.callers[i], agent).caller]) else s
    case Edit(_, _) => System(db, s.callers)
  }

  function Run(env: Env, s: System, steps: seq<Step>): (after: System)
    requires WellFormed(s.db)
    ensures WellFormed(after.db)
    decreases |steps|
  {
    if steps == [] then s else Run(env, After(env, s, steps[0]), steps[1..])
  }

  function ToSeq(call: Option<Event>): seq<Event> {
    if call.None? then [] else [call.value]
  }

  /** The store calls of a run, in their order. */
  function Calls(env: Env, s: System, steps: seq<Step>): seq<Event>
    requires WellFormed(s.db)
    decreases |steps|
  {
    if steps == [] then []
    else ToSeq(CallOf(env, s, steps[0])) + Calls(env, After(env, s, steps[0]), steps[1..])
  }

  lemma {:induction false} RunExecutesItsCalls(env: Env, s: System, steps: seq<Step>)
    requires WellFormed(s.db)
    ensures Run(env, s, steps).db == Exec(env, s.db, Calls(env, s, steps))
    decreases |steps|
  {
    hide Next, MoveOf;
    if steps != [] {
      var next := After(env, s, steps[0]);
      var rest := Calls(env, next, steps[1..]);
      RunExecutesItsCalls(env, next, steps[1..]);
      var call := CallOf(env, s, steps[0]);
      if call.Some? {
        assert ([call.value] + rest)[1..] == rest;
      } else {
        assert [] + rest == rest;
      }
    }
  }

  // ---------- only winners advance ----------

  /** The rights to advance that a caller holds. */
  function Tokens(phase: Phase): multiset<Token> {
    if phase.Spending? then multiset{Token(phase.id, phase.outcome)} + Tokens(phase.next) else multiset{}
  }

  function TokensOf(callers: seq<Caller>): multiset<Token> {
    if callers == [] then multiset{} else TokensOf(callers[..|callers| - 1]) + Tokens(callers[|callers| - 1].phase)
  }

  lemma {:induction false} TokensAfterMove(callers: seq<Caller>, i: nat, c: Caller)
    requires i < |callers|
    ensures Tokens(callers[i].phase) <= TokensOf(callers)
    ensures TokensOf(callers[i := c]) == TokensOf(callers) - Tokens(callers[i].phase) + Tokens(c.phase)
  {
    hide Tokens;
    var n := |callers| - 1;
    var changed := callers[i := c];
    var all, held, after := TokensOf(callers[..n]), Tokens(callers[i].phase), Tokens(c.phase);
    if i == n {
      assert changed[..n] == callers[..n];
      ReplaceLast(all, held, after);
    } else {
      TokensAfterMove(callers[..n], i, c);
      assert changed[..n] == callers[..n][i := c];
      ReplaceInner(all, held, after, Tokens(callers[n].phase));
    }
  }

  lemma ReplaceLast(all: multiset<Token>, held: multiset<Token>, after: multiset<Token>)
    ensures held <= all + held && all + after == all + held - held + after
  {}

  lemma ReplaceInner(all: multiset<Token>, held: multiset<Token>, after: multiset<Token>, last: multiset<Token>)
    requires held <= all
    ensures held <= all + last && all - held + after + last == all + last - held + after
  {}

  lemma MarkingEarns(db: Db, c: Caller, mark: Event, id: RunId, outcome: Outcome, reason: Option<string>, counts: bool, next: Phase)
    requires (mark.Complete? && outcome == WasCompleted) || (mark.Fail? && outcome == WasFailed) || (mark.Block? && outcome == WasBlocked)
    requires mark.id == id && Tokens(next) == multiset{}
    ensures var m := Marking(db, c, mark, id, outcome, reason, counts, next);
            m.call == Some(mark) && Spent(mark) == multiset{} && Tokens(m.caller.phase) == Earned(db, mark)
  {
    hide UpdateRun;
  }

  /** A move spends a right only if its caller holds it, and gains one only by a mark that wins. */
  lemma MoveSpendsAndEarns(env: Env, db: Db, c: Caller, agent: Agent)
    requires WellFormed(db)
    ensures var m := MoveOf(env, db, c, agent);
            if m.call.None? then Tokens(m.caller.phase) == Tokens(c.phase)
            else
              && Spent(m.call.value) <= Tokens(c.phase)
              && Tokens(m.caller.phase) <= Tokens(c.phase) - Spent(m.call.value) + Earned(db, m.call.value)
  {
    hide Earned, ListedRuns, SettleMove, StartMove, ClaimMove;
    match c.phase
    case Claiming => ClaimingSpendsNothing(env, db, c);
    case Settling(rows) =>
      if rows != [] { SettlingSpendsAndEarns(db, c, agent, rows[0], Settling(rows[1..])); }
    case Starting(run, task) => StartingSpendsAndEarns(db, c, agent, run, task);
    case _ =>
  }

  lemma ClaimingSpendsNothing(env: Env, db: Db, c: Caller)
    requires WellFormed(db)
    ensures var m := ClaimMove(env, db, c);
            Tokens(m.caller.phase) == multiset{} && (m.call.Some? ==> Spent(m.call.value) == multiset{})
  {
    hide SchedulerModel.ClaimDueRun;
  }

  lemma SettlingSpendsAndEarns(db: Db, c: Caller, agent: Agent, run: SchedulerModel.Run, rest: Phase)
    requires Tokens(rest) == multiset{}
    ensures var m := SettleMove(db, c, agent, run, rest);
            if m.call.None? then Tokens(m.caller.phase) == multiset{}
            else Spent(m.call.value) == multiset{} && Tokens(m.caller.phase) <= Earned(db, m.call.value)
  {
    hide Marking, Earned, Tokens;
    if run.dispatchId.Some? {
      match agent.get(run.dispatchId.value)
      case None =>
        MarkingEarns(db, c, Fail(run.id, run.startedAtMs, c.now, MISSING_MESSAGE), run.id, WasFailed, Some(MISSING_MESSAGE), false, rest);
      case Some(InProgress) =>
      case Some(DispatchCompleted(ts)) =>
        if run.startedAtMs.Some? {
          MarkingEarns(db, c, Complete(run.id, run.startedAtMs.value, c.now, ts), run.id, WasCompleted, None, true, rest);
        }
      case Some(DispatchBlocked(reason)) =>
        var message := MessageOr(reason, "Dispatch blocked.");
        MarkingEarns(db, c, Block(run.id, run.startedAtMs, c.now, message), run.id, WasBlocked, Some(message), true, rest);
      case Some(DispatchFailed(reason)) =>
        var message := MessageOr(reason, "Dispatch failed.");
        MarkingEarns(db, c, Fail(run.id, run.startedAtMs, c.now, message), run.id, WasFailed, Some(message), true, rest);
    }
  }

  lemma StartingSpendsAndEarns(db: Db, c: Caller, agent: Agent, run: SchedulerModel.Run, task: Option<Task>)
    ensures var m := StartMove(db, c, agent, run, task);
            m.call.Some? && Spent(m.call.value) == multiset{} && Tokens(m.caller.phase) <= Earned(db, m.call.value)
  {
    hide Marking, Earned, ShouldSkipRun, NotFoundMessage;
    if task.Some? && ShouldSkipRun(agent, task.value, run).None? {
      var metadata := agent.describe(run, task.value);
      if metadata.Err? {
        var message := NO_METADATA + metadata.message;
        MarkingEarns(db, c, Block(run.id, None, c.now, message), run.id, WasBlocked, Some(message), false, Claiming);
      } else {
        var dispatch := agent.dispatch(run.id, task.value, metadata.value);
        if dispatch.Err? {
          var message := NO_DISPATCH + dispatch.message;
          MarkingEarns(db, c, Block(run.id, None, c.now, message), run.id, WasBlocked, Some(message), false, Claiming);
        }
      }
    }
  }

  /** Callers advance only what they won, however their calls interleave. */
  lemma {:induction false} OnlyWinnersAdvanceInEveryRun(env: Env, s: System, owed: multiset<Token>, steps: seq<Step>)
    requires WellFormed(s.db) && TokensOf(s.callers) <= owed
    ensures OnlyWinnersAdvance(env, s.db, owed, Calls(env, s, steps))
    decreases |steps|
  {
    hide Next, MoveOf, Earned, Spent, TokensOf, CallOf, After;
    if steps != [] {
      var step := steps[0];
      var next := After(env, s, step);
      var call := CallOf(env, s, step);
      var rest := Calls(env, next, steps[1..]);
      AfterIsNext(env, s, step);
      StepKeepsTokens(env, s, step);
      if call.None? {
        assert [] + rest == rest;
        OnlyWinnersAdvanceInEveryRun(env, next, owed, steps[1..]);
      } else {
        assert ([call.value] + rest)[0] == call.value && ([call.value] + rest)[1..] == rest;
        OnlyWinnersAdvanceInEveryRun(env, next, owed - Spent(call.value) + Earned(s.db, call.value), steps[1..]);
      }
    }
  }

  lemma AfterIsNext(env: Env, s: System, step: Step)
    requires WellFormed(s.db)
    ensures After(env, s, step).db == AfterCall(env, s.db, CallOf(env, s, step))
  {
    hide MoveOf, Next;
  }

  lemma StepKeepsTokens(env: Env, s: System, step: Step)
    requires WellFormed(s.db)
    ensures var call, held, after := CallOf(env, s, step), TokensOf(s.callers), TokensOf(After(env, s, step).callers);
            if call.None? then after == held
            else Spent(call.value) <= held && after <= held - Spent(call.value) + Earned(s.db, call.value)
  {
    hide Next, MoveOf, Earned, Spent, Tokens, TokensOf;
    match step
    case Begin(at) => NewcomerHoldsNothing(s.callers, at);
    case Act(at, i, agent) =>
      if i < |s.callers| {
        var m := MoveOf(env, s.db, s.callers[i], agent);
        MoveSpendsAndEarns(env, s.db, s.callers[i], agent);
        TokensAfterMove(s.callers, i, m.caller);
        if m.call.Some? {
          Exchange(TokensOf(s.callers), Tokens(s.callers[i].phase), Tokens(m.caller.phase),
                   Spent(m.call.value), Earned(s.db, m.call.value));
        }
      }
    case Edit(at, task) => SavesSpendNothing(task);
  }

  lemma NewcomerHoldsNothing(callers: seq<Caller>, at: int)
    ensures TokensOf(callers + [Fresh(at)]) == TokensOf(callers)
  {
    assert (callers + [Fresh(at)])[..|callers|] == callers;
  }

  lemma SavesSpendNothing(task: Task)
    ensures Spent(Save(task)) == multiset{}
  {}

  lemma Exchange(all: multiset<Token>, held: multiset<Token>, after: multiset<Token>, spent: multiset<Token>, earned: multiset<Token>)
    requires held <= all && spent <= held && after <= held - spent + earned
    ensures spent <= all && all - held + after <= all - spent + earned
  {}

  /** Callers do meet changes made by others: a task that is paused between the claim of its run and the start
      is read as paused, and the run is skipped. */
  lemma PausingBeforeTheStartSkips(env: Env, s: System, i: nat, agent: Agent, at: int)
    requires WellFormed(s.db) && i < |s.callers| && s.callers[i].phase.Holding?
    requires s.callers[i].phase.run.id.taskId in s.db.tasks
    ensures var run := s.callers[i].phase.run;
            var paused := s.db.tasks[run.id.taskId].(status := Paused);
            var looked := After(env, After(env, s, Edit(at, paused)), Act(at, i, agent));
            var call := CallOf(env, looked, Act(at, i, agent));
            call.Some? && call.value.Skip? && call.value.id == run.id
  {
    hide ListedRuns, ClaimMove, SettleMove;
    var run := s.callers[i].phase.run;
    var paused := s.db.tasks[run.id.taskId].(status := Paused);
    var edited := After(env, s, Edit(at, paused));
    assert TaskRow(edited.db, run.id.taskId) == Some(paused);
    assert MoveOf(env, edited.db, s.callers[i], agent) == Move(s.callers[i].(phase := Starting(run, Some(paused))), None);
  }

  // ---------- every run is safe ----------

  /** However many heartbeats and edits there are and however their calls interleave, from an empty store:
      incomplete runs of a task are apart, every row makes sense, every occurrence is created, dispatched,
      finished and advanced at most once plus once for each reactivation, and every advance whose clock has
      reached its slot leaves it. */
  lemma EveryRunIsSafe(env: Env, steps: seq<Step>)
    ensures var evs := Calls(env, EMPTY, steps);
            var db := Run(env, EMPTY, steps).db;
            && Spaced(db) && RowsMakeSense(db)
            && EveryAdvanceLeavesItsSlot(env, EMPTY.db, evs)
            && forall id ::
                 var t := History(env, EMPTY.db, evs, id);
                 t.created <= t.forgotten + 1 && t.sent <= t.forgotten + 1 && t.finished <= t.forgotten + 1
                 && Advances(evs, id) <= t.forgotten + 1
  {
    hide Exec, History, Calls, Run, OnlyWinnersAdvance, EveryAdvanceLeavesItsSlot, Advances;
    var evs := Calls(env, EMPTY, steps);
    RunExecutesItsCalls(env, EMPTY, steps);
    OnlyWinnersAdvanceInEveryRun(env, EMPTY, multiset{}, steps);
    IncompleteRunsStayApart(env, EMPTY.db, evs);
    RowsAlwaysMakeSense(env, EMPTY.db, evs);
    AdvancesLeaveTheirSlots(env, EMPTY.db, evs);
    forall id
      ensures var t := History(env, EMPTY.db, evs, id);
              t.created <= t.forgotten + 1 && t.sent <= t.forgotten + 1 && t.finished <= t.forgotten + 1
              && Advances(evs, id) <= t.forgotten + 1
    {
      OnceBetweenReactivations(env, EMPTY.db, evs, id);
      AdvancedOnceBetweenReactivations(env, EMPTY.db, evs, id);
    }
  }

  // ---------- mutual exclusion ----------

  /** Steps happen one after another in time, and every dispatch that is accepted is recorded less than the
      staleness time after its heartbeat began. */
  predicate RecordsInTime(env: Env, s: System, clock: int, steps: seq<Step>)
    requires WellFormed(s.db)
    decreases |steps|
  {
    steps == []
    || (clock <= steps[0].at
        && (var call := CallOf(env, s, steps[0]);
            call.Some? && Sends(s.db, call.value) ==> steps[0].at < call.value.now + PENDING_CLAIM_STALE_MS)
        && RecordsInTime(env, After(env, s, steps[0]), steps[0].at, steps[1..]))
  }

  /** A caller began in the past, and what it has claimed carries its own time. */
  predicate Stamped(c: Caller, clock: int) {
    c.now <= clock
    && (c.phase.Holding? ==> c.phase.run.claimedAtMs == c.now)
    && (c.phase.Starting? ==> c.phase.run.claimedAtMs == c.now)
    && (c.phase.Spending? ==> !c.phase.next.Holding? && !c.phase.next.Starting? && !c.phase.next.Spending?)
  }

  ghost predicate AllStamped(callers: seq<Caller>, clock: int) {
    forall i | 0 <= i < |callers| :: Stamped(callers[i], clock)
  }

  lemma {:induction false} ScanIsStamped(env: Env, db: Db, rows: seq<Task>, now: int)
    requires WellFormed(db)
    ensures Scan(env, db, rows, now).1.Some? ==> Scan(env, db, rows, now).1.value.claimedAtMs == now
    decreases rows
  {
    hide Busy, SchedulerModel.SkipMissedRun, DueSlot;
    if rows != [] {
      VisitKeepsWellFormed(env, db, rows[0], now);
      if Visit(env, db, rows[0], now).Passed? {
        ScanIsStamped(env, Visit(env, db, rows[0], now).db, rows[1..], now);
      }
    }
  }

  /** A claimed run carries the time of its claim. */
  lemma ClaimIsStamped(env: Env, db: Db, now: int)
    requires WellFormed(db)
    ensures SchedulerModel.ClaimDueRun(env, db, now).1.Some?
            ==> SchedulerModel.ClaimDueRun(env, db, now).1.value.claimedAtMs == now
  {
    hide DueTasks;
    ScanIsStamped(env, db, DueTasks(db, now), now);
  }

  /** Calls carry the time of their heartbeat, and a dispatch names the claim that its heartbeat made. */
  lemma MoveIsStamped(env: Env, db: Db, c: Caller, agent: Agent, clock: int)
    requires WellFormed(db) && Stamped(c, clock)
    ensures var m := MoveOf(env, db, c, agent);
            && Stamped(m.caller, clock)
            && (m.call.Some? ==> Time(m.call.value) == Some(c.now))
            && (m.call.Some? && m.call.value.Dispatch? ==> m.call.value.claimedAt == m.call.value.now)
  {
    hide SchedulerModel.ClaimDueRun, Wins, ListedRuns, ShouldSkipRun, NotFoundMessage;
    ClaimIsStamped(env, db, c.now);
  }

  lemma StepIsStamped(env: Env, s: System, step: Step, clock: int)
    requires WellFormed(s.db) && AllStamped(s.callers, clock) && clock <= step.at
    ensures AllStamped(After(env, s, step).callers, step.at)
    ensures var call := CallOf(env, s, step);
            && (call.Some? && Time(call.value).Some? ==> Time(call.value).value <= step.at)
            && (call.Some? && call.value.Dispatch? ==> call.value.claimedAt == call.value.now)
  {
    hide MoveOf, Next;
    if step.Act? && step.caller < |s.callers| {
      MoveIsStamped(env, s.db, s.callers[step.caller], step.agent, clock);
    }
  }

  lemma {:induction false} RecordingInTimeIsPunctual(env: Env, s: System, clock: int, steps: seq<Step>)
    requires WellFormed(s.db) && ClaimedBy(s.db, clock) && AllStamped(s.callers, clock)
    requires RecordsInTime(env, s, clock, steps)
    ensures Punctual(env, s.db, Calls(env, s, steps))
    decreases |steps|
  {
    hide Next, MoveOf, AllStamped, Stamped, Time;
    if steps != [] {
      var step := steps[0];
      var next, call := After(env, s, step), CallOf(env, s, step);
      var rest := Calls(env, next, steps[1..]);
      StepIsStamped(env, s, step, clock);
      if call.None? {
        assert [] + rest == rest;
      } else {
        ClaimsRespectClock(env, s.db, call.value, clock, step.at);
        assert ([call.value] + rest)[0] == call.value && ([call.value] + rest)[1..] == rest;
      }
      RecordingInTimeIsPunctual(env, next, step.at, steps[1..]);
    }
  }

  /** If every heartbeat records its dispatches less than a minute after it began, then at most one run of a
      task is ever running, however heartbeats and edits interleave. */
  lemma MutualExclusion(env: Env, clock: int, steps: seq<Step>)
    requires RecordsInTime(env, EMPTY, clock, steps)
    ensures AtMostOneRunning(Run(env, EMPTY, steps).db)
  {
    hide Exec, Calls, Run, Punctual;
    RunExecutesItsCalls(env, EMPTY, steps);
    RecordingInTimeIsPunctual(env, EMPTY, clock, steps);
    AtMostOneRunIsEverRunning(env, EMPTY.db, Calls(env, EMPTY, steps));
  }

  // ---------- the limit of a heartbeat ----------

  /** How far a heartbeat is: nothing is dispatched before it claims, and no more than the turns it took. */
  predicate Limited(c: Caller) {
    var phase := if c.phase.Spending? then c.phase.next else c.phase;
    match phase
    case Listing => c.dispatched == 0
    case Settling(_) => c.dispatched == 0
    case Spending(_, _, _, _) => false
    case Claiming => c.processed + c.dispatched <= c.index && (c.dispatched > 0 ==> c.index <= HEARTBEAT_LIMIT)
    case Holding(_) => c.processed + c.dispatched < c.index <= HEARTBEAT_LIMIT
    case Starting(_, _) => c.processed + c.dispatched < c.index <= HEARTBEAT_LIMIT
    case Over => c.dispatched > 0 ==> c.processed + c.dispatched <= HEARTBEAT_LIMIT
  }

  lemma MoveIsLimited(env: Env, db: Db, c: Caller, agent: Agent)
    requires WellFormed(db) && Limited(c)
    ensures Limited(MoveOf(env, db, c, agent).caller)
  {
    hide SchedulerModel.ClaimDueRun, Wins, ListedRuns, ShouldSkipRun, NotFoundMessage;
  }

  /** Whatever the other callers do, a heartbeat that dispatches anything processes and dispatches at most ten
      runs in all. */
  lemma {:induction false} HeartbeatsAreLimited(env: Env, s: System, steps: seq<Step>)
    requires WellFormed(s.db) && forall i | 0 <= i < |s.callers| :: Limited(s.callers[i])
    ensures forall i | 0 <= i < |Run(env, s, steps).callers| ::
              var c := Run(env, s, steps).callers[i];
              Limited(c) && (c.dispatched > 0 ==> c.processed + c.dispatched <= HEARTBEAT_LIMIT)
    decreases |steps|
  {
    hide MoveOf, Next;
    if steps != [] {
      if steps[0].Act? && steps[0].caller < |s.callers| {
        MoveIsLimited(env, s.db, s.callers[steps[0].caller], steps[0].agent);
      }
      HeartbeatsAreLimited(env, After(env, s, steps[0]), steps[1..]);
    }
  }

  // ---------- a heartbeat that is left alone ----------

  /** The store and the caller after `n` moves that nothing comes between. */
  function Alone(env: Env, db: Db, c: Caller, agent: Agent, n: nat): (r: (Db, Caller))
    requires WellFormed(db)
    ensures WellFormed(r.0)
    decreases n
  {
    if n == 0 then (db, c)
    else
      var m := MoveOf(env, db, c, agent);
      Alone(env, AfterCall(env, db, m.call), m.caller, agent, n - 1)
  }

  lemma {:induction false} AloneAdds(env: Env, db: Db, c: Caller, agent: Agent, n: nat, k: nat)
    requires WellFormed(db)
    ensures var (d, e) := Alone(env, db, c, agent, n);
            Alone(env, db, c, agent, n + k) == Alone(env, d, e, agent, k)
    decreases n
  {
    hide MoveOf, Next;
    if n > 0 {
      var m := MoveOf(env, db, c, agent);
      AloneAdds(env, AfterCall(env, db, m.call), m.caller, agent, n - 1, k);
    }
  }

  function Acts(at: int, agent: Agent, n: nat): seq<Step> {
    if n == 0 then [] else [Act(at, 0, agent)] + Acts(at, agent, n - 1)
  }

  lemma {:induction false} AloneIsARun(env: Env, db: Db, c: Caller, agent: Agent, at: int, n: nat)
    requires WellFormed(db)
    ensures var (d, e) := Alone(env, db, c, agent, n);
            Run(env, System(db, [c]), Acts(at, agent, n)) == System(d, [e])
    decreases n
  {
    hide MoveOf, Next;
    if n > 0 {
      var m := MoveOf(env, db, c, agent);
      var steps := Acts(at, agent, n);
      assert steps[0] == Act(at, 0, agent) && steps[1..] == Acts(at, agent, n - 1);
      assert [c][0 := m.caller] == [m.caller];
      AloneIsARun(env, AfterCall(env, db, m.call), m.caller, agent, at, n - 1);
    }
  }

  /** A heartbeat that is left alone is one of the runs above. */
  lemma LoneHeartbeatIsARun(env: Env, db: Db, agent: Agent, at: int, n: nat)
    requires WellFormed(db)
    ensures var (d, e) := Alone(env, db, Fresh(at), agent, n);
            Run(env, System(db, []), [Begin(at)] + Acts(at, agent, n)) == System(d, [e])
  {
    hide Alone, MoveOf, Next;
    var steps := [Begin(at)] + Acts(at, agent, n);
    assert steps[0] == Begin(at) && steps[1..] == Acts(at, agent, n);
    assert After(env, System(db, []), Begin(at)) == System(db, [Fresh(at)]);
    AloneIsARun(env, db, Fresh(at), agent, at, n);
  }
}
