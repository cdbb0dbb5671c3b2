/** Mutual exclusion, claim fencing and at-most-once advancing, over every history of calls. */
module SchedulerSafety {
  import opened Wrappers
  import opened SchedulerModel
  import opened SchedulerRuns
  import opened SchedulerHistory

  // ---------- incomplete runs of one task ----------

  ghost predicate Apart(a: Run, b: Run) {
    a.claimedAtMs + PENDING_CLAIM_STALE_MS <= b.claimedAtMs || b.claimedAtMs + PENDING_CLAIM_STALE_MS <= a.claimedAtMs
  }

  /** Distinct incomplete runs of one task were claimed at least the staleness time apart. */
  ghost predicate Spaced(db: Db) {
    forall a, b | a in db.runs && b in db.runs && a != b && a.taskId == b.taskId
                  && Incomplete(db.runs[a]) && Incomplete(db.runs[b]) :: Apart(db.runs[a], db.runs[b])
  }

  /** An incomplete row after a call was an incomplete row with the same claim before it, or the
      call claimed it while every other incomplete run of the task was a stale claim. */
  lemma IncompleteRowOrigin(env: Env, db: Db, ev: Event, id: RunId)
    requires WellFormed(db)
    requires id in Next(env, db, ev).runs && Incomplete(Next(env, db, ev).runs[id])
    ensures (id in db.runs && Incomplete(db.runs[id])
             && db.runs[id].claimedAtMs == Next(env, db, ev).runs[id].claimedAtMs)
            || (ev.Claim? && Next(env, db, ev).runs[id].claimedAtMs == ev.now
                && TargetedAt(db, id, ev.now) && !Busy(db, id, ev.now)
                && Next(env, db, ev).runs[id].status == Pending)
  {
    hide Next, Busy, DueSlot;
    var c := RowChange(env, db, ev, id);
    assert id in db.runs ==> RunRow(db, id) == Some(db.runs[id]);
  }

  lemma PairStaysApart(env: Env, db: Db, ev: Event, a: RunId, b: RunId)
    requires WellFormed(db) && Spaced(db)
    requires var after := Next(env, db, ev);
             a in after.runs && b in after.runs && Incomplete(after.runs[a]) && Incomplete(after.runs[b])
    requires a != b && a.taskId == b.taskId
    ensures Apart(Next(env, db, ev).runs[a], Next(env, db, ev).runs[b])
  {
    hide Next, DueSlot;
    IncompleteRowOrigin(env, db, ev, a);
    IncompleteRowOrigin(env, db, ev, b);
  }

  lemma StepStaysSpaced(env: Env, db: Db, ev: Event)
    requires WellFormed(db) && Spaced(db)
    ensures Spaced(Next(env, db, ev))
  {
    hide Next, Apart;
    var after := Next(env, db, ev);
    forall a, b | a in after.runs && b in after.runs && a != b && a.taskId == b.taskId
                  && Incomplete(after.runs[a]) && Incomplete(after.runs[b])
      ensures Apart(after.runs[a], after.runs[b])
    {
      PairStaysApart(env, db, ev, a, b);
    }
  }

  /** Over every history, incomplete runs of one task stay apart, whatever the clocks of the callers show. */
  lemma {:induction false} IncompleteRunsStayApart(env: Env, db: Db, evs: seq<Event>)
    requires WellFormed(db) && Spaced(db)
    ensures Spaced(Exec(env, db, evs))
    decreases |evs|
  {
    hide Next, Spaced;
    if evs != [] {
      StepStaysSpaced(env, db, evs[0]);
      IncompleteRunsStayApart(env, Next(env, db, evs[0]), evs[1..]);
    }
  }

  // ---------- at most one running run ----------

  predicate Sends(db: Db, ev: Event) {
    ev.Dispatch? && ev.id in db.runs && db.runs[ev.id].status == Pending && db.runs[ev.id].claimedAtMs == ev.claimedAt
  }

  /** Another run of the same task was claimed once the claim at `stamp` had gone stale, and is still incomplete. */
  ghost predicate Overtaken(db: Db, id: RunId, stamp: int) {
    exists k | k in db.runs ::
      k.taskId == id.taskId && Incomplete(db.runs[k]) && stamp + PENDING_CLAIM_STALE_MS <= db.runs[k].claimedAtMs
  }

  /** No dispatch is accepted on a claim that another claim of its task has overtaken. */
  ghost predicate Punctual(env: Env, db: Db, evs: seq<Event>)
    requires WellFormed(db)
    decreases |evs|
  {
    evs == []
    || ((Sends(db, evs[0]) ==> !Overtaken(db, evs[0].id, evs[0].claimedAt))
        && Punctual(env, Next(env, db, evs[0]), evs[1..]))
  }

  /** Of two incomplete runs of one task, the one claimed earlier is still waiting to be dispatched. */
  ghost predicate EarlierClaimsWait(db: Db) {
    forall a, b | a in db.runs && b in db.runs && a != b && a.taskId == b.taskId
                  && Incomplete(db.runs[a]) && Incomplete(db.runs[b])
                  && db.runs[a].claimedAtMs + PENDING_CLAIM_STALE_MS <= db.runs[b].claimedAtMs ::
      db.runs[a].status == Pending
  }

  ghost predicate AtMostOneRunning(db: Db) {
    forall a, b | a in db.runs && b in db.runs && a.taskId == b.taskId
                  && db.runs[a].status == Running && db.runs[b].status == Running :: a == b
  }

  lemma WaitingMeansOneRunning(db: Db)
    requires Spaced(db) && EarlierClaimsWait(db)
    ensures AtMostOneRunning(db)
  {
    forall a, b | a in db.runs && b in db.runs && a.taskId == b.taskId
                  && db.runs[a].status == Running && db.runs[b].status == Running
      ensures a == b
    {
      assert a != b ==> Apart(db.runs[a], db.runs[b]);
    }
  }

  lemma EarlierClaimStillWaits(env: Env, db: Db, ev: Event, a: RunId, b: RunId)
    requires WellFormed(db) && Spaced(db) && EarlierClaimsWait(db)
    requires Sends(db, ev) ==> !Overtaken(db, ev.id, ev.claimedAt)
    requires var after := Next(env, db, ev);
             a in after.runs && b in after.runs && Incomplete(after.runs[a]) && Incomplete(after.runs[b])
             && after.runs[a].claimedAtMs + PENDING_CLAIM_STALE_MS <= after.runs[b].claimedAtMs
    requires a != b && a.taskId == b.taskId
    ensures Next(env, db, ev).runs[a].status == Pending
  {
    hide Next, DueSlot;
    var c := RowChange(env, db, ev, a);
    IncompleteRowOrigin(env, db, ev, a);
    IncompleteRowOrigin(env, db, ev, b);
    assert a in db.runs ==> RunRow(db, a) == Some(db.runs[a]);
  }

  /** A call keeps earlier claims waiting if and only if it is not a dispatch on an overtaken claim. */
  lemma EarlierClaimsWaitIff(env: Env, db: Db, ev: Event)
    requires WellFormed(db) && Spaced(db) && EarlierClaimsWait(db)
    ensures EarlierClaimsWait(Next(env, db, ev)) <==> (Sends(db, ev) ==> !Overtaken(db, ev.id, ev.claimedAt))
  {
    hide Next;
    var after := Next(env, db, ev);
    if Sends(db, ev) ==> !Overtaken(db, ev.id, ev.claimedAt) {
      forall a, b | a in after.runs && b in after.runs && a != b && a.taskId == b.taskId
                    && Incomplete(after.runs[a]) && Incomplete(after.runs[b])
                    && after.runs[a].claimedAtMs + PENDING_CLAIM_STALE_MS <= after.runs[b].claimedAtMs
        ensures after.runs[a].status == Pending
      {
        EarlierClaimStillWaits(env, db, ev, a, b);
      }
    } else {
      var k :| k in db.runs && k.taskId == ev.id.taskId && Incomplete(db.runs[k])
               && ev.claimedAt + PENDING_CLAIM_STALE_MS <= db.runs[k].claimedAtMs;
      SentRow(env, db, ev, k);
    }
  }

  lemma SentRow(env: Env, db: Db, ev: Event, other: RunId)
    requires WellFormed(db) && Sends(db, ev) && other in db.runs && other != ev.id
    ensures var after := Next(env, db, ev);
            && ev.id in after.runs && after.runs[ev.id].status == Running && after.runs[ev.id].claimedAtMs == ev.claimedAt
            && other in after.runs && after.runs[other] == db.runs[other]
  {
    hide ClaimDueRun, UpdateTaskAfterRun, SaveTask;
  }

  /** If every accepted dispatch is punctual, at most one run of a task is ever running, whatever the
      clocks of the callers show and however their calls interleave. */
  lemma {:induction false} AtMostOneRunIsEverRunning(env: Env, db: Db, evs: seq<Event>)
    requires WellFormed(db) && Spaced(db) && EarlierClaimsWait(db) && Punctual(env, db, evs)
    ensures EarlierClaimsWait(Exec(env, db, evs)) && AtMostOneRunning(Exec(env, db, evs))
    decreases |evs|
  {
    hide Next, Sends, EarlierClaimsWait;
    if evs == [] {
      WaitingMeansOneRunning(db);
    } else {
      StepStaysSpaced(env, db, evs[0]);
      EarlierClaimsWaitIff(env, db, evs[0]);
      AtMostOneRunIsEverRunning(env, Next(env, db, evs[0]), evs[1..]);
    }
  }

  /** A dispatch on an overtaken claim leaves two runs of the task running, or a state from which the
      dispatch of the run that overtook it does. */
  lemma OvertakenDispatchRunsTwo(env: Env, db: Db, ev: Event, k: RunId, dispatchId: string, now: int)
    requires WellFormed(db) && Sends(db, ev)
    requires k in db.runs && k.taskId == ev.id.taskId && Incomplete(db.runs[k])
    requires ev.claimedAt + PENDING_CLAIM_STALE_MS <= db.runs[k].claimedAtMs
    ensures var after := Next(env, db, ev);
            if db.runs[k].status == Running then !AtMostOneRunning(after)
            else !AtMostOneRunning(Next(env, after, Dispatch(k, db.runs[k].claimedAtMs, dispatchId, now)))
  {
    hide Next;
    var after := Next(env, db, ev);
    SentRow(env, db, ev, k);
    if db.runs[k].status == Pending {
      SentRow(env, after, Dispatch(k, db.runs[k].claimedAtMs, dispatchId, now), ev.id);
    }
  }

  // ---------- landing in time ----------

  function Time(ev: Event): Option<int> {
    match ev
    case Claim(now) => Some(now)
    case Dispatch(_, _, _, now) => Some(now)
    case Complete(_, _, now, _) => Some(now)
    case Fail(_, _, now, _) => Some(now)
    case Block(_, _, now, _) => Some(now)
    case Skip(_, now, _) => Some(now)
    case Advance(_, _, _, now) => Some(now)
    case Save(_) => None
  }

  /** The calls are made at the given times, which never go back; no call carries a stamp from its future,
      though it may carry an old one; and every accepted dispatch is made before its claim goes stale. */
  predicate LandInTime(env: Env, db: Db, clock: int, evs: seq<Event>, times: seq<int>)
    requires WellFormed(db) && |times| == |evs|
    decreases |evs|
  {
    evs == []
    || (clock <= times[0]
        && (Time(evs[0]).Some? ==> Time(evs[0]).value <= times[0])
        && (Sends(db, evs[0]) ==> times[0] < evs[0].claimedAt + PENDING_CLAIM_STALE_MS)
        && LandInTime(env, Next(env, db, evs[0]), times[0], evs[1..], times[1..]))
  }

  ghost predicate ClaimedBy(db: Db, clock: int) {
    forall k | k in db.runs :: db.runs[k].claimedAtMs <= clock
  }

  lemma ClaimsRespectClock(env: Env, db: Db, ev: Event, clock: int, at: int)
    requires WellFormed(db) && ClaimedBy(db, clock) && clock <= at && (Time(ev).Some? ==> Time(ev).value <= at)
    ensures ClaimedBy(Next(env, db, ev), at)
  {
    hide Next, Busy, DueSlot;
    var after := Next(env, db, ev);
    forall k | k in after.runs ensures after.runs[k].claimedAtMs <= at {
      var c := RowChange(env, db, ev, k);
      assert k in db.runs ==> RunRow(db, k) == Some(db.runs[k]);
    }
  }

  /** Dispatches that are made before their claims go stale are never overtaken, even when callers with
      older and newer stamps interleave. */
  lemma {:induction false} LandingInTimeIsPunctual(env: Env, db: Db, clock: int, evs: seq<Event>, times: seq<int>)
    requires WellFormed(db) && ClaimedBy(db, clock) && |times| == |evs| && LandInTime(env, db, clock, evs, times)
    ensures Punctual(env, db, evs)
    decreases |evs|
  {
    hide Next, Sends, Time;
    if evs != [] {
      ClaimsRespectClock(env, db, evs[0], clock, times[0]);
      LandingInTimeIsPunctual(env, Next(env, db, evs[0]), times[0], evs[1..], times[1..]);
    }
  }

  // ---------- two running runs ----------

  /** A one-off task of a team, to run at one second, and once more on request at 61 seconds. */
  function TwiceDue(): Task {
    Task("t", 0, Destination("team", "channel"), None, Some(1_000), None,
         Schedule(OneOff, "UTC", None), Active, None, "text", 0)
  }

  lemma OnlyTaskIsDue(db: Db, task: Task, now: int)
    requires WellFormed(db) && db.tasks == map[task.id := task] && Due(task, now)
    ensures DueTasks(db, now) == [task]
  {
    hide Ordered, Earlier, DueSlot;
    var rows := DueTasks(db, now);
    DueTasksAreCurrent(db, now);
    assert db.tasks[task.id] in rows;
    forall t | t in rows ensures t == task {
      assert TaskRow(db, t.id) == Some(t);
    }
    assert rows[0] in rows;
    if |rows| > 1 {
      assert rows[1] in rows && Earlier(rows[0], rows[1]);
      EarlierIsTotalOrder(task, task, task);
    }
  }

  lemma OnlyTaskIsClaimed(env: Env, db: Db, task: Task, now: int)
    requires WellFormed(db) && db.tasks == map[task.id := task] && Due(task, now)
    requires var id := RunId(task.id, DueSlot(task, now).value);
             id !in db.runs && !Busy(db, id, now) && !TooOld(id.slot, now)
    ensures var id := RunId(task.id, DueSlot(task, now).value);
            Next(env, db, Claim(now)) == PutRun(db, NewRun(id, now))
  {
    hide DueSlot, Busy, DueTasks;
    OnlyTaskIsDue(db, task, now);
    assert [task][1..] == [];
  }

  /** The premise is needed: from an empty store, with one clock that never goes back, a dispatch that
      comes a minute late leaves two runs of a task running. */
  lemma LateDispatchRunsTwo(env: Env)
    ensures var later := TwiceDue().(runNowAtMs := Some(61_000));
            var evs := [Save(TwiceDue()), Claim(1_000), Save(later), Claim(61_000),
                        Dispatch(RunId("t", 61_000), 61_000, "b", 61_000), Dispatch(RunId("t", 1_000), 1_000, "a", 61_000)];
            !AtMostOneRunning(Exec(env, Db(map[], map[]), evs))
  {
    hide ClaimDueRun, UpdateTaskAfterRun;
    var first, second := RunId("t", 1_000), RunId("t", 61_000);
    var once, later := TwiceDue(), TwiceDue().(runNowAtMs := Some(61_000));
    var send, resend := Dispatch(second, 61_000, "b", 61_000), Dispatch(first, 1_000, "a", 61_000);
    var d0 := Db(map[], map[]);
    var d1 := Next(env, d0, Save(once));
    assert d1 == Db(map["t" := once], map[]);
    var d2 := Next(env, d1, Claim(1_000));
    OnlyTaskIsClaimed(env, d1, once, 1_000);
    assert d2.runs == map[first := NewRun(first, 1_000)];
    var d3 := Next(env, d2, Save(later));
    assert d3 == Db(map["t" := later], d2.runs);
    OnlyTaskIsClaimed(env, d3, later, 61_000);
    var d4 := Next(env, d3, Claim(61_000));
    assert d4.runs == d3.runs[second := NewRun(second, 61_000)];
    var d5 := Next(env, d4, send);
    SentRow(env, d4, send, first);
    var d6 := Next(env, d5, resend);
    SentRow(env, d5, resend, second);
    hide Next, AtMostOneRunning;
    assert !AtMostOneRunning(d6) by { TwoRunning(d6, first, second); }
    SixCalls(env, d0, Save(once), Claim(1_000), Save(later), Claim(61_000), send, resend);
  }

  lemma TwoRunning(db: Db, a: RunId, b: RunId)
    requires a in db.runs && b in db.runs && a != b && a.taskId == b.taskId
    requires db.runs[a].status == Running && db.runs[b].status == Running
    ensures !AtMostOneRunning(db)
  {}

  lemma SixCalls(env: Env, db: Db, a: Event, b: Event, c: Event, d: Event, e: Event, f: Event)
    requires WellFormed(db)
    ensures Exec(env, db, [a, b, c, d, e, f])
            == Next(env, Next(env, Next(env, Next(env, Next(env, Next(env, db, a), b), c), d), e), f)
  {
    hide Next;
    assert [a, b, c, d, e, f][1..] == [b, c, d, e, f] && [b, c, d, e, f][1..] == [c, d, e, f];
    assert [c, d, e, f][1..] == [d, e, f] && [d, e, f][1..] == [e, f] && [e, f][1..] == [f] && [f][1..] == [];
    var db3 := Next(env, Next(env, Next(env, db, a), b), c);
    assert Exec(env, db3, [d, e, f]) == Next(env, Next(env, Next(env, db3, d), e), f) by {
      assert Exec(env, Next(env, Next(env, db3, d), e), [f]) == Next(env, Next(env, Next(env, db3, d), e), f);
      assert Exec(env, Next(env, db3, d), [e, f]) == Exec(env, Next(env, Next(env, db3, d), e), [f]);
    }
    assert Exec(env, Next(env, Next(env, db, a), b), [c, d, e, f]) == Exec(env, db3, [d, e, f]);
    assert Exec(env, Next(env, db, a), [b, c, d, e, f]) == Exec(env, Next(env, Next(env, db, a), b), [c, d, e, f]);
  }

  // ---------- fencing ----------

  /** No call of the history dispatches the occurrence on the strength of the claim made at `stamp`. */
  predicate NeverSent(env: Env, db: Db, evs: seq<Event>, id: RunId, stamp: int)
    requires WellFormed(db)
    decreases |evs|
  {
    evs == []
    || (!(Sends(db, evs[0]) && evs[0].id == id && evs[0].claimedAt == stamp)
        && NeverSent(env, Next(env, db, evs[0]), evs[1..], id, stamp))
  }

  /** Once the occurrence has been claimed anew, an older claim can never dispatch it, whatever the clocks show. */
  lemma {:induction false} OlderClaimIsFenced(env: Env, db: Db, evs: seq<Event>, id: RunId, stamp: int)
    requires WellFormed(db) && id in db.runs && stamp < db.runs[id].claimedAtMs
    requires History(env, db, evs, id).forgotten == 0
    ensures NeverSent(env, db, evs, id, stamp)
    decreases |evs|
  {
    hide Next, Busy, DueSlot, TooOld;
    if evs != [] {
      var c := RowChange(env, db, evs[0], id);
      OlderClaimIsFenced(env, Next(env, db, evs[0]), evs[1..], id, stamp);
    }
  }

  /** Nor after reactivations, as long as later claims carry later stamps. */
  lemma {:induction false} OlderClaimStaysFenced(env: Env, db: Db, evs: seq<Event>, id: RunId, stamp: int)
    requires WellFormed(db) && (id in db.runs ==> stamp < db.runs[id].claimedAtMs)
    requires forall ev | ev in evs && ev.Claim? :: stamp < ev.now
    ensures NeverSent(env, db, evs, id, stamp)
    decreases |evs|
  {
    hide Next, Busy, DueSlot, TooOld;
    if evs != [] {
      var c := RowChange(env, db, evs[0], id);
      assert id in db.runs ==> RunRow(db, id) == Some(db.runs[id]);
      OlderClaimStaysFenced(env, Next(env, db, evs[0]), evs[1..], id, stamp);
    }
  }

  // ---------- advancing a task after its run ----------

  /** The right to advance a task, won by the caller whose mark finished the run. */
  datatype Token = Token(id: RunId, outcome: Outcome)

  function Earned(db: Db, ev: Event): multiset<Token> {
    if ev.Complete? && UpdateRun(db, ev.id, CompletedRun(ev.startedAt, ev.now, ev.resultMessageTs)).1.Some?
    then multiset{Token(ev.id, WasCompleted)}
    else if ev.Fail? && UpdateRun(db, ev.id, FailedRun(ev.startedAtMs, ev.now, ev.message)).1.Some?
    then multiset{Token(ev.id, WasFailed)}
    else if ev.Block? && UpdateRun(db, ev.id, BlockedRun(ev.startedAtMs, ev.now, ev.message)).1.Some?
    then multiset{Token(ev.id, WasBlocked)}
    else multiset{}
  }

  function Spent(ev: Event): multiset<Token> {
    if ev.Advance? then multiset{Token(ev.id, ev.outcome)} else multiset{}
  }

  /** Callers advance a task only for a run that their own mark has finished, once per mark. */
  predicate OnlyWinnersAdvance(env: Env, db: Db, owed: multiset<Token>, evs: seq<Event>)
    requires WellFormed(db)
    decreases |evs|
  {
    evs == []
    || (Spent(evs[0]) <= owed
        && OnlyWinnersAdvance(env, Next(env, db, evs[0]), owed - Spent(evs[0]) + Earned(db, evs[0]), evs[1..]))
  }

  function OwedFor(owed: multiset<Token>, id: RunId): nat {
    owed[Token(id, WasBlocked)] + owed[Token(id, WasCompleted)] + owed[Token(id, WasFailed)]
  }

  function Advances(evs: seq<Event>, id: RunId): nat {
    if evs == [] then 0 else One(evs[0].Advance? && evs[0].id == id) + Advances(evs[1..], id)
  }

  /** Only the call that finishes a run earns the right to advance its task. */
  lemma EarnedByFinishing(env: Env, db: Db, ev: Event, id: RunId)
    requires WellFormed(db)
    ensures OwedFor(Earned(db, ev), id) <= StepTally(RunRow(db, id), RunRow(Next(env, db, ev), id)).finished
  {
    hide ClaimDueRun, UpdateTaskAfterRun, SaveTask;
  }

  lemma SpendAndEarn(owed: multiset<Token>, spent: multiset<Token>, earned: multiset<Token>, id: RunId)
    requires spent <= owed
    ensures OwedFor(owed - spent + earned, id) == OwedFor(owed, id) - OwedFor(spent, id) + OwedFor(earned, id)
  {}

  lemma SpendingIsAdvancing(ev: Event, id: RunId)
    ensures OwedFor(Spent(ev), id) == One(ev.Advance? && ev.id == id)
  {
    if ev.Advance? {
      var spent := Token(ev.id, ev.outcome);
      assert forall t: Token :: multiset{spent}[t] == if t == spent then 1 else 0;
      match ev.outcome {
        case WasBlocked => assert spent == Token(ev.id, WasBlocked);
        case WasCompleted => assert spent == Token(ev.id, WasCompleted);
        case WasFailed => assert spent == Token(ev.id, WasFailed);
      }
    }
  }

  /** A task is advanced at most once for each finish of one of its runs. */
  lemma {:induction false} AdvancedOncePerFinish(env: Env, db: Db, owed: multiset<Token>, evs: seq<Event>, id: RunId)
    requires WellFormed(db) && OnlyWinnersAdvance(env, db, owed, evs)
    ensures Advances(evs, id) <= OwedFor(owed, id) + History(env, db, evs, id).finished
    decreases |evs|
  {
    hide Next, StepTally, Earned;
    if evs != [] {
      var ev := evs[0];
      EarnedByFinishing(env, db, ev, id);
      SpendAndEarn(owed, Spent(ev), Earned(db, ev), id);
      SpendingIsAdvancing(ev, id);
      AdvancedOncePerFinish(env, Next(env, db, ev), owed - Spent(ev) + Earned(db, ev), evs[1..], id);
    }
  }

  /** From an empty occurrence, its task is advanced for it at most once, and once more for every
      time the occurrence was blocked and reactivated. */
  lemma AdvancedOnceBetweenReactivations(env: Env, db: Db, evs: seq<Event>, id: RunId)
    requires WellFormed(db) && id !in db.runs && OnlyWinnersAdvance(env, db, multiset{}, evs)
    ensures Advances(evs, id) <= History(env, db, evs, id).forgotten + 1
  {
    AdvancedOncePerFinish(env, db, multiset{}, evs, id);
    OnceBetweenReactivations(env, db, evs, id);
  }

  predicate Targets(db: Db, id: RunId) {
    id.taskId in db.tasks && db.tasks[id.taskId].status == Active
    && (db.tasks[id.taskId].nextRunAtMs == Some(id.slot) || db.tasks[id.taskId].runNowAtMs == Some(id.slot))
  }

  /** Advancing moves the task off the finished slot, given that the clock has reached the slot. */
  lemma AdvancingLeavesTheSlot(env: Env, db: Db, id: RunId, outcome: Outcome, reason: Option<string>, now: int)
    requires WellFormed(db) && id.slot <= now
    ensures !Targets(UpdateTaskAfterRun(env, db, id, outcome, reason, now), id)
  {
    hide NextOccurrence;
    if id.taskId in db.tasks {
      var current := db.tasks[id.taskId];
      NextOccurrenceIsLater(env, current, id.slot, now);
      if current.nextRunAtMs.Some? { NextOccurrenceIsLater(env, current, current.nextRunAtMs.value, now); }
    }
  }

  predicate EveryAdvanceLeavesItsSlot(env: Env, db: Db, evs: seq<Event>)
    requires WellFormed(db)
    decreases |evs|
  {
    evs == []
    || ((evs[0].Advance? && evs[0].id.slot <= evs[0].now ==> !Targets(Next(env, db, evs[0]), evs[0].id))
        && EveryAdvanceLeavesItsSlot(env, Next(env, db, evs[0]), evs[1..]))
  }

  /** Over every history, each advance whose clock has reached the finished slot leaves its task inactive or
      off that slot. */
  lemma {:induction false} AdvancesLeaveTheirSlots(env: Env, db: Db, evs: seq<Event>)
    requires WellFormed(db)
    ensures EveryAdvanceLeavesItsSlot(env, db, evs)
    decreases |evs|
  {
    hide Targets, Next;
    if evs != [] {
      var ev := evs[0];
      if ev.Advance? && ev.id.slot <= ev.now {
        AdvanceIsUpdate(env, db, ev);
        AdvancingLeavesTheSlot(env, db, ev.id, ev.outcome, ev.reason, ev.now);
      }
      AdvancesLeaveTheirSlots(env, Next(env, db, ev), evs[1..]);
    }
  }

  lemma AdvanceIsUpdate(env: Env, db: Db, ev: Event)
    requires WellFormed(db) && ev.Advance?
    ensures Next(env, db, ev) == UpdateTaskAfterRun(env, db, ev.id, ev.outcome, ev.reason, ev.now)
  {
    hide UpdateTaskAfterRun;
  }
}
