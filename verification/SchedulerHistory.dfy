/** What holds over every history of store calls. */
module SchedulerHistory {
  import opened Wrappers
  import opened SchedulerModel
  import opened SchedulerRuns

  function Next(env: Env, db: Db, ev: Event): (after: Db)
    requires WellFormed(db)
    ensures WellFormed(after)
  {
    CallChangesRowLegally(env, db, ev, RunId("", 0));
    Apply(env, db, ev)
  }

  function Exec(env: Env, db: Db, evs: seq<Event>): (after: Db)
    requires WellFormed(db)
    ensures WellFormed(after)
    decreases |evs|
  {
    if evs == [] then db else Exec(env, Next(env, db, evs[0]), evs[1..])
  }

  lemma RowChange(env: Env, db: Db, ev: Event, id: RunId) returns (c: Change)
    requires WellFormed(db)
    ensures IsChange(c, db, ev, id, RunRow(db, id), RunRow(Next(env, db, ev), id))
  {
    hide IsChange, Apply;
    CallChangesRowLegally(env, db, ev, id);
    c :| IsChange(c, db, ev, id, RunRow(db, id), RunRow(Next(env, db, ev), id));
  }

  // ---------- counting what happens to one occurrence ----------

  /** How often a run row was created, forgotten by a reactivation, dispatched, and finished. */
  datatype Tally = Tally(created: nat, forgotten: nat, sent: nat, finished: nat)

  function One(b: bool): nat {
    if b then 1 else 0
  }

  function StepTally(before: Option<Run>, after: Option<Run>): Tally {
    Tally(
      One(before.None? && after.Some?),
      One(before.Some? && after.None?),
      One(before.Some? && after.Some? && before.value.status == Pending && after.value.status == Running),
      One(before.Some? && after.Some? && Incomplete(before.value) && Finished(after.value)))
  }

  function History(env: Env, db: Db, evs: seq<Event>, id: RunId): Tally
    requires WellFormed(db)
    decreases |evs|
  {
    if evs == [] then Tally(0, 0, 0, 0)
    else
      var after := Next(env, db, evs[0]);
      var a, b := StepTally(RunRow(db, id), RunRow(after, id)), History(env, after, evs[1..], id);
      Tally(a.created + b.created, a.forgotten + b.forgotten, a.sent + b.sent, a.finished + b.finished)
  }

  predicate Present(row: Option<Run>) {
    row.Some?
  }

  predicate Sendable(row: Option<Run>) {
    row.None? || row.value.status == Pending
  }

  predicate Open(row: Option<Run>) {
    row.None? || Incomplete(row.value)
  }

  lemma StepBounds(env: Env, db: Db, ev: Event, id: RunId)
    requires WellFormed(db)
    ensures var before, after := RunRow(db, id), RunRow(Next(env, db, ev), id);
            var t := StepTally(before, after);
            t.created + One(Present(before)) == t.forgotten + One(Present(after))
            && t.sent + One(Sendable(after)) <= One(Sendable(before)) + t.forgotten
            && t.finished + One(Open(after)) <= One(Open(before)) + t.forgotten
  {
    hide Next, Busy, DueSlot, TooOld;
    var c := RowChange(env, db, ev, id);
  }

  /** Rows are conserved: what is created is still there or was forgotten. A row is dispatched at
      most once and finished at most once, plus once for every time it was forgotten. */
  lemma {:induction false} HistoryBounds(env: Env, db: Db, evs: seq<Event>, id: RunId)
    requires WellFormed(db)
    ensures var before, after := RunRow(db, id), RunRow(Exec(env, db, evs), id);
            var t := History(env, db, evs, id);
            t.created + One(Present(before)) == t.forgotten + One(Present(after))
            && t.sent + One(Sendable(after)) <= One(Sendable(before)) + t.forgotten
            && t.finished + One(Open(after)) <= One(Open(before)) + t.forgotten
    decreases |evs|
  {
    hide Next, StepTally, Sendable, Open, Present, One;
    if evs != [] {
      StepBounds(env, db, evs[0], id);
      HistoryBounds(env, Next(env, db, evs[0]), evs[1..], id);
    }
  }

  /** From an empty occurrence, between two reactivations it is created, dispatched and finished at most once. */
  lemma OnceBetweenReactivations(env: Env, db: Db, evs: seq<Event>, id: RunId)
    requires WellFormed(db) && id !in db.runs
    ensures var t := History(env, db, evs, id);
            t.created <= t.forgotten + 1 && t.sent <= t.forgotten + 1 && t.finished <= t.forgotten + 1
            && t.forgotten <= t.created
  {
    HistoryBounds(env, db, evs, id);
  }

  // ---------- claims and attempts ----------

  /** While a row is not forgotten, each further attempt costs at least the staleness time. */
  lemma {:induction false} AttemptsAreSpaced(env: Env, db: Db, evs: seq<Event>, id: RunId)
    requires WellFormed(db) && id in db.runs && History(env, db, evs, id).forgotten == 0
    ensures var after := RunRow(Exec(env, db, evs), id);
            after.Some? && after.value.attempt >= db.runs[id].attempt
            && after.value.claimedAtMs >=
               db.runs[id].claimedAtMs + PENDING_CLAIM_STALE_MS * (after.value.attempt - db.runs[id].attempt)
            && (after.value.attempt == db.runs[id].attempt ==> after.value.claimedAtMs == db.runs[id].claimedAtMs)
    decreases |evs|
  {
    hide Next, Busy, DueSlot, TooOld;
    if evs != [] {
      var c := RowChange(env, db, evs[0], id);
      AttemptsAreSpaced(env, Next(env, db, evs[0]), evs[1..], id);
    }
  }

  /** A finished row never changes again; only a blocked one can be forgotten. */
  lemma {:induction false} FinishedIsForever(env: Env, db: Db, evs: seq<Event>, id: RunId)
    requires WellFormed(db) && id in db.runs && Finished(db.runs[id])
    requires db.runs[id].status == RunBlocked ==> History(env, db, evs, id).forgotten == 0
    ensures RunRow(Exec(env, db, evs), id) == Some(db.runs[id])
    decreases |evs|
  {
    hide Next, Busy, DueSlot, TooOld;
    if evs != [] {
      var c := RowChange(env, db, evs[0], id);
      FinishedIsForever(env, Next(env, db, evs[0]), evs[1..], id);
    }
  }

  /** A run completes only from running, and only by the call that names its start time. */
  lemma CompletedOnlyFromRunning(env: Env, db: Db, ev: Event, id: RunId)
    requires WellFormed(db)
    requires id in Next(env, db, ev).runs && Next(env, db, ev).runs[id].status == Completed
    ensures id in db.runs
    ensures db.runs[id].status == Completed
            || (db.runs[id].status == Running && ev.Complete? && ev.id == id && db.runs[id].startedAtMs == Some(ev.startedAt))
  {
    hide Next, Busy, DueSlot, TooOld;
    var c := RowChange(env, db, ev, id);
  }

  /** What every reachable row satisfies: a first attempt is claimed within a day after its slot
      unless it was skipped, no claim precedes its slot, and exactly the runs that were
      dispatched have a start time. */
  predicate RowMakesSense(run: Run) {
    && run.attempt >= 1 && run.id.slot <= run.claimedAtMs
    && (run.attempt == 1 && run.status != Skipped ==> run.claimedAtMs <= run.id.slot + MISSED_RUN_MAX_AGE_MS)
    && (run.status == Running || run.status == Completed ==> run.dispatchId.Some?)
    && (run.status == Pending || run.status == Skipped ==> run.dispatchId.None?)
    && (run.dispatchId.Some? <==> run.startedAtMs.Some?)
  }

  ghost predicate RowsMakeSense(db: Db) {
    forall id | id in db.runs :: RowMakesSense(db.runs[id])
  }

  lemma StepMakesSense(env: Env, db: Db, ev: Event, id: RunId)
    requires WellFormed(db) && id in Next(env, db, ev).runs
    requires id in db.runs ==> RowMakesSense(db.runs[id])
    ensures RowMakesSense(Next(env, db, ev).runs[id])
  {
    hide Next, Busy;
    var c := RowChange(env, db, ev, id);
    assert id in db.runs ==> db.runs[id].id == id;
  }

  lemma {:induction false} RowsAlwaysMakeSense(env: Env, db: Db, evs: seq<Event>)
    requires WellFormed(db) && RowsMakeSense(db)
    ensures RowsMakeSense(Exec(env, db, evs))
    decreases |evs|
  {
    hide Next, RowMakesSense;
    if evs != [] {
      var after := Next(env, db, evs[0]);
      forall id | id in after.runs ensures RowMakesSense(after.runs[id]) {
        StepMakesSense(env, db, evs[0], id);
      }
      RowsAlwaysMakeSense(env, after, evs[1..]);
    }
  }
}
