/** A heartbeat as a caller of the store: what it remembers between its calls, and what it does next. Each step
    makes at most one store call, so that the calls of several callers can interleave in any way. */
module HeartbeatCaller {
  import opened Wrappers
  import opened Text
  import opened SchedulerModel
  import opened SchedulerRuns
  import opened SchedulerHistory
  import opened SchedulerSafety
  import Calendar

  const HEARTBEAT_LIMIT := 10

  // ---------- listing the incomplete runs ----------

  /** The text id of a run. */
  function RunText(id: RunId): string {
    id.taskId + ":" + Calendar.Text(id.slot)
  }

  lemma SlotTextHasNoColon(n: int)
    ensures |Calendar.Text(n)| > 0 && ':' !in Calendar.Text(n)
    ensures n >= 0 ==> Calendar.IsDigit(Calendar.Text(n)[0])
  {}

  lemma SlotTextsDiffer(m: int, n: int)
    ensures Calendar.Text(m) == Calendar.Text(n) ==> m == n
  {
    if Calendar.Text(m) == Calendar.Text(n) {
      SlotTextHasNoColon(m);
      SlotTextHasNoColon(n);
      var x, y := if m < 0 then -m else m, if n < 0 then -n else n;
      Calendar.DecimalReads(x);
      Calendar.DecimalReads(y);
      if m < 0 && n < 0 {
        assert Calendar.Text(m)[1..] == Calendar.Decimal(x) && Calendar.Text(n)[1..] == Calendar.Decimal(y);
      }
    }
  }

  /** The text id tells occurrences apart, whatever the task ids look like. */
  lemma RunTextsDiffer(a: RunId, b: RunId)
    ensures RunText(a) == RunText(b) ==> a == b
  {
    var s, t := RunText(a), RunText(b);
    var p, q := Calendar.Text(a.slot), Calendar.Text(b.slot);
    if s == t {
      SlotTextHasNoColon(a.slot);
      SlotTextHasNoColon(b.slot);
      assert s[|s| - |p|..] == p && t[|t| - |q|..] == q;
      assert s[|a.taskId|] == ':' && t[|b.taskId|] == ':';
      SlotTextsDiffer(a.slot, b.slot);
      assert s[..|a.taskId|] == a.taskId && t[..|b.taskId|] == b.taskId;
    }
  }

  predicate RunBefore(a: RunId, b: RunId) {
    a.slot < b.slot || (a.slot == b.slot && TextLess(RunText(a), RunText(b)))
  }

  lemma RunBeforeIsTotalOrder(a: RunId, b: RunId, c: RunId)
    ensures a != b ==> RunBefore(a, b) || RunBefore(b, a)
    ensures !(RunBefore(a, b) && RunBefore(b, a)) && !RunBefore(a, a)
    ensures RunBefore(a, b) && RunBefore(b, c) ==> RunBefore(a, c)
  {
    hide RunText;
    RunTextsDiffer(a, b);
    TextOrderTotal(RunText(a), RunText(b));
    TextOrderTotal(RunText(a), RunText(a));
    if TextLess(RunText(a), RunText(b)) && TextLess(RunText(b), RunText(c)) {
      TextOrderTransitive(RunText(a), RunText(b), RunText(c));
    }
  }

  predicate FirstRun(ids: set<RunId>, id: RunId) {
    id in ids && forall x | x in ids && x != id :: RunBefore(id, x)
  }

  lemma {:induction false} FirstRunExists(ids: set<RunId>)
    requires ids != {}
    ensures exists id :: FirstRun(ids, id)
  {
    hide RunBefore;
    var x :| x in ids;
    var rest := ids - {x};
    assert ids == rest + {x};
    if rest == {} {
      assert FirstRun(ids, x);
    } else {
      FirstRunExists(rest);
      var y :| FirstRun(rest, y);
      RunBeforeIsTotalOrder(x, y, y);
      if RunBefore(x, y) {
        forall w | w in ids && w != x ensures RunBefore(x, w) {
          RunBeforeIsTotalOrder(x, y, w);
        }
        assert FirstRun(ids, x);
      } else {
        assert FirstRun(ids, y);
      }
    }
  }

  /** The runs with the given ids: `ORDER BY scheduled_for_ms, id`. */
  function OrderedRuns(runs: map<RunId, Run>, ids: set<RunId>): (rows: seq<Run>)
    requires ids <= runs.Keys && forall k | k in runs :: runs[k].id == k
    ensures forall run :: run in rows <==> run.id in ids && runs[run.id] == run
    ensures forall i, j | 0 <= i < j < |rows| :: RunBefore(rows[i].id, rows[j].id)
    decreases ids
  {
    hide RunBefore;
    if ids == {} then []
    else
      FirstRunExists(ids);
      assert forall a, b | FirstRun(ids, a) && FirstRun(ids, b) :: a == b by {
        forall a, b | FirstRun(ids, a) && FirstRun(ids, b) ensures a == b {
          RunBeforeIsTotalOrder(a, b, b);
        }
      }
      var id :| FirstRun(ids, id);
      var rest := OrderedRuns(runs, ids - {id});
      assert forall j | 0 <= j < |rest| :: rest[j] in rest;
      [runs[id]] + rest
  }

  predicate Wanted(db: Db, id: RunId) {
    id in db.runs && Incomplete(db.runs[id]) && id.taskId in db.tasks && db.tasks[id.taskId].status != Deleted
  }

  /** The incomplete runs of tasks that are not deleted, by slot and id. */
  function ListedRuns(db: Db): (rows: seq<Run>)
    requires WellFormed(db)
    ensures forall run :: run in rows <==> Wanted(db, run.id) && db.runs[run.id] == run
    ensures forall i, j | 0 <= i < j < |rows| :: RunBefore(rows[i].id, rows[j].id)
  {
    OrderedRuns(db.runs, set id | id in db.runs && Wanted(db, id))
  }

  // ---------- what a caller knows of the outside ----------

  datatype Dispatched =
    | InProgress
    | DispatchCompleted(resultMessageTs: Option<string>)
    | DispatchBlocked(reason: Option<string>)
    | DispatchFailed(reason: Option<string>)

  /** The agent runtime at one moment: looking up a dispatch, preparing one, and starting one; and how an
      instant is written. */
  datatype Agent = Agent(
    iso: int -> string,
    get: string -> Option<Dispatched>,
    describe: (Run, Task) -> Result<string>,
    dispatch: (RunId, Task, string) -> Result<string>)

  function MessageOr(reason: Option<string>, default: string): string {
    if reason.Some? then reason.value else default
  }

  const MISSING_MESSAGE := "Scheduled task dispatch record is missing."
  const NO_METADATA := "Scheduled task dispatch metadata could not be built: "
  const NO_DISPATCH := "Scheduled task dispatch could not be created: "

  function NotFoundMessage(id: string): string {
    "Scheduled task " + id + " was not found"
  }

  function StatusName(status: TaskStatus): string {
    match status
    case Active => "active"
    case Paused => "paused"
    case TaskBlocked => "blocked"
    case Deleted => "deleted"
  }

  function ShouldSkipRun(agent: Agent, task: Task, run: Run): Option<string> {
    if task.status != Active then
      Some("Scheduled task " + task.id + " was " + StatusName(task.status) + " before the run started.")
    else if task.nextRunAtMs != Some(run.id.slot) && task.runNowAtMs != Some(run.id.slot) then
      Some("Scheduled task " + task.id + " no longer targets " + agent.iso(run.id.slot) + ".")
    else None
  }

  // ---------- a caller ----------

  /** Where a heartbeat is: what it has in hand between two store calls. */
  datatype Phase =
    | Listing
    | Settling(rows: seq<Run>)
    | Spending(id: RunId, outcome: Outcome, reason: Option<string>, next: Phase)
    | Claiming
    | Holding(run: Run)
    | Starting(run: Run, task: Option<Task>)
    | Over

  /** A heartbeat keeps the time at which it began for all of its calls. */
  datatype Caller = Caller(now: int, processed: nat, index: nat, dispatched: nat, phase: Phase)

  function Fresh(now: int): Caller {
    Caller(now, 0, 0, 0, Listing)
  }

  /** The caller after a step, and the store call that the step made. */
  datatype Move = Move(caller: Caller, call: Option<Event>)

  predicate Wins(db: Db, mark: Event) {
    Earned(db, mark) != multiset{}
  }

  /** A mark that wins is to be followed by an advance. */
  function Marking(db: Db, c: Caller, mark: Event, id: RunId, outcome: Outcome, reason: Option<string>, counts: bool, next: Phase)
    : Move
  {
    if Wins(db, mark)
    then Move(c.(processed := if counts then c.processed + 1 else c.processed, phase := Spending(id, outcome, reason, next)), Some(mark))
    else Move(c.(phase := next), Some(mark))
  }

  /** Looks at one listed run: settles it if it was dispatched and its dispatch is over or missing. */
  function SettleMove(db: Db, c: Caller, agent: Agent, run: Run, rest: Phase): Move {
    if run.dispatchId.None? || run.dispatchId.value == "" then Move(c.(phase := rest), None)
    else
      match agent.get(run.dispatchId.value)
      case None =>
        Marking(db, c, Fail(run.id, run.startedAtMs, c.now, MISSING_MESSAGE), run.id, WasFailed, Some(MISSING_MESSAGE), false, rest)
      case Some(InProgress) => Move(c.(phase := rest), None)
      case Some(DispatchCompleted(ts)) =>
        // A dispatched run always has its start time.
        if run.startedAtMs.None? then Move(c.(phase := rest), None)
        else Marking(db, c, Complete(run.id, run.startedAtMs.value, c.now, ts), run.id, WasCompleted, None, true, rest)
      case Some(DispatchBlocked(reason)) =>
        var message := MessageOr(reason, "Dispatch blocked.");
        Marking(db, c, Block(run.id, run.startedAtMs, c.now, message), run.id, WasBlocked, Some(message), true, rest)
      case Some(DispatchFailed(reason)) =>
        var message := MessageOr(reason, "Dispatch failed.");
        Marking(db, c, Fail(run.id, run.startedAtMs, c.now, message), run.id, WasFailed, Some(message), true, rest)
  }

  /** Acts on a claimed run whose task it has read: dispatches it, or closes it. */
  function StartMove(db: Db, c: Caller, agent: Agent, run: Run, task: Option<Task>): Move {
    if task.None? then
      Move(c.(phase := Claiming), Some(Fail(run.id, None, c.now, NotFoundMessage(run.id.taskId))))
    else
      var reason := ShouldSkipRun(agent, task.value, run);
      if reason.Some? then Move(c.(phase := Claiming), Some(Skip(run.id, c.now, reason.value)))
      else
        var metadata := agent.describe(run, task.value);
        if metadata.Err? then
          var message := NO_METADATA + metadata.message;
          Marking(db, c, Block(run.id, None, c.now, message), run.id, WasBlocked, Some(message), false, Claiming)
        else
          var dispatch := agent.dispatch(run.id, task.value, metadata.value);
          if dispatch.Err? then
            var message := NO_DISPATCH + dispatch.message;
            Marking(db, c, Block(run.id, None, c.now, message), run.id, WasBlocked, Some(message), false, Claiming)
          else
            Move(c.(phase := Claiming, dispatched := c.dispatched + 1),
                 Some(SchedulerRuns.Dispatch(run.id, run.claimedAtMs, dispatch.value, c.now)))
  }

  function ClaimMove(env: Env, db: Db, c: Caller): Move
    requires WellFormed(db)
  {
    if c.index >= HEARTBEAT_LIMIT then Move(c.(phase := Over), None)
    else
      var claimed := SchedulerModel.ClaimDueRun(env, db, c.now).1;
      if claimed.None? then Move(c.(phase := Over), Some(Claim(c.now)))
      else Move(c.(phase := Holding(claimed.value), index := c.index + 1), Some(Claim(c.now)))
  }

  /** One step of a heartbeat against the store as it is now. */
  function MoveOf(env: Env, db: Db, c: Caller, agent: Agent): Move
    requires WellFormed(db)
  {
    match c.phase
    case Listing => Move(c.(phase := Settling(ListedRuns(db))), None)
    case Settling(rows) =>
      if rows == [] then Move(c.(phase := Claiming, index := c.processed), None)
      else SettleMove(db, c, agent, rows[0], Settling(rows[1..]))
    case Spending(id, outcome, reason, next) =>
      Move(c.(phase := next), Some(SchedulerRuns.Advance(id, outcome, reason, c.now)))
    case Claiming => ClaimMove(env, db, c)
    case Holding(run) => Move(c.(phase := Starting(run, TaskRow(db, run.id.taskId))), None)
    case Starting(run, task) => StartMove(db, c, agent, run, task)
    case Over => Move(c, None)
  }

  function AfterCall(env: Env, db: Db, call: Option<Event>): (after: Db)
    requires WellFormed(db)
    ensures WellFormed(after)
  {
    if call.None? then db else Next(env, db, call.value)
  }
}
