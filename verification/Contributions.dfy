/** What each run adds to the cumulative durations and token counts of its conversation. */
module Contributions {
  import opened Wrappers
  import opened Text
  import opened Usage

  datatype RunStatus = Active | Completed | Failed | Hung | Superseded

  datatype Surface = Api | Internal | Scheduler | Slack
  datatype Identity = Identity(
    email: Option<string>, fullName: Option<string>, slackUserName: Option<string>, slackUserId: Option<string>)

  datatype Run = Run(
    id: string, conversationId: string, startedAt: Option<int>, lastSeenAt: Option<int>,
    cumulativeDurationMs: real, cumulativeUsage: Option<AgentTurnUsage>, status: RunStatus,
    requesterIdentity: Option<Identity>, channel: Option<string>, channelName: Option<string>, surface: Option<Surface>)

  datatype Contribution = Contribution(durationMs: nat, tokens: Option<nat>, run: Run)

  // ---------- labels ----------

  function NotBlank(s: Option<string>): Option<string> {
    if s.Some? && Trim(s.value) != "" then Some(Trim(s.value)) else None
  }

  /** The first name of a requester that is not blank, or else the Slack id. */
  function RequesterLabel(requester: Option<Identity>): Option<string> {
    if requester.None? then None
    else
      var r := requester.value;
      if NotBlank(r.email).Some? then NotBlank(r.email)
      else if NotBlank(r.fullName).Some? then NotBlank(r.fullName)
      else if NotBlank(r.slackUserName).Some? then NotBlank(r.slackUserName)
      else r.slackUserId
  }

  function WithoutHash(s: string): string {
    if "#" <= s then s[1..] else s
  }

  /** Where a run took place, by the kind of its channel. */
  function LocationLabel(run: Run): string {
    var name := if run.channelName.Some? then Some(WithoutHash(run.channelName.value)) else None;
    var named := name.Some? && name.value != "";
    var channel := if run.channel.Some? then run.channel.value else "";
    if "D" <= channel then "Direct Message"
    else if "C" <= channel then if named then "#" + name.value else "Public Channel"
    else if "G" <= channel then if name.Some? && "mpdm-" <= name.value then "Group DM" else "Private Channel"
    else
      match run.surface
      case Some(Scheduler) => "Scheduler"
      case Some(Api) => "API"
      case Some(Internal) => "Internal"
      case _ => if name.Some? then name.value else if run.channel.Some? then run.channel.value else "Unknown"
  }

  // ---------- running maxima ----------

  function Max(a: nat, b: nat): nat {
    if a < b then b else a
  }

  /** The largest of the snapshots that are present. */
  function Largest(vs: seq<Option<nat>>): Option<nat> {
    if vs == [] then None
    else
      var before, v := Largest(vs[..|vs| - 1]), vs[|vs| - 1];
      if v.None? then before else Some(Max(OrZero(before), v.value))
  }

  /** By how much a snapshot exceeds the largest one so far. */
  function Delta(previous: nat, v: Option<nat>): Option<nat> {
    if v.None? then None else Some(if v.value > previous then v.value - previous else 0)
  }

  function Deltas(vs: seq<Option<nat>>): seq<Option<nat>> {
    if vs == [] then [] else Deltas(vs[..|vs| - 1]) + [Delta(OrZero(Largest(vs[..|vs| - 1])), vs[|vs| - 1])]
  }

  function Sum(vs: seq<Option<nat>>): Option<nat> {
    if vs == [] then None else Plus(Sum(vs[..|vs| - 1]), vs[|vs| - 1])
  }

  /** The largest snapshot is one of the snapshots and no snapshot exceeds it. */
  lemma {:induction false} LargestIsTheMaximum(vs: seq<Option<nat>>)
    ensures Largest(vs).None? <==> forall v | v in vs :: v.None?
    ensures Largest(vs).Some? ==> Largest(vs) in vs
    ensures forall v | v in vs && v.Some? :: v.value <= OrZero(Largest(vs))
  {
    if vs != [] {
      var n := |vs| - 1;
      LargestIsTheMaximum(vs[..n]);
      assert vs == vs[..n] + [vs[n]];
    }
  }

  lemma LargestIgnoresOrder(a: seq<Option<nat>>, b: seq<Option<nat>>)
    requires forall v :: v in a <==> v in b
    ensures Largest(a) == Largest(b)
  {
    LargestIsTheMaximum(a);
    LargestIsTheMaximum(b);
  }

  /** Whatever the order of the snapshots, their contributions add up to the largest one. */
  lemma {:induction false} DeltasTelescope(vs: seq<Option<nat>>)
    ensures Sum(Deltas(vs)) == Largest(vs)
  {
    if vs != [] {
      var n := |vs| - 1;
      DeltasTelescope(vs[..n]);
      assert Deltas(vs)[..|Deltas(vs)| - 1] == Deltas(vs[..n]);
    }
  }

  // ---------- the runs of a report ----------

  function Snapshot(durationMs: real): nat {
    if durationMs.Floor < 0 then 0 else durationMs.Floor
  }

  function UsageTokenTotal(u: Option<AgentTurnUsage>): Option<nat> {
    if u.None? then None
    else if ComponentTotal(u.value).Some? then ComponentTotal(u.value)
    else FiniteCount(u.value.total)
  }

  function Durations(runs: seq<Run>): (r: seq<Option<nat>>)
    ensures |r| == |runs|
  {
    seq(|runs|, i requires 0 <= i < |runs| => Some(Snapshot(runs[i].cumulativeDurationMs)))
  }

  function Tokens(runs: seq<Run>): (r: seq<Option<nat>>)
    ensures |r| == |runs|
  {
    seq(|runs|, i requires 0 <= i < |runs| => UsageTokenTotal(runs[i].cumulativeUsage))
  }

  function ContributionAfter(before: seq<Run>, run: Run): Contribution {
    Contribution(
      OrZero(Delta(OrZero(Largest(Durations(before))), Some(Snapshot(run.cumulativeDurationMs)))),
      Delta(OrZero(Largest(Tokens(before))), UsageTokenTotal(run.cumulativeUsage)),
      run)
  }

  function RunContributions(runs: seq<Run>): seq<Contribution> {
    if runs == [] then []
    else RunContributions(runs[..|runs| - 1]) + [ContributionAfter(runs[..|runs| - 1], runs[|runs| - 1])]
  }

  lemma OneMoreRun(runs: seq<Run>, i: nat)
    requires i < |runs|
    ensures RunContributions(runs[..i + 1]) == RunContributions(runs[..i]) + [ContributionAfter(runs[..i], runs[i])]
    ensures Durations(runs[..i + 1]) == Durations(runs[..i]) + [Some(Snapshot(runs[i].cumulativeDurationMs))]
    ensures Tokens(runs[..i + 1]) == Tokens(runs[..i]) + [UsageTokenTotal(runs[i].cumulativeUsage)]
    ensures Largest(Durations(runs[..i + 1])) ==
            Some(Max(OrZero(Largest(Durations(runs[..i]))), Snapshot(runs[i].cumulativeDurationMs)))
    ensures Largest(Tokens(runs[..i + 1])) ==
            var v := UsageTokenTotal(runs[i].cumulativeUsage);
            if v.None? then Largest(Tokens(runs[..i])) else Some(Max(OrZero(Largest(Tokens(runs[..i]))), v.value))
  {
    assert runs[..i + 1][..i] == runs[..i];
    assert Durations(runs[..i + 1])[..i] == Durations(runs[..i]);
    assert Tokens(runs[..i + 1])[..i] == Tokens(runs[..i]);
  }

  lemma NoRuns()
    ensures RunContributions([]) == [] && Largest(Durations([])).None? && Largest(Tokens([])).None?
  {}

  /** The loop over the runs, with the two running maxima. */
  method ComputeRunContributions(runs: seq<Run>) returns (contributions: seq<Contribution>)
    ensures contributions == RunContributions(runs)
  {
    hide RunContributions, Durations, Tokens, Largest, Snapshot, UsageTokenTotal;
    contributions := [];
    assert contributions == RunContributions(runs[..0]) && Largest(Durations(runs[..0])).None? && Largest(Tokens(runs[..0])).None? by {
      NoRuns();
      assert runs[..0] == [];
    }
    var previousDuration, previousTokens := 0, 0;
    for i := 0 to |runs|
      invariant contributions == RunContributions(runs[..i])
      invariant previousDuration == OrZero(Largest(Durations(runs[..i])))
      invariant previousTokens == OrZero(Largest(Tokens(runs[..i])))
    {
      OneMoreRun(runs, i);
      var duration := Snapshot(runs[i].cumulativeDurationMs);
      var tokens := UsageTokenTotal(runs[i].cumulativeUsage);
      var contribution := Contribution(if duration > previousDuration then duration - previousDuration else 0, None, runs[i]);
      if tokens.Some? {
        contribution := contribution.(tokens := Some(if tokens.value > previousTokens then tokens.value - previousTokens else 0));
      }
      previousDuration := Max(previousDuration, duration);
      if tokens.Some? {
        previousTokens := Max(previousTokens, tokens.value);
      }
      contributions := contributions + [contribution];
    }
    assert runs[..|runs|] == runs;
  }

  function DurationTotal(cs: seq<Contribution>): nat {
    if cs == [] then 0 else DurationTotal(cs[..|cs| - 1]) + cs[|cs| - 1].durationMs
  }

  function TokenTotal(cs: seq<Contribution>): Option<nat> {
    if cs == [] then None else Plus(TokenTotal(cs[..|cs| - 1]), cs[|cs| - 1].tokens)
  }

  /** Per conversation the contributions add up to the largest cumulative snapshots, and there are as many
      contributions as runs, in the same order. */
  lemma {:induction false} ContributionsAddUp(runs: seq<Run>)
    ensures DurationTotal(RunContributions(runs)) == OrZero(Largest(Durations(runs)))
    ensures TokenTotal(RunContributions(runs)) == Largest(Tokens(runs))
    ensures |RunContributions(runs)| == |runs|
    ensures forall i | 0 <= i < |runs| :: RunContributions(runs)[i].run == runs[i]
  {
    hide Durations, Tokens, Largest, Snapshot, UsageTokenTotal;
    NoRuns();
    if runs != [] {
      var n := |runs| - 1;
      ContributionsAddUp(runs[..n]);
      OneMoreRun(runs, n);
      assert runs[..n + 1] == runs;
      var cs := RunContributions(runs);
      assert cs[..|cs| - 1] == RunContributions(runs[..n]);
    }
  }

  lemma SnapshotsFollowRuns(a: seq<Run>, b: seq<Run>)
    requires multiset(a) == multiset(b)
    ensures forall v | v in Durations(a) :: v in Durations(b)
    ensures forall v | v in Tokens(a) :: v in Tokens(b)
  {
    forall i | 0 <= i < |a| ensures Durations(a)[i] in Durations(b) && Tokens(a)[i] in Tokens(b) {
      assert a[i] in multiset(b);
      var j :| 0 <= j < |b| && b[j] == a[i];
      assert Durations(b)[j] == Durations(a)[i] && Tokens(b)[j] == Tokens(a)[i];
    }
  }

  /** The totals of a conversation do not depend on the order of its runs. */
  lemma TotalsIgnoreRunOrder(a: seq<Run>, b: seq<Run>)
    requires multiset(a) == multiset(b)
    ensures DurationTotal(RunContributions(a)) == DurationTotal(RunContributions(b))
    ensures TokenTotal(RunContributions(a)) == TokenTotal(RunContributions(b))
  {
    ContributionsAddUp(a);
    ContributionsAddUp(b);
    SnapshotsFollowRuns(a, b);
    SnapshotsFollowRuns(b, a);
    LargestIgnoresOrder(Durations(a), Durations(b));
    LargestIgnoresOrder(Tokens(a), Tokens(b));
  }

  // ---------- the turns of the client ----------

  function TurnSnapshots(turns: seq<Count>): (r: seq<Option<nat>>)
    ensures |r| == |turns|
  {
    seq(|turns|, i requires 0 <= i < |turns| => FiniteCount(turns[i]))
  }

  function Filled(vs: seq<Option<nat>>): (r: seq<nat>)
    ensures |r| == |vs|
  {
    seq(|vs|, i requires 0 <= i < |vs| => OrZero(vs[i]))
  }

  lemma {:induction false} DeltasKeepLength(vs: seq<Option<nat>>)
    ensures |Deltas(vs)| == |vs|
  {
    if vs != [] { DeltasKeepLength(vs[..|vs| - 1]); }
  }

  lemma OneMoreTurn(turns: seq<Count>, i: nat)
    requires i < |turns|
    ensures var before, after, duration := TurnSnapshots(turns[..i]), TurnSnapshots(turns[..i + 1]), FiniteCount(turns[i]);
            && Filled(Deltas(after)) == Filled(Deltas(before)) + [OrZero(Delta(OrZero(Largest(before)), duration))]
            && Largest(after) ==
                 if duration.None? then Largest(before) else Some(Max(OrZero(Largest(before)), duration.value))
  {
    hide FiniteCount, Delta, OrZero, Max;
    var before, after := TurnSnapshots(turns[..i]), TurnSnapshots(turns[..i + 1]);
    assert after[..i] == before && after[i] == FiniteCount(turns[i]);
    DeltasKeepLength(before);
  }

  /** The loop over the turns of a conversation as the client sees them: a turn without a finite duration adds nothing. */
  method TurnContributions(turns: seq<Count>) returns (durations: seq<nat>)
    ensures durations == Filled(Deltas(TurnSnapshots(turns)))
  {
    hide Filled, Deltas, TurnSnapshots, Largest, FiniteCount;
    durations := [];
    NoTurns();
    assert turns[..0] == [];
    var previousDuration := 0;
    for i := 0 to |turns|
      invariant durations == Filled(Deltas(TurnSnapshots(turns[..i])))
      invariant previousDuration == OrZero(Largest(TurnSnapshots(turns[..i])))
    {
      OneMoreTurn(turns, i);
      var duration := FiniteCount(turns[i]);
      durations := durations + [
        if duration.None? then 0 else if duration.value > previousDuration then duration.value - previousDuration else 0];
      if duration.Some? {
        previousDuration := Max(previousDuration, duration.value);
      }
    }
    assert turns[..|turns|] == turns;
  }

  lemma NoTurns()
    ensures Filled(Deltas(TurnSnapshots([]))) == [] && OrZero(Largest(TurnSnapshots([]))) == 0
  {}

  function NatSum(s: seq<nat>): nat {
    if s == [] then 0 else NatSum(s[..|s| - 1]) + s[|s| - 1]
  }

  lemma {:induction false} FilledSum(vs: seq<Option<nat>>)
    ensures NatSum(Filled(vs)) == OrZero(Sum(vs))
  {
    if vs != [] {
      var n := |vs| - 1;
      FilledSum(vs[..n]);
      assert Filled(vs)[..n] == Filled(vs[..n]);
    }
  }

  /** The runtime the client shows is the largest finite snapshot, and is missing exactly when there is none. */
  method ConversationRuntimeMs(turns: seq<Count>) returns (runtime: Option<nat>)
    ensures runtime == Largest(TurnSnapshots(turns))
  {
    ghost var snapshots := TurnSnapshots(turns);
    LargestIsTheMaximum(snapshots);
    DeltasTelescope(snapshots);
    FilledSum(Deltas(snapshots));
    if forall i | 0 <= i < |turns| :: FiniteCount(turns[i]).None? {
      assert forall v | v in snapshots :: v.None?;
      return None;
    }
    ghost var j :| 0 <= j < |turns| && FiniteCount(turns[j]).Some?;
    assert snapshots[j].Some?;
    var durations := TurnContributions(turns);
    runtime := Some(NatSum(durations));
  }
}
