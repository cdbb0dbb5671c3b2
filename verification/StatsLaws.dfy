/** What the statistics report shows: its orders, its labels, and what it counts in each conversation. */
module StatsLaws {
  import opened Wrappers
  import opened Text
  import opened Usage
  import opened UsageLaws
  import opened Contributions
  import opened Sorting
  import opened Stats
  import opened StatsReport

  // ---------- what a run is counted with ----------

  /** A run counts with its duration in whole milliseconds, with its components in whole tokens if it has any, and
      otherwise with its plain total. */
  lemma RunIsCountedWith(run: Run)
    ensures IsWhole(Number(run.cumulativeDurationMs), Snapshot(run.cumulativeDurationMs))
    ensures var tokens := UsageTokenTotal(run.cumulativeUsage);
            match run.cumulativeUsage
            case None => tokens == None
            case Some(u) =>
              if HasComponents(u) then tokens == Some(InWhole(u.input) + InWhole(u.output) + InWhole(u.cachedInput) + InWhole(u.cacheCreation))
              else tokens == if u.total.Number? then Some(InWhole(u.total)) else None
  {
    SnapshotIsWhole(run.cumulativeDurationMs);
    if run.cumulativeUsage.Some? { UsageIsWhole(run.cumulativeUsage.value); }
  }

  lemma SnapshotIsWhole(durationMs: real)
    ensures IsWhole(Number(durationMs), Snapshot(durationMs))
  {}

  lemma UsageIsWhole(u: AgentTurnUsage)
    ensures UsageTokenTotal(Some(u)) ==
            if HasComponents(u) then Some(InWhole(u.input) + InWhole(u.output) + InWhole(u.cachedInput) + InWhole(u.cacheCreation))
            else if u.total.Number? then Some(InWhole(u.total)) else None
  {
    hide FiniteCount, IsWhole;
    WholeOf(u.input);
    WholeOf(u.output);
    WholeOf(u.cachedInput);
    WholeOf(u.cacheCreation);
    WholeOf(u.total);
  }

  lemma WholeOf(c: Count)
    ensures FiniteCount(c) == if c.Number? then Some(InWhole(c)) else None
    ensures !c.Number? ==> InWhole(c) == 0
  {
    FiniteCountIsWhole(c);
  }

  // ---------- orders ----------

  ghost function Time(t: Option<int>): int {
    match t case Some(ms) => ms case None => 0
  }

  /** The newest run was seen last, and has the greatest id of those seen last; a conversation is recent if it was seen
      within the last week, and not later than now. */
  lemma NewestRunDecides(nowMs: int, runs: seq<Run>)
    requires runs != []
    ensures var newest := NewestRun(runs);
            && newest in runs
            && (forall r | r in runs ::
                  Time(r.lastSeenAt) < Time(newest.lastSeenAt)
                  || (Time(r.lastSeenAt) == Time(newest.lastSeenAt) && !TextLess(newest.id, r.id)))
            && (IsRecent(nowMs, runs) <==>
                  newest.lastSeenAt.Some? && newest.lastSeenAt.value <= nowMs <= newest.lastSeenAt.value + 604_800_000)
  {
    NewestIsSeenLast(runs);
    RunOrdersAreWeak();
    SortIsASortedPermutation(NewerThan, runs);
    var s := Sort(NewerThan, runs);
    forall r | r in runs ensures !NewerThan(r, s[0]) {
      assert r in multiset(runs);
      assert r in s;
    }
  }

  /** The runs of a reported conversation are in the order of their starts, and of their ids within an instant. */
  lemma RunsAreInOrder(nowMs: int, sessions: seq<Run>, runs: seq<Run>, i: nat, j: nat)
    requires runs in RecentConversationGroups(nowMs, sessions) && i < j < |runs|
    ensures Time(runs[i].startedAt) < Time(runs[j].startedAt)
            || (Time(runs[i].startedAt) == Time(runs[j].startedAt) && !TextLess(runs[j].id, runs[i].id))
  {
    hide RecentConversationGroups, Sort, Select;
    ReportedConversations(nowMs, sessions, runs);
    assert !StartsBefore(runs[j], runs[i]);
  }

  ghost predicate ListedBefore(a: Item, b: Item) {
    || a.conversations > b.conversations
    || (a.conversations == b.conversations && a.runs > b.runs)
    || (a.conversations == b.conversations && a.runs == b.runs && a.durationMs > b.durationMs)
    || (a.conversations == b.conversations && a.runs == b.runs && a.durationMs == b.durationMs && TextLess(a.name, b.name))
  }

  lemma ItemsInOrder(items: seq<Item>, i: nat, j: nat)
    requires DistinctNames(items) && i < j < |items|
    ensures ListedBefore(Sort(ItemBefore, items)[i], Sort(ItemBefore, items)[j])
  {
    var s := Sort(ItemBefore, items);
    ItemOrderIsWeak();
    SortIsASortedPermutation(ItemBefore, items);
    assert !ItemBefore(s[j], s[i]);
    SortedNamesDiffer(items, s, i, j);
    TextOrderTotal(s[i].name, s[j].name);
  }

  lemma {:induction false} NamedItemsOccurOnce(items: seq<Item>, x: Item)
    requires DistinctNames(items)
    ensures multiset(items)[x] <= 1
  {
    if items != [] {
      NamedItemsOccurOnce(items[1..], x);
      assert items == [items[0]] + items[1..];
      if items[0] == x {
        assert forall k | 0 <= k < |items[1..]| :: items[1..][k] == items[k + 1];
        assert x !in items[1..];
      }
    }
  }

  lemma EqualItemsOccurTwice(s: seq<Item>, i: nat, j: nat)
    requires i < j < |s| && s[i] == s[j]
    ensures multiset(s)[s[i]] >= 2
  {
    assert s == s[..j] + [s[j]] + s[j + 1..];
    assert s[i] in s[..j];
  }

  lemma SortedNamesDiffer(items: seq<Item>, s: seq<Item>, i: nat, j: nat)
    requires DistinctNames(items) && multiset(s) == multiset(items) && i < j < |s|
    ensures s[i].name != s[j].name
  {
    assert s[i] in multiset(items) && s[j] in multiset(items);
    ItemIsItself(items, s[i]);
    ItemIsItself(items, s[j]);
    NamedItemsOccurOnce(items, s[i]);
    if s[i] == s[j] { EqualItemsOccurTwice(s, i, j); }
  }

  /** Requesters and locations are listed by conversations, runs and time, the larger first, and then by name. */
  lemma ReportIsOrdered(nowMs: int, sessions: seq<Run>, i: nat, j: nat)
    requires i < j
    ensures var report := ConversationStatsReport(nowMs, sessions);
            && (j < |report.requesters| ==> ListedBefore(report.requesters[i], report.requesters[j]))
            && (j < |report.locations| ==> ListedBefore(report.locations[i], report.locations[j]))
  {
    hide Sort, Requesters, Locations, Whole, RunCount, RecentConversationGroups;
    var conversations := RecentConversationGroups(nowMs, sessions);
    RecentAreNotEmpty(nowMs, sessions);
    NamesAreDistinct(conversations);
    if j < |Requesters(conversations)| { ItemsInOrder(Requesters(conversations), i, j); }
    if j < |Locations(conversations)| { ItemsInOrder(Locations(conversations), i, j); }
  }

  // ---------- labels ----------

  /** A requester goes by the first of email, full name and Slack name that is not blank, without the space around it; or
      else by the Slack id, and without one as `Unknown`. */
  lemma RequesterGoesBy(c: Contribution, names: seq<Option<string>>)
    requires match c.run.requesterIdentity
             case Some(r) => names == [r.email, r.fullName, r.slackUserName]
             case None => names == []
    ensures forall k | 0 <= k < |names| && names[k].Some? && Trim(names[k].value) != ""
                       && forall j | 0 <= j < k :: names[j].Some? ==> Trim(names[j].value) == "" ::
              RequesterOf(c) == Trim(names[k].value)
    ensures (forall k | 0 <= k < |names| :: names[k].Some? ==> Trim(names[k].value) == "")
            ==> RequesterOf(c) == match c.run.requesterIdentity
                                  case Some(Identity(_, _, _, Some(id))) => id
                                  case _ => "Unknown"
  {
    hide Trim;
    forall k | 0 <= k < |names| && names[k].Some? && Trim(names[k].value) != ""
               && forall j | 0 <= j < k :: names[j].Some? ==> Trim(names[j].value) == ""
      ensures RequesterOf(c) == Trim(names[k].value)
    {
      assert k > 0 && names[0].Some? ==> Trim(names[0].value) == "";
      assert k > 1 && names[1].Some? ==> Trim(names[1].value) == "";
    }
    if forall k | 0 <= k < |names| :: names[k].Some? ==> Trim(names[k].value) == "" {
      if names != [] {
        assert names[0].Some? ==> Trim(names[0].value) == "";
        assert names[1].Some? ==> Trim(names[1].value) == "";
        assert names[2].Some? ==> Trim(names[2].value) == "";
      }
    }
  }

  ghost predicate StartsWith(s: Option<string>, c: char) {
    s.Some? && |s.value| > 0 && s.value[0] == c
  }

  /** A run takes place in a direct message, a public channel, a group message or a private channel by the first letter of
      its channel, where a public channel goes by its name with one number sign; and elsewhere where it came from. */
  lemma LocationGoesBy(run: Run, name: string)
    requires name == if StartsWith(run.channelName, '#') then run.channelName.value[1..]
                     else match run.channelName case Some(s) => s case None => ""
    ensures StartsWith(run.channel, 'D') ==> LocationLabel(run) == "Direct Message"
    ensures StartsWith(run.channel, 'C') ==> LocationLabel(run) == if name != "" then "#" + name else "Public Channel"
    ensures StartsWith(run.channel, 'G') ==> LocationLabel(run) == if |name| >= 5 && name[..5] == "mpdm-" then "Group DM" else "Private Channel"
    ensures !StartsWith(run.channel, 'D') && !StartsWith(run.channel, 'C') && !StartsWith(run.channel, 'G')
            ==> LocationLabel(run) == match run.surface
                                      case Some(Scheduler) => "Scheduler"
                                      case Some(Api) => "API"
                                      case Some(Internal) => "Internal"
                                      case _ => if run.channelName.Some? then name
                                                else if run.channel.Some? then run.channel.value else "Unknown"
  {}

  // ---------- what is counted ----------

  function CountOf(conversations: seq<seq<Run>>, test: seq<Run> -> bool): nat {
    if conversations == [] then 0
    else CountOf(conversations[..|conversations| - 1], test) + if test(conversations[|conversations| - 1]) then 1 else 0
  }

  ghost function HasStatus(status: RunStatus): seq<Run> -> bool {
    (runs: seq<Run>) => exists r | r in runs :: r.status == status
  }

  /** The report counts a conversation as active, failed or hung if one of its runs is. */
  lemma StatusesAreCounted(nowMs: int, sessions: seq<Run>)
    ensures var report, conversations := ConversationStatsReport(nowMs, sessions), RecentConversationGroups(nowMs, sessions);
            && report.conversations == |conversations|
            && report.active == CountOf(conversations, HasStatus(Active))
            && report.failed == CountOf(conversations, HasStatus(Failed))
            && report.hung == CountOf(conversations, HasStatus(Hung))
  {
    hide Sort, Requesters, Locations, Whole, RunCount, RecentConversationGroups, CountOf;
    WholeCounts(RecentConversationGroups(nowMs, sessions));
  }

  lemma {:induction false} WholeCounts(conversations: seq<seq<Run>>)
    ensures var w := Whole(conversations);
            && w.active == CountOf(conversations, HasStatus(Active))
            && w.failed == CountOf(conversations, HasStatus(Failed))
            && w.hung == CountOf(conversations, HasStatus(Hung))
  {
    hide DurationTotal, TokenTotal, RunContributions;
    if conversations != [] {
      var n := |conversations| - 1;
      WholeCounts(conversations[..n]);
      ContributionsAddUp(conversations[n]);
      assert RunsOf(RunContributions(conversations[n])) == conversations[n];
    }
  }

  predicate RunsFor(r: Run, name: string) {
    RequesterOf(Contribution(0, None, r)) == name
  }

  ghost function RanFor(name: string): seq<Run> -> bool {
    (runs: seq<Run>) => exists r | r in runs :: RunsFor(r, name)
  }

  ghost function RanForWith(name: string, status: RunStatus): seq<Run> -> bool {
    (runs: seq<Run>) => exists r | r in runs :: RunsFor(r, name) && r.status == status
  }

  lemma OwnRuns(runs: seq<Run>, name: string, status: RunStatus)
    ensures var own := Select(RequesterOf, name, RunContributions(runs));
            && (own != [] <==> RanFor(name)(runs))
            && (Signal(RunsOf(own), status) == if RanForWith(name, status)(runs) then 1 else 0)
  {
    hide Select, RunContributions, RequesterLabel;
    var cs := RunContributions(runs);
    var own := Select(RequesterOf, name, cs);
    ContributionsAddUp(runs);
    SelectedHaveTheKey(RequesterOf, name, cs);
    forall i | 0 <= i < |runs| && RunsFor(runs[i], name) ensures cs[i] in own { assert cs[i] in cs; }
    forall c | c in own ensures c.run in runs && RunsFor(c.run, name) {
      var i :| 0 <= i < |cs| && cs[i] == c;
    }
    if own != [] { assert own[0] in own; }
    OwnSignal(runs, own, name, status);
  }

  lemma OwnSignal(runs: seq<Run>, own: seq<Contribution>, name: string, status: RunStatus)
    requires forall c | c in own :: c.run in runs && RunsFor(c.run, name)
    requires forall r | r in runs && RunsFor(r, name) :: exists c :: c in own && c.run == r
    ensures Signal(RunsOf(own), status) == if RanForWith(name, status)(runs) then 1 else 0
  {
    hide RunsFor;
    if r :| r in runs && RunsFor(r, name) && r.status == status {
      var c :| c in own && c.run == r;
      var i :| 0 <= i < |own| && own[i] == c;
      assert RunsOf(own)[i] == r;
    }
    forall r | r in RunsOf(own) && r.status == status ensures RanForWith(name, status)(runs) {
      var i :| 0 <= i < |own| && RunsOf(own)[i] == r;
      assert own[i] in own;
    }
  }

  /** A requester is shown with the number of conversations that they have a run in, and of those in which one of their
      runs is active, failed or hung. */
  lemma {:induction false} RequesterIsCounted(conversations: seq<seq<Run>>, name: string)
    ensures var x := RequesterShare(conversations, name);
            && x.conversations == CountOf(conversations, RanFor(name))
            && x.active == CountOf(conversations, RanForWith(name, Active))
            && x.failed == CountOf(conversations, RanForWith(name, Failed))
            && x.hung == CountOf(conversations, RanForWith(name, Hung))
  {
    hide Select, RunContributions, Signal, RunsOf, DurationTotal, TokenTotal, RanFor, RanForWith;
    if conversations != [] {
      var n := |conversations| - 1;
      RequesterIsCounted(conversations[..n], name);
      OwnRuns(conversations[n], name, Active);
      OwnRuns(conversations[n], name, Failed);
      OwnRuns(conversations[n], name, Hung);
      NoRunsNoStatus(conversations[n], name);
    }
  }

  lemma NoRunsNoStatus(runs: seq<Run>, name: string)
    ensures !RanFor(name)(runs) ==> forall status :: !RanForWith(name, status)(runs)
  {}
}
