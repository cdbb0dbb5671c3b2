/** The statistics report: built conversation by conversation, and what its items add up to. */
module StatsReport {
  import opened Wrappers
  import opened Usage
  import opened Contributions
  import opened Sorting
  import opened Stats

  datatype Report = Report(
    active: nat, conversations: nat, durationMs: nat, failed: nat, hung: nat, tokens: Option<nat>, runs: nat,
    locations: seq<Item>, requesters: seq<Item>)

  function RequesterOf(c: Contribution): string {
    var name := RequesterLabel(c.run.requesterIdentity);
    if name.None? then "Unknown" else name.value
  }

  function RunsOf(cs: seq<Contribution>): (r: seq<Run>)
    ensures |r| == |cs|
  {
    seq(|cs|, i requires 0 <= i < |cs| => cs[i].run)
  }

  function Signal(runs: seq<Run>, status: RunStatus): nat {
    if exists r :: r in runs && r.status == status then 1 else 0
  }

  /** What some contributions to one conversation add to an item. */
  function Share(name: string, cs: seq<Contribution>): Item {
    var runs := RunsOf(cs);
    Item(name, 1, |cs|, DurationTotal(cs), TokenTotal(cs), Signal(runs, Active), Signal(runs, Failed), Signal(runs, Hung))
  }

  function AddShares(items: seq<Item>, groups: seq<Group<Contribution>>): seq<Item>
    decreases |groups|
  {
    if groups == [] then items
    else AddShares(AddItem(items, Share(groups[0].key, groups[0].members)), groups[1..])
  }

  ghost predicate NoneEmpty(conversations: seq<seq<Run>>) {
    forall i | 0 <= i < |conversations| :: conversations[i] != []
  }

  function Requesters(conversations: seq<seq<Run>>): seq<Item> {
    if conversations == [] then []
    else
      var n := |conversations| - 1;
      AddShares(Requesters(conversations[..n]), GroupBy(RequesterOf, RunContributions(conversations[n])))
  }

  function Locations(conversations: seq<seq<Run>>): seq<Item>
    requires NoneEmpty(conversations)
  {
    if conversations == [] then []
    else
      var n := |conversations| - 1;
      AddItem(Locations(conversations[..n]),
              Share(LocationOf(conversations[n]), RunContributions(conversations[n])))
  }

  function Whole(conversations: seq<seq<Run>>): Item {
    if conversations == [] then EmptyItem("")
    else
      var n := |conversations| - 1;
      Merge(Whole(conversations[..n]), Share("", RunContributions(conversations[n])))
  }

  function RunCount(conversations: seq<seq<Run>>): nat {
    if conversations == [] then 0
    else RunCount(conversations[..|conversations| - 1]) + |conversations[|conversations| - 1]|
  }

  lemma RecentAreNotEmpty(nowMs: int, sessions: seq<Run>)
    ensures NoneEmpty(RecentConversationGroups(nowMs, sessions))
  {
    KeptAreRecent(nowMs, SortedGroups(GroupBy(ConversationOf, sessions)));
    var conversations := RecentConversationGroups(nowMs, sessions);
    forall i | 0 <= i < |conversations| ensures conversations[i] != [] {
      assert conversations[i] in conversations;
    }
  }

  function ConversationStatsReport(nowMs: int, sessions: seq<Run>): Report {
    var conversations := RecentConversationGroups(nowMs, sessions);
    RecentAreNotEmpty(nowMs, sessions);
    var whole := Whole(conversations);
    Report(whole.active, |conversations|, whole.durationMs, whole.failed, whole.hung, whole.tokens, RunCount(conversations),
           Sort(ItemBefore, Locations(conversations)), Sort(ItemBefore, Requesters(conversations)))
  }

  // ---------- the loops ----------

  method GroupContributions(contributions: seq<Contribution>) returns (groups: seq<Group<Contribution>>)
    ensures groups == GroupBy(RequesterOf, contributions)
  {
    groups := [];
    for i := 0 to |contributions|
      invariant groups == GroupBy(RequesterOf, contributions[..i])
    {
      assert contributions[..i + 1][..i] == contributions[..i];
      groups := AddTo(groups, RequesterOf(contributions[i]), contributions[i]);
    }
    assert contributions[..|contributions|] == contributions;
  }

  lemma OneMoreConversation(conversations: seq<seq<Run>>, i: nat)
    requires NoneEmpty(conversations) && i < |conversations|
    ensures NoneEmpty(conversations[..i]) && NoneEmpty(conversations[..i + 1])
    ensures Requesters(conversations[..i + 1]) ==
            AddShares(Requesters(conversations[..i]), GroupBy(RequesterOf, RunContributions(conversations[i])))
    ensures Locations(conversations[..i + 1]) ==
            AddItem(Locations(conversations[..i]),
                    Share(LocationOf(conversations[i]), RunContributions(conversations[i])))
    ensures Whole(conversations[..i + 1]) == Merge(Whole(conversations[..i]), Share("", RunContributions(conversations[i])))
    ensures RunCount(conversations[..i + 1]) == RunCount(conversations[..i]) + |conversations[i]|
  {
    assert conversations[..i + 1][..i] == conversations[..i];
  }

  method BuildConversationStatsReport(nowMs: int, sessions: seq<Run>) returns (report: Report)
    ensures report == ConversationStatsReport(nowMs, sessions)
  {
    hide Requesters, Locations, Whole, RunCount, AddShares, GroupBy, RunContributions, LocationOf, Sort, AddItem,
         RecentConversationGroups, DurationTotal, TokenTotal;
    var conversations := GroupRecentConversations(nowMs, sessions);
    RecentAreNotEmpty(nowMs, sessions);
    var requesters: seq<Item>, locations: seq<Item> := [], [];
    var durationMs, tokens, active, failed, hung, runs := 0, None, 0, 0, 0, 0;
    NoConversations();
    assert conversations[..0] == [];
    for i := 0 to |conversations|
      invariant NoneEmpty(conversations[..i])
      invariant requesters == Requesters(conversations[..i])
      invariant locations == Locations(conversations[..i])
      invariant var w := Whole(conversations[..i]);
                durationMs == w.durationMs && tokens == w.tokens && active == w.active && failed == w.failed && hung == w.hung
      invariant runs == RunCount(conversations[..i])
    {
      OneMoreConversation(conversations, i);
      var conversation := conversations[i];
      var contributions := ComputeRunContributions(conversation);
      ContributionsAddUp(conversation);
      assert RunsOf(contributions) == conversation;
      var conversationTokens := TokenTotal(contributions);
      durationMs := durationMs + DurationTotal(contributions);
      tokens := Plus(tokens, conversationTokens);
      active := active + Signal(conversation, Active);
      failed := failed + Signal(conversation, Failed);
      hung := hung + Signal(conversation, Hung);
      var requesterRuns := GroupContributions(contributions);
      requesters := AddRequesters(requesters, requesterRuns);
      var location := LocationOf(conversation);
      locations := AddItem(locations,
                           Item(location, 1, |conversation|, DurationTotal(contributions), conversationTokens,
                                Signal(conversation, Active), Signal(conversation, Failed), Signal(conversation, Hung)));
      runs := runs + |conversation|;
    }
    assert conversations[..|conversations|] == conversations;
    report := Report(active, |conversations|, durationMs, failed, hung, tokens, runs,
                     Sort(ItemBefore, locations), Sort(ItemBefore, requesters));
  }

  lemma NoConversations()
    ensures NoneEmpty([]) && Requesters([]) == [] && Locations([]) == [] && Whole([]) == EmptyItem("") && RunCount([]) == 0
  {}

  method AddRequesters(requesters: seq<Item>, groups: seq<Group<Contribution>>) returns (items: seq<Item>)
    ensures items == AddShares(requesters, groups)
  {
    items := requesters;
    for i := 0 to |groups|
      invariant AddShares(items, groups[i..]) == AddShares(requesters, groups)
    {
      assert groups[i..][1..] == groups[i + 1..];
      items := AddItem(items, Share(groups[i].key, groups[i].members));
    }
  }

  // ---------- amounts ----------

  /** What is counted once for each contribution: runs, time and tokens. */
  datatype Amount = Amount(runs: nat, durationMs: nat, tokens: Option<nat>)

  function Add(a: Amount, b: Amount): Amount {
    Amount(a.runs + b.runs, a.durationMs + b.durationMs, Plus(a.tokens, b.tokens))
  }

  function AmountOf(cs: seq<Contribution>): Amount {
    Amount(|cs|, DurationTotal(cs), TokenTotal(cs))
  }

  function AmountIn(item: Item): Amount {
    Amount(item.runs, item.durationMs, item.tokens)
  }

  function AmountOfGroups(groups: seq<Group<Contribution>>): Amount {
    if groups == [] then Amount(0, 0, None) else Add(AmountOf(groups[0].members), AmountOfGroups(groups[1..]))
  }

  lemma AddLaws(a: Amount, b: Amount, c: Amount)
    ensures Add(a, b) == Add(b, a) && Add(Add(a, b), c) == Add(a, Add(b, c)) && Add(a, Amount(0, 0, None)) == a
  {}

  lemma NoAmount()
    ensures AmountOf([]) == Amount(0, 0, None)
  {}

  lemma AmountOfOneMore(cs: seq<Contribution>, c: Contribution)
    ensures AmountOf(cs + [c]) == Add(AmountOf(cs), Amount(1, c.durationMs, c.tokens))
  {
    assert (cs + [c])[..|cs|] == cs;
  }

  lemma {:induction false} AddToAmount(groups: seq<Group<Contribution>>, key: string, c: Contribution)
    ensures AmountOfGroups(AddTo(groups, key, c)) == Add(AmountOfGroups(groups), Amount(1, c.durationMs, c.tokens))
  {
    hide Add, AmountOf;
    var one := Amount(1, c.durationMs, c.tokens);
    if groups == [] {
      AmountOfOneMore([], c);
      assert [] + [c] == [c];
      NoAmount();
      AddLaws(one, Amount(0, 0, None), one);
    } else {
      AmountOfOneMore(groups[0].members, c);
      AddLaws(AmountOf(groups[0].members), one, AmountOfGroups(groups[1..]));
      AddLaws(one, AmountOfGroups(groups[1..]), one);
      AddLaws(AmountOf(groups[0].members), AmountOfGroups(groups[1..]), one);
      if groups[0].key != key {
        AddToAmount(groups[1..], key, c);
      } else {
        var r := AddTo(groups, key, c);
        assert r[1..] == groups[1..];
      }
    }
  }

  /** Splitting contributions by requester loses nothing. */
  lemma {:induction false} GroupingKeepsAmounts(cs: seq<Contribution>)
    ensures AmountOfGroups(GroupBy(RequesterOf, cs)) == AmountOf(cs)
  {
    if cs != [] {
      var n := |cs| - 1;
      GroupingKeepsAmounts(cs[..n]);
      AddToAmount(GroupBy(RequesterOf, cs[..n]), RequesterOf(cs[n]), cs[n]);
      AmountOfOneMore(cs[..n], cs[n]);
      assert cs[..n] + [cs[n]] == cs;
    }
  }

  lemma MergedAmount(item: Item, name: string, cs: seq<Contribution>)
    ensures AmountIn(Merge(item, Share(name, cs))) == Add(AmountIn(item), AmountOf(cs))
  {
    hide DurationTotal, TokenTotal, Signal, RunsOf;
  }

  lemma {:induction false} AddSharesAmount(items: seq<Item>, groups: seq<Group<Contribution>>)
    ensures AmountIn(Total(AddShares(items, groups))) == Add(AmountIn(Total(items)), AmountOfGroups(groups))
    decreases |groups|
  {
    hide Add, AmountOf, AmountIn, Merge, AddItem, Share, Total;
    if groups == [] {
      AddLaws(AmountIn(Total(items)), Amount(0, 0, None), Amount(0, 0, None));
    } else {
      var d := Share(groups[0].key, groups[0].members);
      AddItemToTotal(items, d);
      MergedAmount(Total(items), groups[0].key, groups[0].members);
      AddSharesAmount(AddItem(items, d), groups[1..]);
      AddLaws(AmountIn(Total(items)), AmountOf(groups[0].members), AmountOfGroups(groups[1..]));
    }
  }

  // ---------- conservation ----------

  lemma NoTotals()
    ensures AmountIn(Total([])) == AmountIn(EmptyItem(""))
  {}

  lemma {:induction false} RequestersHoldTheWhole(conversations: seq<seq<Run>>)
    ensures AmountIn(Total(Requesters(conversations))) == AmountIn(Whole(conversations))
  {
    hide Add, AmountOf, AmountIn, Merge, AddShares, Share, Total, RunContributions, GroupBy, AmountOfGroups;
    if conversations == [] {
      NoTotals();
    } else {
      var n := |conversations| - 1;
      var cs := RunContributions(conversations[n]);
      MergedAmount(Whole(conversations[..n]), "", cs);
      RequestersHoldTheWhole(conversations[..n]);
      AddSharesAmount(Requesters(conversations[..n]), GroupBy(RequesterOf, cs));
      GroupingKeepsAmounts(cs);
    }
  }

  lemma NamesDoNotCount(total: Item, name: string, cs: seq<Contribution>)
    ensures Merge(total, Share(name, cs)) == Merge(total, Share("", cs))
  {
    hide DurationTotal, TokenTotal, Signal, RunsOf;
  }

  lemma {:induction false} LocationsHoldTheWhole(conversations: seq<seq<Run>>)
    requires NoneEmpty(conversations)
    ensures Total(Locations(conversations)) == Whole(conversations)
  {
    hide Merge, Share, AddItem, Total, LocationOf, RunContributions;
    if conversations == [] {
      NoConversations();
      NothingInTotal();
    } else {
      var n := |conversations| - 1;
      var location, cs := LocationOf(conversations[n]), RunContributions(conversations[n]);
      LocationsHoldTheWhole(conversations[..n]);
      AddItemToTotal(Locations(conversations[..n]), Share(location, cs));
      NamesDoNotCount(Whole(conversations[..n]), location, cs);
    }
  }

  lemma NothingInTotal()
    ensures Total([]) == EmptyItem("")
  {}

  function SumOfLargestDurations(conversations: seq<seq<Run>>): nat {
    if conversations == [] then 0
    else
      SumOfLargestDurations(conversations[..|conversations| - 1])
      + OrZero(Largest(Durations(conversations[|conversations| - 1])))
  }

  function SumOfLargestTokens(conversations: seq<seq<Run>>): Option<nat> {
    if conversations == [] then None
    else Plus(SumOfLargestTokens(conversations[..|conversations| - 1]), Largest(Tokens(conversations[|conversations| - 1])))
  }

  lemma {:induction false} WholeIsTheSumOfTheLargest(conversations: seq<seq<Run>>)
    ensures var w := Whole(conversations);
            && w.conversations == |conversations|
            && w.runs == RunCount(conversations)
            && w.durationMs == SumOfLargestDurations(conversations)
            && w.tokens == SumOfLargestTokens(conversations)
  {
    if conversations != [] {
      WholeIsTheSumOfTheLargest(conversations[..|conversations| - 1]);
      ContributionsAddUp(conversations[|conversations| - 1]);
    }
  }

  /** Time, runs and tokens add up to the same totals over requesters, over locations and over conversations, where
      each conversation counts with its largest cumulative snapshot; locations also split the conversations and
      their status signals. */
  lemma ReportConserves(nowMs: int, sessions: seq<Run>)
    ensures var report := ConversationStatsReport(nowMs, sessions);
            var conversations := RecentConversationGroups(nowMs, sessions);
            && AmountIn(Total(report.requesters)) == Amount(report.runs, report.durationMs, report.tokens)
            && Total(report.locations) ==
                 Item("", report.conversations, report.runs, report.durationMs, report.tokens,
                      report.active, report.failed, report.hung)
            && report.durationMs == SumOfLargestDurations(conversations)
            && report.tokens == SumOfLargestTokens(conversations)
            && report.runs == RunCount(conversations)
  {
    hide Sort, Requesters, Locations, Whole, RunCount, RecentConversationGroups, Total;
    var conversations := RecentConversationGroups(nowMs, sessions);
    RecentAreNotEmpty(nowMs, sessions);
    RequestersHoldTheWhole(conversations);
    LocationsHoldTheWhole(conversations);
    WholeIsTheSumOfTheLargest(conversations);
    TotalOfSort(Requesters(conversations));
    TotalOfSort(Locations(conversations));
    assert Total(Locations(conversations)).name == "";
  }

  // ---------- every item is exactly its own share ----------

  /** What one requester contributed to the conversations. */
  function RequesterShare(conversations: seq<seq<Run>>, name: string): Item {
    if conversations == [] then EmptyItem(name)
    else
      var n := |conversations| - 1;
      var own := Select(RequesterOf, name, RunContributions(conversations[n]));
      var before := RequesterShare(conversations[..n], name);
      if own == [] then before else Merge(before, Share(name, own))
  }

  /** What the conversations at one location amount to. */
  function LocationShare(conversations: seq<seq<Run>>, name: string): Item
    requires NoneEmpty(conversations)
  {
    if conversations == [] then EmptyItem(name)
    else
      var n := |conversations| - 1;
      var before := LocationShare(conversations[..n], name);
      if LocationOf(conversations[n]) == name
      then Merge(before, Share(name, RunContributions(conversations[n]))) else before
  }

  lemma {:induction false} AddSharesToOne(items: seq<Item>, groups: seq<Group<Contribution>>, name: string)
    requires DistinctKeys(groups) && forall i | 0 <= i < |groups| :: groups[i].members != []
    ensures ItemOf(AddShares(items, groups), name) ==
            var own := Lookup(groups, name);
            if own == [] then ItemOf(items, name) else Merge(ItemOf(items, name), Share(name, own))
    decreases |groups|
  {
    hide Share, Merge, AddItem, ItemOf;
    if groups != [] {
      var d := Share(groups[0].key, groups[0].members);
      assert d.name == groups[0].key by { ShareIsNamed(groups[0].key, groups[0].members); }
      AddItemToOne(items, d, name);
      AddSharesToOne(AddItem(items, d), groups[1..], name);
      if groups[0].key == name {
        LookupFound(groups[1..], name);
      }
    }
  }

  lemma ShareIsNamed(name: string, cs: seq<Contribution>)
    ensures Share(name, cs).name == name
  {}

  lemma {:induction false} RequesterItems(conversations: seq<seq<Run>>, name: string)
    ensures ItemOf(Requesters(conversations), name) == RequesterShare(conversations, name)
  {
    hide Share, Merge, ItemOf, AddShares, GroupBy, Select, Lookup, RunContributions;
    if conversations == [] {
      NoItems(name);
    } else {
      var n := |conversations| - 1;
      RequesterItems(conversations[..n], name);
      GroupsPartition(RequesterOf, RunContributions(conversations[n]));
      AddSharesToOne(Requesters(conversations[..n]), GroupBy(RequesterOf, RunContributions(conversations[n])), name);
    }
  }

  lemma NoItems(name: string)
    ensures ItemOf([], name) == EmptyItem(name)
  {}

  lemma {:induction false} LocationItems(conversations: seq<seq<Run>>, name: string)
    requires NoneEmpty(conversations)
    ensures ItemOf(Locations(conversations), name) == LocationShare(conversations, name)
  {
    hide Share, Merge, ItemOf, AddItem, LocationOf, RunContributions;
    if conversations == [] {
      NoItems(name);
    } else {
      var n := |conversations| - 1;
      LocationItems(conversations[..n], name);
      var location := LocationOf(conversations[n]);
      ShareIsNamed(location, RunContributions(conversations[n]));
      AddItemToOne(Locations(conversations[..n]), Share(location, RunContributions(conversations[n])), name);
    }
  }

  ghost predicate DistinctNames(items: seq<Item>) {
    forall i, j | 0 <= i < j < |items| :: items[i].name != items[j].name
  }

  lemma {:induction false} AddItemKeepsNamesDistinct(items: seq<Item>, d: Item)
    requires DistinctNames(items)
    ensures DistinctNames(AddItem(items, d))
    ensures forall x | x in AddItem(items, d) :: x.name == d.name || exists y :: y in items && y.name == x.name
  {
    if items != [] && items[0].name != d.name {
      AddItemKeepsNamesDistinct(items[1..], d);
    }
  }

  lemma {:induction false} AddSharesKeepsNamesDistinct(items: seq<Item>, groups: seq<Group<Contribution>>)
    requires DistinctNames(items)
    ensures DistinctNames(AddShares(items, groups))
    decreases |groups|
  {
    if groups != [] {
      var d := Share(groups[0].key, groups[0].members);
      AddItemKeepsNamesDistinct(items, d);
      AddSharesKeepsNamesDistinct(AddItem(items, d), groups[1..]);
    }
  }

  lemma {:induction false} NamesAreDistinct(conversations: seq<seq<Run>>)
    requires NoneEmpty(conversations)
    ensures DistinctNames(Requesters(conversations)) && DistinctNames(Locations(conversations))
  {
    hide LocationOf, AddItem, AddShares;
    if conversations != [] {
      var n := |conversations| - 1;
      NamesAreDistinct(conversations[..n]);
      AddSharesKeepsNamesDistinct(Requesters(conversations[..n]), GroupBy(RequesterOf, RunContributions(conversations[n])));
      AddItemKeepsNamesDistinct(Locations(conversations[..n]),
                                Share(LocationOf(conversations[n]), RunContributions(conversations[n])));
    }
  }

  lemma {:induction false} ItemIsItself(items: seq<Item>, x: Item)
    requires DistinctNames(items) && x in items
    ensures ItemOf(items, x.name) == x
  {
    if items[0].name != x.name {
      ItemIsItself(items[1..], x);
    } else {
      var i :| 0 <= i < |items| && items[i] == x;
      assert i == 0;
    }
  }

  lemma {:induction false} ItemIsFound(items: seq<Item>, name: string)
    ensures ItemOf(items, name) == EmptyItem(name) || ItemOf(items, name) in items
  {
    if items != [] && items[0].name != name { ItemIsFound(items[1..], name); }
  }

  /** The report lists a requester or a location with exactly its own share of the conversations, and lists
      everyone whose share is not empty. */
  lemma ItemsAreShares(nowMs: int, sessions: seq<Run>)
    ensures var report := ConversationStatsReport(nowMs, sessions);
            var conversations := RecentConversationGroups(nowMs, sessions);
            && NoneEmpty(conversations)
            && (forall x | x in report.requesters :: x == RequesterShare(conversations, x.name))
            && (forall x | x in report.locations :: x == LocationShare(conversations, x.name))
            && (forall name :: RequesterShare(conversations, name) == EmptyItem(name)
                               || RequesterShare(conversations, name) in report.requesters)
            && (forall name :: LocationShare(conversations, name) == EmptyItem(name)
                               || LocationShare(conversations, name) in report.locations)
  {
    hide Sort, Requesters, Locations, Whole, RunCount, RecentConversationGroups, ItemOf, LocationShare, RequesterShare;
    var report := ConversationStatsReport(nowMs, sessions);
    var conversations := RecentConversationGroups(nowMs, sessions);
    RecentAreNotEmpty(nowMs, sessions);
    NamesAreDistinct(conversations);
    SortKeepsMembers(Requesters(conversations));
    SortKeepsMembers(Locations(conversations));
    forall x | x in report.requesters ensures x == RequesterShare(conversations, x.name) {
      ItemIsItself(Requesters(conversations), x);
      RequesterItems(conversations, x.name);
    }
    forall x | x in report.locations ensures x == LocationShare(conversations, x.name) {
      ItemIsItself(Locations(conversations), x);
      LocationItems(conversations, x.name);
    }
    forall name
      ensures RequesterShare(conversations, name) == EmptyItem(name) || RequesterShare(conversations, name) in report.requesters
      ensures LocationShare(conversations, name) == EmptyItem(name) || LocationShare(conversations, name) in report.locations
    {
      ItemIsFound(Requesters(conversations), name);
      RequesterItems(conversations, name);
      ItemIsFound(Locations(conversations), name);
      LocationItems(conversations, name);
    }
  }

  lemma SortKeepsMembers(items: seq<Item>)
    ensures forall x :: x in Sort(ItemBefore, items) <==> x in items
  {
    ItemOrderIsWeak();
    SortIsASortedPermutation(ItemBefore, items);
    forall x ensures x in Sort(ItemBefore, items) <==> x in items {
      assert x in items <==> x in multiset(items);
      assert x in Sort(ItemBefore, items) <==> x in multiset(Sort(ItemBefore, items));
    }
  }

  lemma ItemOrderIsWeak()
    ensures WeakOrder(ItemBefore)
  {
    forall a, b ensures ItemBefore(a, b) ==> !ItemBefore(b, a) {
      TextWeak(a.name, b.name, a.name);
    }
    forall a, b, c ensures ItemBefore(a, c) ==> ItemBefore(a, b) || ItemBefore(b, c) {
      TextWeak(a.name, b.name, c.name);
    }
  }
}
