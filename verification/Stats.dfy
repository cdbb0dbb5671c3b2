/** The dashboard's conversation statistics: what requesters and locations add up to. */
module Stats {
  import opened Wrappers
  import opened Usage
  import opened Contributions
  import opened Text
  import opened Sorting

  const WINDOW_MS := 604_800_000

  // ---------- grouping by a key, in order of first appearance ----------

  datatype Group<T> = Group(key: string, members: seq<T>)

  function AddTo<T>(groups: seq<Group<T>>, key: string, x: T): seq<Group<T>> {
    if groups == [] then [Group(key, [x])]
    else if groups[0].key == key then [Group(key, groups[0].members + [x])] + groups[1..]
    else [groups[0]] + AddTo(groups[1..], key, x)
  }

  function GroupBy<T>(key: T -> string, xs: seq<T>): seq<Group<T>> {
    if xs == [] then [] else AddTo(GroupBy(key, xs[..|xs| - 1]), key(xs[|xs| - 1]), xs[|xs| - 1])
  }

  /** The elements with a key, in their order. */
  function Select<T>(key: T -> string, k: string, xs: seq<T>): seq<T> {
    if xs == [] then []
    else Select(key, k, xs[..|xs| - 1]) + if key(xs[|xs| - 1]) == k then [xs[|xs| - 1]] else []
  }

  function Lookup<T>(groups: seq<Group<T>>, k: string): seq<T> {
    if groups == [] then [] else if groups[0].key == k then groups[0].members else Lookup(groups[1..], k)
  }

  ghost predicate DistinctKeys<T>(groups: seq<Group<T>>) {
    forall i, j | 0 <= i < j < |groups| :: groups[i].key != groups[j].key
  }

  lemma {:induction false} AddToKeys<T>(groups: seq<Group<T>>, key: string, x: T)
    requires DistinctKeys(groups)
    ensures DistinctKeys(AddTo(groups, key, x))
    ensures forall g | g in AddTo(groups, key, x) :: g.key == key || exists h :: h in groups && h.key == g.key
  {
    if groups != [] && groups[0].key != key {
      AddToKeys(groups[1..], key, x);
    }
  }

  lemma {:induction false} AddToLookup<T>(groups: seq<Group<T>>, key: string, x: T, k: string)
    ensures Lookup(AddTo(groups, key, x), k) == Lookup(groups, k) + if k == key then [x] else []
  {
    if groups != [] && groups[0].key != key {
      AddToLookup(groups[1..], key, x, k);
    }
  }

  ghost predicate NoEmptyGroup<T>(groups: seq<Group<T>>) {
    forall i | 0 <= i < |groups| :: groups[i].members != []
  }

  lemma {:induction false} AddToLeavesNoneEmpty<T>(groups: seq<Group<T>>, key: string, x: T)
    requires NoEmptyGroup(groups)
    ensures NoEmptyGroup(AddTo(groups, key, x))
  {
    if groups != [] && groups[0].key != key {
      AddToLeavesNoneEmpty(groups[1..], key, x);
    }
  }

  lemma {:induction false} LookupMember<T>(groups: seq<Group<T>>, i: nat)
    requires DistinctKeys(groups) && i < |groups|
    ensures Lookup(groups, groups[i].key) == groups[i].members
  {
    if i > 0 { LookupMember(groups[1..], i - 1); }
  }

  lemma {:induction false} LookupFound<T>(groups: seq<Group<T>>, k: string)
    ensures Lookup(groups, k) != [] ==> exists i :: 0 <= i < |groups| && groups[i].key == k
  {
    if groups != [] && groups[0].key != k {
      LookupFound(groups[1..], k);
      if Lookup(groups, k) != [] {
        var i :| 0 <= i < |groups[1..]| && groups[1..][i].key == k;
        assert groups[i + 1].key == k;
      }
    }
  }

  /** Grouping partitions: keys are distinct, no group is empty, and a group holds exactly the elements with its key. */
  lemma {:induction false} GroupsPartition<T>(key: T -> string, xs: seq<T>)
    ensures var groups := GroupBy(key, xs);
            && DistinctKeys(groups)
            && (forall i | 0 <= i < |groups| :: groups[i].members != [])
            && (forall k :: Lookup(groups, k) == Select(key, k, xs))
            && (forall i | 0 <= i < |groups| :: groups[i].members == Select(key, groups[i].key, xs))
  {
    if xs != [] {
      var n := |xs| - 1;
      GroupsPartition(key, xs[..n]);
      var before := GroupBy(key, xs[..n]);
      AddToKeys(before, key(xs[n]), xs[n]);
      AddToLeavesNoneEmpty(before, key(xs[n]), xs[n]);
      forall k ensures Lookup(GroupBy(key, xs), k) == Select(key, k, xs) {
        AddToLookup(before, key(xs[n]), xs[n], k);
      }
    }
    var groups := GroupBy(key, xs);
    forall i | 0 <= i < |groups| ensures groups[i].members == Select(key, groups[i].key, xs) {
      LookupMember(groups, i);
    }
  }

  lemma {:induction false} SelectedHaveTheKey<T>(key: T -> string, k: string, xs: seq<T>)
    ensures forall x :: x in Select(key, k, xs) <==> x in xs && key(x) == k
  {
    if xs != [] {
      SelectedHaveTheKey(key, k, xs[..|xs| - 1]);
      assert xs == xs[..|xs| - 1] + [xs[|xs| - 1]];
    }
  }

  // ---------- recent conversations ----------

  function TimeOrZero(t: Option<int>): int {
    if t.None? then 0 else t.value
  }

  predicate StartsBefore(a: Run, b: Run) {
    TimeOrZero(a.startedAt) < TimeOrZero(b.startedAt)
    || (TimeOrZero(a.startedAt) == TimeOrZero(b.startedAt) && TextLess(a.id, b.id))
  }

  predicate NewerThan(a: Run, b: Run) {
    TimeOrZero(a.lastSeenAt) > TimeOrZero(b.lastSeenAt)
    || (TimeOrZero(a.lastSeenAt) == TimeOrZero(b.lastSeenAt) && TextLess(b.id, a.id))
  }

  lemma TextWeak(a: string, b: string, c: string)
    ensures TextLess(a, b) ==> !TextLess(b, a)
    ensures TextLess(a, c) ==> TextLess(a, b) || TextLess(b, c)
  {
    TextOrderTotal(a, b);
    TextOrderTotal(b, c);
    if TextLess(a, c) && TextLess(b, a) { TextOrderTransitive(b, a, c); }
  }

  lemma RunOrdersAreWeak()
    ensures WeakOrder(StartsBefore) && WeakOrder(NewerThan)
  {
    forall a, b ensures (StartsBefore(a, b) ==> !StartsBefore(b, a)) && (NewerThan(a, b) ==> !NewerThan(b, a)) {
      TextWeak(a.id, b.id, a.id);
      TextWeak(b.id, a.id, b.id);
    }
    forall a, b, c
      ensures (StartsBefore(a, c) ==> StartsBefore(a, b) || StartsBefore(b, c))
      ensures (NewerThan(a, c) ==> NewerThan(a, b) || NewerThan(b, c))
    {
      TextWeak(a.id, b.id, c.id);
      TextWeak(c.id, b.id, a.id);
    }
  }

  function NewestRun(runs: seq<Run>): (newest: Run)
    requires runs != []
  {
    Sort(NewerThan, runs)[0]
  }

  /** A conversation is located where its newest run took place. */
  function LocationOf(runs: seq<Run>): string
    requires runs != []
  {
    LocationLabel(NewestRun(runs))
  }

  /** The newest run is a run of the conversation, and no run was seen later. */
  lemma NewestIsSeenLast(runs: seq<Run>)
    requires runs != []
    ensures NewestRun(runs) in runs
    ensures forall r | r in runs :: TimeOrZero(r.lastSeenAt) <= TimeOrZero(NewestRun(runs).lastSeenAt)
  {
    RunOrdersAreWeak();
    SortIsASortedPermutation(NewerThan, runs);
    var s := Sort(NewerThan, runs);
    assert s[0] in multiset(s);
    forall r | r in runs ensures !NewerThan(r, s[0]) {
      assert r in multiset(runs);
      assert r in s;
    }
  }

  predicate IsRecent(nowMs: int, runs: seq<Run>) {
    runs != [] && NewestRun(runs).lastSeenAt.Some?
    && nowMs - WINDOW_MS <= NewestRun(runs).lastSeenAt.value <= nowMs
  }

  function ConversationOf(r: Run): string {
    r.conversationId
  }

  function SortedGroups(groups: seq<Group<Run>>): (r: seq<seq<Run>>)
    ensures |r| == |groups|
  {
    seq(|groups|, i requires 0 <= i < |groups| => Sort(StartsBefore, groups[i].members))
  }

  function KeepRecent(nowMs: int, conversations: seq<seq<Run>>): seq<seq<Run>> {
    if conversations == [] then []
    else
      KeepRecent(nowMs, conversations[..|conversations| - 1])
      + if IsRecent(nowMs, conversations[|conversations| - 1]) then [conversations[|conversations| - 1]] else []
  }

  function RecentConversationGroups(nowMs: int, sessions: seq<Run>): seq<seq<Run>> {
    KeepRecent(nowMs, SortedGroups(GroupBy(ConversationOf, sessions)))
  }

  method GroupRecentConversations(nowMs: int, sessions: seq<Run>) returns (recent: seq<seq<Run>>)
    ensures recent == RecentConversationGroups(nowMs, sessions)
  {
    var groups: seq<Group<Run>> := [];
    for i := 0 to |sessions|
      invariant groups == GroupBy(ConversationOf, sessions[..i])
    {
      assert sessions[..i + 1][..i] == sessions[..i];
      groups := AddTo(groups, sessions[i].conversationId, sessions[i]);
    }
    assert sessions[..|sessions|] == sessions;
    recent := KeepRecent(nowMs, SortedGroups(groups));
  }

  lemma {:induction false} KeptAreRecent(nowMs: int, conversations: seq<seq<Run>>)
    ensures forall c :: c in KeepRecent(nowMs, conversations) <==> c in conversations && IsRecent(nowMs, c)
  {
    if conversations != [] {
      var n := |conversations| - 1;
      KeptAreRecent(nowMs, conversations[..n]);
      assert conversations == conversations[..n] + [conversations[n]];
    }
  }

  lemma ReportedIsOneConversation(nowMs: int, sessions: seq<Run>, runs: seq<Run>)
    requires runs in RecentConversationGroups(nowMs, sessions)
    ensures IsRecent(nowMs, runs)
    ensures runs == Sort(StartsBefore, Select(ConversationOf, runs[0].conversationId, sessions))
    ensures Sorted(StartsBefore, runs)
    ensures multiset(runs) == multiset(Select(ConversationOf, runs[0].conversationId, sessions))
  {
    hide Sort, Select, GroupBy, KeepRecent;
    var groups := GroupBy(ConversationOf, sessions);
    GroupsPartition(ConversationOf, sessions);
    KeptAreRecent(nowMs, SortedGroups(groups));
    var i :| 0 <= i < |groups| && SortedGroups(groups)[i] == runs;
    RunOrdersAreWeak();
    SortIsASortedPermutation(StartsBefore, groups[i].members);
    SelectedHaveTheKey(ConversationOf, groups[i].key, sessions);
    assert runs[0] in multiset(runs);
    assert runs[0] in groups[i].members;
  }

  lemma RecentConversationIsReported(nowMs: int, sessions: seq<Run>, runs: seq<Run>)
    requires IsRecent(nowMs, runs)
    requires runs == Sort(StartsBefore, Select(ConversationOf, runs[0].conversationId, sessions))
    ensures runs in RecentConversationGroups(nowMs, sessions)
  {
    hide Sort, Select, GroupBy, KeepRecent, IsRecent;
    assert runs != [] by { RecentHasRuns(nowMs, runs); }
    var groups := GroupBy(ConversationOf, sessions);
    GroupsPartition(ConversationOf, sessions);
    KeptAreRecent(nowMs, SortedGroups(groups));
    LookupFound(groups, runs[0].conversationId);
    var i :| 0 <= i < |groups| && groups[i].key == runs[0].conversationId;
    assert SortedGroups(groups)[i] == runs;
  }

  lemma RecentHasRuns(nowMs: int, runs: seq<Run>)
    requires IsRecent(nowMs, runs)
    ensures runs != []
  {}

  /** A list of runs is reported exactly when it is the whole of one conversation, by start time, and recent. */
  lemma ReportedConversations(nowMs: int, sessions: seq<Run>, runs: seq<Run>)
    ensures runs in RecentConversationGroups(nowMs, sessions) <==>
            && IsRecent(nowMs, runs)
            && Sorted(StartsBefore, runs)
            && runs == Sort(StartsBefore, Select(ConversationOf, runs[0].conversationId, sessions))
            && multiset(runs) == multiset(Select(ConversationOf, runs[0].conversationId, sessions))
  {
    hide Sort, Select, RecentConversationGroups;
    if runs in RecentConversationGroups(nowMs, sessions) {
      ReportedIsOneConversation(nowMs, sessions, runs);
    }
    if IsRecent(nowMs, runs) && runs == Sort(StartsBefore, Select(ConversationOf, runs[0].conversationId, sessions)) {
      RecentConversationIsReported(nowMs, sessions, runs);
    }
  }

  ghost predicate DistinctConversations(conversations: seq<seq<Run>>) {
    forall i, j | 0 <= i < j < |conversations| && conversations[i] != [] && conversations[j] != [] ::
      conversations[i][0].conversationId != conversations[j][0].conversationId
  }

  lemma {:induction false} KeepRecentKeepsDistinct(nowMs: int, conversations: seq<seq<Run>>)
    requires DistinctConversations(conversations)
    ensures DistinctConversations(KeepRecent(nowMs, conversations))
  {
    hide IsRecent;
    if conversations != [] {
      var n := |conversations| - 1;
      KeepRecentKeepsDistinct(nowMs, conversations[..n]);
      KeptAreRecent(nowMs, conversations[..n]);
      var kept: seq<seq<Run>> := KeepRecent(nowMs, conversations[..n]);
      forall i | 0 <= i < |kept| && kept[i] != [] && conversations[n] != []
        ensures kept[i][0].conversationId != conversations[n][0].conversationId
      {
        assert kept[i] in kept;
        var k :| 0 <= k < n && conversations[k] == kept[i];
      }
    }
  }

  /** No conversation is reported twice. */
  lemma EachConversationIsReportedOnce(nowMs: int, sessions: seq<Run>)
    ensures DistinctConversations(RecentConversationGroups(nowMs, sessions))
  {
    hide Sort, Select, GroupBy, KeepRecent, IsRecent;
    var groups := GroupBy(ConversationOf, sessions);
    var all: seq<seq<Run>> := SortedGroups(groups);
    GroupsPartition(ConversationOf, sessions);
    RunOrdersAreWeak();
    forall i | 0 <= i < |all| && all[i] != [] ensures all[i][0].conversationId == groups[i].key {
      SortIsASortedPermutation(StartsBefore, groups[i].members);
      SelectedHaveTheKey(ConversationOf, groups[i].key, sessions);
      assert all[i][0] in multiset(all[i]);
      assert all[i][0] in groups[i].members;
    }
    KeepRecentKeepsDistinct(nowMs, all);
  }

  // ---------- items ----------

  datatype Item = Item(
    name: string, conversations: nat, runs: nat, durationMs: nat, tokens: Option<nat>,
    active: nat, failed: nat, hung: nat)

  function EmptyItem(name: string): Item {
    Item(name, 0, 0, 0, None, 0, 0, 0)
  }

  function Merge(a: Item, d: Item): Item {
    Item(a.name, a.conversations + d.conversations, a.runs + d.runs, a.durationMs + d.durationMs,
         Plus(a.tokens, d.tokens), a.active + d.active, a.failed + d.failed, a.hung + d.hung)
  }

  /** Add to the item with the label, which starts empty if there is none yet. */
  function AddItem(items: seq<Item>, d: Item): seq<Item> {
    if items == [] then [Merge(EmptyItem(d.name), d)]
    else if items[0].name == d.name then [Merge(items[0], d)] + items[1..]
    else [items[0]] + AddItem(items[1..], d)
  }

  function ItemOf(items: seq<Item>, name: string): Item {
    if items == [] then EmptyItem(name)
    else if items[0].name == name then items[0] else ItemOf(items[1..], name)
  }

  function Total(items: seq<Item>): (total: Item)
    ensures total.name == ""
  {
    if items == [] then EmptyItem("") else Merge(Total(items[1..]), items[0])
  }

  lemma {:induction false} AddItemToOne(items: seq<Item>, d: Item, name: string)
    ensures ItemOf(AddItem(items, d), name) ==
            if name == d.name then Merge(ItemOf(items, name), d) else ItemOf(items, name)
  {
    if items != [] && items[0].name != d.name { AddItemToOne(items[1..], d, name); }
  }

  lemma {:induction false} AddItemToTotal(items: seq<Item>, d: Item)
    ensures Total(AddItem(items, d)) == Merge(Total(items), d)
  {
    if items != [] && items[0].name != d.name { AddItemToTotal(items[1..], d); }
  }

  predicate ItemBefore(a: Item, b: Item) {
    if a.conversations != b.conversations then a.conversations > b.conversations
    else if a.runs != b.runs then a.runs > b.runs
    else if a.durationMs != b.durationMs then a.durationMs > b.durationMs
    else TextLess(a.name, b.name)
  }

  lemma MergeLaws(a: Item, b: Item, c: Item)
    ensures Merge(Merge(a, b), c) == Merge(Merge(a, c), b)
    ensures Merge(a, Merge(b, c)) == Merge(Merge(a, b), c)
  {}

  lemma {:induction false} TotalOfOneMore(items: seq<Item>, x: Item)
    ensures Total(items + [x]) == Merge(Total(items), x)
  {
    if items == [] {
      assert items + [x] == [x] && [x][1..] == [];
    } else {
      TotalOfOneMore(items[1..], x);
      assert (items + [x])[1..] == items[1..] + [x];
      MergeLaws(Total(items[1..]), x, items[0]);
    }
  }

  lemma {:induction false} TotalOfInsert(items: seq<Item>, x: Item)
    ensures Total(Insert(ItemBefore, items, x)) == Merge(Total(items), x)
  {
    hide ItemBefore, Merge, Total;
    if items == [] || !ItemBefore(x, items[|items| - 1]) {
      TotalOfOneMore(items, x);
    } else {
      var n := |items| - 1;
      TotalOfInsert(items[..n], x);
      TotalOfOneMore(Insert(ItemBefore, items[..n], x), items[n]);
      TotalOfOneMore(items[..n], items[n]);
      assert items == items[..n] + [items[n]];
      MergeLaws(Total(items[..n]), x, items[n]);
    }
  }

  /** Sorting the items for display changes no sum. */
  lemma {:induction false} TotalOfSort(items: seq<Item>)
    ensures Total(Sort(ItemBefore, items)) == Total(items)
  {
    hide ItemBefore, Merge, Total;
    if items != [] {
      var n := |items| - 1;
      TotalOfSort(items[..n]);
      TotalOfInsert(Sort(ItemBefore, items[..n]), items[n]);
      TotalOfOneMore(items[..n], items[n]);
      assert items == items[..n] + [items[n]];
    }
  }
}
