/** How often a rendered transcript shows a tool call or a subagent, counted on the messages themselves. */
module TranscriptShown {
  import opened Wrappers
  import opened Transcript
  import opened TranscriptResults

  function Count(parts: seq<Part>, test: Part -> bool): nat {
    if parts == [] then 0 else Count(parts[..|parts| - 1], test) + One(test(parts[|parts| - 1]))
  }

  /** How many parts of the messages pass a test. */
  function Shown(messages: seq<Message>, test: Part -> bool): nat {
    if messages == [] then 0
    else Shown(messages[..|messages| - 1], test) + Count(messages[|messages| - 1].parts, test)
  }

  function IsCallOf(id: string): Part -> bool {
    (part: Part) => part.ToolCall? && part.id == Some(id)
  }

  function IsAgentWith(key: Key): Part -> bool {
    (part: Part) =>
      part.Subagent?
      && key == Key(if part.parentToolCallId.Some? then part.parentToolCallId.value else "", part.agentId, part.agentKind)
  }

  function CallsShown(messages: seq<Message>, id: string): nat {
    Shown(messages, IsCallOf(id))
  }

  function AgentsShown(messages: seq<Message>, key: Key): nat {
    Shown(messages, IsAgentWith(key))
  }

  // ---------- merging ----------

  lemma {:induction false} ShownConcat(a: seq<Message>, b: seq<Message>, test: Part -> bool)
    ensures Shown(a + b, test) == Shown(a, test) + Shown(b, test)
  {
    if b == [] {
      assert a + b == a;
    } else {
      ShownConcat(a, b[..|b| - 1], test);
      assert (a + b)[..|a + b| - 1] == a + b[..|b| - 1];
    }
  }

  lemma ShownOfOne(m: Message, test: Part -> bool)
    ensures Shown([m], test) == Count(m.parts, test)
  {
    assert [m][..0] == [];
  }

  lemma ShownInsert(messages: seq<Message>, at: nat, m: Message, test: Part -> bool)
    requires at <= |messages|
    ensures Shown(InsertAt(messages, at, m), test) == Shown(messages, test) + Count(m.parts, test)
  {
    hide Shown, Count;
    ShownConcat(messages[..at] + [m], messages[at..], test);
    ShownConcat(messages[..at], [m], test);
    ShownOfOne(m, test);
    ShownConcat(messages[..at], messages[at..], test);
    assert messages == messages[..at] + messages[at..];
  }

  lemma {:induction false} MergeKeepsShown(rows: seq<Row>, synthetic: seq<Row>, test: Part -> bool)
    ensures Shown(EraseAll(Merge(rows, synthetic)), test) == Shown(EraseAll(rows), test) + Shown(EraseAll(synthetic), test)
  {
    hide InsertionIndex, InsertAt, Count;
    if synthetic != [] {
      var n := |synthetic| - 1;
      var so, row := Merge(rows, synthetic[..n]), synthetic[n];
      MergeKeepsShown(rows, synthetic[..n], test);
      EraseInsert(so, InsertionIndex(EraseAll(so), Erase(row)), row);
      ShownInsert(EraseAll(so), InsertionIndex(EraseAll(so), Erase(row)), Erase(row), test);
      EraseAppend(synthetic[..n], row);
      ShownConcat(EraseAll(synthetic[..n]), [Erase(row)], test);
      ShownOfOne(Erase(row), test);
      assert synthetic == synthetic[..n] + [row];
    }
  }

  // ---------- upgrading ----------

  /** A test that the rendering of an activity passes exactly if the part it replaces does. */
  ghost predicate Stable(test: Part -> bool) {
    forall part, a | MatchesActivity(part, a) :: test(part) == test(CallPart(a, part.input))
  }

  lemma CallTestIsStable(id: string)
    requires id != ""
    ensures Stable(IsCallOf(id))
  {}

  lemma AgentTestIsStable(key: Key)
    ensures Stable(IsAgentWith(key))
  {}

  lemma {:induction false} UpgradingPartsKeepsCount(parts: seq<Part>, activities: seq<ToolActivity>, used: set<string>, test: Part -> bool)
    requires Stable(test)
    ensures Count(PartsOf(UpgradeParts(parts, activities, used).0), test) == Count(parts, test)
  {
    hide MatchesActivity, CallPart;
    if parts != [] {
      var n := |parts| - 1;
      UpgradingPartsKeepsCount(parts[..n], activities, used, test);
      var (earlier, mid) := UpgradeParts(parts[..n], activities, used);
      var m := UpgradePart(parts[n], activities, mid);
      PartsAppend(earlier, m);
      assert (PartsOf(earlier) + [m.part])[..|earlier|] == PartsOf(earlier);
      assert test(m.part) == test(parts[n]);
    }
  }

  lemma {:induction false} UpgradingKeepsShown(messages: seq<Message>, activities: seq<ToolActivity>, test: Part -> bool)
    requires Stable(test)
    ensures Shown(EraseAll(UpgradeMessages(messages, activities).0), test) == Shown(messages, test)
  {
    hide UpgradeParts, Stable, Count;
    if messages != [] {
      var n := |messages| - 1;
      UpgradingKeepsShown(messages[..n], activities, test);
      var (earlier, used) := UpgradeMessages(messages[..n], activities);
      UpgradingPartsKeepsCount(messages[n].parts, activities, used, test);
      var row := Row(messages[n].role, messages[n].timestamp, UpgradeParts(messages[n].parts, activities, used).0, FromSource(n));
      EraseAppend(earlier, row);
      assert (EraseAll(earlier) + [Erase(row)])[..n] == EraseAll(earlier) by { OneRowEach(messages[..n], activities); }
    }
  }

  lemma {:induction false} OneRowEach(messages: seq<Message>, activities: seq<ToolActivity>)
    ensures |UpgradeMessages(messages, activities).0| == |messages|
  {
    if messages != [] { OneRowEach(messages[..|messages| - 1], activities); }
  }

  /** A part with the id of an activity uses it, unless it is used already; no other part does. */
  lemma PartUsesItsActivity(part: Part, activities: seq<ToolActivity>, used: set<string>, id: string)
    requires id != ""
    ensures id in Using(UpgradePart(part, activities, used), used) <==>
            id in used || (IsCallOf(id)(part) && id in CallIds(activities))
  {
    if IsCallOf(id)(part) && id in CallIds(activities) && id !in used {
      var a :| a in activities && a.toolCallId == id;
      assert MatchesActivity(part, a);
    }
  }

  lemma {:induction false} PartsUseTheirActivities(parts: seq<Part>, activities: seq<ToolActivity>, used: set<string>, id: string)
    requires id != ""
    ensures id in UpgradeParts(parts, activities, used).1 <==>
            id in used || (Count(parts, IsCallOf(id)) > 0 && id in CallIds(activities))
  {
    hide UpgradePart, Using, CallIds, IsCallOf;
    if parts != [] {
      var n := |parts| - 1;
      PartsUseTheirActivities(parts[..n], activities, used, id);
      PartUsesItsActivity(parts[n], activities, UpgradeParts(parts[..n], activities, used).1, id);
    }
  }

  lemma {:induction false} MessagesUseTheirActivities(messages: seq<Message>, activities: seq<ToolActivity>, id: string)
    requires id != ""
    ensures id in UpgradeMessages(messages, activities).1 <==> CallsShown(messages, id) > 0 && id in CallIds(activities)
  {
    hide UpgradeParts, CallIds, IsCallOf, Count;
    if messages != [] {
      var n := |messages| - 1;
      MessagesUseTheirActivities(messages[..n], activities, id);
      PartsUseTheirActivities(messages[n].parts, activities, UpgradeMessages(messages[..n], activities).1, id);
    }
  }

  // ---------- rows made for activity ----------

  /** In a row made for activity the mark and the part say the same. */
  lemma {:induction false} ActivityRowsShowTheirMarks(rows: seq<Row>, mark: Mark, test: Part -> bool)
    requires forall i | 0 <= i < |rows| :: IsActivityRow(rows[i], i)
    requires forall m: Marked | !m.mark.Plain? && ShowsItsMark(m) :: test(m.part) <==> m.mark == mark
    ensures Shown(EraseAll(rows), test) == Renderings(rows, mark)
  {
    hide ShowsItsMark;
    if rows != [] {
      var n := |rows| - 1;
      ActivityRowsShowTheirMarks(rows[..n], mark, test);
      assert rows == rows[..n] + [rows[n]];
      RenderingsConcat(rows[..n], [rows[n]], mark);
      RenderingsOfOne(rows[n], mark);
      EraseAppend(rows[..n], rows[n]);
      assert (EraseAll(rows[..n]) + [Erase(rows[n])])[..n] == EraseAll(rows[..n]);
      OnePart(rows[n].parts[0], mark, test);
      assert rows[n].parts == [rows[n].parts[0]];
    }
  }

  lemma OnePart(m: Marked, mark: Mark, test: Part -> bool)
    ensures Count(PartsOf([m]), test) == One(test(m.part))
    ensures Occurrences([m], mark) == One(m.mark == mark)
  {
    SinglePart(m);
    assert [m.part][..0] == [] && [m][1..] == [];
  }

  // ---------- what a transcript shows ----------

  /** A transcript shows each tool-call id as often as the source does, and once more if there is activity with the
      id and the source does not show it. */
  lemma CallsAreShown(source: seq<Message>, activities: seq<ToolActivity>, orphans: seq<SubagentActivity>, id: string)
    requires id != ""
    ensures CallsShown(EraseAll(TurnRows(source, activities, orphans)), id) ==
            CallsShown(source, id) + One(id in CallIds(activities) && CallsShown(source, id) == 0)
  {
    hide Shown, Merge, ActivityRows, UpgradeMessages, Renderings, Stable, CallIds;
    var (rows, used) := UpgradeMessages(source, activities);
    var e := ActivityRows(activities, orphans, used);
    ActivityRowsAccounted(activities, orphans, used);
    CallTestIsStable(id);
    UpgradingKeepsShown(source, activities, IsCallOf(id));
    MessagesUseTheirActivities(source, activities, id);
    ActivityRowsShowTheirMarks(e.rows, Call(id), IsCallOf(id));
    MergeKeepsShown(rows, e.rows, IsCallOf(id));
  }

  /** A transcript shows each subagent as often as the source does, and once more if it is in the activity. */
  lemma AgentsAreShown(source: seq<Message>, activities: seq<ToolActivity>, orphans: seq<SubagentActivity>, key: Key)
    ensures AgentsShown(EraseAll(TurnRows(source, activities, orphans)), key) ==
            AgentsShown(source, key) + One(key in AllKeys(activities) + Keys(orphans))
  {
    hide Shown, Merge, ActivityRows, UpgradeMessages, Renderings, Stable;
    var (rows, used) := UpgradeMessages(source, activities);
    var e := ActivityRows(activities, orphans, used);
    ActivityRowsAccounted(activities, orphans, used);
    AgentTestIsStable(key);
    UpgradingKeepsShown(source, activities, IsAgentWith(key));
    ActivityRowsShowTheirMarks(e.rows, Agent(key), IsAgentWith(key));
    MergeKeepsShown(rows, e.rows, IsAgentWith(key));
  }

  /** A piece of activity is shown exactly once if and only if the source shows a tool call at most once, and a
      subagent not at all. */
  lemma ShownExactlyOnceIff(source: seq<Message>, activities: seq<ToolActivity>, orphans: seq<SubagentActivity>)
    ensures var messages := EraseAll(TurnRows(source, activities, orphans));
            && (forall id | id != "" && id in CallIds(activities) ::
                  CallsShown(messages, id) == 1 <==> CallsShown(source, id) <= 1)
            && (forall key | key in AllKeys(activities) + Keys(orphans) ::
                  AgentsShown(messages, key) == 1 <==> AgentsShown(source, key) == 0)
  {
    hide CallsShown, AgentsShown, TurnRows, CallIds, AllKeys, Keys;
    var messages := EraseAll(TurnRows(source, activities, orphans));
    forall id | id != "" && id in CallIds(activities)
      ensures CallsShown(messages, id) == 1 <==> CallsShown(source, id) <= 1
    {
      CallsAreShown(source, activities, orphans, id);
    }
    forall key | key in AllKeys(activities) + Keys(orphans)
      ensures AgentsShown(messages, key) == 1 <==> AgentsShown(source, key) == 0
    {
      AgentsAreShown(source, activities, orphans, key);
    }
  }

  /** A source that repeats a tool call has it shown twice, with one activity to its id. */
  lemma RepeatedCallIsShownTwice(a: ToolActivity)
    requires a.toolCallId != ""
    ensures var call := ToolCall(Some(a.toolCallId), Some(a.toolName), None, None, None);
            var source := [Message("assistant", None, [call, call])];
            CallsShown(EraseAll(TurnRows(source, [a], [])), a.toolCallId) == 2
  {
    hide TurnRows, CallIds;
    var call := ToolCall(Some(a.toolCallId), Some(a.toolName), None, None, None);
    var source := [Message("assistant", None, [call, call])];
    CallsAreShown(source, [a], [], a.toolCallId);
    ShownOfOne(source[0], IsCallOf(a.toolCallId));
    assert [call, call][..1] == [call] && [call][..0] == [];
    assert Count([call], IsCallOf(a.toolCallId)) == 1;
    assert Count([call, call], IsCallOf(a.toolCallId)) == 2;
  }
}
