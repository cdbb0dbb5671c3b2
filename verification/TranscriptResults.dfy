/** What a rendered transcript shows: every piece of activity once, the source in order, calls before
    their results and subagents after the calls that started them. */
module TranscriptResults {
  import opened Wrappers
  import opened Transcript

  function One(b: bool): nat {
    if b then 1 else 0
  }

  // ---------- counting renderings ----------

  lemma {:induction false} OccurrencesAppend(parts: seq<Marked>, m: Marked, mark: Mark)
    ensures Occurrences(parts + [m], mark) == Occurrences(parts, mark) + One(m.mark == mark)
  {
    if parts == [] {
      assert [m][1..] == [];
      assert parts + [m] == [m];
    } else {
      OccurrencesAppend(parts[1..], m, mark);
      assert (parts + [m])[1..] == parts[1..] + [m];
    }
  }

  lemma {:induction false} RenderingsConcat(a: seq<Row>, b: seq<Row>, mark: Mark)
    ensures Renderings(a + b, mark) == Renderings(a, mark) + Renderings(b, mark)
  {
    if a == [] {
      assert a + b == b;
    } else {
      RenderingsConcat(a[1..], b, mark);
      assert (a + b)[1..] == a[1..] + b;
    }
  }

  lemma RenderingsOfOne(row: Row, mark: Mark)
    ensures Renderings([row], mark) == Occurrences(row.parts, mark)
  {
    assert [row][1..] == [];
  }

  lemma RenderingsInsert(rows: seq<Row>, index: nat, row: Row, mark: Mark)
    requires index <= |rows|
    ensures Renderings(InsertAt(rows, index, row), mark) == Renderings(rows, mark) + Occurrences(row.parts, mark)
  {
    RenderingsConcat(rows[..index] + [row], rows[index..], mark);
    RenderingsConcat(rows[..index], [row], mark);
    RenderingsOfOne(row, mark);
    RenderingsConcat(rows[..index], rows[index..], mark);
    assert rows == rows[..index] + rows[index..];
  }

  /** Merging renders exactly what the two inputs render. */
  lemma {:induction false} MergeKeepsRenderings(rows: seq<Row>, synthetic: seq<Row>, mark: Mark)
    ensures Renderings(Merge(rows, synthetic), mark) == Renderings(rows, mark) + Renderings(synthetic, mark)
  {
    hide InsertionIndex;
    if synthetic != [] {
      var n := |synthetic| - 1;
      MergeKeepsRenderings(rows, synthetic[..n], mark);
      RenderingsConcat(synthetic[..n], [synthetic[n]], mark);
      RenderingsOfOne(synthetic[n], mark);
      assert synthetic == synthetic[..n] + [synthetic[n]];
      var so := Merge(rows, synthetic[..n]);
      RenderingsInsert(so, InsertionIndex(EraseAll(so), Erase(synthetic[n])), synthetic[n], mark);
    }
  }

  ghost function CallIds(activities: seq<ToolActivity>): set<string> {
    set a | a in activities :: a.toolCallId
  }

  lemma {:induction false} UpgradedPartsCount(parts: seq<Part>, activities: seq<ToolActivity>, used: set<string>)
    ensures var (marked, now) := UpgradeParts(parts, activities, used);
            used <= now && now <= used + CallIds(activities)
            && (forall id :: Occurrences(marked, Call(id)) == One(id in now && id !in used))
            && (forall k :: Occurrences(marked, Agent(k)) == 0)
  {
    if parts != [] {
      var n := |parts| - 1;
      UpgradedPartsCount(parts[..n], activities, used);
      var (earlier, mid) := UpgradeParts(parts[..n], activities, used);
      var m := UpgradePart(parts[n], activities, mid);
      forall mark ensures Occurrences(earlier + [m], mark) == Occurrences(earlier, mark) + One(m.mark == mark) {
        OccurrencesAppend(earlier, m, mark);
      }
    }
  }

  lemma {:induction false} UpgradedMessagesCount(messages: seq<Message>, activities: seq<ToolActivity>)
    ensures var (rows, used) := UpgradeMessages(messages, activities);
            used <= CallIds(activities)
            && (forall id :: Renderings(rows, Call(id)) == One(id in used))
            && (forall k :: Renderings(rows, Agent(k)) == 0)
  {
    hide UpgradeParts, Occurrences;
    if messages != [] {
      var n := |messages| - 1;
      UpgradedMessagesCount(messages[..n], activities);
      var (earlier, used) := UpgradeMessages(messages[..n], activities);
      UpgradedPartsCount(messages[n].parts, activities, used);
      var (parts, now) := UpgradeParts(messages[n].parts, activities, used);
      var row := Row(messages[n].role, messages[n].timestamp, parts, FromSource(n));
      forall mark ensures Renderings(earlier + [row], mark) == Renderings(earlier, mark) + Occurrences(parts, mark) {
        RenderingsConcat(earlier, [row], mark);
        RenderingsOfOne(row, mark);
      }
    }
  }

  // ---------- the rows made for activity ----------

  /** A part marked as a tool call or a subagent is the part that shows it. */
  predicate ShowsItsMark(m: Marked) {
    match m.mark
    case Plain => true
    case Call(id) => m.part.ToolCall? && m.part.id == Some(id)
    case Agent(key) =>
      m.part.Subagent?
      && key == Key(if m.part.parentToolCallId.Some? then m.part.parentToolCallId.value else "", m.part.agentId, m.part.agentKind)
  }

  ghost predicate AllShowTheirMarks(rows: seq<Row>) {
    forall row, m | row in rows && m in row.parts :: ShowsItsMark(m)
  }

  /** A row made for one piece of activity, at its place in the order of making. */
  predicate IsActivityRow(row: Row, index: nat) {
    row.origin == FromActivity(index) && |row.parts| == 1 && !row.parts[0].mark.Plain? && ShowsItsMark(row.parts[0])
  }

  /** The rows made so far account for the calls and subagents that count as shown. */
  ghost predicate Accounted(e: Emitted, used: set<string>) {
    && used <= e.calls
    && (forall id :: Renderings(e.rows, Call(id)) == One(id in e.calls && id !in used))
    && (forall k :: Renderings(e.rows, Agent(k)) == One(k in e.agents))
    && forall i | 0 <= i < |e.rows| :: IsActivityRow(e.rows[i], i)
  }

  lemma AddRow(rows: seq<Row>, row: Row, mark: Mark)
    requires |row.parts| == 1
    ensures Renderings(rows + [row], mark) == Renderings(rows, mark) + One(row.parts[0].mark == mark)
  {
    RenderingsConcat(rows, [row], mark);
    RenderingsOfOne(row, mark);
    assert row.parts == [] + [row.parts[0]];
    OccurrencesAppend([], row.parts[0], mark);
  }

  lemma EmitCallAccounted(e: Emitted, a: ToolActivity, used: set<string>)
    requires Accounted(e, used)
    ensures Accounted(EmitCall(e, a), used)
    ensures EmitCall(e, a).calls == e.calls + {a.toolCallId} && EmitCall(e, a).agents == e.agents
  {
    hide Renderings;
    if a.toolCallId !in e.calls {
      forall mark { AddRow(e.rows, CallRow(a, |e.rows|), mark); }
    }
  }

  lemma EmitAgentAccounted(e: Emitted, s: SubagentActivity, used: set<string>)
    requires Accounted(e, used)
    ensures Accounted(EmitAgent(e, s), used)
    ensures EmitAgent(e, s).calls == e.calls && EmitAgent(e, s).agents == e.agents + {KeyOf(s)}
  {
    hide Renderings;
    if KeyOf(s) !in e.agents {
      forall mark { AddRow(e.rows, AgentRow(s, |e.rows|), mark); }
    }
  }

  ghost function Keys(agents: seq<SubagentActivity>): set<Key> {
    set s | s in agents :: KeyOf(s)
  }

  ghost function AllKeys(activities: seq<ToolActivity>): set<Key> {
    set a, s | a in activities && s in a.subagents :: KeyOf(s)
  }

  lemma {:induction false} EmitAgentsAccounted(e: Emitted, agents: seq<SubagentActivity>, used: set<string>)
    requires Accounted(e, used)
    ensures Accounted(EmitAgents(e, agents), used)
    ensures EmitAgents(e, agents).calls == e.calls && EmitAgents(e, agents).agents == e.agents + Keys(agents)
  {
    hide Accounted, EmitAgent;
    if agents != [] {
      var n := |agents| - 1;
      EmitAgentsAccounted(e, agents[..n], used);
      EmitAgentAccounted(EmitAgents(e, agents[..n]), agents[n], used);
      assert agents == agents[..n] + [agents[n]];
      assert Keys(agents) == Keys(agents[..n]) + {KeyOf(agents[n])};
    }
  }

  lemma {:induction false} EmitActivitiesAccounted(e: Emitted, activities: seq<ToolActivity>, used: set<string>)
    requires Accounted(e, used)
    ensures Accounted(EmitActivities(e, activities), used)
    ensures EmitActivities(e, activities).calls == e.calls + CallIds(activities)
    ensures EmitActivities(e, activities).agents == e.agents + AllKeys(activities)
  {
    hide Accounted, EmitCall, EmitAgents;
    if activities != [] {
      var n := |activities| - 1;
      var so := EmitActivities(e, activities[..n]);
      EmitActivitiesAccounted(e, activities[..n], used);
      EmitCallAccounted(so, activities[n], used);
      EmitAgentsAccounted(EmitCall(so, activities[n]), activities[n].subagents, used);
      assert activities == activities[..n] + [activities[n]];
      assert CallIds(activities) == CallIds(activities[..n]) + {activities[n].toolCallId};
      assert AllKeys(activities) == AllKeys(activities[..n]) + Keys(activities[n].subagents);
    }
  }

  lemma ActivityRowsAccounted(activities: seq<ToolActivity>, orphans: seq<SubagentActivity>, used: set<string>)
    ensures var e := ActivityRows(activities, orphans, used);
            Accounted(e, used) && e.calls == used + CallIds(activities) && e.agents == AllKeys(activities) + Keys(orphans)
  {
    hide EmitActivities, EmitAgents;
    var start := Emitted([], used, {});
    assert Accounted(start, used);
    EmitActivitiesAccounted(start, activities, used);
    EmitAgentsAccounted(EmitActivities(start, activities), orphans, used);
  }

  lemma {:induction false} MergedRows(rows: seq<Row>, synthetic: seq<Row>)
    ensures forall row | row in Merge(rows, synthetic) :: row in rows || row in synthetic
  {
    hide InsertionIndex;
    if synthetic != [] { MergedRows(rows, synthetic[..|synthetic| - 1]); }
  }

  lemma {:induction false} UpgradedPartsShowMarks(parts: seq<Part>, activities: seq<ToolActivity>, used: set<string>)
    ensures forall m | m in UpgradeParts(parts, activities, used).0 :: ShowsItsMark(m)
  {
    hide MatchesActivity;
    if parts != [] { UpgradedPartsShowMarks(parts[..|parts| - 1], activities, used); }
  }

  lemma {:induction false} UpgradedMessagesShowMarks(messages: seq<Message>, activities: seq<ToolActivity>)
    ensures AllShowTheirMarks(UpgradeMessages(messages, activities).0)
  {
    hide UpgradeParts;
    if messages != [] {
      var n := |messages| - 1;
      UpgradedMessagesShowMarks(messages[..n], activities);
      UpgradedPartsShowMarks(messages[n].parts, activities, UpgradeMessages(messages[..n], activities).1);
    }
  }

  /** Every tool call and every subagent of the activity is rendered exactly once, in an upgraded source message
      or in a row of its own, nothing else is rendered as activity, and what is counted is a tool-call part with
      that id or a subagent part with that key. */
  lemma EachActivityIsRenderedOnce(source: seq<Message>, activities: seq<ToolActivity>, orphans: seq<SubagentActivity>)
    ensures var rows := TurnRows(source, activities, orphans);
            && (forall id :: Renderings(rows, Call(id)) == One(id in CallIds(activities)))
            && (forall k :: Renderings(rows, Agent(k)) == One(k in AllKeys(activities) + Keys(orphans)))
            && AllShowTheirMarks(rows)
  {
    hide Renderings, Merge, ActivityRows, UpgradeMessages, ShowsItsMark;
    var (rows, used) := UpgradeMessages(source, activities);
    var e := ActivityRows(activities, orphans, used);
    UpgradedMessagesCount(source, activities);
    UpgradedMessagesShowMarks(source, activities);
    ActivityRowsAccounted(activities, orphans, used);
    MergedRows(rows, e.rows);
    forall mark { MergeKeepsRenderings(rows, e.rows, mark); }
  }

  // ---------- the source stays in order ----------

  function SourceRows(rows: seq<Row>): seq<Row> {
    if rows == [] then []
    else SourceRows(rows[..|rows| - 1]) + (if rows[|rows| - 1].origin.FromSource? then [rows[|rows| - 1]] else [])
  }

  lemma {:induction false} SourceRowsConcat(a: seq<Row>, b: seq<Row>)
    ensures SourceRows(a + b) == SourceRows(a) + SourceRows(b)
  {
    if b == [] {
      assert a + b == a;
    } else {
      var n := |b| - 1;
      SourceRowsConcat(a, b[..n]);
      assert (a + b)[..|a + b| - 1] == a + b[..n];
    }
  }

  lemma ActivityRowAddsNoSource(rows: seq<Row>, row: Row)
    requires row.origin.FromActivity?
    ensures SourceRows(rows + [row]) == SourceRows(rows)
  {
    assert (rows + [row])[..|rows|] == rows;
  }

  lemma InsertKeepsSource(rows: seq<Row>, at: nat, row: Row)
    requires at <= |rows| && row.origin.FromActivity?
    ensures SourceRows(InsertAt(rows, at, row)) == SourceRows(rows)
  {
    hide SourceRows;
    ActivityRowAddsNoSource(rows[..at], row);
    SourceRowsConcat(rows[..at] + [row], rows[at..]);
    SourceRowsConcat(rows[..at], rows[at..]);
    assert rows == rows[..at] + rows[at..];
  }

  lemma {:induction false} MergeKeepsSource(rows: seq<Row>, synthetic: seq<Row>)
    requires forall row | row in synthetic :: row.origin.FromActivity?
    ensures SourceRows(Merge(rows, synthetic)) == SourceRows(rows)
  {
    hide InsertionIndex, SourceRows, InsertAt;
    if synthetic != [] {
      var n := |synthetic| - 1;
      MergeKeepsSource(rows, synthetic[..n]);
      var so, row := Merge(rows, synthetic[..n]), synthetic[n];
      InsertKeepsSource(so, InsertionIndex(EraseAll(so), Erase(row)), row);
    }
  }

  /** An upgraded message keeps its role, its time and its parts; a part changes only into the
      rendering of an activity that matches it. */
  predicate UpgradeOf(row: Row, message: Message, index: nat, activities: seq<ToolActivity>) {
    row.origin == FromSource(index) && row.role == message.role && row.timestamp == message.timestamp
    && |row.parts| == |message.parts|
    && forall i | 0 <= i < |row.parts| ::
         row.parts[i] == Marked(message.parts[i], Plain)
         || exists a | a in activities ::
              MatchesActivity(message.parts[i], a)
              && row.parts[i] == Marked(CallPart(a, message.parts[i].input), Call(a.toolCallId))
  }

  lemma {:induction false} UpgradedParts(parts: seq<Part>, activities: seq<ToolActivity>, used: set<string>)
    ensures var marked := UpgradeParts(parts, activities, used).0;
            |marked| == |parts|
            && forall i | 0 <= i < |marked| ::
                 marked[i] == Marked(parts[i], Plain)
                 || exists a | a in activities ::
                      MatchesActivity(parts[i], a) && marked[i] == Marked(CallPart(a, parts[i].input), Call(a.toolCallId))
  {
    hide MatchesActivity, CallPart;
    if parts != [] {
      var n := |parts| - 1;
      UpgradedParts(parts[..n], activities, used);
      var (earlier, mid) := UpgradeParts(parts[..n], activities, used);
      assert forall i | 0 <= i < n :: UpgradeParts(parts, activities, used).0[i] == earlier[i];
    }
  }

  lemma {:induction false} UpgradedRows(source: seq<Message>, activities: seq<ToolActivity>)
    ensures var rows := UpgradeMessages(source, activities).0;
            |rows| == |source| && SourceRows(rows) == rows
            && forall i | 0 <= i < |rows| :: UpgradeOf(rows[i], source[i], i, activities)
  {
    hide UpgradeParts;
    if source != [] {
      var n := |source| - 1;
      UpgradedRows(source[..n], activities);
      var (earlier, used) := UpgradeMessages(source[..n], activities);
      UpgradedParts(source[n].parts, activities, used);
      var rows := UpgradeMessages(source, activities).0;
      assert rows[..n] == earlier;
    }
  }

  /** Leaving out the rows made for activity gives the source messages, upgraded and in their order. */
  lemma SourceStaysInOrder(source: seq<Message>, activities: seq<ToolActivity>, orphans: seq<SubagentActivity>)
    ensures var kept := SourceRows(TurnRows(source, activities, orphans));
            |kept| == |source| && forall i | 0 <= i < |source| :: UpgradeOf(kept[i], source[i], i, activities)
  {
    hide UpgradeMessages, ActivityRows, UpgradeOf, Merge;
    var (rows, used) := UpgradeMessages(source, activities);
    UpgradedRows(source, activities);
    ActivityRowsAccounted(activities, orphans, used);
    MergeKeepsSource(rows, ActivityRows(activities, orphans, used).rows);
  }

  // ---------- calls before results, subagents after calls ----------

  predicate IsCallRow(row: Row) {
    row.origin.FromActivity? && row.parts != [] && row.parts[0].part.ToolCall?
  }

  /** A call made for activity stands before every message that carries a result for it. */
  ghost predicate CallsComeFirst(rows: seq<Row>) {
    forall p, q | 0 <= p < |rows| && 0 <= q < |rows| && IsCallRow(rows[p])
                  && HasResultFor(Erase(rows[q]), rows[p].parts[0].part) :: p < q
  }

  /** Where a row of the longer list was before the insertion. */
  lemma InsertedAt(rows: seq<Row>, at: nat, row: Row, p: nat)
    requires at <= |rows| && p <= |rows|
    ensures var after := InsertAt(rows, at, row);
            |after| == |rows| + 1
            && after[p] == if p < at then rows[p] else if p == at then row else rows[p - 1]
  {}

  lemma InsertKeepsCallsFirst(rows: seq<Row>, row: Row, index: nat)
    requires CallsComeFirst(rows) && IsActivityRow(row, index)
    ensures CallsComeFirst(Insert(rows, row))
  {
    hide HasResultFor, AfterAgents, TimeIndex, HasCall, Given;
    var at := InsertionIndex(EraseAll(rows), Erase(row));
    var after := Insert(rows, row);
    forall p, q | 0 <= p < |after| && 0 <= q < |after| && IsCallRow(after[p])
                  && HasResultFor(Erase(after[q]), after[p].parts[0].part)
      ensures p < q
    {
      InsertedAt(rows, at, row, p);
      InsertedAt(rows, at, row, q);
      NoResultInActivityRow(row, index, after[p].parts[0].part);
      var q' := if q < at then q else q - 1;
      if p == at {
        CallGoesBeforeResult(rows, row, q');
      } else {
        var p' := if p < at then p else p - 1;
        assert p' < q';
      }
    }
  }

  lemma NoResultInActivityRow(row: Row, index: nat, call: Part)
    requires IsActivityRow(row, index) && call.ToolCall?
    ensures !HasResultFor(Erase(row), call)
  {
    assert Erase(row).parts == [row.parts[0].part];
  }

  lemma CallGoesBeforeResult(rows: seq<Row>, row: Row, q: nat)
    requires IsCallRow(row) && q < |rows| && HasResultFor(Erase(rows[q]), row.parts[0].part)
    ensures InsertionIndex(EraseAll(rows), Erase(row)) <= q
  {
    hide HasResultFor;
    var call := row.parts[0].part;
    assert Erase(row).parts[0] == call;
    assert EraseAll(rows)[q] == Erase(rows[q]);
  }

  lemma {:induction false} MergeKeepsCallsFirst(rows: seq<Row>, synthetic: seq<Row>)
    requires CallsComeFirst(rows) && forall i | 0 <= i < |synthetic| :: IsActivityRow(synthetic[i], i)
    ensures CallsComeFirst(Merge(rows, synthetic))
  {
    hide CallsComeFirst, Insert;
    if synthetic != [] {
      var n := |synthetic| - 1;
      MergeKeepsCallsFirst(rows, synthetic[..n]);
      InsertKeepsCallsFirst(Merge(rows, synthetic[..n]), synthetic[n], n);
    }
  }

  /** In a transcript every call row made for activity stands before all results that match it. */
  lemma CallsPrecedeTheirResults(source: seq<Message>, activities: seq<ToolActivity>, orphans: seq<SubagentActivity>)
    ensures CallsComeFirst(TurnRows(source, activities, orphans))
  {
    hide UpgradeMessages, ActivityRows, Merge, MatchesActivity, CallPart, HasResultFor;
    var (rows, used) := UpgradeMessages(source, activities);
    UpgradedRows(source, activities);
    assert forall i | 0 <= i < |rows| :: UpgradeOf(rows[i], source[i], i, activities) && !IsCallRow(rows[i]);
    ActivityRowsAccounted(activities, orphans, used);
    MergeKeepsCallsFirst(rows, ActivityRows(activities, orphans, used).rows);
  }

  /** The row of the `index`-th piece of activity stands after some row with a call of the given id. */
  ghost predicate StandsAfterCall(rows: seq<Row>, index: nat, parent: string) {
    exists p, q | 0 <= p < q < |rows| :: HasCall(Erase(rows[p]), parent) && rows[q].origin == FromActivity(index)
  }

  ghost predicate ShowsCall(rows: seq<Row>, parent: string) {
    exists p | 0 <= p < |rows| :: HasCall(Erase(rows[p]), parent)
  }

  lemma InsertKeepsOrder(rows: seq<Row>, row: Row, index: nat, parent: string)
    ensures StandsAfterCall(rows, index, parent) ==> StandsAfterCall(Insert(rows, row), index, parent)
    ensures ShowsCall(rows, parent) ==> ShowsCall(Insert(rows, row), parent)
  {
    hide HasCall, InsertionIndex;
    var at := InsertionIndex(EraseAll(rows), Erase(row));
    var after := Insert(rows, row);
    if StandsAfterCall(rows, index, parent) {
      var p, q :| 0 <= p < q < |rows| && HasCall(Erase(rows[p]), parent) && rows[q].origin == FromActivity(index);
      var p', q' := if p < at then p else p + 1, if q < at then q else q + 1;
      assert after[p'] == rows[p] && after[q'] == rows[q];
    }
    if ShowsCall(rows, parent) {
      var p :| 0 <= p < |rows| && HasCall(Erase(rows[p]), parent);
      var p' := if p < at then p else p + 1;
      assert after[p'] == rows[p];
    }
  }

  predicate IsAgentOf(row: Row, parent: string) {
    parent != "" && row.parts != [] && row.parts[0].part.Subagent? && row.parts[0].part.parentToolCallId == Some(parent)
  }

  lemma AgentGoesAfterCall(rows: seq<Row>, row: Row, index: nat, parent: string)
    requires IsAgentOf(row, parent) && row.origin == FromActivity(index) && ShowsCall(rows, parent)
    ensures StandsAfterCall(Insert(rows, row), index, parent)
  {
    hide HasCall, HasResultFor, AfterAgents, TimeIndex;
    var messages := EraseAll(rows);
    var shown :| 0 <= shown < |rows| && HasCall(Erase(rows[shown]), parent);
    assert messages[shown] == Erase(rows[shown]);
    var test := (m: Message) => HasCall(m, parent);
    var call := FindIndex(messages, m => HasCall(m, parent));
    assert call.Some?;
    assert Erase(row).parts[0] == row.parts[0].part;
    var at := InsertionIndex(messages, Erase(row));
    assert at == AfterAgents(messages, parent, call.value + 1);
    var after := Insert(rows, row);
    assert after[call.value] == rows[call.value] && after[at] == row;
  }

  lemma {:induction false} MergeKeepsOrder(rows: seq<Row>, synthetic: seq<Row>, index: nat, parent: string)
    requires index < |synthetic| && synthetic[index].origin == FromActivity(index) && IsAgentOf(synthetic[index], parent)
    requires ShowsCall(Merge(rows, synthetic[..index]), parent)
    ensures StandsAfterCall(Merge(rows, synthetic), index, parent)
  {
    hide StandsAfterCall, ShowsCall, Insert, IsAgentOf;
    var n := |synthetic| - 1;
    if index == n {
      AgentGoesAfterCall(Merge(rows, synthetic[..n]), synthetic[n], n, parent);
    } else {
      assert synthetic[..n][..index] == synthetic[..index];
      MergeKeepsOrder(rows, synthetic[..n], index, parent);
      InsertKeepsOrder(Merge(rows, synthetic[..n]), synthetic[n], index, parent);
    }
  }

  lemma {:induction false} MergeShowsCalls(rows: seq<Row>, synthetic: seq<Row>, parent: string)
    ensures ShowsCall(rows, parent) ==> ShowsCall(Merge(rows, synthetic), parent)
    ensures ShowsCall(synthetic, parent) ==> ShowsCall(Merge(rows, synthetic), parent)
  {
    hide HasCall, InsertionIndex;
    if synthetic != [] {
      var n := |synthetic| - 1;
      MergeShowsCalls(rows, synthetic[..n], parent);
      var so := Merge(rows, synthetic[..n]);
      InsertKeepsOrder(so, synthetic[n], 0, parent);
      var at := InsertionIndex(EraseAll(so), Erase(synthetic[n]));
      assert Insert(so, synthetic[n])[at] == synthetic[n];
      if ShowsCall(synthetic, parent) {
        var p :| 0 <= p < |synthetic| && HasCall(Erase(synthetic[p]), parent);
        if p < n { assert synthetic[..n][p] == synthetic[p]; }
      }
    }
  }

  /** A subagent's row stands after a row with its parent call, if that call is in the source or its
      row is made before the subagent's. */
  lemma SubagentsFollowTheirCalls(source: seq<Message>, activities: seq<ToolActivity>, orphans: seq<SubagentActivity>,
                                  index: nat, parent: string)
    requires var (rows, used) := UpgradeMessages(source, activities);
             var made := ActivityRows(activities, orphans, used).rows;
             index < |made| && IsAgentOf(made[index], parent)
             && (ShowsCall(rows, parent) || ShowsCall(made[..index], parent))
    ensures StandsAfterCall(TurnRows(source, activities, orphans), index, parent)
  {
    hide UpgradeMessages, ActivityRows, ShowsCall, StandsAfterCall, Merge, IsAgentOf;
    var (rows, used) := UpgradeMessages(source, activities);
    var made := ActivityRows(activities, orphans, used).rows;
    ActivityRowsAccounted(activities, orphans, used);
    assert IsActivityRow(made[index], index);
    MergeShowsCalls(rows, made[..index], parent);
    MergeKeepsOrder(rows, made, index, parent);
  }
}
