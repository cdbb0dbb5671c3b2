/** The dashboard transcript of a turn: source messages, upgraded with tool activity, into which the
    activity that they do not show is merged.

    A row is a message together with a record of where it and its parts came from. The record only
    serves to state the results: erasing it gives the messages that the dashboard renders. */
module Transcript {
  import opened Wrappers

  /** What is still told about the input of a redacted tool call. */
  datatype Redaction = Redaction(
    inputKeys: Option<seq<string>>, inputSizeBytes: Option<int>, inputSizeChars: Option<int>, inputType: Option<string>)

  datatype Part =
    | ToolCall(id: Option<string>, name: Option<string>, status: Option<string>, input: Option<string>,
               redaction: Option<Redaction>)
    | ToolResult(id: Option<string>, name: Option<string>, output: Option<string>)
    | Subagent(agentId: string, parentToolCallId: Option<string>, agentKind: string, agentStatus: string,
               outcome: Option<string>, endedAt: Option<string>)
    | OtherPart(text: string)

  datatype Message = Message(role: string, timestamp: Option<int>, parts: seq<Part>)

  datatype SubagentActivity = SubagentActivity(
    id: string, parentToolCallId: Option<string>, kind: string, status: string, createdAt: Option<int>,
    outcome: Option<string>, endedAt: Option<string>)

  datatype ToolActivity = ToolActivity(
    toolCallId: string, toolName: string, status: string, args: Option<string>, redacted: bool,
    inputKeys: Option<seq<string>>, inputSizeBytes: Option<int>, inputSizeChars: Option<int>, inputType: Option<string>,
    createdAt: Option<int>, subagents: seq<SubagentActivity>)

  predicate Given(s: Option<string>) {
    s.Some? && s.value != ""
  }

  /** Two references name the same tool invocation; a missing id is never taken to match. */
  predicate SameInvocation(id: Option<string>, name: Option<string>, otherId: Option<string>, otherName: Option<string>) {
    if Given(id) || Given(otherId) then Given(id) && id == otherId
    else Given(name) && name == otherName
  }

  predicate MatchesActivity(part: Part, a: ToolActivity) {
    part.ToolCall? && SameInvocation(part.id, part.name, Some(a.toolCallId), Some(a.toolName))
  }

  function IfGiven(s: Option<string>): Option<string> {
    if Given(s) then s else None
  }

  function CallPart(a: ToolActivity, existing: Option<string>): Part {
    var input := if existing.Some? then existing else a.args;
    ToolCall(
      Some(a.toolCallId), Some(a.toolName), Some(a.status), if a.redacted then None else input,
      if a.redacted then Some(Redaction(a.inputKeys, a.inputSizeBytes, a.inputSizeChars, IfGiven(a.inputType))) else None)
  }

  function SubagentPart(s: SubagentActivity): Part {
    Subagent(s.id, IfGiven(s.parentToolCallId), s.kind, s.status, IfGiven(s.outcome), IfGiven(s.endedAt))
  }

  /** What tells one subagent from another. */
  datatype Key = Key(parent: string, id: string, kind: string)

  function KeyOf(s: SubagentActivity): Key {
    Key(if s.parentToolCallId.Some? then s.parentToolCallId.value else "", s.id, s.kind)
  }

  // ---------- rows ----------

  datatype Mark = Plain | Call(toolCallId: string) | Agent(key: Key)
  datatype Marked = Marked(part: Part, mark: Mark)
  datatype Origin = FromSource(index: nat) | FromActivity(index: nat)
  datatype Row = Row(role: string, timestamp: Option<int>, parts: seq<Marked>, origin: Origin)

  function PartsOf(marked: seq<Marked>): seq<Part> {
    seq(|marked|, i requires 0 <= i < |marked| => marked[i].part)
  }

  function Erase(row: Row): Message {
    Message(row.role, row.timestamp, PartsOf(row.parts))
  }

  function EraseAll(rows: seq<Row>): seq<Message> {
    seq(|rows|, i requires 0 <= i < |rows| => Erase(rows[i]))
  }

  lemma PartsAppend(marked: seq<Marked>, m: Marked)
    ensures PartsOf(marked + [m]) == PartsOf(marked) + [m.part]
  {}

  lemma SinglePart(m: Marked)
    ensures PartsOf([m]) == [m.part]
  {}

  lemma EraseAppend(rows: seq<Row>, row: Row)
    ensures EraseAll(rows + [row]) == EraseAll(rows) + [Erase(row)]
  {}

  function Occurrences(parts: seq<Marked>, mark: Mark): nat {
    if parts == [] then 0 else (if parts[0].mark == mark then 1 else 0) + Occurrences(parts[1..], mark)
  }

  /** How many parts of the rows render the marked piece of activity. */
  function Renderings(rows: seq<Row>, mark: Mark): nat {
    if rows == [] then 0 else Occurrences(rows[0].parts, mark) + Renderings(rows[1..], mark)
  }

  // ---------- upgrading the source ----------

  /** The first activity that is not used yet and matches the part. */
  function FindActivity(part: Part, activities: seq<ToolActivity>, used: set<string>): (found: Option<ToolActivity>)
    ensures found.Some? ==> found.value in activities && found.value.toolCallId !in used && MatchesActivity(part, found.value)
    ensures found.None? ==> forall a | a in activities :: a.toolCallId in used || !MatchesActivity(part, a)
  {
    if activities == [] then None
    else if activities[0].toolCallId !in used && MatchesActivity(part, activities[0]) then Some(activities[0])
    else FindActivity(part, activities[1..], used)
  }

  function UpgradePart(part: Part, activities: seq<ToolActivity>, used: set<string>): Marked {
    var a := FindActivity(part, activities, used);
    if part.ToolCall? && a.Some? then Marked(CallPart(a.value, part.input), Call(a.value.toolCallId))
    else Marked(part, Plain)
  }

  function Using(m: Marked, used: set<string>): set<string> {
    if m.mark.Call? then used + {m.mark.toolCallId} else used
  }

  function UpgradeParts(parts: seq<Part>, activities: seq<ToolActivity>, used: set<string>): (seq<Marked>, set<string>) {
    if parts == [] then ([], used)
    else
      var (earlier, mid) := UpgradeParts(parts[..|parts| - 1], activities, used);
      var m := UpgradePart(parts[|parts| - 1], activities, mid);
      (earlier + [m], Using(m, mid))
  }

  function UpgradeMessages(messages: seq<Message>, activities: seq<ToolActivity>): (seq<Row>, set<string>) {
    if messages == [] then ([], {})
    else
      var n := |messages| - 1;
      var (earlier, used) := UpgradeMessages(messages[..n], activities);
      var (parts, now) := UpgradeParts(messages[n].parts, activities, used);
      (earlier + [Row(messages[n].role, messages[n].timestamp, parts, FromSource(n))], now)
  }

  /** The upgrade loop as the program runs it. */
  method UpgradeToolCalls(messages: seq<Message>, activities: seq<ToolActivity>)
    returns (upgraded: seq<Message>, usedToolCallIds: set<string>)
    ensures var (rows, used) := UpgradeMessages(messages, activities); upgraded == EraseAll(rows) && usedToolCallIds == used
  {
    upgraded, usedToolCallIds := [], {};
    var i := 0;
    while i < |messages|
      invariant 0 <= i <= |messages|
      invariant upgraded == EraseAll(UpgradeMessages(messages[..i], activities).0)
      invariant usedToolCallIds == UpgradeMessages(messages[..i], activities).1
    {
      ghost var before := usedToolCallIds;
      var source := messages[i].parts;
      var parts: seq<Part> := [];
      var j := 0;
      while j < |source|
        invariant 0 <= j <= |source|
        invariant parts == PartsOf(UpgradeParts(source[..j], activities, before).0)
        invariant usedToolCallIds == UpgradeParts(source[..j], activities, before).1
      {
        assert source[..j + 1][..j] == source[..j];
        var part := source[j];
        PartsAppend(UpgradeParts(source[..j], activities, before).0, UpgradePart(part, activities, usedToolCallIds));
        var found := FindActivity(part, activities, usedToolCallIds);
        if part.ToolCall? && found.Some? {
          usedToolCallIds := usedToolCallIds + {found.value.toolCallId};
          parts := parts + [CallPart(found.value, part.input)];
        } else {
          parts := parts + [part];
        }
        j := j + 1;
      }
      assert source[..j] == source && messages[..i + 1][..i] == messages[..i];
      EraseAppend(UpgradeMessages(messages[..i], activities).0,
                  Row(messages[i].role, messages[i].timestamp, UpgradeParts(source, activities, before).0, FromSource(i)));
      upgraded := upgraded + [Message(messages[i].role, messages[i].timestamp, parts)];
      i := i + 1;
    }
    assert messages[..i] == messages;
  }

  // ---------- activity rows ----------

  function CallRow(a: ToolActivity, index: nat): Row {
    Row("tool", a.createdAt, [Marked(CallPart(a, None), Call(a.toolCallId))], FromActivity(index))
  }

  function AgentRow(s: SubagentActivity, index: nat): Row {
    Row("tool", s.createdAt, [Marked(SubagentPart(s), Agent(KeyOf(s)))], FromActivity(index))
  }

  /** The rows made so far, with the tool calls and subagents they show or that the source shows. */
  datatype Emitted = Emitted(rows: seq<Row>, calls: set<string>, agents: set<Key>)

  function EmitAgent(e: Emitted, s: SubagentActivity): Emitted {
    if KeyOf(s) in e.agents then e
    else Emitted(e.rows + [AgentRow(s, |e.rows|)], e.calls, e.agents + {KeyOf(s)})
  }

  function EmitAgents(e: Emitted, agents: seq<SubagentActivity>): Emitted {
    if agents == [] then e else EmitAgent(EmitAgents(e, agents[..|agents| - 1]), agents[|agents| - 1])
  }

  function EmitCall(e: Emitted, a: ToolActivity): Emitted {
    if a.toolCallId in e.calls then e
    else Emitted(e.rows + [CallRow(a, |e.rows|)], e.calls + {a.toolCallId}, e.agents)
  }

  function EmitActivities(e: Emitted, activities: seq<ToolActivity>): Emitted {
    if activities == [] then e
    else
      var last := activities[|activities| - 1];
      EmitAgents(EmitCall(EmitActivities(e, activities[..|activities| - 1]), last), last.subagents)
  }

  function ActivityRows(activities: seq<ToolActivity>, orphans: seq<SubagentActivity>, used: set<string>): Emitted {
    EmitAgents(EmitActivities(Emitted([], used, {}), activities), orphans)
  }

  /** The loops that build the rows for activity that the source does not show. */
  method SyntheticMessages(activities: seq<ToolActivity>, orphans: seq<SubagentActivity>, used: set<string>)
    returns (messages: seq<Message>)
    ensures messages == EraseAll(ActivityRows(activities, orphans, used).rows)
  {
    messages := [];
    var calls, agents: set<Key> := used, {};
    ghost var e := Emitted([], used, {});
    ghost var start := e;
    var i := 0;
    while i < |activities|
      invariant 0 <= i <= |activities| && e == EmitActivities(start, activities[..i])
      invariant messages == EraseAll(e.rows) && calls == e.calls && agents == e.agents
    {
      assert activities[..i + 1][..i] == activities[..i];
      var a := activities[i];
      if a.toolCallId !in calls {
        messages := messages + [Message("tool", a.createdAt, [CallPart(a, None)])];
        calls := calls + {a.toolCallId};
      }
      EraseAppend(e.rows, CallRow(a, |e.rows|));
      SinglePart(Marked(CallPart(a, None), Call(a.toolCallId)));
      e := EmitCall(e, a);
      messages, agents, e := AppendAgents(messages, agents, a.subagents, e);
      i := i + 1;
    }
    assert activities[..i] == activities;
    messages, agents, e := AppendAgents(messages, agents, orphans, e);
  }

  method AppendAgents(messages: seq<Message>, agents: set<Key>, subagents: seq<SubagentActivity>, ghost e: Emitted)
    returns (messages': seq<Message>, agents': set<Key>, ghost e': Emitted)
    requires messages == EraseAll(e.rows) && agents == e.agents
    ensures e' == EmitAgents(e, subagents) && messages' == EraseAll(e'.rows) && agents' == e'.agents
    ensures e'.calls == e.calls
  {
    messages', agents', e' := messages, agents, e;
    var j := 0;
    while j < |subagents|
      invariant 0 <= j <= |subagents| && e' == EmitAgents(e, subagents[..j])
      invariant messages' == EraseAll(e'.rows) && agents' == e'.agents && e'.calls == e.calls
    {
      assert subagents[..j + 1][..j] == subagents[..j];
      var s := subagents[j];
      j := j + 1;
      EraseAppend(e'.rows, AgentRow(s, |e'.rows|));
      SinglePart(Marked(SubagentPart(s), Agent(KeyOf(s))));
      e' := EmitAgent(e', s);
      if KeyOf(s) in agents' {
        continue;
      }
      messages' := messages' + [Message("tool", s.createdAt, [SubagentPart(s)])];
      agents' := agents' + {KeyOf(s)};
    }
    assert subagents[..j] == subagents;
  }

  // ---------- where a row goes ----------

  predicate HasResultFor(m: Message, call: Part)
    requires call.ToolCall?
  {
    exists i | 0 <= i < |m.parts| ::
      m.parts[i].ToolResult? && SameInvocation(m.parts[i].id, m.parts[i].name, call.id, call.name)
  }

  predicate HasCall(m: Message, id: string) {
    exists i | 0 <= i < |m.parts| :: m.parts[i].ToolCall? && m.parts[i].id == Some(id)
  }

  predicate HasAgentOf(m: Message, parent: string) {
    exists i | 0 <= i < |m.parts| :: m.parts[i].Subagent? && m.parts[i].parentToolCallId == Some(parent)
  }

  predicate Later(m: Message, timestamp: int) {
    m.timestamp.Some? && m.timestamp.value > timestamp
  }

  /** The index of the first message that satisfies a test. */
  function FindIndex(messages: seq<Message>, test: Message -> bool): (found: Option<nat>)
    ensures found.Some? ==> found.value < |messages| && test(messages[found.value])
                            && forall j | 0 <= j < found.value :: !test(messages[j])
    ensures found.None? ==> forall j | 0 <= j < |messages| :: !test(messages[j])
  {
    if messages == [] then None
    else if test(messages[0]) then Some(0)
    else
      var rest := FindIndex(messages[1..], test);
      if rest.None? then None else Some(rest.value + 1)
  }

  /** The end of the run of subagents of `parent` that starts at `i`. */
  function AfterAgents(messages: seq<Message>, parent: string, i: nat): (end: nat)
    requires i <= |messages|
    ensures i <= end <= |messages|
    decreases |messages| - i
  {
    if i < |messages| && HasAgentOf(messages[i], parent) then AfterAgents(messages, parent, i + 1) else i
  }

  method SubagentInsertionIndex(messages: seq<Message>, parent: string) returns (found: Option<nat>)
    ensures var call := FindIndex(messages, m => HasCall(m, parent));
            found == if call.None? then None else Some(AfterAgents(messages, parent, call.value + 1))
  {
    var call := FindIndex(messages, m => HasCall(m, parent));
    if call.None? {
      return None;
    }
    var index := call.value + 1;
    while index < |messages| && HasAgentOf(messages[index], parent)
      invariant call.value + 1 <= index <= |messages|
      invariant AfterAgents(messages, parent, call.value + 1) == AfterAgents(messages, parent, index)
    {
      index := index + 1;
    }
    found := Some(index);
  }

  function TimeIndex(messages: seq<Message>, timestamp: Option<int>): (index: nat)
    ensures index <= |messages|
  {
    if timestamp.None? then |messages|
    else
      var later := FindIndex(messages, m => Later(m, timestamp.value));
      if later.None? then |messages| else later.value
  }

  function InsertionIndex(messages: seq<Message>, message: Message): (index: nat)
    ensures index <= |messages|
  {
    if message.parts != [] && message.parts[0].ToolCall? then
      var call := message.parts[0];
      var result := FindIndex(messages, m => HasResultFor(m, call));
      if result.Some? then result.value else TimeIndex(messages, message.timestamp)
    else if message.parts != [] && message.parts[0].Subagent? && Given(message.parts[0].parentToolCallId) then
      var parent := message.parts[0].parentToolCallId.value;
      var call := FindIndex(messages, m => HasCall(m, parent));
      if call.Some? then AfterAgents(messages, parent, call.value + 1) else TimeIndex(messages, message.timestamp)
    else TimeIndex(messages, message.timestamp)
  }

  function InsertAt<T>(s: seq<T>, index: nat, x: T): seq<T>
    requires index <= |s|
  {
    s[..index] + [x] + s[index..]
  }

  lemma EraseInsert(rows: seq<Row>, index: nat, row: Row)
    requires index <= |rows|
    ensures EraseAll(InsertAt(rows, index, row)) == InsertAt(EraseAll(rows), index, Erase(row))
  {}

  function Insert(rows: seq<Row>, row: Row): seq<Row> {
    InsertAt(rows, InsertionIndex(EraseAll(rows), Erase(row)), row)
  }

  function Merge(rows: seq<Row>, synthetic: seq<Row>): seq<Row> {
    if synthetic == [] then rows
    else Insert(Merge(rows, synthetic[..|synthetic| - 1]), synthetic[|synthetic| - 1])
  }

  /** The splicing loop: it inserts the messages one by one into a growing transcript. */
  method MergeMessages(messages: seq<Message>, synthetic: seq<Message>, ghost rows: seq<Row>, ghost extra: seq<Row>)
    returns (merged: seq<Message>)
    requires messages == EraseAll(rows) && synthetic == EraseAll(extra)
    ensures merged == EraseAll(Merge(rows, extra))
  {
    hide InsertionIndex, Erase;
    merged := messages;
    var i := 0;
    while i < |synthetic|
      invariant 0 <= i <= |synthetic| && merged == EraseAll(Merge(rows, extra[..i]))
    {
      assert extra[..i + 1][..i] == extra[..i];
      ghost var so := Merge(rows, extra[..i]);
      var index := InsertionIndex(merged, synthetic[i]);
      EraseInsert(so, index, extra[i]);
      merged := merged[..index] + [synthetic[i]] + merged[index..];
      i := i + 1;
    }
    assert extra[..i] == extra;
  }

  function TurnRows(source: seq<Message>, activities: seq<ToolActivity>, orphans: seq<SubagentActivity>): seq<Row> {
    var (rows, used) := UpgradeMessages(source, activities);
    Merge(rows, ActivityRows(activities, orphans, used).rows)
  }

  /** The transcript of a turn. */
  method TurnTranscriptMessages(source: seq<Message>, activities: seq<ToolActivity>, orphans: seq<SubagentActivity>)
    returns (messages: seq<Message>)
    ensures messages == EraseAll(TurnRows(source, activities, orphans))
  {
    if |activities| == 0 && |orphans| == 0 {
      NothingToAdd(source);
      return source;
    }
    var upgraded, used := UpgradeToolCalls(source, activities);
    var synthetic := SyntheticMessages(activities, orphans, used);
    messages := MergeMessages(
      upgraded, synthetic, UpgradeMessages(source, activities).0, ActivityRows(activities, orphans, used).rows);
  }

  lemma {:induction false} NothingToAddToParts(parts: seq<Part>, used: set<string>)
    ensures PartsOf(UpgradeParts(parts, [], used).0) == parts && UpgradeParts(parts, [], used).1 == used
  {
    if parts != [] { NothingToAddToParts(parts[..|parts| - 1], used); }
  }

  lemma {:induction false} NothingToAdd(source: seq<Message>)
    ensures EraseAll(UpgradeMessages(source, []).0) == source && UpgradeMessages(source, []).1 == {}
  {
    if source != [] {
      NothingToAdd(source[..|source| - 1]);
      NothingToAddToParts(source[|source| - 1].parts, {});
    }
  }
}
