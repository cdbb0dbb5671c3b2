/** What a transcript shows of the activity: which source parts are upgraded, which rows are made, and in what order. */
module TranscriptActivity {
  import opened Wrappers
  import opened Transcript
  import opened TranscriptResults
  import opened TranscriptOrder

  // ---------- the parts that show activity ----------

  function Shown(s: Option<string>): Option<string> {
    if s == Some("") then None else s
  }

  /** A tool call as the dashboard shows it: with the input of the source or else of the activity, and with nothing but
      the shape of the input if the activity is redacted. */
  function ShownCall(a: ToolActivity, input: Option<string>): Marked {
    var part :=
      if a.redacted then
        ToolCall(Some(a.toolCallId), Some(a.toolName), Some(a.status), None,
                 Some(Redaction(a.inputKeys, a.inputSizeBytes, a.inputSizeChars, Shown(a.inputType))))
      else
        ToolCall(Some(a.toolCallId), Some(a.toolName), Some(a.status), if input == None then a.args else input, None);
    Marked(part, Call(a.toolCallId))
  }

  function AgentKey(s: SubagentActivity): Key {
    Key(match s.parentToolCallId case Some(parent) => parent case None => "", s.id, s.kind)
  }

  function ShownAgent(s: SubagentActivity): Marked {
    Marked(Subagent(s.id, Shown(s.parentToolCallId), s.kind, s.status, Shown(s.outcome), Shown(s.endedAt)), Agent(AgentKey(s)))
  }

  // ---------- upgrading the source ----------

  predicate Fits(part: Part, a: ToolActivity) {
    part.ToolCall? && SameCall(part.id, part.name, Some(a.toolCallId), Some(a.toolName))
  }

  /** An earlier part of the transcript shows the call. */
  ghost predicate ShownBefore(rows: seq<Row>, i: nat, k: nat, id: string) {
    exists i', k' | 0 <= i' < |rows| && 0 <= k' < |rows[i'].parts| ::
      (i' < i || (i' == i && k' < k)) && rows[i'].parts[k'].mark == Call(id)
  }

  /** The first activity that fits a part and that no earlier part shows. */
  ghost predicate Chosen(rows: seq<Row>, i: nat, k: nat, part: Part, activities: seq<ToolActivity>, n: nat) {
    && n < |activities| && Fits(part, activities[n]) && !ShownBefore(rows, i, k, activities[n].toolCallId)
    && forall m | 0 <= m < n :: Fits(part, activities[m]) ==> ShownBefore(rows, i, k, activities[m].toolCallId)
  }

  ghost function CallsIn(marked: seq<Marked>): set<string> {
    set m | m in marked && m.mark.Call? :: m.mark.toolCallId
  }

  ghost function CallsInRows(rows: seq<Row>): set<string> {
    set row, m | row in rows && m in row.parts && m.mark.Call? :: m.mark.toolCallId
  }

  lemma {:induction false} FirstIsFound(part: Part, activities: seq<ToolActivity>, used: set<string>, n: nat)
    requires n < |activities| && Fits(part, activities[n]) && activities[n].toolCallId !in used
    requires forall m | 0 <= m < n :: Fits(part, activities[m]) ==> activities[m].toolCallId in used
    ensures FindActivity(part, activities, used) == Some(activities[n])
  {
    SameInvocationFits(part, activities[0]);
    if n > 0 { FirstIsFound(part, activities[1..], used, n - 1); }
  }

  lemma SameInvocationFits(part: Part, a: ToolActivity)
    ensures MatchesActivity(part, a) <==> Fits(part, a)
  {
    if part.ToolCall? { SameInvocationIff(part.id, part.name, Some(a.toolCallId), Some(a.toolName)); }
  }

  lemma OneMoreCallIn(earlier: seq<Marked>, m: Marked, used: set<string>)
    ensures Using(m, used + CallsIn(earlier)) == used + CallsIn(earlier + [m])
  {
    assert forall x :: x in earlier + [m] <==> x in earlier || x == m;
  }

  lemma PrefixesStay<T>(earlier: seq<T>, x: T)
    ensures forall k | 0 <= k <= |earlier| :: (earlier + [x])[..k] == earlier[..k]
  {}

  lemma {:induction false} PartsAreUpgradedInOrder(parts: seq<Part>, activities: seq<ToolActivity>, used: set<string>)
    ensures var (marked, now) := UpgradeParts(parts, activities, used);
            && |marked| == |parts| && now == used + CallsIn(marked)
            && forall k | 0 <= k < |parts| :: marked[k] == UpgradePart(parts[k], activities, used + CallsIn(marked[..k]))
  {
    hide UpgradePart, CallsIn, Using;
    if parts == [] {
      NoCallsIn(used);
    } else {
      var n := |parts| - 1;
      var (earlier, mid) := UpgradeParts(parts[..n], activities, used);
      PartsAreUpgradedInOrder(parts[..n], activities, used);
      var m := UpgradePart(parts[n], activities, mid);
      OneMoreCallIn(earlier, m, used);
      PrefixesStay(earlier, m);
      assert earlier[..n] == earlier;
    }
  }

  lemma NoCallsIn(used: set<string>)
    ensures used == used + CallsIn([]) && CallsInRows([]) == {}
  {}

  lemma OneMoreRowIn(earlier: seq<Row>, row: Row)
    ensures CallsInRows(earlier + [row]) == CallsInRows(earlier) + CallsIn(row.parts)
  {
    assert forall x :: x in earlier + [row] <==> x in earlier || x == row;
  }

  lemma {:induction false} MessagesAreUpgradedInOrder(source: seq<Message>, activities: seq<ToolActivity>)
    ensures var (rows, used) := UpgradeMessages(source, activities);
            && |rows| == |source| && used == CallsInRows(rows)
            && forall i | 0 <= i < |rows| ::
                 rows[i] == Row(source[i].role, source[i].timestamp,
                                UpgradeParts(source[i].parts, activities, CallsInRows(rows[..i])).0, FromSource(i))
  {
    hide UpgradeParts, CallsIn, CallsInRows;
    if source == [] {
      NoCallsIn({});
    } else {
      var n := |source| - 1;
      var (earlier, used) := UpgradeMessages(source[..n], activities);
      MessagesAreUpgradedInOrder(source[..n], activities);
      PartsAreUpgradedInOrder(source[n].parts, activities, used);
      var row := Row(source[n].role, source[n].timestamp, UpgradeParts(source[n].parts, activities, used).0, FromSource(n));
      OneMoreRowIn(earlier, row);
      PrefixesStay(earlier, row);
      assert earlier[..n] == earlier;
    }
  }

  lemma ShownBeforeIff(rows: seq<Row>, i: nat, k: nat, id: string)
    requires i < |rows| && k <= |rows[i].parts|
    ensures ShownBefore(rows, i, k, id) <==> id in CallsInRows(rows[..i]) + CallsIn(rows[i].parts[..k])
  {
    if id in CallsInRows(rows[..i]) {
      var row, m :| row in rows[..i] && m in row.parts && m.mark.Call? && m.mark.toolCallId == id;
      var i' :| 0 <= i' < i && rows[i'] == row;
      var k' :| 0 <= k' < |row.parts| && row.parts[k'] == m;
      assert rows[i'].parts[k'].mark == Call(id);
    }
    if id in CallsIn(rows[i].parts[..k]) {
      var m :| m in rows[i].parts[..k] && m.mark.Call? && m.mark.toolCallId == id;
      var k' :| 0 <= k' < k && rows[i].parts[k'] == m;
      assert rows[i].parts[k'].mark == Call(id);
    }
    if ShownBefore(rows, i, k, id) {
      var i', k' :| 0 <= i' < |rows| && 0 <= k' < |rows[i'].parts| && (i' < i || (i' == i && k' < k))
                    && rows[i'].parts[k'].mark == Call(id);
      if i' < i {
        assert rows[i'] in rows[..i] && rows[i'].parts[k'] in rows[i'].parts;
      } else {
        assert rows[i].parts[k'] in rows[i].parts[..k];
      }
    }
  }

  /** Each part of the source is upgraded by the first activity that fits it and that no earlier part shows; without one
      it stays as it is. */
  lemma UpgradeIsGreedy(source: seq<Message>, activities: seq<ToolActivity>, i: nat, k: nat)
    requires i < |source| && k < |source[i].parts|
    ensures var rows, part := UpgradeMessages(source, activities).0, source[i].parts[k];
            && |rows| == |source| && |rows[i].parts| == |source[i].parts|
            && (forall n: nat | Chosen(rows, i, k, part, activities, n) :: rows[i].parts[k] == ShownCall(activities[n], part.input))
            && ((forall n: nat :: !Chosen(rows, i, k, part, activities, n)) ==> rows[i].parts[k] == Marked(part, Plain))
  {
    hide UpgradeMessages, UpgradeParts, ShownBefore, CallsInRows, CallsIn;
    var rows, part := UpgradeMessages(source, activities).0, source[i].parts[k];
    MessagesAreUpgradedInOrder(source, activities);
    var used := CallsInRows(rows[..i]);
    PartsAreUpgradedInOrder(source[i].parts, activities, used);
    var now := used + CallsIn(rows[i].parts[..k]);
    forall id ensures ShownBefore(rows, i, k, id) <==> id in now { ShownBeforeIff(rows, i, k, id); }
    forall n: nat | Chosen(rows, i, k, part, activities, n) ensures FindActivity(part, activities, now) == Some(activities[n]) {
      FirstIsFound(part, activities, now, n);
    }
    if FindActivity(part, activities, now).Some? {
      var n := SomeFirst(part, activities, now);
      assert Chosen(rows, i, k, part, activities, n);
    }
  }

  lemma {:induction false} SomeFirst(part: Part, activities: seq<ToolActivity>, used: set<string>) returns (n: nat)
    requires FindActivity(part, activities, used).Some?
    ensures n < |activities| && Fits(part, activities[n]) && activities[n].toolCallId !in used
    ensures forall m | 0 <= m < n :: Fits(part, activities[m]) ==> activities[m].toolCallId in used
  {
    SameInvocationFits(part, activities[0]);
    if activities[0].toolCallId !in used && Fits(part, activities[0]) {
      n := 0;
    } else {
      var rest := SomeFirst(part, activities[1..], used);
      n := rest + 1;
    }
  }

  // ---------- rows made for activity ----------

  datatype Piece = CallPiece(activity: ToolActivity) | AgentPiece(agent: SubagentActivity)

  function AgentPieces(agents: seq<SubagentActivity>): seq<Piece> {
    seq(|agents|, i requires 0 <= i < |agents| => AgentPiece(agents[i]))
  }

  function CallPieces(activities: seq<ToolActivity>): seq<Piece> {
    if activities == [] then []
    else
      var last := activities[|activities| - 1];
      CallPieces(activities[..|activities| - 1]) + ([CallPiece(last)] + AgentPieces(last.subagents))
  }

  /** The activity of a turn in its order: each call before its subagents, and subagents without a call at the end. */
  function Pieces(activities: seq<ToolActivity>, orphans: seq<SubagentActivity>): seq<Piece> {
    CallPieces(activities) + AgentPieces(orphans)
  }

  function MarkOf(piece: Piece): Mark {
    match piece
    case CallPiece(a) => Call(a.toolCallId)
    case AgentPiece(s) => Agent(AgentKey(s))
  }

  function RowOf(piece: Piece, i: nat): Row {
    match piece
    case CallPiece(a) => Row("tool", a.createdAt, [ShownCall(a, None)], FromActivity(i))
    case AgentPiece(s) => Row("tool", s.createdAt, [ShownAgent(s)], FromActivity(i))
  }

  /** Neither an earlier piece nor the source shows the same. */
  ghost predicate IsNew(pieces: seq<Piece>, n: nat, used: set<string>) {
    && n < |pieces|
    && (forall m | 0 <= m < n :: MarkOf(pieces[m]) != MarkOf(pieces[n]))
    && (pieces[n].CallPiece? ==> pieces[n].activity.toolCallId !in used)
  }

  /** `rows` are made for the new pieces, which are at the places `at`, in their order. */
  ghost predicate MadeFor(rows: seq<Row>, pieces: seq<Piece>, used: set<string>, at: seq<nat>) {
    && |at| == |rows| && (forall i, j | 0 <= i < j < |at| :: at[i] < at[j])
    && (forall i | 0 <= i < |at| :: IsNew(pieces, at[i], used) && rows[i] == RowOf(pieces[at[i]], i))
    && (forall n: nat | IsNew(pieces, n, used) :: n in at)
  }

  ghost predicate Shows(pieces: seq<Piece>, mark: Mark) {
    exists m | 0 <= m < |pieces| :: MarkOf(pieces[m]) == mark
  }

  ghost predicate Remembers(e: Emitted, pieces: seq<Piece>, used: set<string>) {
    && (forall id :: id in e.calls <==> id in used || Shows(pieces, Call(id)))
    && (forall key :: key in e.agents <==> Shows(pieces, Agent(key)))
  }

  function EmitPiece(e: Emitted, piece: Piece): Emitted {
    match piece
    case CallPiece(a) => EmitCall(e, a)
    case AgentPiece(s) => EmitAgent(e, s)
  }

  lemma StillNew(pieces: seq<Piece>, used: set<string>, piece: Piece, n: nat)
    requires n < |pieces|
    ensures IsNew(pieces + [piece], n, used) <==> IsNew(pieces, n, used)
  {
    assert forall m | 0 <= m <= n :: (pieces + [piece])[m] == pieces[m];
  }

  lemma OneMoreIsMade(rows: seq<Row>, pieces: seq<Piece>, used: set<string>, at: seq<nat>, piece: Piece) returns (at': seq<nat>)
    requires MadeFor(rows, pieces, used, at)
    ensures var after := pieces + [piece];
            MadeFor(if IsNew(after, |pieces|, used) then rows + [RowOf(piece, |rows|)] else rows, after, used, at')
  {
    hide IsNew, RowOf;
    var after := pieces + [piece];
    forall i | 0 <= i < |at| ensures at[i] < |pieces| && after[at[i]] == pieces[at[i]] && IsNew(after, at[i], used) {
      OnlyPiecesAreNew(pieces, at[i], used);
      StillNew(pieces, used, piece, at[i]);
    }
    forall n: nat | IsNew(after, n, used) ensures n == |pieces| || n in at {
      OnlyPiecesAreNew(after, n, used);
      if n < |pieces| { StillNew(pieces, used, piece, n); }
    }
    at' := if IsNew(after, |pieces|, used) then at + [|pieces|] else at;
    if IsNew(after, |pieces|, used) {
      PlacesOfOneMore(rows, pieces, used, at, after);
    }
  }

  lemma PlacesOfOneMore(rows: seq<Row>, pieces: seq<Piece>, used: set<string>, at: seq<nat>, after: seq<Piece>)
    requires |after| == |pieces| + 1 && |at| == |rows| && forall i, j | 0 <= i < j < |at| :: at[i] < at[j]
    requires forall i | 0 <= i < |at| :: at[i] < |pieces| && IsNew(after, at[i], used) && rows[i] == RowOf(after[at[i]], i)
    requires IsNew(after, |pieces|, used) && forall n: nat | IsNew(after, n, used) :: n == |pieces| || n in at
    ensures MadeFor(rows + [RowOf(after[|pieces|], |rows|)], after, used, at + [|pieces|])
  {
    hide IsNew, RowOf;
    var at' := at + [|pieces|];
    forall n: nat | IsNew(after, n, used) ensures n in at' {
      assert n == |pieces| || n in at;
    }
  }

  lemma OnlyPiecesAreNew(pieces: seq<Piece>, n: nat, used: set<string>)
    requires IsNew(pieces, n, used)
    ensures n < |pieces|
  {}

  lemma NewPiecesAreEmitted(e: Emitted, pieces: seq<Piece>, used: set<string>, piece: Piece)
    requires Remembers(e, pieces, used)
    ensures EmitPiece(e, piece).rows ==
            if IsNew(pieces + [piece], |pieces|, used) then e.rows + [RowOf(piece, |e.rows|)] else e.rows
  {
    assert (pieces + [piece])[|pieces|] == piece;
    assert forall m | 0 <= m < |pieces| :: (pieces + [piece])[m] == pieces[m];
    assert MarkOf(piece) == if piece.CallPiece? then Call(piece.activity.toolCallId) else Agent(KeyOf(piece.agent));
  }

  lemma RemembersOneMore(e: Emitted, pieces: seq<Piece>, used: set<string>, piece: Piece)
    requires Remembers(e, pieces, used)
    ensures Remembers(EmitPiece(e, piece), pieces + [piece], used)
  {
    var after := pieces + [piece];
    assert after[|pieces|] == piece;
    assert forall m | 0 <= m < |pieces| :: after[m] == pieces[m];
    forall mark ensures Shows(after, mark) <==> MarkOf(piece) == mark || Shows(pieces, mark) {
      if m :| 0 <= m < |pieces| && MarkOf(pieces[m]) == mark { assert MarkOf(after[m]) == mark; }
    }
  }

  lemma OneMorePiece(e: Emitted, pieces: seq<Piece>, used: set<string>, at: seq<nat>, piece: Piece) returns (at': seq<nat>)
    requires MadeFor(e.rows, pieces, used, at) && Remembers(e, pieces, used)
    ensures MadeFor(EmitPiece(e, piece).rows, pieces + [piece], used, at')
    ensures Remembers(EmitPiece(e, piece), pieces + [piece], used)
  {
    hide MadeFor, Remembers, EmitPiece, IsNew, RowOf;
    RemembersOneMore(e, pieces, used, piece);
    NewPiecesAreEmitted(e, pieces, used, piece);
    at' := OneMoreIsMade(e.rows, pieces, used, at, piece);
  }

  lemma {:induction false} AgentsAreEmitted(e: Emitted, pieces: seq<Piece>, used: set<string>, at: seq<nat>, agents: seq<SubagentActivity>)
    returns (at': seq<nat>)
    requires MadeFor(e.rows, pieces, used, at) && Remembers(e, pieces, used)
    ensures MadeFor(EmitAgents(e, agents).rows, pieces + AgentPieces(agents), used, at')
    ensures Remembers(EmitAgents(e, agents), pieces + AgentPieces(agents), used)
    decreases agents
  {
    hide MadeFor, Remembers, EmitAgent;
    if agents == [] {
      assert pieces + AgentPieces(agents) == pieces;
      at' := at;
    } else {
      var n := |agents| - 1;
      var mid := AgentsAreEmitted(e, pieces, used, at, agents[..n]);
      assert pieces + AgentPieces(agents) == pieces + AgentPieces(agents[..n]) + [AgentPiece(agents[n])];
      at' := OneMorePiece(EmitAgents(e, agents[..n]), pieces + AgentPieces(agents[..n]), used, mid, AgentPiece(agents[n]));
    }
  }

  lemma {:induction false} CallsAreEmitted(activities: seq<ToolActivity>, used: set<string>) returns (at: seq<nat>)
    ensures var e := EmitActivities(Emitted([], used, {}), activities);
            MadeFor(e.rows, CallPieces(activities), used, at) && Remembers(e, CallPieces(activities), used)
    decreases activities
  {
    hide EmitCall, EmitAgents;
    if activities == [] {
      at := [];
    } else {
      hide MadeFor, Remembers;
      var n := |activities| - 1;
      var last, e := activities[n], EmitActivities(Emitted([], used, {}), activities[..n]);
      var before := CallsAreEmitted(activities[..n], used);
      var mid := OneMorePiece(e, CallPieces(activities[..n]), used, before, CallPiece(last));
      at := AgentsAreEmitted(EmitCall(e, last), CallPieces(activities[..n]) + [CallPiece(last)], used, mid, last.subagents);
      assert CallPieces(activities) == CallPieces(activities[..n]) + [CallPiece(last)] + AgentPieces(last.subagents);
    }
  }

  /** The rows made for activity are those of its new pieces, in the order of the pieces: one row of role `tool`, with the
      time of its piece, for each call and subagent that neither the source nor an earlier piece shows. */
  lemma RowsAreMadeInOrder(activities: seq<ToolActivity>, orphans: seq<SubagentActivity>, used: set<string>) returns (at: seq<nat>)
    ensures MadeFor(ActivityRows(activities, orphans, used).rows, Pieces(activities, orphans), used, at)
  {
    hide EmitActivities, EmitAgents, MadeFor, Remembers;
    var calls := CallsAreEmitted(activities, used);
    at := AgentsAreEmitted(EmitActivities(Emitted([], used, {}), activities), CallPieces(activities), used, calls, orphans);
  }

  // ---------- subagents follow their calls ----------

  /** Subagents that name a parent call are listed under the activity of that call. */
  ghost predicate NestedUnderTheirCalls(activities: seq<ToolActivity>) {
    forall a, s | a in activities && s in a.subagents && s.parentToolCallId.Some? && s.parentToolCallId.value != "" ::
      s.parentToolCallId.value == a.toolCallId
  }

  /** Where the pieces of an activity are: its call, and its subagents behind it. */
  lemma {:induction false} CallStandsBeforeAgents(activities: seq<ToolActivity>, n: nat) returns (m: nat, a: ToolActivity)
    requires n < |CallPieces(activities)| && CallPieces(activities)[n].AgentPiece?
    ensures m < n && CallPieces(activities)[m] == CallPiece(a) && a in activities && CallPieces(activities)[n].agent in a.subagents
    decreases activities
  {
    var k := |activities| - 1;
    var before, last := CallPieces(activities[..k]), activities[k];
    if n < |before| {
      m, a := CallStandsBeforeAgents(activities[..k], n);
    } else {
      m, a := |before|, last;
      assert CallPieces(activities)[n] == ([CallPiece(last)] + AgentPieces(last.subagents))[n - |before|];
    }
  }

  lemma {:induction false} AgentsHavePieces(activities: seq<ToolActivity>, key: Key) returns (n: nat)
    requires key in AllKeys(activities)
    ensures n < |CallPieces(activities)| && MarkOf(CallPieces(activities)[n]) == Agent(key)
    decreases activities
  {
    var a, s :| a in activities && s in a.subagents && KeyOf(s) == key;
    var k := |activities| - 1;
    var before, last := CallPieces(activities[..k]), activities[k];
    if s in last.subagents {
      var i :| 0 <= i < |last.subagents| && last.subagents[i] == s;
      n := |before| + 1 + i;
      assert CallPieces(activities)[n] == ([CallPiece(last)] + AgentPieces(last.subagents))[1 + i];
    } else {
      assert a in activities[..k];
      n := AgentsHavePieces(activities[..k], key);
    }
  }

  lemma {:induction false} FirstWithMark(pieces: seq<Piece>, mark: Mark, n: nat) returns (m: nat)
    requires n < |pieces| && MarkOf(pieces[n]) == mark
    ensures m <= n && MarkOf(pieces[m]) == mark && forall k | 0 <= k < m :: MarkOf(pieces[k]) != mark
  {
    if k :| 0 <= k < n && MarkOf(pieces[k]) == mark {
      m := FirstWithMark(pieces, mark, k);
    } else {
      m := n;
    }
  }

  /** Every subagent of the activity stands behind its parent call, if subagents are listed under their calls. */
  lemma NestedSubagentsFollowTheirCalls(source: seq<Message>, activities: seq<ToolActivity>, orphans: seq<SubagentActivity>,
                                        index: nat, parent: string, key: Key)
    requires NestedUnderTheirCalls(activities) && key in AllKeys(activities)
    requires var made := ActivityRows(activities, orphans, UpgradeMessages(source, activities).1).rows;
             index < |made| && IsAgentOf(made[index], parent) && made[index].parts[0].mark == Agent(key)
    ensures StandsAfterCall(TurnRows(source, activities, orphans), index, parent)
  {
    hide UpgradeMessages, ActivityRows, StandsAfterCall, TurnRows, IsNew, AllKeys;
    var (rows, used) := UpgradeMessages(source, activities);
    var made, pieces := ActivityRows(activities, orphans, used).rows, Pieces(activities, orphans);
    var at := RowsAreMadeInOrder(activities, orphans, used);
    var n := AgentsHavePieces(activities, key);
    assert MarkOf(pieces[n]) == Agent(key);
    NewIsFirst(pieces, at[index], used, n);
    assert pieces[at[index]] == CallPieces(activities)[at[index]];
    var m, a := CallStandsBeforeAgents(activities, at[index]);
    assert a.toolCallId == parent;
    var first := FirstWithMark(pieces, Call(parent), m);
    if parent in used {
      UsedCallsAreShown(source, activities, parent);
    } else {
      assert IsNew(pieces, first, used) by { FirstIsNew(pieces, first, used); }
      var j :| 0 <= j < |at| && at[j] == first;
      assert made[..index][j] == made[j];
      CallPiecesShow(pieces[first], made[j], j, parent);
    }
    SubagentsFollowTheirCalls(source, activities, orphans, index, parent);
  }

  lemma NewIsFirst(pieces: seq<Piece>, n: nat, used: set<string>, m: nat)
    requires IsNew(pieces, n, used) && m < |pieces| && MarkOf(pieces[m]) == MarkOf(pieces[n])
    ensures n <= m
  {}

  lemma FirstIsNew(pieces: seq<Piece>, n: nat, used: set<string>)
    requires n < |pieces| && forall m | 0 <= m < n :: MarkOf(pieces[m]) != MarkOf(pieces[n])
    requires pieces[n].CallPiece? && pieces[n].activity.toolCallId !in used
    ensures IsNew(pieces, n, used)
  {}

  lemma CallPiecesShow(piece: Piece, row: Row, i: nat, id: string)
    requires MarkOf(piece) == Call(id) && row == RowOf(piece, i)
    ensures HasCall(Erase(row), id)
  {
    assert Erase(row).parts[0] == row.parts[0].part;
  }

  lemma UsedCallsAreShown(source: seq<Message>, activities: seq<ToolActivity>, id: string)
    requires id in UpgradeMessages(source, activities).1
    ensures ShowsCall(UpgradeMessages(source, activities).0, id)
  {
    hide UpgradeMessages, HasCall, ShowsItsMark;
    MessagesAreUpgradedInOrder(source, activities);
    UpgradedMessagesShowMarks(source, activities);
    var rows := UpgradeMessages(source, activities).0;
    var row, m :| row in rows && m in row.parts && m.mark == Call(id);
    var p :| 0 <= p < |rows| && rows[p] == row;
    MarkedCallsShow(row, m, id);
  }

  lemma MarkedCallsShow(row: Row, m: Marked, id: string)
    requires m in row.parts && m.mark == Call(id) && ShowsItsMark(m)
    ensures HasCall(Erase(row), id)
  {
    ReadingCalls(row, id);
  }
}
