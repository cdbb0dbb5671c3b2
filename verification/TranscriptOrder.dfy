/** Where a transcript shows the activity that its source does not: the place of each row when it is inserted, and
    the order of times in the whole transcript. */
module TranscriptOrder {
  import opened Wrappers
  import opened Transcript
  import opened TranscriptResults

  // ---------- what decides the place ----------

  predicate Empty(s: Option<string>) {
    s == None || s == Some("")
  }

  /** Equal ids that are not empty, or no ids and equal names that are not empty. */
  predicate SameCall(id: Option<string>, name: Option<string>, otherId: Option<string>, otherName: Option<string>) {
    || (!Empty(id) && id == otherId)
    || (Empty(id) && Empty(otherId) && !Empty(name) && name == otherName)
  }

  lemma SameInvocationIff(id: Option<string>, name: Option<string>, otherId: Option<string>, otherName: Option<string>)
    ensures SameInvocation(id, name, otherId, otherName) <==> SameCall(id, name, otherId, otherName)
  {}

  ghost predicate CarriesResult(row: Row, call: Part)
    requires call.ToolCall?
  {
    exists m | m in row.parts :: m.part.ToolResult? && SameCall(m.part.id, m.part.name, call.id, call.name)
  }

  ghost predicate CarriesCall(row: Row, id: string) {
    exists m | m in row.parts :: m.part.ToolCall? && m.part.id == Some(id)
  }

  ghost predicate CarriesAgentOf(row: Row, parent: string) {
    exists m | m in row.parts :: m.part.Subagent? && m.part.parentToolCallId == Some(parent)
  }

  lemma ErasedParts(row: Row)
    ensures |Erase(row).parts| == |row.parts|
    ensures forall i | 0 <= i < |row.parts| :: Erase(row).parts[i] == row.parts[i].part && row.parts[i] in row.parts
    ensures forall m | m in row.parts :: exists i :: 0 <= i < |row.parts| && row.parts[i] == m
  {}

  lemma ReadingResults(row: Row, call: Part)
    requires call.ToolCall?
    ensures HasResultFor(Erase(row), call) <==> CarriesResult(row, call)
  {
    hide SameInvocation, SameCall, Erase;
    ErasedParts(row);
    forall m | m in row.parts && m.part.ToolResult?
      ensures SameInvocation(m.part.id, m.part.name, call.id, call.name) <==> SameCall(m.part.id, m.part.name, call.id, call.name)
    {
      SameInvocationIff(m.part.id, m.part.name, call.id, call.name);
    }
  }

  lemma ReadingCalls(row: Row, id: string)
    ensures HasCall(Erase(row), id) <==> CarriesCall(row, id)
  {
    hide Erase;
    ErasedParts(row);
  }

  lemma ReadingAgents(row: Row, id: string)
    ensures HasAgentOf(Erase(row), id) <==> CarriesAgentOf(row, id)
  {
    hide Erase;
    ErasedParts(row);
  }

  ghost predicate Later(row: Row, time: int) {
    row.timestamp.Some? && time < row.timestamp.value
  }

  /** A call whose result is there, and a subagent whose parent call is there, go by them. */
  ghost predicate GoesByResult(so: seq<Row>, row: Row)
    requires |row.parts| == 1
  {
    row.parts[0].part.ToolCall? && exists q | 0 <= q < |so| :: CarriesResult(so[q], row.parts[0].part)
  }

  ghost predicate GoesByParent(so: seq<Row>, row: Row)
    requires |row.parts| == 1
  {
    && row.parts[0].part.Subagent? && !Empty(row.parts[0].part.parentToolCallId)
    && exists q | 0 <= q < |so| :: CarriesCall(so[q], row.parts[0].part.parentToolCallId.value)
  }

  /** The place of a row among those that are there: a call before the first row with a result for it; a subagent behind
      the first row with its parent call and the subagents that follow that call; any other row before the first row
      that is later than it, and an untimed one at the end. */
  ghost predicate BelongsAt(so: seq<Row>, row: Row, at: nat)
    requires |row.parts| == 1
  {
    && at <= |so|
    && var part := row.parts[0].part;
       if GoesByResult(so, row) then
         at < |so| && CarriesResult(so[at], part) && forall q | 0 <= q < at :: !CarriesResult(so[q], part)
       else if GoesByParent(so, row) then
         var parent := part.parentToolCallId.value;
         exists c | 0 <= c < at ::
           && CarriesCall(so[c], parent) && (forall q | 0 <= q < c :: !CarriesCall(so[q], parent))
           && (forall q | c < q < at :: CarriesAgentOf(so[q], parent))
           && (at < |so| ==> !CarriesAgentOf(so[at], parent))
       else if row.timestamp.Some? then
         (forall q | 0 <= q < at :: !Later(so[q], row.timestamp.value)) && (at < |so| ==> Later(so[at], row.timestamp.value))
       else at == |so|
  }

  lemma {:induction false} AgentsEnd(messages: seq<Message>, parent: string, i: nat)
    requires i <= |messages|
    ensures var end := AfterAgents(messages, parent, i);
            (forall q | i <= q < end :: HasAgentOf(messages[q], parent))
            && (end < |messages| ==> !HasAgentOf(messages[end], parent))
    decreases |messages| - i
  {
    hide HasAgentOf;
    if i < |messages| && HasAgentOf(messages[i], parent) { AgentsEnd(messages, parent, i + 1); }
  }

  lemma AllErased(so: seq<Row>)
    ensures |EraseAll(so)| == |so| && forall q | 0 <= q < |so| :: EraseAll(so)[q] == Erase(so[q])
  {}

  lemma ErasedFront(row: Row)
    requires |row.parts| == 1
    ensures Erase(row).parts == [row.parts[0].part] && Erase(row).timestamp == row.timestamp
  {}

  lemma InsertedWhereItBelongs(so: seq<Row>, row: Row)
    requires |row.parts| == 1
    ensures BelongsAt(so, row, InsertionIndex(EraseAll(so), Erase(row)))
  {
    hide HasResultFor, HasCall, AfterAgents, CarriesResult, CarriesCall, CarriesAgentOf, Erase, EraseAll;
    AllErased(so);
    ErasedFront(row);
    var messages, part := EraseAll(so), row.parts[0].part;
    if part.ToolCall? {
      forall q | 0 <= q < |so| { ReadingResults(so[q], part); }
    } else if part.Subagent? && !Empty(part.parentToolCallId) {
      var parent := part.parentToolCallId.value;
      forall q | 0 <= q < |so| { ReadingCalls(so[q], parent); }
      if GoesByParent(so, row) { InsertedBehindItsParent(so, row); }
    }
    if !GoesByResult(so, row) && !GoesByParent(so, row) { InsertedByTime(so, row); }
  }

  lemma InsertedByTime(so: seq<Row>, row: Row)
    requires |row.parts| == 1
    ensures var at := TimeIndex(EraseAll(so), row.timestamp);
            at <= |so|
            && if row.timestamp.Some? then
                 (forall q | 0 <= q < at :: !Later(so[q], row.timestamp.value)) && (at < |so| ==> Later(so[at], row.timestamp.value))
               else at == |so|
  {
    hide EraseAll;
    AllErased(so);
    forall q | 0 <= q < |so| ensures EraseAll(so)[q].timestamp == so[q].timestamp {}
  }

  lemma InsertedBehindItsParent(so: seq<Row>, row: Row)
    requires |row.parts| == 1 && GoesByParent(so, row)
    ensures BelongsAt(so, row, InsertionIndex(EraseAll(so), Erase(row)))
  {
    hide HasResultFor, HasCall, HasAgentOf, AfterAgents, CarriesResult, CarriesCall, CarriesAgentOf, Erase, EraseAll, TimeIndex;
    AllErased(so);
    ErasedFront(row);
    var messages, parent := EraseAll(so), row.parts[0].part.parentToolCallId.value;
    forall q | 0 <= q < |so| { ReadingCalls(so[q], parent); }
    forall q | 0 <= q < |so| { ReadingAgents(so[q], parent); }
    var call := FindIndex(messages, m => HasCall(m, parent));
    if call.Some? { AgentsEnd(messages, parent, call.value + 1); }
  }

  /** The transcript when the `i`-th row made for activity is inserted. */
  function SoFar(source: seq<Row>, made: seq<Row>, i: nat): seq<Row>
    requires i <= |made|
  {
    Merge(source, made[..i])
  }

  function Inserted(rows: seq<Row>, at: nat, row: Row): seq<Row>
    requires at <= |rows|
  {
    rows[..at] + [row] + rows[at..]
  }

  /** Each row made for activity, one after another, is inserted where it belongs among those that are there. */
  lemma EachRowIsPlaced(source: seq<Row>, made: seq<Row>, i: nat) returns (at: nat)
    requires i < |made| && |made[i].parts| == 1
    ensures BelongsAt(SoFar(source, made, i), made[i], at)
    ensures SoFar(source, made, i + 1) == Inserted(SoFar(source, made, i), at, made[i])
  {
    hide InsertionIndex, BelongsAt;
    assert made[..i + 1][..i] == made[..i] && made[..i + 1][i] == made[i];
    var so := SoFar(source, made, i);
    at := InsertionIndex(EraseAll(so), Erase(made[i]));
    InsertedWhereItBelongs(so, made[i]);
  }

  // ---------- rows keep their order ----------

  /** Some row of origin `a` stands before some row of origin `b`. */
  ghost predicate StandsBefore(rows: seq<Row>, a: Origin, b: Origin) {
    exists p, q | 0 <= p < q < |rows| :: rows[p].origin == a && rows[q].origin == b
  }

  lemma InsertedRows(rows: seq<Row>, at: nat, row: Row)
    requires at <= |rows|
    ensures var after := Inserted(rows, at, row);
            && |after| == |rows| + 1 && after[at] == row
            && (forall p | 0 <= p < at :: after[p] == rows[p])
            && (forall p | at <= p < |rows| :: after[p + 1] == rows[p])
            && (forall p | at < p <= |rows| :: after[p] == rows[p - 1])
  {}

  lemma StandsAt(rows: seq<Row>, p: nat, q: nat)
    requires p < q < |rows|
    ensures StandsBefore(rows, rows[p].origin, rows[q].origin)
  {}

  /** Inserting a row keeps the order of the others. */
  lemma InsertKeepsStanding(rows: seq<Row>, at: nat, row: Row, a: Origin, b: Origin)
    requires at <= |rows| && a != row.origin && b != row.origin
    ensures StandsBefore(Inserted(rows, at, row), a, b) <==> StandsBefore(rows, a, b)
  {
    hide Inserted, StandsBefore;
    if StandsBefore(rows, a, b) { StillStands(rows, at, row, a, b); }
    if StandsBefore(Inserted(rows, at, row), a, b) { StoodBefore(rows, at, row, a, b); }
  }

  lemma StillStands(rows: seq<Row>, at: nat, row: Row, a: Origin, b: Origin)
    requires at <= |rows| && StandsBefore(rows, a, b)
    ensures StandsBefore(Inserted(rows, at, row), a, b)
  {
    hide Inserted;
    InsertedRows(rows, at, row);
    var p, q :| 0 <= p < q < |rows| && rows[p].origin == a && rows[q].origin == b;
    StandsAt(Inserted(rows, at, row), if p < at then p else p + 1, if q < at then q else q + 1);
  }

  lemma StoodBefore(rows: seq<Row>, at: nat, row: Row, a: Origin, b: Origin)
    requires at <= |rows| && a != row.origin && b != row.origin && StandsBefore(Inserted(rows, at, row), a, b)
    ensures StandsBefore(rows, a, b)
  {
    hide Inserted;
    var after := Inserted(rows, at, row);
    InsertedRows(rows, at, row);
    var p, q :| 0 <= p < q < |after| && after[p].origin == a && after[q].origin == b;
    assert p != at && q != at;
    StandsAt(rows, if p < at then p else p - 1, if q < at then q else q - 1);
  }

  /** What stands before and behind an inserted row are the rows up to its place and from there on. */
  lemma StandsBeforeInserted(rows: seq<Row>, at: nat, row: Row, a: Origin)
    requires at <= |rows| && a != row.origin && forall other | other in rows :: other.origin != row.origin
    ensures StandsBefore(Inserted(rows, at, row), a, row.origin) <==> exists p | 0 <= p < at :: rows[p].origin == a
  {
    hide Inserted;
    var after := Inserted(rows, at, row);
    InsertedRows(rows, at, row);
    if p :| 0 <= p < at && rows[p].origin == a { assert after[p].origin == a && after[at] == row; }
    if StandsBefore(after, a, row.origin) {
      var p, q :| 0 <= p < q < |after| && after[p].origin == a && after[q].origin == row.origin;
      assert q == at;
      assert rows[p].origin == a;
    }
  }

  lemma StandsBehindInserted(rows: seq<Row>, at: nat, row: Row, a: Origin)
    requires at <= |rows| && a != row.origin && forall other | other in rows :: other.origin != row.origin
    ensures StandsBefore(Inserted(rows, at, row), row.origin, a) <==> exists q | at <= q < |rows| :: rows[q].origin == a
  {
    hide Inserted;
    var after := Inserted(rows, at, row);
    InsertedRows(rows, at, row);
    if q :| at <= q < |rows| && rows[q].origin == a { assert after[q + 1].origin == a && after[at] == row; }
    if StandsBefore(after, row.origin, a) {
      var p, q :| 0 <= p < q < |after| && after[p].origin == row.origin && after[q].origin == a;
      assert p == at;
      assert rows[q - 1].origin == a;
    }
  }

  /** The source messages and the rows made for activity know where they come from. */
  ghost predicate Numbered(source: seq<Row>, made: seq<Row>) {
    && (forall k | 0 <= k < |source| :: source[k].origin == FromSource(k))
    && (forall i | 0 <= i < |made| :: made[i].origin == FromActivity(i) && |made[i].parts| == 1)
  }

  predicate Made(a: Origin, i: nat) {
    a.FromSource? || a.index < i
  }

  /** What stands where among the rows up to the `i`-th stays so in the whole transcript. */
  lemma {:induction false} OrderIsKept(source: seq<Row>, made: seq<Row>, i: nat, a: Origin, b: Origin)
    requires Numbered(source, made) && i <= |made| && Made(a, i) && Made(b, i)
    ensures StandsBefore(SoFar(source, made, i), a, b) <==> StandsBefore(Merge(source, made), a, b)
    decreases |made| - i
  {
    hide StandsBefore, Merge;
    if i == |made| {
      assert made[..i] == made;
    } else {
      var at := EachRowIsPlaced(source, made, i);
      InsertKeepsStanding(SoFar(source, made, i), at, made[i], a, b);
      OrderIsKept(source, made, i + 1, a, b);
    }
  }

  /** A row of the transcript is the source message or the row made for activity that its origin names. */
  ghost predicate IsItsOrigin(source: seq<Row>, made: seq<Row>, row: Row) {
    match row.origin
    case FromSource(k) => k < |source| && row == source[k]
    case FromActivity(i) => i < |made| && row == made[i]
  }

  lemma RowsAreTheirOrigins(source: seq<Row>, made: seq<Row>, i: nat)
    requires Numbered(source, made) && i <= |made|
    ensures forall row | row in SoFar(source, made, i) :: IsItsOrigin(source, made, row) && Made(row.origin, i)
  {
    hide Merge;
    MergedRows(source, made[..i]);
    forall row | row in SoFar(source, made, i) ensures IsItsOrigin(source, made, row) && Made(row.origin, i) {
      if row in source {
        var k :| 0 <= k < |source| && source[k] == row;
      } else {
        var j :| 0 <= j < i && made[j] == row;
      }
    }
  }

  // ---------- placement by time ----------

  /** A row that is placed by its time: no result and no parent decide its place. */
  ghost predicate GoesByTime(source: seq<Row>, made: seq<Row>, i: nat)
    requires i < |made| && |made[i].parts| == 1
  {
    var so := SoFar(source, made, i);
    made[i].timestamp.Some? && !GoesByResult(so, made[i]) && !GoesByParent(so, made[i])
  }

  function TimeOf(source: seq<Row>, made: seq<Row>, a: Origin): Option<int> {
    match a
    case FromSource(k) => if k < |source| then source[k].timestamp else None
    case FromActivity(i) => if i < |made| then made[i].timestamp else None
  }

  lemma StandingAtInsertion(source: seq<Row>, made: seq<Row>, i: nat, at: nat, a: Origin)
    requires Numbered(source, made) && i < |made| && Made(a, i) && at <= |SoFar(source, made, i)|
    requires SoFar(source, made, i + 1) == Inserted(SoFar(source, made, i), at, made[i])
    ensures var so := SoFar(source, made, i);
            && (StandsBefore(Merge(source, made), a, FromActivity(i)) <==> exists p | 0 <= p < at :: so[p].origin == a)
            && (StandsBefore(Merge(source, made), FromActivity(i), a) <==> exists q | at <= q < |so| :: so[q].origin == a)
  {
    hide Merge, StandsBefore, Inserted;
    var so := SoFar(source, made, i);
    OrderIsKept(source, made, i + 1, a, FromActivity(i));
    OrderIsKept(source, made, i + 1, FromActivity(i), a);
    RowsAreTheirOrigins(source, made, i);
    StandsBeforeInserted(so, at, made[i], a);
    StandsBehindInserted(so, at, made[i], a);
  }

  /** In the whole transcript, no source message and no row made earlier that stands before a row placed by its time is
      later than it. */
  lemma NothingLaterStandsBefore(source: seq<Row>, made: seq<Row>, i: nat, a: Origin)
    requires Numbered(source, made) && i < |made| && GoesByTime(source, made, i) && Made(a, i)
    requires StandsBefore(Merge(source, made), a, FromActivity(i))
    ensures var time := TimeOf(source, made, a); time.None? || time.value <= made[i].timestamp.value
  {
    hide Merge, StandsBefore, GoesByResult, GoesByParent;
    var at := EachRowIsPlaced(source, made, i);
    StandingAtInsertion(source, made, i, at, a);
    RowsAreTheirOrigins(source, made, i);
    var so := SoFar(source, made, i);
    var p :| 0 <= p < at && so[p].origin == a;
    assert so[p] in so && !Later(so[p], made[i].timestamp.value);
  }

  /** The times of the source messages that have one ascend. */
  ghost predicate Ascends(rows: seq<Row>) {
    forall p, q | 0 <= p < q < |rows| && rows[p].timestamp.Some? && rows[q].timestamp.Some? ::
      rows[p].timestamp.value <= rows[q].timestamp.value
  }

  /** A row made earlier was inserted out of the order of times: it is later than the row, and yet stands before a source
      message that is not. */
  ghost predicate Misleads(source: seq<Row>, made: seq<Row>, i: nat, j: nat)
    requires i < |made| && made[i].timestamp.Some?
  {
    && j < i && made[j].timestamp.Some? && made[i].timestamp.value < made[j].timestamp.value
    && exists k | 0 <= k < |source| ::
         && source[k].timestamp.Some? && source[k].timestamp.value <= made[i].timestamp.value
         && StandsBefore(Merge(source, made), FromActivity(j), FromSource(k))
  }

  lemma SourceKeepsOrder(source: seq<Row>, made: seq<Row>, i: nat, k: nat, l: nat)
    requires Numbered(source, made) && i <= |made| && StandsBefore(SoFar(source, made, i), FromSource(k), FromSource(l))
    ensures k < l < |source|
  {
    hide Merge;
    OrderIsKept(source, made, i, FromSource(k), FromSource(l));
    OrderIsKept(source, made, 0, FromSource(k), FromSource(l));
    assert SoFar(source, made, 0) == source by { NothingMerged(source, made[..0]); }
  }

  lemma NothingMerged(source: seq<Row>, made: seq<Row>)
    requires made == []
    ensures Merge(source, made) == source
  {}

  /** Every timed source message behind the row is later than it. */
  ghost predicate SourceBehindIsLater(source: seq<Row>, made: seq<Row>, i: nat)
    requires i < |made| && made[i].timestamp.Some?
  {
    forall k | 0 <= k < |source| && source[k].timestamp.Some?
               && StandsBefore(Merge(source, made), FromActivity(i), FromSource(k)) ::
      made[i].timestamp.value < source[k].timestamp.value
  }

  /** If the source times ascend, the source messages behind a row placed by its time are later than it, exactly unless a
      row made earlier misleads it. */
  lemma SourceBehindIsLaterIff(source: seq<Row>, made: seq<Row>, i: nat)
    requires Numbered(source, made) && Ascends(source) && i < |made| && GoesByTime(source, made, i)
    ensures SourceBehindIsLater(source, made, i) <==> forall j :: !Misleads(source, made, i, j)
  {
    hide Merge, StandsBefore, GoesByResult, GoesByParent, Ascends;
    var at := EachRowIsPlaced(source, made, i);
    var so, time := SoFar(source, made, i), made[i].timestamp.value;
    RowsAreTheirOrigins(source, made, i);
    if j :| Misleads(source, made, i, j) {
      var k :| 0 <= k < |source| && source[k].timestamp.Some? && source[k].timestamp.value <= time
               && StandsBefore(Merge(source, made), FromActivity(j), FromSource(k));
      MisledRowStandsBefore(source, made, i, at, j, k);
    }
    forall k | 0 <= k < |source| && source[k].timestamp.Some? && source[k].timestamp.value <= time
               && StandsBefore(Merge(source, made), FromActivity(i), FromSource(k))
      ensures exists j :: Misleads(source, made, i, j)
    {
      var j := SomeRowMisleads(source, made, i, at, k);
    }
  }

  lemma MisledRowStandsBefore(source: seq<Row>, made: seq<Row>, i: nat, at: nat, j: nat, k: nat)
    requires Numbered(source, made) && i < |made| && GoesByTime(source, made, i)
    requires BelongsAt(SoFar(source, made, i), made[i], at)
    requires SoFar(source, made, i + 1) == Inserted(SoFar(source, made, i), at, made[i])
    requires j < i && made[j].timestamp.Some? && made[i].timestamp.value < made[j].timestamp.value && k < |source|
    requires StandsBefore(Merge(source, made), FromActivity(j), FromSource(k))
    ensures StandsBefore(Merge(source, made), FromActivity(i), FromSource(k))
  {
    hide Merge, GoesByResult, GoesByParent, Inserted;
    var so := SoFar(source, made, i);
    OrderIsKept(source, made, i, FromActivity(j), FromSource(k));
    RowsAreTheirOrigins(source, made, i);
    StandingAtInsertion(source, made, i, at, FromSource(k));
    var p, q :| 0 <= p < q < |so| && so[p].origin == FromActivity(j) && so[q].origin == FromSource(k);
    assert so[p] in so && Later(so[p], made[i].timestamp.value);
  }

  lemma SomeRowMisleads(source: seq<Row>, made: seq<Row>, i: nat, at: nat, k: nat) returns (j: nat)
    requires Numbered(source, made) && Ascends(source) && i < |made| && GoesByTime(source, made, i)
    requires BelongsAt(SoFar(source, made, i), made[i], at)
    requires SoFar(source, made, i + 1) == Inserted(SoFar(source, made, i), at, made[i])
    requires k < |source| && source[k].timestamp.Some? && source[k].timestamp.value <= made[i].timestamp.value
    requires StandsBefore(Merge(source, made), FromActivity(i), FromSource(k))
    ensures Misleads(source, made, i, j)
  {
    hide Merge, GoesByResult, GoesByParent, Inserted, StandsBefore;
    var so, time := SoFar(source, made, i), made[i].timestamp.value;
    RowsAreTheirOrigins(source, made, i);
    StandingAtInsertion(source, made, i, at, FromSource(k));
    var q :| at <= q < |so| && so[q].origin == FromSource(k);
    assert so[q] in so && so[at] in so && Later(so[at], time);
    assert StandsBefore(so, so[at].origin, FromSource(k)) by { StandsAt(so, at, q); }
    if so[at].origin.FromSource? {
      SourceKeepsOrder(source, made, i, so[at].origin.index, k);
      assert false;
    } else {
      j := so[at].origin.index;
      OrderIsKept(source, made, i, FromActivity(j), FromSource(k));
    }
  }

  // ---------- the order of times ----------

  lemma InsertKeepsAscending(so: seq<Row>, at: nat, row: Row)
    requires at <= |so|
    requires row.timestamp.Some? ==> forall q | 0 <= q < at :: !Later(so[q], row.timestamp.value)
    requires row.timestamp.Some? && at < |so| ==> Later(so[at], row.timestamp.value)
    ensures Ascends(Inserted(so, at, row)) <==> Ascends(so)
  {
    hide Inserted;
    var after := Inserted(so, at, row);
    InsertedRows(so, at, row);
    if Ascends(so) {
      forall p, q | 0 <= p < q < |after| && after[p].timestamp.Some? && after[q].timestamp.Some?
        ensures after[p].timestamp.value <= after[q].timestamp.value
      {
        var p', q' := if p < at then p else p - 1, if q < at then q else q - 1;
        assert p != at ==> after[p] == so[p'];
        assert q != at ==> after[q] == so[q'];
      }
    }
    if Ascends(after) {
      forall p, q | 0 <= p < q < |so| && so[p].timestamp.Some? && so[q].timestamp.Some?
        ensures so[p].timestamp.value <= so[q].timestamp.value
      {
        var p', q' := if p < at then p else p + 1, if q < at then q else q + 1;
        assert after[p'] == so[p] && after[q'] == so[q];
      }
    }
  }

  /** Rows that go by their times, or have none and go to the end, keep the order of times. */
  lemma {:induction false} MergeKeepsAscending(source: seq<Row>, made: seq<Row>, i: nat)
    requires Numbered(source, made) && i <= |made|
    requires forall j | 0 <= j < |made| :: !GoesByResult(SoFar(source, made, j), made[j]) && !GoesByParent(SoFar(source, made, j), made[j])
    ensures Ascends(SoFar(source, made, i)) <==> Ascends(source)
    decreases i
  {
    hide Merge, GoesByResult, GoesByParent, Ascends, Inserted;
    if i == 0 {
      NothingMerged(source, made[..0]);
    } else {
      MergeKeepsAscending(source, made, i - 1);
      var at := EachRowIsPlaced(source, made, i - 1);
      InsertKeepsAscending(SoFar(source, made, i - 1), at, made[i - 1]);
    }
  }

  // ---------- the transcript of a turn ----------

  ghost predicate TimesAscend(messages: seq<Message>) {
    forall p, q | 0 <= p < q < |messages| && messages[p].timestamp.Some? && messages[q].timestamp.Some? ::
      messages[p].timestamp.value <= messages[q].timestamp.value
  }

  /** The rows of a turn: the upgraded source messages with their times, and the rows made for activity. */
  lemma TurnIsNumbered(source: seq<Message>, activities: seq<ToolActivity>, orphans: seq<SubagentActivity>)
    ensures var (rows, used) := UpgradeMessages(source, activities);
            var made := ActivityRows(activities, orphans, used).rows;
            && Numbered(rows, made) && |rows| == |source|
            && forall k | 0 <= k < |rows| :: rows[k].timestamp == source[k].timestamp
  {
    hide UpgradeMessages, ActivityRows, MatchesActivity, CallPart;
    var (rows, used) := UpgradeMessages(source, activities);
    UpgradedRows(source, activities);
    ActivityRowsAccounted(activities, orphans, used);
    var made := ActivityRows(activities, orphans, used).rows;
    assert forall k | 0 <= k < |rows| :: UpgradeOf(rows[k], source[k], k, activities);
    assert forall i | 0 <= i < |made| :: IsActivityRow(made[i], i);
  }

  /** A row placed by its time has no later source message before it; and, if the source times ascend, every source
      message behind it is later, exactly unless a row made earlier misleads it. */
  lemma ActivityStandsByTime(source: seq<Message>, activities: seq<ToolActivity>, orphans: seq<SubagentActivity>, i: nat)
    requires var (rows, used) := UpgradeMessages(source, activities);
             var made := ActivityRows(activities, orphans, used).rows;
             i < |made| && |made[i].parts| == 1 && GoesByTime(rows, made, i)
    ensures var (rows, used) := UpgradeMessages(source, activities);
            var made := ActivityRows(activities, orphans, used).rows;
            var transcript, time := TurnRows(source, activities, orphans), made[i].timestamp.value;
            && (forall k | 0 <= k < |source| && source[k].timestamp.Some?
                           && StandsBefore(transcript, FromSource(k), FromActivity(i)) ::
                  source[k].timestamp.value <= time)
            && (TimesAscend(source) ==>
                  ((forall k | 0 <= k < |source| && source[k].timestamp.Some?
                               && StandsBefore(transcript, FromActivity(i), FromSource(k)) ::
                      time < source[k].timestamp.value)
                   <==> forall j :: !Misleads(rows, made, i, j)))
  {
    hide UpgradeMessages, ActivityRows, Merge, GoesByResult, GoesByParent, StandsBefore, Misleads;
    var (rows, used) := UpgradeMessages(source, activities);
    var made := ActivityRows(activities, orphans, used).rows;
    TurnIsNumbered(source, activities, orphans);
    forall k | 0 <= k < |source| && StandsBefore(Merge(rows, made), FromSource(k), FromActivity(i))
      ensures source[k].timestamp.Some? ==> source[k].timestamp.value <= made[i].timestamp.value
    {
      NothingLaterStandsBefore(rows, made, i, FromSource(k));
    }
    if TimesAscend(source) { SourceBehindIsLaterIff(rows, made, i); }
  }

  /** If no activity goes by a result or a parent call, the transcript is in the order of times exactly if its source is. */
  lemma TurnIsInTimeOrderIff(source: seq<Message>, activities: seq<ToolActivity>, orphans: seq<SubagentActivity>)
    requires var (rows, used) := UpgradeMessages(source, activities);
             var made := ActivityRows(activities, orphans, used).rows;
             forall j | 0 <= j < |made| && |made[j].parts| == 1 ::
               !GoesByResult(SoFar(rows, made, j), made[j]) && !GoesByParent(SoFar(rows, made, j), made[j])
    ensures TimesAscend(EraseAll(TurnRows(source, activities, orphans))) <==> TimesAscend(source)
  {
    hide UpgradeMessages, ActivityRows, Merge, GoesByResult, GoesByParent, EraseAll;
    var (rows, used) := UpgradeMessages(source, activities);
    var made := ActivityRows(activities, orphans, used).rows;
    TurnIsNumbered(source, activities, orphans);
    MergeKeepsAscending(rows, made, |made|);
    assert made[..|made|] == made;
    AllErased(Merge(rows, made));
    assert forall q | 0 <= q < |Merge(rows, made)| :: EraseAll(Merge(rows, made))[q].timestamp == Merge(rows, made)[q].timestamp;
  }

  lemma OnePartUpgraded(part: Part, activities: seq<ToolActivity>, used: set<string>)
    requires !part.ToolCall?
    ensures UpgradeParts([part], activities, used) == ([Marked(part, Plain)], used)
  {
    var parts := [part];
    assert parts[..|parts| - 1] == [];
    var (earlier, mid) := UpgradeParts(parts[..|parts| - 1], activities, used);
    assert earlier + [Marked(part, Plain)] == [Marked(part, Plain)];
  }

  function PlainRow(m: Message, part: Part, index: nat): Row {
    Row(m.role, m.timestamp, [Marked(part, Plain)], FromSource(index))
  }

  lemma OneMoreUpgraded(messages: seq<Message>, m: Message, part: Part, activities: seq<ToolActivity>)
    requires m.parts == [part] && !part.ToolCall?
    ensures var (rows, used) := UpgradeMessages(messages, activities);
            UpgradeMessages(messages + [m], activities) ==
            (rows + [PlainRow(m, part, |messages|)], used)
  {
    hide UpgradeParts;
    OnePartUpgraded(part, activities, UpgradeMessages(messages, activities).1);
    assert (messages + [m])[..|messages|] == messages;
  }

  lemma ThreeUpgraded(a: Message, b: Message, c: Message, p: Part, q: Part, r: Part, activities: seq<ToolActivity>)
    requires a.parts == [p] && b.parts == [q] && c.parts == [r] && !p.ToolCall? && !q.ToolCall? && !r.ToolCall?
    ensures UpgradeMessages([a, b, c], activities) == ([PlainRow(a, p, 0), PlainRow(b, q, 1), PlainRow(c, r, 2)], {})
  {
    hide UpgradeMessages;
    var x, y, z := PlainRow(a, p, 0), PlainRow(b, q, 1), PlainRow(c, r, 2);
    assert [] + [a] == [a] && [a] + [b] == [a, b] && [a, b] + [c] == [a, b, c];
    assert [] + [x] == [x] && [x] + [y] == [x, y] && [x, y] + [z] == [x, y, z];
    NothingUpgraded(activities);
    OneMoreUpgraded([], a, p, activities);
    OneMoreUpgraded([a], b, q, activities);
    OneMoreUpgraded([a, b], c, r, activities);
  }

  lemma NothingUpgraded(activities: seq<ToolActivity>)
    ensures UpgradeMessages([], activities) == ([], {})
  {}

  lemma TwoCallsMade(a: ToolActivity, b: ToolActivity)
    requires a.subagents == [] && b.subagents == [] && a.toolCallId != b.toolCallId
    ensures ActivityRows([a, b], [], {}).rows == [CallRow(a, 0), CallRow(b, 1)]
  {
    var start := Emitted([], {}, {});
    assert [a, b][..1] == [a] && [a][..0] == [];
    assert EmitActivities(start, [a]) == Emitted([CallRow(a, 0)], {a.toolCallId}, {});
  }

  /** A failing input: a call made at 5000 whose result has the time 1500 misleads a call made at 2000, which is shown
      before that result although the source times ascend. */
  lemma LateCallMisleads(source: seq<Message>, a: ToolActivity, b: ToolActivity)
    requires source == [Message("user", Some(1000), [OtherPart("question")]),
                        Message("tool", Some(1500), [ToolResult(Some("c1"), None, None)]),
                        Message("assistant", Some(3000), [OtherPart("answer")])]
    requires a.toolCallId == "c1" && a.createdAt == Some(5000) && a.subagents == []
    requires b.toolCallId == "c2" && b.createdAt == Some(2000) && b.subagents == []
    ensures TimesAscend(source)
    ensures var transcript := TurnRows(source, [a, b], []);
            |transcript| == 5 && transcript[1].timestamp == Some(2000) && transcript[3].timestamp == Some(1500)
  {
    hide UpgradeMessages, ActivityRows, Merge, BelongsAt;
    ThreeUpgraded(source[0], source[1], source[2], OtherPart("question"), ToolResult(Some("c1"), None, None), OtherPart("answer"), [a, b]);
    TwoCallsMade(a, b);
    var rows, made := UpgradeMessages(source, [a, b]).0, [CallRow(a, 0), CallRow(b, 1)];
    assert made[..0] == [] && made[..2] == made;
    NothingMerged(rows, made[..0]);
    var first := EachRowIsPlaced(rows, made, 0);
    FirstGoesByResult(rows, made[0], first);
    var so := SoFar(rows, made, 1);
    assert so == [rows[0], made[0], rows[1], rows[2]];
    var second := EachRowIsPlaced(rows, made, 1);
    SecondGoesByTime(so, made[1], second);
  }

  lemma FirstGoesByResult(so: seq<Row>, row: Row, at: nat)
    requires |so| == 3 && forall q | 0 <= q < 3 :: |so[q].parts| == 1
    requires so[1].parts[0].part == ToolResult(Some("c1"), None, None) && !so[0].parts[0].part.ToolResult?
    requires |row.parts| == 1 && row.parts[0].part.ToolCall? && row.parts[0].part.id == Some("c1")
    requires BelongsAt(so, row, at)
    ensures at == 1
  {
    assert so[1].parts[0] in so[1].parts;
    assert CarriesResult(so[1], row.parts[0].part);
  }

  lemma SecondGoesByTime(so: seq<Row>, row: Row, at: nat)
    requires |so| == 4 && forall q | 0 <= q < 4 :: |so[q].parts| == 1
    requires so[0].timestamp == Some(1000) && so[1].timestamp == Some(5000)
    requires forall q | 0 <= q < 4 :: so[q].parts[0].part.ToolResult? ==> so[q].parts[0].part == ToolResult(Some("c1"), None, None)
    requires |row.parts| == 1 && row.parts[0].part.ToolCall? && row.parts[0].part.id == Some("c2") && row.timestamp == Some(2000)
    requires BelongsAt(so, row, at)
    ensures at == 1
  {
    forall q | 0 <= q < 4 ensures !CarriesResult(so[q], row.parts[0].part) {}
    assert Later(so[1], 2000) && !Later(so[0], 2000);
  }
}
