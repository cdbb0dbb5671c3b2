/** The memory store of one runtime context: an object over the memory and embedding tables. */
module MemoryStore {
  import opened Wrappers
  import opened MemoryModel
  import opened MemoryInvariants
  import opened Text

  const EXPIRED_ARCHIVE_LIMIT := 100
  const MAX_CONTENT_CHARS := 4000

  function BoundedLimit(value: Option<int>, fallback: int): int {
    if value.None? then fallback
    else if value.value < 1 then 1 else if value.value > 200 then 200 else value.value
  }

  /** A live row whose expiry has passed, in one of the scopes and with the key if one is given. */
  predicate ExpiredRow(m: Memory, scopes: set<Scope>, key: Option<string>, now: int) {
    m.scope in scopes && Live(m) && m.expiresAtMs.Some? && m.expiresAtMs.value <= now
    && (key.Some? ==> m.idempotencyKey == key.value)
  }

  function ExpiredRows(rows: map<string, Memory>, scopes: set<Scope>, key: Option<string>, now: int): set<string> {
    set k | k in rows && ExpiredRow(rows[k], scopes, key, now)
  }

  predicate ExpiresBefore(rows: map<string, Memory>, a: string, b: string)
    requires a in rows && b in rows && rows[a].expiresAtMs.Some? && rows[b].expiresAtMs.Some?
  {
    rows[a].expiresAtMs.value < rows[b].expiresAtMs.value
    || (rows[a].expiresAtMs.value == rows[b].expiresAtMs.value && TextLess(a, b))
  }

  /** `batch` holds the first `limit` of the expired rows in order of expiry. */
  ghost predicate OldestBatch(rows: map<string, Memory>, expired: set<string>, batch: set<string>, limit: int)
    requires forall k | k in expired :: k in rows && rows[k].expiresAtMs.Some?
  {
    && batch <= expired
    && |batch| == (if |expired| <= limit then |expired| else limit)
    && forall a, b | a in batch && b in expired - batch :: ExpiresBefore(rows, a, b)
  }

  /** `ORDER BY expires_at_ms, id LIMIT limit`, one row at a time. */
  method SelectOldest(rows: map<string, Memory>, expired: set<string>, limit: int) returns (batch: set<string>)
    requires forall k | k in expired :: k in rows && rows[k].expiresAtMs.Some?
    requires limit >= 0
    ensures OldestBatch(rows, expired, batch, limit)
  {
    hide ExpiresBefore;
    var remaining := expired;
    batch := {};
    while remaining != {} && |batch| < limit
      invariant batch !! remaining && batch + remaining == expired
      invariant batch <= expired && remaining <= expired
      invariant |batch| <= limit && |batch| + |remaining| == |expired|
      invariant forall a, b | a in batch && b in remaining :: ExpiresBefore(rows, a, b)
      decreases remaining
    {
      EarliestExists(rows, remaining);
      var id :| Earliest(rows, remaining, id);
      batch := batch + {id};
      remaining := remaining - {id};
    }
    assert remaining == expired - batch;
  }

  class Store {
    const env: Env
    const context: Context
    var rows: map<string, Memory>
    var embeddings: map<string, Embedding>

    function State(): Db
      reads this
    {
      Db(rows, embeddings)
    }

    ghost predicate Valid(now: int)
      reads this
    {
      Inv(env, State(), now)
    }

    constructor (env: Env, context: Context)
      ensures State() == Db(map[], map[]) && this.env == env && this.context == context
      ensures forall now :: Valid(now)
    {
      this.env := env;
      this.context := context;
      rows := map[];
      embeddings := map[];
      new;
      forall now ensures Valid(now) { EmptyInv(env, now); }
    }

    /** Looks for an active row with the key, and otherwise tries the rows that were superseded one
        after another. Whatever their order, the answer is the key's holder. */
    method FindByIdempotencyKey(scope: Scope, key: string, now: int) returns (found: Option<string>)
      requires Valid(now)
      ensures found == HolderOf(State(), scope, key, now)
    {
      hide Inv, HolderOf, Holds;
      ghost var db := State();
      KeysHaveOneHolder(env, db, now);
      hide HoldersUnique;
      var active := set k | k in rows && rows[k].scope == scope && rows[k].idempotencyKey == key && ActiveAt(rows[k], now);
      if active != {} {
        var id :| id in active;
        HolderIsUnique(db, id, id, scope, key, now);
        return Some(id);
      }
      var aliases := set k | k in rows && rows[k].scope == scope && rows[k].idempotencyKey == key
                             && rows[k].archivedAtMs.None? && rows[k].supersededAtMs.Some?
                             && rows[k].supersededById.Some? && Unexpired(rows[k], now);
      ghost var all := aliases;
      while aliases != {}
        invariant aliases <= all
        invariant forall a, m | a in all - aliases :: !Resolves(db, a, m, scope, key, now)
        decreases aliases
      {
        var alias :| alias in aliases;
        var target := rows[alias].supersededById.value;
        if target in rows && rows[target].scope == scope && ActiveAt(rows[target], now) {
          HolderIsUnique(db, alias, target, scope, key, now);
          return Some(target);
        }
        assert forall m :: !Resolves(db, alias, m, scope, key, now) by { assert alias !in active; }
        aliases := aliases - {alias};
      }
      assert forall k | k in rows && rows[k].scope == scope && rows[k].idempotencyKey == key && ActiveAt(rows[k], now) :: k in active;
      NobodyHolds(db, scope, key, now, all);
      found := None;
    }

    /** Archives the expired rows that expire first, up to a limit, and drops their vectors. */
    method ArchiveExpiredMemoryBatch(scopes: set<Scope>, key: Option<string>, limit: Option<int>, now: int)
      returns (archived: set<string>)
      modifies this
      ensures OldestBatch(old(rows), ExpiredRows(old(rows), scopes, key, now), archived, BoundedLimit(limit, EXPIRED_ARCHIVE_LIMIT))
      ensures State() == Archive(old(State()), archived, now, "expired")
    {
      archived := SelectOldest(rows, ExpiredRows(rows, scopes, key, now), BoundedLimit(limit, EXPIRED_ARCHIVE_LIMIT));
      ghost var expected := Archive(State(), archived, now, "expired");
      rows := map k | k in rows ::
        if k in archived then rows[k].(archivedAtMs := Some(now), archiveReason := Some("expired")) else rows[k];
      embeddings := embeddings - archived;
      assert rows == expected.rows && embeddings == expected.embeddings;
    }

    method StoreEmbedding(id: string, vector: Option<Vector>, now: int)
      requires id in rows
      modifies this`embeddings
      ensures State() == PutEmbedding(env, old(State()), id, vector, now)
    {
      if id in embeddings || vector.None? {
        return;
      }
      embeddings := embeddings[id := Embedding(env.hash(rows[id].content), now, vector.value)];
    }

    /** Remembers the key of a duplicate, unless the source of the write has no key of its own. */
    method RememberDuplicateIdempotency(scope: Scope, input: Input, target: string, now: int) returns (result: Result<string>)
      requires target in rows
      modifies this`rows
      ensures result == SourceKey(context)
      ensures State() == if result.Ok? then PutAlias(env, old(State()), scope, input, target, now) else old(State())
    {
      result := SourceKey(context);
      if result.Err? {
        return;
      }
      var alias := AliasRow(env, State(), scope, input, target, now);
      if alias.id !in rows {
        rows := rows[alias.id := alias];
      }
    }

    /** Finds the active memory with the content; there is never a second one to choose from. */
    method FindExactDuplicateMemory(scope: Scope, kind: MemoryKind, content: string, now: int) returns (found: Option<string>)
      requires Valid(now)
      ensures found == ExactDuplicate(State(), scope, kind, content, now)
      ensures forall id | SameContent(State(), id, scope, kind, content, now) :: found == Some(id)
    {
      hide Inv, ExactDuplicate;
      ghost var db := State();
      var same := set k | k in rows && SameContent(State(), k, scope, kind, content, now);
      DuplicateIsUnique(env, db, scope, kind, content, now);
      if same == {} {
        assert forall k :: SameContent(db, k, scope, kind, content, now) ==> k in same;
        return None;
      }
      var id :| id in same;
      found := Some(id);
    }

    /** Archives expired rows of the scope, and then the one that may still stand in the way of the key. */
    method CleanUp(scope: Scope, key: string, now: int) returns (ghost expired: set<string>)
      requires Valid(now)
      modifies this
      ensures Valid(now)
      ensures forall k | k in expired :: k in old(rows) && ExpiredRow(old(rows)[k], {scope}, None, now)
      ensures State() == Archive(old(State()), expired, now, "expired")
      ensures NoExpiredHolder(State(), scope, key, now)
    {
      hide Inv, NoExpiredHolder, Archive;
      ghost var start := State();
      var first := ArchiveExpiredMemoryBatch({scope}, None, None, now);
      ArchiveKeepsInv(env, start, first, now, "expired");
      ghost var middle := State();
      var second := ArchiveExpiredMemoryBatch({scope}, Some(key), Some(1), now);
      ArchiveKeepsInv(env, middle, second, now, "expired");
      OneBatchIsEnough(env, middle, scope, key, second, now);
      ArchiveTwice(start, first, second, now);
      ArchivedWasLive(start, first, second, {scope}, key, now);
      expired := first + second;
    }

    method InsertMemory(scope: Scope, input: Input, superseded: set<string>, newId: string, now: int)
      requires newId !in rows && newId !in superseded
      modifies this
      ensures State() == Insert(old(State()), newId, scope, input, superseded, now)
    {
      ghost var expected := Insert(State(), newId, scope, input, superseded, now);
      rows := rows[newId := NewRow(newId, scope, input, now)];
      rows := map k | k in rows ::
        if k in superseded then rows[k].(supersededAtMs := Some(now), supersededById := Some(newId)) else rows[k];
      embeddings := embeddings - superseded;
      assert rows == expected.rows;
    }

    /** Answers a retry or a duplicate with the memory there is, and inserts anything else. The insert cannot
        violate the unique index. Without a source key nothing but a retry can be answered. */
    method WriteMemory(scope: Scope, input: Input, o: Oracles, newId: string, now: int)
      returns (result: Result<(string, bool)>)
      requires Valid(now) && newId !in rows && !IsAliasId(newId)
      requires NoExpiredHolder(State(), scope, input.idempotencyKey, now)
      modifies this
      ensures Valid(now)
      ensures result.Err? <==> SourceKey(context).Err? && HolderOf(old(State()), scope, input.idempotencyKey, now).None?
      ensures result.Err? ==> State() == old(State())
      ensures result.Ok? ==>
                Answer(State(), result.value.0, result.value.1) == Create(env, old(State()), o, scope, input, newId, now)
    {
      hide Inv, NoExpiredHolder, HolderOf, Holds, ExactDuplicate, AcceptsNearest, Superseded, Insert, PutAlias, PutEmbedding,
           SourceKey, SameContent;
      ghost var start := State();
      CreateKeepsInv(env, start, o, scope, input, newId, now);
      HolderHolds(start, scope, input.idempotencyKey, now);
      var idempotent := FindByIdempotencyKey(scope, input.idempotencyKey, now);
      if idempotent.Some? {
        StoreEmbedding(idempotent.value, EmbeddingOf(o, rows[idempotent.value].content), now);
        return Ok((idempotent.value, false));
      }
      var duplicate := FindExactDuplicateMemory(scope, input.kind, input.content, now);
      DuplicatesExist(env, start, o, scope, input, now);
      if duplicate.None? {
        duplicate := Nearest(env, State(), o, scope, input, now);
      }
      if duplicate.Some? {
        AliasKeepsRows(env, start, scope, input, duplicate.value, now);
        var remembered := RememberDuplicateIdempotency(scope, input, duplicate.value, now);
        if remembered.Err? {
          return Err(remembered.message);
        }
        StoreEmbedding(duplicate.value, EmbeddingOf(o, rows[duplicate.value].content), now);
        return Ok((duplicate.value, false));
      }
      var superseded := Superseded(State(), o, scope, input, now);
      SupersededAreActive(start, o, scope, input, now);
      InsertNeverConflicts(start, scope, input.idempotencyKey, now);
      InsertedRow(start, newId, scope, input, superseded, now);
      var source := SourceKey(context);
      if source.Err? {
        return Err(source.message);
      }
      InsertMemory(scope, input, superseded, newId, now);
      StoreEmbedding(newId, EmbeddingOf(o, input.content), now);
      result := Ok((newId, true));
    }

    /** Writes a memory in the scope that the context derives, with its content normalised. It fails at once
        without a scope or with too long a content. It also fails, after the clean-up, if the source has no key
        and the write is not a retry. */
    method CreateScopedMemory(rawInput: Input, normalized: string, scopeKind: ScopeKind, o: Oracles, newId: string, now: int)
      returns (result: Result<(string, bool)>)
      requires Valid(now) && newId !in rows && !IsAliasId(newId)
      modifies this
      ensures Valid(now)
      ensures var derived := DeriveScope(context, scopeKind);
              if derived.Err? || |normalized| > MAX_CONTENT_CHARS then result.Err? && State() == old(State())
              else
                var scope, input := derived.value, rawInput.(content := normalized);
                exists expired: set<string> ::
                  (forall k | k in expired :: k in old(rows) && ExpiredRow(old(rows)[k], {scope}, None, now))
                  && var cleaned := Archive(old(State()), expired, now, "expired");
                     && NoExpiredHolder(cleaned, scope, input.idempotencyKey, now)
                     && (result.Err? <==> SourceKey(context).Err? && HolderOf(cleaned, scope, input.idempotencyKey, now).None?)
                     && (if result.Err? then State() == cleaned
                         else Create(env, cleaned, o, scope, input, newId, now) ==
                              Answer(State(), result.value.0, result.value.1))
    {
      hide Inv, NoExpiredHolder, Create, DeriveScope, ExpiredRow, HolderOf, SourceKey;
      var input := rawInput.(content := normalized);
      var derived := DeriveScope(context, scopeKind);
      if derived.Err? {
        return Err(derived.message);
      }
      var scope := derived.value;
      if |normalized| > MAX_CONTENT_CHARS {
        return Err("Memory content exceeds the maximum length.");
      }
      ghost var expired := CleanUp(scope, input.idempotencyKey, now);
      result := WriteMemory(scope, input, o, newId, now);
    }

    /** Archives the one visible memory whose id is the given text or matches it as the start of a pattern. */
    method ArchiveMemory(rawId: string, reason: Option<string>, now: int) returns (result: Result<string>)
      requires Valid(now)
      modifies this
      ensures Valid(now)
      ensures var visible := VisibleMatches(old(State()), context, Trim(rawId), now);
              (result.Ok? <==> Trim(rawId) != "" && exists id :: visible == {id})
              && (result.Ok? ==> visible == {result.value}
                                 && State() == Archive(old(State()), {result.value}, now,
                                                       if reason.Some? then reason.value else "user_removed"))
              && (result.Err? ==> State() == old(State()))
    {
      hide Inv, DeriveScope, Trim, Selected;
      var idPrefix := Trim(rawId);
      if idPrefix == "" {
        return Err("Memory id is required.");
      }
      var visible := VisibleMatches(State(), context, idPrefix, now);
      if visible == {} {
        return Err("Memory was not found in the current context.");
      }
      var id :| id in visible;
      if visible != {id} {
        return Err("Memory id prefix is ambiguous.");
      }
      var why := if reason.Some? then reason.value else "user_removed";
      ArchiveKeepsInv(env, State(), {id}, now, why);
      ghost var expected := Archive(State(), {id}, now, why);
      rows := rows[id := rows[id].(archivedAtMs := Some(now), archiveReason := Some(why))];
      embeddings := embeddings - {id};
      assert rows == expected.rows;
      result := Ok(id);
    }
  }

  function VisibleScopes(context: Context): set<Scope> {
    var personal, conversation := DeriveScope(context, Personal), DeriveScope(context, Conversation);
    (if personal.Ok? then {personal.value} else {}) + (if conversation.Ok? then {conversation.value} else {})
  }

  function VisibleMatches(db: Db, context: Context, idPrefix: string, now: int): set<string> {
    set k | k in db.rows && db.rows[k].scope in VisibleScopes(context) && ActiveAt(db.rows[k], now)
          && Selected(idPrefix, k)
  }

  /** An id is selected by being the given text or by matching it as the start of a pattern. */
  predicate Selected(idPrefix: string, k: string) {
    k == idPrefix || Like(idPrefix + "%", k)
  }

  /** SQL's LIKE: a percent sign stands for any text, an underscore for any character, a backslash escapes. */
  predicate Like(pattern: string, s: string)
    decreases |pattern| + |s|
  {
    if pattern == "" then s == ""
    else if pattern[0] == '%' then Like(pattern[1..], s) || (s != "" && Like(pattern, s[1..]))
    else if pattern[0] == '_' then s != "" && Like(pattern[1..], s[1..])
    else if pattern[0] == '\\' && |pattern| > 1 then s != "" && s[0] == pattern[1] && Like(pattern[2..], s[1..])
    else s != "" && s[0] == pattern[0] && Like(pattern[1..], s[1..])
  }

  lemma {:induction false} AnythingMatches(s: string)
    ensures Like("%", s)
  {
    assert "%"[1..] == "";
    if s != "" { AnythingMatches(s[1..]); }
  }

  predicate Plain(c: char) {
    c != '%' && c != '_' && c != '\\'
  }

  predicate AllPlain(id: string) {
    forall i | 0 <= i < |id| :: Plain(id[i])
  }

  /** Without wildcards in it, the given text matches exactly the ids that start with it. */
  lemma {:induction false} PlainIdsMatchByPrefix(id: string, s: string)
    requires AllPlain(id)
    ensures Like(id + "%", s) <==> id <= s
  {
    if id == "" {
      assert id + "%" == "%";
      AnythingMatches(s);
    } else {
      assert Plain(id[0]) && (id + "%")[0] == id[0] && (id + "%")[1..] == id[1..] + "%";
      if s != "" && s[0] == id[0] {
        PlainIdsMatchByPrefix(id[1..], s[1..]);
        assert id == [id[0]] + id[1..] && s == [s[0]] + s[1..];
      }
    }
  }

  /** A shortest text that a pattern matches. */
  function ShortestMatch(id: string): (s: string)
    ensures |s| <= |id|
    ensures id != "" && id[0] == '\\' ==> |s| < |id| || s == "%"
  {
    if id == "" then ""
    else if id[0] == '%' then ShortestMatch(id[1..])
    else if id[0] == '_' then "x" + ShortestMatch(id[1..])
    else if id[0] == '\\' then if |id| == 1 then "%" else [id[1]] + ShortestMatch(id[2..])
    else [id[0]] + ShortestMatch(id[1..])
  }

  lemma {:induction false} ShortestMatchMatches(id: string)
    ensures Like(id + "%", ShortestMatch(id))
  {
    var pattern, s := id + "%", ShortestMatch(id);
    if id == "" {
      assert pattern == "%";
      AnythingMatches(s);
    } else if id[0] == '\\' {
      if |id| == 1 {
        assert pattern[1] == '%' && pattern[2..] == "";
      } else {
        assert pattern[1] == id[1] && pattern[2..] == id[2..] + "%" && s[1..] == ShortestMatch(id[2..]);
        ShortestMatchMatches(id[2..]);
      }
    } else {
      assert pattern[0] == id[0] && pattern[1..] == id[1..] + "%";
      assert id[0] != '%' ==> s[1..] == ShortestMatch(id[1..]);
      ShortestMatchMatches(id[1..]);
    }
  }

  /** A text that a pattern with wildcards selects although it does not start with the given text. */
  function Intruder(id: string): string
    requires !AllPlain(id)
  {
    if Plain(id[0]) then
      assert id == [id[0]] + id[1..];
      [id[0]] + Intruder(id[1..])
    else if id[0] == '\\' then ShortestMatch(id)
    else "x" + ShortestMatch(id[1..])
  }

  lemma {:induction false} IntruderIntrudes(id: string)
    requires !AllPlain(id)
    ensures Like(id + "%", Intruder(id)) && !(id <= Intruder(id))
  {
    var pattern, s := id + "%", Intruder(id);
    assert pattern[0] == id[0] && pattern[1..] == id[1..] + "%";
    if Plain(id[0]) {
      assert id == [id[0]] + id[1..];
      assert s[1..] == Intruder(id[1..]);
      IntruderIntrudes(id[1..]);
    } else if id[0] == '\\' {
      ShortestMatchMatches(id);
    } else {
      assert s[1..] == ShortestMatch(id[1..]);
      ShortestMatchMatches(id[1..]);
      assert Like(pattern[1..], s[1..]);
      assert id[0] == '%' ==> Like(pattern, s[1..]);
    }
  }

  /** The simplest failing input: an underscore selects every id but the empty one. */
  lemma UnderscoreMatchesEveryId(s: string)
    ensures Like("_%", s) <==> s != ""
  {
    assert "_%"[1..] == "%";
    if s != "" { AnythingMatches(s[1..]); }
  }

  ghost predicate SelectsByPrefix(id: string) {
    forall s :: Selected(id, s) <==> id <= s
  }

  /** The given text selects exactly the ids that start with it if and only if it has no wildcard: no percent
      sign, no underscore and no backslash. */
  lemma SelectsByPrefixIff(id: string)
    ensures SelectsByPrefix(id) <==> AllPlain(id)
  {
    hide Like, AllPlain;
    if AllPlain(id) {
      forall s ensures Selected(id, s) <==> id <= s {
        PlainIdsMatchByPrefix(id, s);
      }
    } else {
      IntruderIntrudes(id);
      assert Selected(id, Intruder(id));
    }
  }

  lemma KeysHaveOneHolder(env: Env, db: Db, now: int)
    requires Inv(env, db, now)
    ensures HoldersUnique(db, now)
  {}

  /** Neither an active row nor one of the rows superseded by an active one has the key. */
  lemma NobodyHolds(db: Db, scope: Scope, key: string, now: int, aliases: set<string>)
    requires forall k | k in db.rows && db.rows[k].scope == scope && db.rows[k].idempotencyKey == key :: !ActiveAt(db.rows[k], now)
    requires forall k | k in db.rows && db.rows[k].scope == scope && db.rows[k].idempotencyKey == key
                        && db.rows[k].archivedAtMs.None? && db.rows[k].supersededAtMs.Some?
                        && db.rows[k].supersededById.Some? && Unexpired(db.rows[k], now) :: k in aliases
    requires forall a, m | a in aliases :: !Resolves(db, a, m, scope, key, now)
    ensures HolderOf(db, scope, key, now).None?
  {
    forall m ensures !Holds(db, m, scope, key, now) {
      forall a ensures !Resolves(db, a, m, scope, key, now) {}
    }
  }

  lemma DuplicateIsUnique(env: Env, db: Db, scope: Scope, kind: MemoryKind, content: string, now: int)
    requires Inv(env, db, now)
    ensures forall a, b | SameContent(db, a, scope, kind, content, now) && SameContent(db, b, scope, kind, content, now) :: a == b
    ensures var found := ExactDuplicate(db, scope, kind, content, now);
            if found.Some? then SameContent(db, found.value, scope, kind, content, now)
            else forall a :: !SameContent(db, a, scope, kind, content, now)
  {
    hide HoldersUnique, Shape, Ranked, LiveKeysUnique;
  }

  lemma HolderIsUnique(db: Db, a: string, m: string, scope: Scope, key: string, now: int)
    requires HoldersUnique(db, now) && Resolves(db, a, m, scope, key, now)
    ensures HolderOf(db, scope, key, now) == Some(m)
  {
    hide Resolves;
    assert Holds(db, m, scope, key, now);
  }

  predicate Earliest(rows: map<string, Memory>, ids: set<string>, id: string)
    requires forall k | k in ids :: k in rows && rows[k].expiresAtMs.Some?
  {
    id in ids && forall x | x in ids && x != id :: ExpiresBefore(rows, id, x)
  }

  lemma {:induction false} EarliestExists(rows: map<string, Memory>, ids: set<string>)
    requires forall k | k in ids :: k in rows && rows[k].expiresAtMs.Some?
    requires ids != {}
    ensures exists id :: Earliest(rows, ids, id)
    decreases ids
  {
    var x :| x in ids;
    var rest := ids - {x};
    assert ids == rest + {x};
    if rest == {} {
      assert Earliest(rows, ids, x);
    } else {
      EarliestExists(rows, rest);
      var y :| Earliest(rows, rest, y);
      TextOrderTotal(x, y);
      if ExpiresBefore(rows, x, y) {
        forall w | w in ids && w != x ensures ExpiresBefore(rows, x, w) {
          if TextLess(x, y) && TextLess(y, w) { TextOrderTransitive(x, y, w); }
        }
        assert Earliest(rows, ids, x);
      } else {
        assert Earliest(rows, ids, y);
      }
    }
  }

  /** At most one live row has the key, so archiving one expired row with it leaves none behind. */
  lemma OneBatchIsEnough(env: Env, db: Db, scope: Scope, key: string, batch: set<string>, now: int)
    requires Inv(env, db, now)
    requires OldestBatch(db.rows, ExpiredRows(db.rows, {scope}, Some(key), now), batch, 1)
    ensures NoExpiredHolder(Archive(db, batch, now, "expired"), scope, key, now)
  {
    var expired := ExpiredRows(db.rows, {scope}, Some(key), now);
    forall k | k in expired ensures k in batch {
      forall j | j in expired ensures j == k {
        assert Live(db.rows[j]) && Live(db.rows[k]);
      }
      assert expired == {k};
      assert |batch| == 1;
      var b :| b in batch;
    }
  }

  lemma ArchiveTwice(db: Db, first: set<string>, second: set<string>, now: int)
    ensures Archive(Archive(db, first, now, "expired"), second, now, "expired") == Archive(db, first + second, now, "expired")
  {
    var twice := Archive(Archive(db, first, now, "expired"), second, now, "expired");
    assert twice.rows == Archive(db, first + second, now, "expired").rows;
    assert twice.embeddings == Archive(db, first + second, now, "expired").embeddings;
  }

  lemma ArchivedWasLive(db: Db, first: set<string>, second: set<string>, scopes: set<Scope>, key: string, now: int)
    requires first <= ExpiredRows(db.rows, scopes, None, now)
    requires second <= ExpiredRows(Archive(db, first, now, "expired").rows, scopes, Some(key), now)
    ensures forall k | k in first + second :: k in db.rows && ExpiredRow(db.rows[k], scopes, None, now)
  {}
}
