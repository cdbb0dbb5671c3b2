/** What a write does to the memory tables, on the fields of the rows before and after; and which contexts share
    a scope. */
module MemoryLaws {
  import opened Wrappers
  import opened Text
  import opened MemoryModel
  import opened MemoryInvariants
  import opened MemoryStore

  // ---------- which memory answers ----------

  /** A row of the scope that is neither archived, superseded nor expired. */
  ghost predicate InForce(m: Memory, scope: Scope, now: int) {
    && m.scope == scope
    && m.archivedAtMs == None && m.supersededAtMs == None && m.supersededById == None
    && (m.expiresAtMs.Some? ==> now < m.expiresAtMs.value)
  }

  /** Row `a` has the key, and is `m` or passed it on: `a` was superseded by `m`, and neither archived nor expired. */
  ghost predicate PassesOn(a: Memory, isM: bool, m: string, scope: Scope, key: string, now: int) {
    && a.scope == scope && a.idempotencyKey == key
    && (isM || (a.archivedAtMs == None && a.supersededAtMs != None && a.supersededById == Some(m)
                && (a.expiresAtMs.Some? ==> now < a.expiresAtMs.value)))
  }

  ghost predicate KeyIsHeldBy(db: Db, m: string, scope: Scope, key: string, now: int) {
    && m in db.rows && InForce(db.rows[m], scope, now)
    && exists a | a in db.rows :: PassesOn(db.rows[a], a == m, m, scope, key, now)
  }

  lemma HoldsIff(db: Db, m: string, scope: Scope, key: string, now: int)
    ensures Holds(db, m, scope, key, now) <==> KeyIsHeldBy(db, m, scope, key, now)
  {
    if KeyIsHeldBy(db, m, scope, key, now) {
      var a :| a in db.rows && PassesOn(db.rows[a], a == m, m, scope, key, now);
      assert Resolves(db, a, m, scope, key, now);
    }
    if Holds(db, m, scope, key, now) {
      var a :| Resolves(db, a, m, scope, key, now);
      assert PassesOn(db.rows[a], a == m, m, scope, key, now);
    }
  }

  /** A memory of the scope, kind and subject that is in force. */
  ghost predicate Comparable(db: Db, id: string, scope: Scope, kind: MemoryKind, now: int) {
    && id in db.rows && InForce(db.rows[id], scope, now) && db.rows[id].kind == kind
    && db.rows[id].subject == Subject(if scope.kind == Personal then UserSubject else ConversationSubject, scope.key)
  }

  ghost predicate SaysTheSame(db: Db, id: string, scope: Scope, input: Input, now: int) {
    Comparable(db, id, scope, input.kind, now) && db.rows[id].content == input.content
  }

  /** The vector index proposes this memory for the content, and its vector is up to date. */
  ghost predicate IsProposed(env: Env, db: Db, o: Oracles, id: string, scope: Scope, input: Input, now: int) {
    && o.embed.Some? && o.embed.value(input.content).Some?
    && o.nearest(o.embed.value(input.content).value) == Some(id)
    && Comparable(db, id, scope, input.kind, now)
    && id in db.embeddings && db.embeddings[id].contentHash == env.hash(db.rows[id].content)
  }

  ghost predicate IsDuplicate(env: Env, db: Db, o: Oracles, id: string, scope: Scope, input: Input, now: int) {
    if exists k :: SaysTheSame(db, k, scope, input, now) then SaysTheSame(db, id, scope, input, now)
    else IsProposed(env, db, o, id, scope, input, now)
  }

  /** A write is answered by the memory that holds its key; if there is none, by a memory that says the same; if there
      is none, by the one that the index proposes; and otherwise, and only then, by a new memory. */
  lemma WriteIsAnswered(env: Env, db: Db, o: Oracles, scope: Scope, input: Input, newId: string, now: int)
    ensures var a := Create(env, db, o, scope, input, newId, now);
            var held := exists m :: KeyIsHeldBy(db, m, scope, input.idempotencyKey, now);
            && (held ==> !a.created && KeyIsHeldBy(db, a.id, scope, input.idempotencyKey, now))
            && (!held && (exists k :: IsDuplicate(env, db, o, k, scope, input, now))
                ==> !a.created && IsDuplicate(env, db, o, a.id, scope, input, now))
            && (!held && (forall k :: !IsDuplicate(env, db, o, k, scope, input, now)) ==> a.created && a.id == newId)
  {
    hide HolderOf, Holds, KeyIsHeldBy, PutAlias, Insert, Superseded, PutEmbedding;
    var key := input.idempotencyKey;
    HolderHolds(db, scope, key, now);
    forall m ensures Holds(db, m, scope, key, now) <==> KeyIsHeldBy(db, m, scope, key, now) { HoldsIff(db, m, scope, key, now); }
    DuplicateIff(env, db, o, scope, input, now);
  }

  lemma DuplicateIff(env: Env, db: Db, o: Oracles, scope: Scope, input: Input, now: int)
    ensures var exact, near := ExactDuplicate(db, scope, input.kind, input.content, now), Nearest(env, db, o, scope, input, now);
            && (forall k :: IsDuplicate(env, db, o, k, scope, input, now) ==> exact.Some? || near.Some?)
            && (exact.Some? ==> IsDuplicate(env, db, o, exact.value, scope, input, now))
            && (exact.None? && near.Some? ==> IsDuplicate(env, db, o, near.value, scope, input, now))
  {
    forall k ensures SameContent(db, k, scope, input.kind, input.content, now) <==> SaysTheSame(db, k, scope, input, now) {}
  }

  // ---------- the tables after a write ----------

  /** The decider may be asked about this memory: it is shortlisted and comparable to the new one. */
  ghost predicate MayBeReplaced(db: Db, o: Oracles, id: string, scope: Scope, input: Input, now: int) {
    id in o.shortlist(input.content) && Comparable(db, id, scope, input.kind, now)
  }

  /** The decider is asked about exactly these memories, and names this one among them. */
  ghost predicate IsReplaced(db: Db, o: Oracles, id: string, scope: Scope, input: Input, now: int) {
    && scope.kind == Personal && input.kind == Preference && (input.expiresAtMs.Some? ==> now < input.expiresAtMs.value)
    && MayBeReplaced(db, o, id, scope, input, now)
    && o.decide.Some?
    && var asked := set k | k in db.rows && MayBeReplaced(db, o, k, scope, input, now);
       id in o.decide.value(input.content, asked)
  }

  lemma SupersededIff(db: Db, o: Oracles, scope: Scope, input: Input, now: int, k: string)
    ensures k in Superseded(db, o, scope, input, now) <==> IsReplaced(db, o, k, scope, input, now)
  {
    var asked := set k | k in db.rows && MayBeReplaced(db, o, k, scope, input, now);
    assert asked == set id | id in db.rows && id in o.shortlist(input.content) && ActiveIn(db, id, scope, input.kind, now);
    assert MayBeReplaced(db, o, k, scope, input, now) ==> k in asked;
  }

  /** A write changes an older row exactly when it makes a new memory and the decider names that row, among the memories
      in question, as replaced; the row is then superseded by the new memory and otherwise as it was. */
  lemma RowIsSupersededIff(env: Env, db: Db, o: Oracles, scope: Scope, input: Input, newId: string, now: int, k: string)
    requires k in db.rows && newId !in db.rows
    ensures var a := Create(env, db, o, scope, input, newId, now);
            && k in a.db.rows
            && a.db.rows[k] ==
               if a.created && IsReplaced(db, o, k, scope, input, now)
               then db.rows[k].(supersededAtMs := Some(now), supersededById := Some(newId)) else db.rows[k]
  {
    hide HolderOf, ExactDuplicate, Nearest, Superseded, IsReplaced, EmbeddingOf, PutAlias, Insert;
    SupersededIff(db, o, scope, input, now, k);
    RowAfterInsert(db, newId, scope, input, Superseded(db, o, scope, input, now), now, k);
    DuplicatesExist(env, db, o, scope, input, now);
    var exact, near := ExactDuplicate(db, scope, input.kind, input.content, now), Nearest(env, db, o, scope, input, now);
    if exact.Some? { AliasKeepsRows(env, db, scope, input, exact.value, now); }
    if near.Some? { AliasKeepsRows(env, db, scope, input, near.value, now); }
  }

  lemma RowAfterInsert(db: Db, id: string, scope: Scope, input: Input, superseded: set<string>, now: int, k: string)
    requires k in db.rows && id !in db.rows
    ensures var after := Insert(db, id, scope, input, superseded, now);
            k in after.rows
            && after.rows[k] == if k in superseded then db.rows[k].(supersededAtMs := Some(now), supersededById := Some(id)) else db.rows[k]
  {}

  /** The rows that a write adds: the new memory; or, for a duplicate, a row under an alias id that passes the key on to
      it and expires with it, unless that row is there; or nothing, for a retry. */
  lemma RowsAddedByAWrite(env: Env, db: Db, o: Oracles, scope: Scope, input: Input, newId: string, now: int)
    requires newId !in db.rows
    ensures var a := Create(env, db, o, scope, input, newId, now);
            var held := exists m :: KeyIsHeldBy(db, m, scope, input.idempotencyKey, now);
            var subject := Subject(if scope.kind == Personal then UserSubject else ConversationSubject, scope.key);
            if a.created then
              && a.db.rows.Keys == db.rows.Keys + {newId}
              && a.db.rows[newId] == Memory(newId, scope, input.kind, subject, input.content, input.idempotencyKey, now,
                                            input.expiresAtMs, None, None, None, None)
            else if held then a.db.rows == db.rows
            else
              var alias := "alias:" + env.digest(scope, input.idempotencyKey, a.id);
              && a.id in db.rows && a.db.rows.Keys == db.rows.Keys + {alias}
              && (alias !in db.rows ==>
                    a.db.rows[alias] == Memory(alias, scope, db.rows[a.id].kind, subject, input.content, input.idempotencyKey,
                                               now, db.rows[a.id].expiresAtMs, Some(now), Some(a.id), None, None))
  {
    hide HolderOf, Holds, ExactDuplicate, Nearest, Superseded, EmbeddingOf, KeyIsHeldBy;
    var key := input.idempotencyKey;
    HolderHolds(db, scope, key, now);
    forall m ensures Holds(db, m, scope, key, now) <==> KeyIsHeldBy(db, m, scope, key, now) { HoldsIff(db, m, scope, key, now); }
    DuplicatesExist(env, db, o, scope, input, now);
  }

  /** The vectors after a write: superseded memories lose theirs, and the memory that answers gets one for its content
      if it has none and the provider gives one. */
  lemma EmbeddingsAfterAWrite(env: Env, db: Db, o: Oracles, scope: Scope, input: Input, newId: string, now: int, k: string)
    requires newId !in db.rows && newId !in db.embeddings
    ensures var a := Create(env, db, o, scope, input, newId, now);
            var kept := k in db.embeddings && !(a.created && IsReplaced(db, o, k, scope, input, now));
            var content := a.db.rows[a.id].content;
            if kept then k in a.db.embeddings && a.db.embeddings[k] == db.embeddings[k]
            else if k == a.id && o.embed.Some? && o.embed.value(content).Some? then
              k in a.db.embeddings && a.db.embeddings[k] == Embedding(env.hash(content), now, o.embed.value(content).value)
            else k !in a.db.embeddings
  {
    hide HolderOf, ExactDuplicate, Nearest, Superseded, IsReplaced;
    SupersededIff(db, o, scope, input, now, k);
    SupersededIff(db, o, scope, input, now, newId);
    DuplicatesExist(env, db, o, scope, input, now);
    NewIsNotReplaced(db, o, newId, scope, input, now);
  }

  lemma NewIsNotReplaced(db: Db, o: Oracles, newId: string, scope: Scope, input: Input, now: int)
    requires newId !in db.rows
    ensures !IsReplaced(db, o, newId, scope, input, now)
  {}

  // ---------- archiving ----------

  /** Archiving closes the given rows and drops their vectors, and nothing else changes. */
  lemma ArchiveCloses(db: Db, ids: set<string>, now: int, reason: string, k: string)
    ensures var after := Archive(db, ids, now, reason);
            && (k in after.rows <==> k in db.rows)
            && (k in db.rows ==>
                  after.rows[k] == if k in ids then db.rows[k].(archivedAtMs := Some(now), archiveReason := Some(reason)) else db.rows[k])
            && (k in after.embeddings <==> k in db.embeddings && k !in ids)
            && (k in after.embeddings ==> after.embeddings[k] == db.embeddings[k])
  {}

  /** The next batch to archive: of the rows in the scopes that expired and are in force otherwise, with the key if one
      is given, those that expire first; at most as many as asked for, within 1 and 200. */
  lemma BatchIsTheOldest(rows: map<string, Memory>, scopes: set<Scope>, key: Option<string>, limit: Option<int>, now: int,
                         batch: set<string>)
    requires OldestBatch(rows, ExpiredRows(rows, scopes, key, now), batch, BoundedLimit(limit, EXPIRED_ARCHIVE_LIMIT))
    ensures var expired := set k | k in rows && rows[k].scope in scopes && rows[k].archivedAtMs == None
                                   && rows[k].supersededAtMs == None && rows[k].supersededById == None
                                   && rows[k].expiresAtMs.Some? && rows[k].expiresAtMs.value <= now
                                   && (key == None || key == Some(rows[k].idempotencyKey));
            var bound := if limit.None? then 100 else if limit.value > 200 then 200 else if limit.value < 1 then 1 else limit.value;
            && batch <= expired && |batch| == (if |expired| <= bound then |expired| else bound)
            && forall a, b | a in batch && b in expired && b !in batch ::
                 rows[a].expiresAtMs.value < rows[b].expiresAtMs.value
                 || (rows[a].expiresAtMs.value == rows[b].expiresAtMs.value && TextLess(a, b))
  {
    var expired := set k | k in rows && rows[k].scope in scopes && rows[k].archivedAtMs == None
                           && rows[k].supersededAtMs == None && rows[k].supersededById == None
                           && rows[k].expiresAtMs.Some? && rows[k].expiresAtMs.value <= now
                           && (key == None || key == Some(rows[k].idempotencyKey));
    assert expired == ExpiredRows(rows, scopes, key, now);
    forall a, b | a in batch && b in expired && b !in batch
      ensures rows[a].expiresAtMs.value < rows[b].expiresAtMs.value
              || (rows[a].expiresAtMs.value == rows[b].expiresAtMs.value && TextLess(a, b))
    {
      assert b in expired - batch && ExpiresBefore(rows, a, b);
    }
  }

  /** A memory may be archived from a context if it is in force in a scope that the context derives, and its id is the
      given text or matches it followed by anything. */
  lemma VisibleIff(db: Db, ctx: Context, text: string, now: int, k: string)
    ensures k in VisibleMatches(db, ctx, text, now) <==>
            && k in db.rows && InForce(db.rows[k], db.rows[k].scope, now)
            && DeriveScope(ctx, db.rows[k].scope.kind) == Ok(db.rows[k].scope)
            && (k == text || exists cuts :: Cuts(Tokens(text + "%"), k, cuts))
  {
    hide Like, Cuts, Tokens, DeriveScope, VisibleScopes;
    LikeIff(text + "%", k);
    if k in db.rows { VisibleScopeIff(ctx, db.rows[k].scope); }
  }

  lemma VisibleScopeIff(ctx: Context, scope: Scope)
    ensures scope in VisibleScopes(ctx) <==> DeriveScope(ctx, scope.kind) == Ok(scope)
  {
    hide DeriveScope;
    DerivedKind(ctx, Personal);
    DerivedKind(ctx, Conversation);
    var personal, conversation := DeriveScope(ctx, Personal), DeriveScope(ctx, Conversation);
    assert scope in VisibleScopes(ctx) <==> personal == Ok(scope) || conversation == Ok(scope);
    assert scope.kind == Personal || scope.kind == Conversation;
  }

  lemma DerivedKind(ctx: Context, kind: ScopeKind)
    ensures DeriveScope(ctx, kind).Ok? ==> DeriveScope(ctx, kind).value.kind == kind
  {}

  // ---------- patterns ----------

  datatype Token = Anything | AnyChar | Literally(c: char)

  /** A pattern in pieces: a percent sign, an underscore, or a character, which a backslash before it makes literal. */
  function Tokens(pattern: string): seq<Token> {
    if pattern == "" then []
    else if pattern[0] == '%' then [Anything] + Tokens(pattern[1..])
    else if pattern[0] == '_' then [AnyChar] + Tokens(pattern[1..])
    else if pattern[0] == '\\' && |pattern| > 1 then [Literally(pattern[1])] + Tokens(pattern[2..])
    else [Literally(pattern[0])] + Tokens(pattern[1..])
  }

  predicate Fits(token: Token, s: string, i: nat, j: nat) {
    && i <= j <= |s|
    && match token
       case Anything => true
       case AnyChar => j == i + 1
       case Literally(c) => j == i + 1 && s[i] == c
  }

  /** The text is cut into one piece for each token: any text, one character, or the given character. */
  ghost predicate Cuts(tokens: seq<Token>, s: string, cuts: seq<nat>) {
    && |cuts| == |tokens| + 1 && cuts[0] == 0 && cuts[|tokens|] == |s|
    && forall i | 0 <= i < |tokens| :: Fits(tokens[i], s, cuts[i], cuts[i + 1])
  }

  function Shifted(cuts: seq<nat>, n: nat): (r: seq<nat>)
    ensures |r| == |cuts|
  {
    seq(|cuts|, i requires 0 <= i < |cuts| => cuts[i] + n)
  }

  /** A first piece of the text for the first token, and cuts of the rest. */
  lemma CutsAppend(token: Token, tokens: seq<Token>, s: string, n: nat, cuts: seq<nat>)
    requires n <= |s| && Cuts(tokens, s[n..], cuts)
    requires token.AnyChar? ==> n == 1
    requires token.Literally? ==> n == 1 && s[0] == token.c
    ensures Cuts([token] + tokens, s, [0] + Shifted(cuts, n))
  {
    var all, more := [token] + tokens, [0] + Shifted(cuts, n);
    forall i | 0 <= i < |all| ensures Fits(all[i], s, more[i], more[i + 1])
    {
      assert cuts[0] == 0;
      if i > 0 {
        assert all[i] == tokens[i - 1] && more[i] == cuts[i - 1] + n && more[i + 1] == cuts[i] + n;
        if tokens[i - 1].Literally? { assert s[n..][cuts[i - 1]] == s[more[i]]; }
      }
    }
  }

  lemma CutsSplit(token: Token, tokens: seq<Token>, s: string, cuts: seq<nat>) returns (n: nat, rest: seq<nat>)
    requires Cuts([token] + tokens, s, cuts)
    ensures n == cuts[1] <= |s| && Cuts(tokens, s[n..], rest)
    ensures token.AnyChar? ==> n == 1
    ensures token.Literally? ==> n == 1 && s[0] == token.c
  {
    var all := [token] + tokens;
    assert all[0] == token && Fits(all[0], s, cuts[0], cuts[1]);
    n := cuts[1];
    CutsAscend(all, s, cuts);
    rest := seq(|tokens| + 1, i requires 0 <= i <= |tokens| => cuts[i + 1] - n);
    forall i | 0 <= i < |tokens| ensures Fits(tokens[i], s[n..], rest[i], rest[i + 1])
    {
      assert all[i + 1] == tokens[i];
    }
  }

  lemma {:induction false} CutsAscend(tokens: seq<Token>, s: string, cuts: seq<nat>)
    requires Cuts(tokens, s, cuts)
    ensures forall i | 1 <= i <= |tokens| :: cuts[1] <= cuts[i]
  {
    if |tokens| > 0 {
      var i := 1;
      while i < |tokens|
        invariant 1 <= i <= |tokens| && forall k | 1 <= k <= i :: cuts[1] <= cuts[k]
      {
        assert Fits(tokens[i], s, cuts[i], cuts[i + 1]);
        i := i + 1;
      }
    }
  }

  /** A text matches a LIKE pattern exactly if it can be cut into pieces that fit the pattern's tokens one by one. */
  lemma {:induction false} LikeIff(pattern: string, s: string)
    ensures Like(pattern, s) <==> exists cuts :: Cuts(Tokens(pattern), s, cuts)
    decreases |pattern| + |s|
  {
    hide Cuts;
    if Like(pattern, s) {
      var cuts := LikeCuts(pattern, s);
    }
    if cuts :| Cuts(Tokens(pattern), s, cuts) {
      CutsAreLike(pattern, s, cuts);
    }
  }

  lemma NothingCuts(s: string, cuts: seq<nat>)
    ensures Cuts([], s, cuts) <==> s == "" && cuts == [0]
  {}

  lemma {:induction false} LikeCuts(pattern: string, s: string) returns (cuts: seq<nat>)
    requires Like(pattern, s)
    ensures Cuts(Tokens(pattern), s, cuts)
    decreases |pattern| + |s|
  {
    hide Cuts;
    if pattern == "" {
      cuts := [0];
      NothingCuts(s, cuts);
    } else if pattern[0] == '%' {
      if Like(pattern[1..], s) {
        var rest := LikeCuts(pattern[1..], s);
        assert s[0..] == s;
        CutsAppend(Anything, Tokens(pattern[1..]), s, 0, rest);
        cuts := [0] + Shifted(rest, 0);
      } else {
        var more := LikeCuts(pattern, s[1..]);
        var n, rest := CutsSplit(Anything, Tokens(pattern[1..]), s[1..], more);
        assert s[1..][n..] == s[n + 1..];
        CutsAppend(Anything, Tokens(pattern[1..]), s, n + 1, rest);
        cuts := [0] + Shifted(rest, n + 1);
      }
    } else {
      var k := if pattern[0] == '\\' && |pattern| > 1 then 2 else 1;
      var token := if pattern[0] == '_' then AnyChar else Literally(pattern[k - 1]);
      var rest := LikeCuts(pattern[k..], s[1..]);
      CutsAppend(token, Tokens(pattern[k..]), s, 1, rest);
      cuts := [0] + Shifted(rest, 1);
    }
  }

  lemma {:induction false} CutsAreLike(pattern: string, s: string, cuts: seq<nat>)
    requires Cuts(Tokens(pattern), s, cuts)
    ensures Like(pattern, s)
    decreases |pattern|
  {
    hide Cuts;
    if pattern == "" {
      NothingCuts(s, cuts);
    } else if pattern[0] == '%' {
      var n, rest := CutsSplit(Anything, Tokens(pattern[1..]), s, cuts);
      CutsAreLike(pattern[1..], s[n..], rest);
      AnythingBefore(pattern, s, n);
    } else {
      var k := if pattern[0] == '\\' && |pattern| > 1 then 2 else 1;
      var token := if pattern[0] == '_' then AnyChar else Literally(pattern[k - 1]);
      var n, rest := CutsSplit(token, Tokens(pattern[k..]), s, cuts);
      CutsAreLike(pattern[k..], s[n..], rest);
    }
  }

  lemma {:induction false} AnythingBefore(pattern: string, s: string, n: nat)
    requires pattern != "" && pattern[0] == '%' && n <= |s| && Like(pattern[1..], s[n..])
    ensures Like(pattern, s)
    decreases n
  {
    if n == 0 {
      assert s[0..] == s;
    } else {
      assert s[1..][n - 1..] == s[n..];
      AnythingBefore(pattern, s[1..], n - 1);
    }
  }

  // ---------- scopes ----------

  /** The personal scope is the requester's: there is none without a user id, and two requesters share one exactly when
      they are the same user (of the same team, in Slack). */
  lemma PersonalScopeIsTheUser(a: Context, b: Context)
    requires forall t | t in {a, b} && t.requester.Some? && t.requester.value.SlackUser? :: ':' !in t.requester.value.teamId
    ensures DeriveScope(a, Personal).Ok? <==> a.requester.Some? && a.requester.value.userId != ""
    ensures DeriveScope(a, Personal).Ok? && DeriveScope(b, Personal).Ok?
            ==> (DeriveScope(a, Personal) == DeriveScope(b, Personal) <==> a.requester == b.requester)
  {
    assert a in {a, b} && b in {a, b};
    if DeriveScope(a, Personal).Ok? && DeriveScope(b, Personal).Ok? && RequesterKey(a) == RequesterKey(b) {
      var k, l := RequesterKey(a).value, RequesterKey(b).value;
      assert k[0] == l[0];
      if a.requester.value.SlackUser? && b.requester.value.SlackUser? {
        SplitAtColon(k[6..], a.requester.value.teamId, a.requester.value.userId, b.requester.value.teamId, b.requester.value.userId);
      } else {
        assert k[6..] == l[6..];
      }
    }
  }

  lemma SplitAtColon(s: string, a: string, b: string, c: string, d: string)
    requires s == a + ":" + b && s == c + ":" + d && ':' !in a && ':' !in c
    ensures a == c && b == d
  {
    assert s[|a|] == ':' && s[|c|] == ':';
    assert s[..|a|] == a && s[..|c|] == c;
    assert s[|a| + 1..] == b && s[|c| + 1..] == d;
  }

  /** The thread that a private Slack source belongs to, by its thread or else its message. */
  ghost predicate InThread(source: Source, thread: string) {
    source.SlackSource? && thread != ""
    && (source.threadTs == Some(thread) || (source.threadTs == None && source.messageTs == Some(thread)))
  }

  lemma ConversationKeyOf(ctx: Context, thread: string)
    requires InThread(ctx.source, thread)
    ensures ConversationKey(ctx) ==
            Some("slack:" + if ctx.source.isPrivate then ctx.source.teamId + ":" + (ctx.source.channelId + ":" + thread) else ctx.source.teamId)
    ensures DeriveScope(ctx, Conversation) == Ok(Scope(Conversation, ConversationKey(ctx).value))
  {
    var x := ctx.source;
    assert "slack:" + x.teamId + ":" + x.channelId + ":" + thread == "slack:" + (x.teamId + ":" + (x.channelId + ":" + thread));
  }

  lemma SamePrefix(prefix: string, a: string, b: string)
    ensures prefix + a == prefix + b <==> a == b
  {
    assert (prefix + a)[|prefix|..] == a && (prefix + b)[|prefix|..] == b;
  }

  /** The conversation scope of a Slack source is the team for a public channel, and otherwise the thread, without
      which there is none. Public and private sources never share it. */
  lemma ConversationScopeIsTheThread(a: Context, b: Context, s: string, t: string)
    requires InThread(a.source, s) && InThread(b.source, t)
    requires ':' !in a.source.teamId && ':' !in a.source.channelId && ':' !in b.source.teamId && ':' !in b.source.channelId
    ensures DeriveScope(a, Conversation).Ok? && DeriveScope(b, Conversation).Ok?
    ensures DeriveScope(a, Conversation) == DeriveScope(b, Conversation) <==>
            && a.source.isPrivate == b.source.isPrivate && a.source.teamId == b.source.teamId
            && (a.source.isPrivate ==> a.source.channelId == b.source.channelId && s == t)
  {
    hide DeriveScope, ConversationKey;
    var x, y := a.source, b.source;
    ConversationKeyOf(a, s);
    ConversationKeyOf(b, t);
    var u, v := x.teamId + ":" + (x.channelId + ":" + s), y.teamId + ":" + (y.channelId + ":" + t);
    assert u[|x.teamId|] == ':' && v[|y.teamId|] == ':';
    SamePrefix("slack:", if x.isPrivate then u else x.teamId, if y.isPrivate then v else y.teamId);
    if u == v {
      SplitAtColon(u, x.teamId, x.channelId + ":" + s, y.teamId, y.channelId + ":" + t);
      SplitAtColon(x.channelId + ":" + s, x.channelId, s, y.channelId, t);
    }
  }

  /** Which sources have no conversation scope and no source key. */
  lemma SourcesWithoutKeys(ctx: Context)
    ensures DeriveScope(ctx, Conversation).Err? <==>
            match ctx.source
            case LocalSource(id) => id == ""
            case SlackSource(_, _, isPrivate, _, _) => isPrivate && forall t :: !InThread(ctx.source, t)
    ensures SourceKey(ctx).Err? <==> ctx.source.SlackSource? && forall t :: !InThread(ctx.source, t)
  {
    if t :| InThread(ctx.source, t) {
      ConversationKeyOf(ctx, t);
    } else if ctx.source.SlackSource? {
      var thread := if ctx.source.threadTs.Some? then ctx.source.threadTs else ctx.source.messageTs;
      assert thread.Some? ==> !InThread(ctx.source, thread.value);
    }
  }

  /** A memory is learnt in the thread that it would be scoped to in private, whether the channel is private or not. */
  lemma SourceIsTheThread(ctx: Context, thread: string)
    requires InThread(ctx.source, thread)
    ensures var inPrivate := ctx.(source := ctx.source.(isPrivate := true));
            && SourceKey(ctx) == SourceKey(inPrivate) && SourceKey(ctx).Ok?
            && DeriveScope(inPrivate, Conversation) == Ok(Scope(Conversation, SourceKey(ctx).value))
  {
    var inPrivate := ctx.(source := ctx.source.(isPrivate := true));
    assert InThread(inPrivate.source, thread);
    ConversationKeyOf(inPrivate, thread);
  }
}
