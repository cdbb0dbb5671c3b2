/** Whole histories of memory writes: supersession chains, duplicates, embeddings and retries. */
module MemoryHistory {
  import opened Wrappers
  import opened MemoryModel
  import opened MemoryInvariants

  /** What happens to the tables: live rows are archived, because they expired or were removed, or a memory is written. */
  datatype Op =
    | ArchiveRows(ids: set<string>, reason: string)
    | Write(oracles: Oracles, scope: Scope, input: Input, newId: string)

  /** A write comes with an unused random id, after expired rows with its key were archived. */
  ghost predicate Permitted(db: Db, op: Op, now: int) {
    match op
    case ArchiveRows(ids, _) => forall k | k in ids :: k in db.rows && Live(db.rows[k])
    case Write(_, scope, input, newId) =>
      newId !in db.rows && !IsAliasId(newId) && NoExpiredHolder(db, scope, input.idempotencyKey, now)
  }

  ghost function Step(env: Env, db: Db, op: Op, now: int): Db {
    match op
    case ArchiveRows(ids, reason) => Archive(db, ids, now, reason)
    case Write(oracles, scope, input, newId) => Create(env, db, oracles, scope, input, newId, now).db
  }

  datatype Timed = At(now: int, op: Op)

  ghost predicate Legal(env: Env, db: Db, clock: int, history: seq<Timed>)
    decreases |history|
  {
    history == []
    || (clock <= history[0].now && Permitted(db, history[0].op, history[0].now)
        && Legal(env, Step(env, db, history[0].op, history[0].now), history[0].now, history[1..]))
  }

  ghost function Final(env: Env, db: Db, history: seq<Timed>): Db
    decreases |history|
  {
    if history == [] then db else Final(env, Step(env, db, history[0].op, history[0].now), history[1..])
  }

  ghost function EndTime(clock: int, history: seq<Timed>): int {
    if history == [] then clock else history[|history| - 1].now
  }

  lemma StepKeepsInv(env: Env, db: Db, op: Op, now: int)
    requires Inv(env, db, now) && Permitted(db, op, now)
    ensures Inv(env, Step(env, db, op, now), now)
  {
    hide Inv, NoExpiredHolder, Archive, Create;
    match op
    case ArchiveRows(ids, reason) => ArchiveKeepsInv(env, db, ids, now, reason);
    case Write(o, scope, input, newId) => CreateKeepsInv(env, db, o, scope, input, newId, now);
  }

  /** Every history keeps the invariants, whatever the outside world answers. */
  lemma {:induction false} HistoryKeepsInv(env: Env, db: Db, clock: int, history: seq<Timed>)
    requires Inv(env, db, clock) && Legal(env, db, clock, history)
    ensures Inv(env, Final(env, db, history), EndTime(clock, history))
    decreases |history|
  {
    hide Inv, Permitted, Step;
    if history != [] {
      var first := history[0];
      TimePasses(env, db, clock, first.now);
      StepKeepsInv(env, db, first.op, first.now);
      HistoryKeepsInv(env, Step(env, db, first.op, first.now), first.now, history[1..]);
    }
  }

  // ---------- supersession chains ----------

  ghost function Follow(db: Db, id: string, steps: nat): string
    decreases steps
  {
    if steps == 0 || id !in db.rows || db.rows[id].supersededById.None? then id
    else Follow(db, db.rows[id].supersededById.value, steps - 1)
  }

  lemma {:induction false} RankedChainEnds(env: Env, db: Db, rank: map<string, nat>, id: string) returns (steps: nat)
    requires LinksWellFormed(db) && RankedBy(db, rank) && id in db.rows
    ensures var root := Follow(db, id, steps);
            root in db.rows && db.rows[root].supersededById.None? && db.rows[root].scope == db.rows[id].scope
    ensures forall k | 0 < k <= steps :: !IsAliasId(Follow(db, id, k))
    decreases rank[id]
  {
    hide IsAliasId;
    if db.rows[id].supersededById.None? {
      steps := 0;
    } else {
      var next := db.rows[id].supersededById.value;
      var rest := RankedChainEnds(env, db, rank, next);
      steps := rest + 1;
      forall k | 0 < k <= steps ensures !IsAliasId(Follow(db, id, k)) {
        assert Follow(db, id, k) == Follow(db, next, k - 1);
        if k == 1 { assert Follow(db, next, 0) == next; }
      }
    }
  }

  /** From any row of any reachable table, following supersession ends at an unsuperseded row of the
      same scope, and never passes through an alias on the way. */
  lemma ChainEndsInItsScope(env: Env, clock: int, history: seq<Timed>, id: string) returns (steps: nat)
    requires Legal(env, Db(map[], map[]), clock, history)
    requires id in Final(env, Db(map[], map[]), history).rows
    ensures var db := Final(env, Db(map[], map[]), history);
            var root := Follow(db, id, steps);
            root in db.rows && db.rows[root].supersededById.None? && db.rows[root].scope == db.rows[id].scope
            && !IsAliasId(root) && forall k | 0 < k <= steps :: !IsAliasId(Follow(db, id, k))
  {
    hide IsAliasId;
    var db := Final(env, Db(map[], map[]), history);
    EmptyInv(env, clock);
    HistoryKeepsInv(env, Db(map[], map[]), clock, history);
    var rank :| RankedBy(db, rank);
    steps := RankedChainEnds(env, db, rank, id);
  }

  /** In any reachable table no two active memories say the same thing in one scope, and every
      embedding belongs to a memory in force and was made from its present content. */
  lemma MemoriesAreDistinctAndIndexed(env: Env, clock: int, history: seq<Timed>)
    requires Legal(env, Db(map[], map[]), clock, history)
    ensures var db, now := Final(env, Db(map[], map[]), history), EndTime(clock, history);
            (forall a, b | a in db.rows && b in db.rows && ActiveAt(db.rows[a], now) && ActiveAt(db.rows[b], now)
                           && db.rows[a].scope == db.rows[b].scope && db.rows[a].kind == db.rows[b].kind
                           && db.rows[a].subject == db.rows[b].subject && db.rows[a].content == db.rows[b].content ::
               a == b)
            && forall k | k in db.embeddings ::
                 k in db.rows && Live(db.rows[k]) && db.embeddings[k].contentHash == env.hash(db.rows[k].content)
  {
    EmptyInv(env, clock);
    HistoryKeepsInv(env, Db(map[], map[]), clock, history);
  }

  // ---------- rows over time ----------

  /** Rows stay. A row keeps what was written, and once archived or superseded it is never touched again. */
  ghost predicate Evolved(db: Db, later: Db) {
    forall k | k in db.rows ::
      k in later.rows
      && later.rows[k] == db.rows[k].(
           supersededAtMs := later.rows[k].supersededAtMs, supersededById := later.rows[k].supersededById,
           archivedAtMs := later.rows[k].archivedAtMs, archiveReason := later.rows[k].archiveReason)
      && (!Live(db.rows[k]) ==> later.rows[k] == db.rows[k])
  }

  lemma StepEvolves(env: Env, db: Db, op: Op, now: int)
    requires Permitted(db, op, now)
    ensures Evolved(db, Step(env, db, op, now))
  {
    hide IsAliasId, Nearest, NoExpiredHolder, Create;
    if op.Write? { CreateEvolves(env, db, op.oracles, op.scope, op.input, op.newId, now); }
  }

  lemma CreateEvolves(env: Env, db: Db, o: Oracles, scope: Scope, input: Input, newId: string, now: int)
    requires newId !in db.rows
    ensures Evolved(db, Create(env, db, o, scope, input, newId, now).db)
  {
    hide HolderOf, ExactDuplicate, Nearest, PutAlias, Insert, Superseded, EmbeddingOf;
    var holder := HolderOf(db, scope, input.idempotencyKey, now);
    var exact := ExactDuplicate(db, scope, input.kind, input.content, now);
    var near := Nearest(env, db, o, scope, input, now);
    DuplicatesExist(env, db, o, scope, input, now);
    if holder.None? {
      if exact.Some? || near.Some? {
        AliasKeepsRows(env, db, scope, input, if exact.Some? then exact.value else near.value, now);
      } else {
        InsertEvolves(db, newId, scope, input, Superseded(db, o, scope, input, now), now);
        SupersededAreActive(db, o, scope, input, now);
      }
    }
  }

  lemma InsertEvolves(db: Db, id: string, scope: Scope, input: Input, superseded: set<string>, now: int)
    requires id !in db.rows
    ensures (forall k | k in superseded :: ActiveIn(db, k, scope, input.kind, now))
            ==> Evolved(db, Insert(db, id, scope, input, superseded, now))
  {}

  lemma {:induction false} HistoryEvolves(env: Env, db: Db, clock: int, history: seq<Timed>)
    requires Legal(env, db, clock, history)
    ensures Evolved(db, Final(env, db, history)) && clock <= EndTime(clock, history)
    decreases |history|
  {
    hide Step, Permitted;
    if history != [] {
      var first := history[0];
      StepEvolves(env, db, first.op, first.now);
      HistoryEvolves(env, Step(env, db, first.op, first.now), first.now, history[1..]);
    }
  }

  // ---------- retries ----------

  /** The digest behind alias ids tells its inputs apart. */
  ghost predicate DigestsDiffer(env: Env) {
    forall s, k, t, s', k', t' :: env.digest(s, k, t) == env.digest(s', k', t') ==> s == s' && k == k' && t == t'
  }

  /** A write that was not itself a retry leaves a row that holds its key for its answer as long as
      the answer lives. */
  lemma AnswerIsHeld(env: Env, db: Db, o: Oracles, scope: Scope, input: Input, newId: string, now: int) returns (a: string)
    requires Inv(env, db, now) && Permitted(db, Write(o, scope, input, newId), now) && DigestsDiffer(env)
    requires HolderOf(db, scope, input.idempotencyKey, now).None?
    requires var answer := Create(env, db, o, scope, input, newId, now); ActiveAt(answer.db.rows[answer.id], now)
    ensures var answer := Create(env, db, o, scope, input, newId, now);
            Resolves(answer.db, a, answer.id, scope, input.idempotencyKey, now)
            && answer.db.rows[a].expiresAtMs == answer.db.rows[answer.id].expiresAtMs
  {
    hide IsAliasId, HolderOf, Holds, NoExpiredHolder, Superseded, HoldersUnique, Unambiguous, Ranked, EmbeddingsExact;
    var answer := Create(env, db, o, scope, input, newId, now);
    if answer.created {
      a := newId;
    } else {
      a := AliasId(env, scope, input.idempotencyKey, answer.id);
      SameAlias(env, db, scope, input, answer.id, now);
    }
  }

  lemma SameAlias(env: Env, db: Db, scope: Scope, input: Input, target: string, now: int)
    requires AliasesWellFormed(env, db) && RowsWellFormed(db) && DigestsDiffer(env) && target in db.rows
    ensures var id, after := AliasId(env, scope, input.idempotencyKey, target), PutAlias(env, db, scope, input, target, now);
            id in after.rows && after.rows[id].scope == scope && after.rows[id].idempotencyKey == input.idempotencyKey
            && after.rows[id].supersededById == Some(target) && after.rows[id].supersededAtMs.Some?
            && after.rows[id].archivedAtMs.None? && after.rows[id].expiresAtMs == db.rows[target].expiresAtMs
  {
    var id := AliasId(env, scope, input.idempotencyKey, target);
    if id in db.rows {
      var row := db.rows[id];
      assert IsAliasId(id);
      var there := AliasId(env, row.scope, row.idempotencyKey, row.supersededById.value);
      assert id[|ALIAS_PREFIX|..] == env.digest(scope, input.idempotencyKey, target);
      assert there[|ALIAS_PREFIX|..] == env.digest(row.scope, row.idempotencyKey, row.supersededById.value);
    }
  }

  /** Repeating a write with the same scope and key, at any later time and after any other writes,
      gives back the same memory and adds no row, for as long as that memory is active and the
      row through which the key resolved has not expired. */
  lemma RetryReturnsTheSameMemory(env: Env, db: Db, a: string, m: string, scope: Scope, key: string, clock: int,
                                  history: seq<Timed>, o: Oracles, input: Input, newId: string, later: int)
    requires Inv(env, db, clock) && Resolves(db, a, m, scope, key, clock) && input.idempotencyKey == key
    requires Legal(env, db, clock, history) && EndTime(clock, history) <= later
    requires var after := Final(env, db, history);
             m in after.rows && a in after.rows && ActiveAt(after.rows[m], later) && Unexpired(after.rows[a], later)
    ensures var after := Final(env, db, history);
            var answer := Create(env, after, o, scope, input, newId, later);
            answer.id == m && !answer.created && answer.db.rows == after.rows
  {
    hide Permitted, Step, Shape, Unambiguous, Ranked;
    var after := Final(env, db, history);
    HistoryEvolves(env, db, clock, history);
    HistoryKeepsInv(env, db, clock, history);
    TimePasses(env, after, EndTime(clock, history), later);
    assert Resolves(after, a, m, scope, input.idempotencyKey, later);
    assert Holds(after, m, scope, input.idempotencyKey, later);
    HolderHolds(after, scope, input.idempotencyKey, later);
  }

  lemma {:induction false} HistoriesSplit(env: Env, db: Db, clock: int, a: seq<Timed>, b: seq<Timed>)
    requires Legal(env, db, clock, a + b)
    ensures Legal(env, db, clock, a) && Legal(env, Final(env, db, a), EndTime(clock, a), b)
    ensures Final(env, db, a + b) == Final(env, Final(env, db, a), b)
    decreases |a|
  {
    hide Permitted, Step;
    if a == [] {
      assert a + b == b;
    } else {
      assert (a + b)[0] == a[0] && (a + b)[1..] == a[1..] + b;
      HistoriesSplit(env, Step(env, db, a[0].op, a[0].now), a[0].now, a[1..], b);
    }
  }

  lemma ActiveLaterMeansActiveBefore(db: Db, later: Db, m: string, now: int, end: int)
    requires Evolved(db, later) && m in db.rows && now <= end && ActiveAt(later.rows[m], end)
    ensures ActiveAt(db.rows[m], now)
  {}

  /** From empty tables: after any writes and archivings a memory is written, any others follow, and the write is
      repeated with its scope and key, whatever else has changed about it. As long as the memory that answered is
      active, the repetition is answered with it and adds no row. If the first write was itself a retry, the row
      through which its key resolved must not have expired either; otherwise nothing more is needed. */
  lemma WritingTwiceWritesOnce(env: Env, clock: int, before: seq<Timed>, first: Timed, between: seq<Timed>,
                               o: Oracles, again: Input, newId: string, later: int)
    requires DigestsDiffer(env) && first.op.Write? && again.idempotencyKey == first.op.input.idempotencyKey
    requires Legal(env, Db(map[], map[]), clock, before + ([first] + between))
    requires EndTime(first.now, between) <= later
    ensures var start := Final(env, Db(map[], map[]), before);
            var w := first.op;
            var answer := Create(env, start, w.oracles, w.scope, w.input, w.newId, first.now);
            var after := Final(env, Db(map[], map[]), before + ([first] + between));
            var retry := Create(env, after, o, w.scope, again, newId, later);
            && answer.id in after.rows
            && (ActiveAt(after.rows[answer.id], later)
                && (HolderOf(start, w.scope, w.input.idempotencyKey, first.now).None?
                    || exists a :: Resolves(answer.db, a, answer.id, w.scope, w.input.idempotencyKey, first.now)
                                   && a in after.rows && Unexpired(after.rows[a], later))
                ==> retry.id == answer.id && !retry.created && retry.db.rows == after.rows)
  {
    hide Create, Inv, HolderOf, NoExpiredHolder, ActiveAt, Unexpired, IsAliasId, Resolves, DigestsDiffer;
    var empty, w, now := Db(map[], map[]), first.op, first.now;
    HistoriesSplit(env, empty, clock, before, [first] + between);
    var start := Final(env, empty, before);
    var answer := Create(env, start, w.oracles, w.scope, w.input, w.newId, now);
    assert ([first] + between)[0] == first && ([first] + between)[1..] == between;
    EmptyInv(env, clock);
    HistoryKeepsInv(env, empty, clock, before);
    TimePasses(env, start, EndTime(clock, before), now);
    StepKeepsInv(env, start, w, now);
    HistoryEvolves(env, answer.db, now, between);
    var after := Final(env, answer.db, between);
    if ActiveAt(after.rows[answer.id], later) {
      ActiveLaterMeansActiveBefore(answer.db, after, answer.id, now, later);
      if HolderOf(start, w.scope, w.input.idempotencyKey, now).None? {
        var a := AnswerIsHeld(env, start, w.oracles, w.scope, w.input, w.newId, now);
        ExpiresTogether(answer.db, after, a, answer.id, w.scope, w.input.idempotencyKey, now, later);
        RetryReturnsTheSameMemory(env, answer.db, a, answer.id, w.scope, again.idempotencyKey, now, between, o, again, newId, later);
      } else if a :| Resolves(answer.db, a, answer.id, w.scope, w.input.idempotencyKey, now)
                     && a in after.rows && Unexpired(after.rows[a], later) {
        RetryReturnsTheSameMemory(env, answer.db, a, answer.id, w.scope, again.idempotencyKey, now, between, o, again, newId, later);
      }
    }
  }

  lemma ExpiresTogether(db: Db, later: Db, a: string, m: string, scope: Scope, key: string, now: int, end: int)
    requires Evolved(db, later) && Resolves(db, a, m, scope, key, now) && db.rows[a].expiresAtMs == db.rows[m].expiresAtMs
    requires ActiveAt(later.rows[m], end)
    ensures a in later.rows && Unexpired(later.rows[a], end)
  {}
}
