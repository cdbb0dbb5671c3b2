/** What every history of writes keeps true of the memory tables. */
module MemoryInvariants {
  import opened Wrappers
  import opened MemoryModel

  /** Rows carry their own key, a subject that follows from their scope, and both or neither of the
      two supersession fields. */
  ghost predicate RowsWellFormed(db: Db) {
    forall k | k in db.rows ::
      db.rows[k].id == k && db.rows[k].subject == SubjectOf(db.rows[k].scope)
      && (db.rows[k].supersededAtMs.Some? <==> db.rows[k].supersededById.Some?)
  }

  /** A superseding row exists, has the same scope, and is not an alias; aliases are born superseded and
      expire with their target. */
  ghost predicate LinksWellFormed(db: Db) {
    forall k | k in db.rows && db.rows[k].supersededById.Some? ::
      var target := db.rows[k].supersededById.value;
      target in db.rows && db.rows[target].scope == db.rows[k].scope && !IsAliasId(target)
  }

  ghost predicate AliasesWellFormed(env: Env, db: Db) {
    forall k | k in db.rows && IsAliasId(k) ::
      var a := db.rows[k];
      a.supersededById.Some? && a.archivedAtMs.None?
      && a.supersededById.value in db.rows
      && a.expiresAtMs == db.rows[a.supersededById.value].expiresAtMs
      && k == AliasId(env, a.scope, a.idempotencyKey, a.supersededById.value)
  }

  /** The partial unique index on scope and key over live rows. */
  ghost predicate LiveKeysUnique(db: Db) {
    forall a, b | a in db.rows && b in db.rows && Live(db.rows[a]) && Live(db.rows[b])
                  && db.rows[a].scope == db.rows[b].scope && db.rows[a].idempotencyKey == db.rows[b].idempotencyKey ::
      a == b
  }

  /** A key of a scope resolves to at most one active memory, whichever rows it goes through. */
  ghost predicate HoldersUnique(db: Db, now: int) {
    forall scope, key, a, m, b, n ::
      Resolves(db, a, m, scope, key, now) && Resolves(db, b, n, scope, key, now) ==> m == n
  }

  ghost predicate NoTwoAlike(db: Db, now: int) {
    forall a, b | a in db.rows && b in db.rows && ActiveAt(db.rows[a], now) && ActiveAt(db.rows[b], now)
                  && db.rows[a].scope == db.rows[b].scope && db.rows[a].kind == db.rows[b].kind
                  && db.rows[a].content == db.rows[b].content :: a == b
  }

  ghost predicate EmbeddingsExact(env: Env, db: Db) {
    forall k | k in db.embeddings ::
      k in db.rows && Live(db.rows[k]) && db.embeddings[k].contentHash == env.hash(db.rows[k].content)
  }

  /** Supersession links go down in rank. */
  ghost predicate RankedBy(db: Db, rank: map<string, nat>) {
    && rank.Keys == db.rows.Keys
    && forall k | k in db.rows && db.rows[k].supersededById.Some? ::
         db.rows[k].supersededById.value in rank && rank[db.rows[k].supersededById.value] < rank[k]
  }

  ghost predicate Ranked(db: Db) {
    exists rank :: RankedBy(db, rank)
  }

  ghost predicate Shape(env: Env, db: Db) {
    RowsWellFormed(db) && LinksWellFormed(db) && AliasesWellFormed(env, db) && EmbeddingsExact(env, db)
  }

  ghost predicate Unambiguous(db: Db, now: int) {
    LiveKeysUnique(db) && NoTwoAlike(db, now)
  }

  ghost predicate Inv(env: Env, db: Db, now: int) {
    Shape(env, db) && Unambiguous(db, now) && HoldersUnique(db, now) && Ranked(db)
  }

  lemma EmptyInv(env: Env, now: int)
    ensures Inv(env, Db(map[], map[]), now)
  {
    assert RankedBy(Db(map[], map[]), map[]);
  }

  /** Time only takes holders away. */
  lemma TimePasses(env: Env, db: Db, now: int, later: int)
    requires Inv(env, db, now) && now <= later
    ensures Inv(env, db, later)
  {
    forall scope, key, a, m, b, n | Resolves(db, a, m, scope, key, later) && Resolves(db, b, n, scope, key, later)
      ensures m == n
    {
      assert Resolves(db, a, m, scope, key, now) && Resolves(db, b, n, scope, key, now);
    }
  }

  // ---------- archiving ----------

  /** An archived key resolves to no more than before. */
  lemma FewerHolders(db: Db, after: Db, now: int)
    requires HoldersUnique(db, now)
    requires forall scope, key, a, m :: Resolves(after, a, m, scope, key, now) ==> Resolves(db, a, m, scope, key, now)
    ensures HoldersUnique(after, now)
  {
    hide Resolves;
  }

  lemma ArchiveKeepsShape(env: Env, db: Db, ids: set<string>, now: int, reason: string)
    requires Shape(env, db) && forall k | k in ids :: k in db.rows && Live(db.rows[k])
    ensures Shape(env, Archive(db, ids, now, reason))
  {
    hide IsAliasId, AliasId;
  }

  lemma ArchiveKeepsUnambiguous(db: Db, ids: set<string>, now: int, reason: string)
    requires Unambiguous(db, now)
    ensures Unambiguous(Archive(db, ids, now, reason), now)
  {}

  lemma ArchiveKeepsInv(env: Env, db: Db, ids: set<string>, now: int, reason: string)
    requires Inv(env, db, now)
    requires forall k | k in ids :: k in db.rows && Live(db.rows[k])
    ensures Inv(env, Archive(db, ids, now, reason), now)
  {
    hide Shape, HoldersUnique, Unambiguous;
    var after := Archive(db, ids, now, reason);
    ArchiveKeepsShape(env, db, ids, now, reason);
    ArchiveKeepsUnambiguous(db, ids, now, reason);
    FewerHolders(db, after, now);
    var rank :| RankedBy(db, rank);
    assert RankedBy(after, rank);
  }

  // ---------- embeddings ----------

  lemma PutEmbeddingKeepsInv(env: Env, db: Db, id: string, vector: Option<Vector>, now: int)
    requires Inv(env, db, now) && id in db.rows && Live(db.rows[id])
    ensures Inv(env, PutEmbedding(env, db, id, vector, now), now)
  {
    hide Shape, Unambiguous, HoldersUnique, Ranked;
    var after := PutEmbedding(env, db, id, vector, now);
    PutEmbeddingKeepsShape(env, db, id, vector, now);
    assert after.rows == db.rows;
    SameRowsSameHolders(db, after, now);
  }

  lemma PutEmbeddingKeepsShape(env: Env, db: Db, id: string, vector: Option<Vector>, now: int)
    requires Shape(env, db) && id in db.rows && Live(db.rows[id])
    ensures Shape(env, PutEmbedding(env, db, id, vector, now))
  {
    hide IsAliasId, AliasId;
  }

  lemma SameRowsSameHolders(db: Db, after: Db, now: int)
    requires after.rows == db.rows && Unambiguous(db, now) && HoldersUnique(db, now) && Ranked(db)
    ensures Unambiguous(after, now) && HoldersUnique(after, now) && Ranked(after)
  {
    FewerHolders(db, after, now);
    var rank :| RankedBy(db, rank);
    assert RankedBy(after, rank);
  }

  // ---------- aliases ----------

  lemma PutAliasKeepsHolders(env: Env, db: Db, scope: Scope, input: Input, target: string, now: int)
    requires HoldersUnique(db, now) && ActiveIn(db, target, scope, input.kind, now)
    requires forall m :: !Holds(db, m, scope, input.idempotencyKey, now)
    ensures HoldersUnique(PutAlias(env, db, scope, input, target, now), now)
  {
    hide IsAliasId, AliasId;
    var after := PutAlias(env, db, scope, input, target, now);
    var alias := AliasRow(env, db, scope, input, target, now);
    if after != db {
      forall s, key, a, m, b, n | Resolves(after, a, m, s, key, now) && Resolves(after, b, n, s, key, now)
        ensures m == n
      {
        assert a != alias.id ==> m != alias.id ==> Resolves(db, a, m, s, key, now) && Holds(db, m, s, key, now);
        assert b != alias.id ==> n != alias.id ==> Resolves(db, b, n, s, key, now) && Holds(db, n, s, key, now);
        assert !Live(after.rows[alias.id]);
      }
    }
  }

  lemma PutAliasKeepsShape(env: Env, db: Db, scope: Scope, input: Input, target: string, now: int)
    requires Shape(env, db) && ActiveIn(db, target, scope, input.kind, now)
    ensures Shape(env, PutAlias(env, db, scope, input, target, now))
  {
    hide IsAliasId, AliasId;
    assert !IsAliasId(target);
  }

  lemma PutAliasKeepsInv(env: Env, db: Db, scope: Scope, input: Input, target: string, now: int)
    requires Inv(env, db, now) && ActiveIn(db, target, scope, input.kind, now)
    requires forall m :: !Holds(db, m, scope, input.idempotencyKey, now)
    ensures Inv(env, PutAlias(env, db, scope, input, target, now), now)
  {
    assert LinksWellFormed(db);
    hide Shape, Unambiguous, HoldersUnique, Ranked, Holds, PutAlias, LinksWellFormed;
    PutAliasKeepsHolders(env, db, scope, input, target, now);
    PutAliasKeepsShape(env, db, scope, input, target, now);
    PutAliasKeepsUnambiguous(env, db, scope, input, target, now);
    PutAliasKeepsRank(env, db, scope, input, target, now);
  }

  lemma PutAliasKeepsUnambiguous(env: Env, db: Db, scope: Scope, input: Input, target: string, now: int)
    requires Unambiguous(db, now) && target in db.rows
    ensures Unambiguous(PutAlias(env, db, scope, input, target, now), now)
  {
    hide IsAliasId, AliasId;
  }

  lemma PutAliasKeepsRank(env: Env, db: Db, scope: Scope, input: Input, target: string, now: int)
    requires Ranked(db) && LinksWellFormed(db) && target in db.rows
    ensures Ranked(PutAlias(env, db, scope, input, target, now))
  {
    hide IsAliasId, AliasId;
    var after := PutAlias(env, db, scope, input, target, now);
    var alias := AliasRow(env, db, scope, input, target, now);
    var rank :| RankedBy(db, rank);
    if after != db {
      assert RankedBy(after, rank[alias.id := rank[target] + 1]);
    }
  }

  // ---------- inserting ----------

  /** No live row of the scope with the key has expired: what archiving leaves behind. */
  ghost predicate NoExpiredHolder(db: Db, scope: Scope, key: string, now: int) {
    forall k | k in db.rows && Live(db.rows[k]) && db.rows[k].scope == scope && db.rows[k].idempotencyKey == key ::
      Unexpired(db.rows[k], now)
  }

  /** When expired rows are archived and no holder is found, no live row has the key: an insert
      cannot run into the unique index. */
  lemma InsertNeverConflicts(db: Db, scope: Scope, key: string, now: int)
    requires NoExpiredHolder(db, scope, key, now) && HolderOf(db, scope, key, now).None?
    ensures !exists k :: k in db.rows && Live(db.rows[k]) && db.rows[k].scope == scope && db.rows[k].idempotencyKey == key
  {
    if k :| k in db.rows && Live(db.rows[k]) && db.rows[k].scope == scope && db.rows[k].idempotencyKey == key {
      assert Resolves(db, k, k, scope, key, now);
      assert Holds(db, k, scope, key, now);
    }
  }

  /** How a key resolves after an insert: as before to a memory that is still active, or to the new
      memory, by its own key or through a row it superseded. */
  lemma ResolvesAfterInsert(env: Env, db: Db, id: string, scope: Scope, input: Input, superseded: set<string>, now: int,
                            s: Scope, key: string, a: string, m: string)
    requires Inv(env, db, now) && id !in db.rows
    requires forall k | k in superseded :: ActiveIn(db, k, scope, input.kind, now)
    requires Resolves(Insert(db, id, scope, input, superseded, now), a, m, s, key, now)
    ensures m == id && a == id ==> s == scope && key == input.idempotencyKey
    ensures m == id && a != id ==> a in superseded && Resolves(db, a, a, s, key, now)
    ensures m != id ==> a != id && m !in superseded && Resolves(db, a, m, s, key, now)
  {
    hide LiveKeysUnique, HoldersUnique, NoTwoAlike, EmbeddingsExact, Ranked, AliasesWellFormed, IsAliasId;
  }

  lemma InsertKeepsHolders(env: Env, db: Db, id: string, scope: Scope, input: Input, superseded: set<string>, now: int)
    requires Inv(env, db, now) && id !in db.rows
    requires forall m :: !Holds(db, m, scope, input.idempotencyKey, now)
    requires forall k | k in superseded :: ActiveIn(db, k, scope, input.kind, now)
    ensures HoldersUnique(Insert(db, id, scope, input, superseded, now), now)
  {
    hide Insert, Resolves, LiveKeysUnique, NoTwoAlike, EmbeddingsExact, Ranked, AliasesWellFormed, LinksWellFormed, RowsWellFormed;
    var after := Insert(db, id, scope, input, superseded, now);
    forall s, key, a, m, b, n | Resolves(after, a, m, s, key, now) && Resolves(after, b, n, s, key, now)
      ensures m == n
    {
      ResolvesAfterInsert(env, db, id, scope, input, superseded, now, s, key, a, m);
      ResolvesAfterInsert(env, db, id, scope, input, superseded, now, s, key, b, n);
      assert forall x, y :: Resolves(db, x, y, scope, input.idempotencyKey, now) ==> Holds(db, y, scope, input.idempotencyKey, now);
    }
  }

  lemma InsertKeepsRank(env: Env, db: Db, id: string, scope: Scope, input: Input, superseded: set<string>, now: int)
    requires Inv(env, db, now) && id !in db.rows
    requires forall k | k in superseded :: ActiveIn(db, k, scope, input.kind, now)
    ensures Ranked(Insert(db, id, scope, input, superseded, now))
  {
    hide HoldersUnique, NoTwoAlike, LiveKeysUnique, AliasesWellFormed, EmbeddingsExact, RowsWellFormed, Insert;
    var after := Insert(db, id, scope, input, superseded, now);
    var rank :| RankedBy(db, rank);
    var shifted: map<string, nat> := (map k | k in rank :: rank[k] + 1)[id := 0];
    LinksAfterInsert(db, id, scope, input, superseded, now);
    forall k | k in after.rows && after.rows[k].supersededById.Some?
      ensures after.rows[k].supersededById.value in shifted && shifted[after.rows[k].supersededById.value] < shifted[k]
    {}
    assert RankedBy(after, shifted);
  }

  lemma LinksAfterInsert(db: Db, id: string, scope: Scope, input: Input, superseded: set<string>, now: int)
    requires id !in db.rows
    ensures var after := Insert(db, id, scope, input, superseded, now);
            && after.rows.Keys == db.rows.Keys + {id} && after.rows[id].supersededById.None?
            && forall k | k in db.rows ::
                 after.rows[k].supersededById == if k in superseded then Some(id) else db.rows[k].supersededById
  {}

  lemma InsertKeepsShape(env: Env, db: Db, id: string, scope: Scope, input: Input, superseded: set<string>, now: int)
    requires Shape(env, db) && id !in db.rows && !IsAliasId(id)
    requires forall k | k in superseded :: ActiveIn(db, k, scope, input.kind, now)
    ensures Shape(env, Insert(db, id, scope, input, superseded, now))
  {
    hide IsAliasId, AliasId;
  }

  lemma InsertKeepsUnambiguous(env: Env, db: Db, id: string, scope: Scope, input: Input, superseded: set<string>, now: int)
    requires Unambiguous(db, now) && RowsWellFormed(db) && id !in db.rows
    requires !exists k :: k in db.rows && Live(db.rows[k]) && db.rows[k].scope == scope && db.rows[k].idempotencyKey == input.idempotencyKey
    requires forall k :: !SameContent(db, k, scope, input.kind, input.content, now)
    ensures Unambiguous(Insert(db, id, scope, input, superseded, now), now)
  {
    hide Insert;
    var after := Insert(db, id, scope, input, superseded, now);
    OldRowsAfterInsert(db, id, scope, input, superseded, now);
    assert LiveKeysUnique(after);
    forall a, b | a in after.rows && b in after.rows && ActiveAt(after.rows[a], now) && ActiveAt(after.rows[b], now)
                  && after.rows[a].scope == after.rows[b].scope && after.rows[a].kind == after.rows[b].kind
                  && after.rows[a].content == after.rows[b].content
      ensures a == b
    {
      assert a != id && b == id ==> SameContent(db, a, scope, input.kind, input.content, now);
      assert b != id && a == id ==> SameContent(db, b, scope, input.kind, input.content, now);
    }
  }

  /** An insert adds one live row; any other live row was live and is unchanged. */
  lemma OldRowsAfterInsert(db: Db, id: string, scope: Scope, input: Input, superseded: set<string>, now: int)
    requires id !in db.rows
    ensures var after := Insert(db, id, scope, input, superseded, now);
            && after.rows.Keys == db.rows.Keys + {id} && after.rows[id] == NewRow(id, scope, input, now)
            && forall k | k in db.rows && Live(after.rows[k]) :: after.rows[k] == db.rows[k]
  {}

  lemma InsertKeepsInv(env: Env, db: Db, id: string, scope: Scope, input: Input, superseded: set<string>, now: int)
    requires Inv(env, db, now) && id !in db.rows && !IsAliasId(id)
    requires NoExpiredHolder(db, scope, input.idempotencyKey, now)
    requires HolderOf(db, scope, input.idempotencyKey, now).None?
    requires ExactDuplicate(db, scope, input.kind, input.content, now).None?
    requires forall k | k in superseded :: ActiveIn(db, k, scope, input.kind, now)
    ensures Inv(env, Insert(db, id, scope, input, superseded, now), now)
  {
    hide HoldersUnique, Ranked, IsAliasId, Holds, SameContent, Unambiguous, Insert, NoExpiredHolder, ActiveIn;
    InsertNeverConflicts(db, scope, input.idempotencyKey, now);
    InsertKeepsHolders(env, db, id, scope, input, superseded, now);
    InsertKeepsRank(env, db, id, scope, input, superseded, now);
    InsertKeepsShape(env, db, id, scope, input, superseded, now);
    InsertKeepsUnambiguous(env, db, id, scope, input, superseded, now);
  }

  // ---------- a whole write ----------

  lemma HolderHolds(db: Db, scope: Scope, key: string, now: int)
    ensures var h := HolderOf(db, scope, key, now);
            (h.None? <==> forall m :: !Holds(db, m, scope, key, now))
            && (h.Some? ==> Holds(db, h.value, scope, key, now) && h.value in db.rows
                            && db.rows[h.value].scope == scope && ActiveAt(db.rows[h.value], now))
  {}

  /** A write keeps everything above, for whatever the embedder, the index and the decider answer. */
  lemma CreateKeepsInv(env: Env, db: Db, o: Oracles, scope: Scope, input: Input, newId: string, now: int)
    requires Inv(env, db, now) && newId !in db.rows && !IsAliasId(newId)
    requires NoExpiredHolder(db, scope, input.idempotencyKey, now)
    ensures Inv(env, Create(env, db, o, scope, input, newId, now).db, now)
  {
    hide Inv, HolderOf, Holds, PutAlias, Insert, Superseded, NoExpiredHolder, IsAliasId, Archive, PutEmbedding;
    HolderHolds(db, scope, input.idempotencyKey, now);
    var holder := HolderOf(db, scope, input.idempotencyKey, now);
    var exact := ExactDuplicate(db, scope, input.kind, input.content, now);
    var near := Nearest(env, db, o, scope, input, now);
    if holder.Some? {
      PutEmbeddingKeepsInv(env, db, holder.value, EmbeddingOf(o, db.rows[holder.value].content), now);
    } else if exact.Some? || near.Some? {
      var target := if exact.Some? then exact.value else near.value;
      PutAliasKeepsInv(env, db, scope, input, target, now);
      AliasKeepsRows(env, db, scope, input, target, now);
      var aliased := PutAlias(env, db, scope, input, target, now);
      PutEmbeddingKeepsInv(env, aliased, target, EmbeddingOf(o, aliased.rows[target].content), now);
    } else {
      SupersededAreActive(db, o, scope, input, now);
      var superseded := Superseded(db, o, scope, input, now);
      InsertKeepsInv(env, db, newId, scope, input, superseded, now);
      InsertedRow(db, newId, scope, input, superseded, now);
      PutEmbeddingKeepsInv(env, Insert(db, newId, scope, input, superseded, now), newId, EmbeddingOf(o, input.content), now);
    }
  }

  lemma AliasKeepsRows(env: Env, db: Db, scope: Scope, input: Input, target: string, now: int)
    requires target in db.rows
    ensures forall k | k in db.rows :: k in PutAlias(env, db, scope, input, target, now).rows
                                       && PutAlias(env, db, scope, input, target, now).rows[k] == db.rows[k]
  {}

  lemma InsertedRow(db: Db, id: string, scope: Scope, input: Input, superseded: set<string>, now: int)
    ensures var after := Insert(db, id, scope, input, superseded, now);
            id in after.rows && after.rows[id] == NewRow(id, scope, input, now)
  {}

  lemma DuplicatesExist(env: Env, db: Db, o: Oracles, scope: Scope, input: Input, now: int)
    ensures var exact := ExactDuplicate(db, scope, input.kind, input.content, now); exact.Some? ==> exact.value in db.rows
    ensures var near := Nearest(env, db, o, scope, input, now); near.Some? ==> near.value in db.rows
  {}

  lemma SupersededAreActive(db: Db, o: Oracles, scope: Scope, input: Input, now: int)
    ensures forall k | k in Superseded(db, o, scope, input, now) :: ActiveIn(db, k, scope, input.kind, now)
  {}
}
