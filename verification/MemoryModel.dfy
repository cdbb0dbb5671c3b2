/** Long-term memories: their scopes, their two tables, and what each write does to them. */
module MemoryModel {
  import opened Wrappers

  // ---------- scopes ----------

  datatype ScopeKind = Personal | Conversation
  datatype Scope = Scope(kind: ScopeKind, key: string)
  datatype SubjectType = UserSubject | ConversationSubject
  datatype Subject = Subject(kind: SubjectType, key: string)

  datatype Requester = SlackUser(teamId: string, userId: string) | LocalUser(userId: string)
  datatype Source =
    | LocalSource(conversationId: string)
    | SlackSource(teamId: string, channelId: string, isPrivate: bool, threadTs: Option<string>, messageTs: Option<string>)
  datatype Context = Context(source: Source, requester: Option<Requester>)

  function RequesterKey(ctx: Context): Option<string> {
    if ctx.requester.None? || ctx.requester.value.userId == "" then None
    else match ctx.requester.value
      case SlackUser(teamId, userId) => Some("slack:" + teamId + ":" + userId)
      case LocalUser(userId) => Some("local:" + userId)
  }

  function ConversationKey(ctx: Context): Option<string> {
    match ctx.source
    case LocalSource(conversationId) => Some(conversationId)
    case SlackSource(teamId, channelId, isPrivate, threadTs, messageTs) =>
      if !isPrivate then Some("slack:" + teamId)
      else
        var thread := if threadTs.Some? then threadTs else messageTs;
        if thread.None? || thread.value == "" then None
        else Some("slack:" + teamId + ":" + channelId + ":" + thread.value)
  }

  /** Where a memory was learnt: a Slack source without a thread or message time has no such key. */
  function SourceKey(ctx: Context): Result<string> {
    match ctx.source
    case LocalSource(conversationId) => Ok(conversationId)
    case SlackSource(teamId, channelId, _, threadTs, messageTs) =>
      var thread := if threadTs.Some? then threadTs else messageTs;
      if thread.None? || thread.value == "" then Err("Memory source requires a Slack message or thread timestamp.")
      else Ok("slack:" + teamId + ":" + channelId + ":" + thread.value)
  }

  function DeriveScope(ctx: Context, kind: ScopeKind): Result<Scope> {
    match kind
    case Personal =>
      var key := RequesterKey(ctx);
      if key.None? || key.value == "" then Err("Personal memory requires requester context.") else Ok(Scope(Personal, key.value))
    case Conversation =>
      var key := ConversationKey(ctx);
      if key.None? || key.value == "" then Err("Conversation memory requires conversation context.")
      else Ok(Scope(Conversation, key.value))
  }

  function DeriveSubject(ctx: Context, scope: Scope): Result<Subject> {
    match scope.kind
    case Personal =>
      var key := RequesterKey(ctx);
      if key.None? || key.value == "" then Err("User-subject memory requires requester context.")
      else Ok(Subject(UserSubject, key.value))
    case Conversation =>
      var key := ConversationKey(ctx);
      if key.None? || key.value == "" then Err("Conversation-subject memory requires conversation context.")
      else Ok(Subject(ConversationSubject, key.value))
  }

  function SubjectOf(scope: Scope): Subject {
    Subject(if scope.kind == Personal then UserSubject else ConversationSubject, scope.key)
  }

  /** A scope derived from a context determines the subject: the second derivation cannot fail. */
  lemma ScopeDeterminesSubject(ctx: Context, kind: ScopeKind)
    ensures var scope := DeriveScope(ctx, kind);
            scope.Ok? ==> scope.value.kind == kind && DeriveSubject(ctx, scope.value) == Ok(SubjectOf(scope.value))
  {}

  // ---------- tables ----------

  datatype MemoryKind = Preference | Procedure | Knowledge

  datatype Memory = Memory(
    id: string,
    scope: Scope,
    kind: MemoryKind,
    subject: Subject,
    content: string,
    idempotencyKey: string,
    createdAtMs: int,
    expiresAtMs: Option<int>,
    supersededAtMs: Option<int>,
    supersededById: Option<string>,
    archivedAtMs: Option<int>,
    archiveReason: Option<string>)

  type Vector = seq<real>

  datatype Embedding = Embedding(contentHash: string, createdAtMs: int, vector: Vector)

  datatype Db = Db(rows: map<string, Memory>, embeddings: map<string, Embedding>)

  /** The digests in use. An alias id digests a scope, an idempotency key and a target id. */
  datatype Env = Env(hash: string -> string, digest: (Scope, string, string) -> string)

  const ALIAS_PREFIX := "alias:"

  predicate IsAliasId(id: string) {
    ALIAS_PREFIX <= id
  }

  function AliasId(env: Env, scope: Scope, key: string, targetId: string): (id: string)
    ensures IsAliasId(id)
  {
    ALIAS_PREFIX + env.digest(scope, key, targetId)
  }

  predicate Live(m: Memory) {
    m.archivedAtMs.None? && m.supersededAtMs.None? && m.supersededById.None?
  }

  predicate Unexpired(m: Memory, now: int) {
    m.expiresAtMs.None? || m.expiresAtMs.value > now
  }

  predicate ActiveAt(m: Memory, now: int) {
    Live(m) && Unexpired(m, now)
  }

  predicate ActiveIn(db: Db, id: string, scope: Scope, kind: MemoryKind, now: int) {
    id in db.rows && db.rows[id].scope == scope && db.rows[id].kind == kind
    && db.rows[id].subject == SubjectOf(scope) && ActiveAt(db.rows[id], now)
  }

  // ---------- lookups ----------

  /** Row `a` resolves the idempotency key to memory `m`: it is `m`, or it was superseded by `m`. */
  predicate Resolves(db: Db, a: string, m: string, scope: Scope, key: string, now: int) {
    a in db.rows && m in db.rows
    && db.rows[a].scope == scope && db.rows[a].idempotencyKey == key
    && db.rows[m].scope == scope && ActiveAt(db.rows[m], now)
    && (a == m
        || (db.rows[a].archivedAtMs.None? && db.rows[a].supersededAtMs.Some?
            && db.rows[a].supersededById == Some(m) && Unexpired(db.rows[a], now)))
  }

  ghost predicate Holds(db: Db, m: string, scope: Scope, key: string, now: int) {
    exists a :: Resolves(db, a, m, scope, key, now)
  }

  /** The memory that a retry with this key is answered with. */
  ghost function HolderOf(db: Db, scope: Scope, key: string, now: int): Option<string> {
    if exists m :: Holds(db, m, scope, key, now) then var m :| Holds(db, m, scope, key, now); Some(m) else None
  }

  predicate SameContent(db: Db, id: string, scope: Scope, kind: MemoryKind, content: string, now: int) {
    ActiveIn(db, id, scope, kind, now) && db.rows[id].content == content
  }

  ghost function ExactDuplicate(db: Db, scope: Scope, kind: MemoryKind, content: string, now: int): Option<string> {
    if exists id :: SameContent(db, id, scope, kind, content, now)
    then var id :| SameContent(db, id, scope, kind, content, now); Some(id) else None
  }

  /** The nearest memory that the vector index proposes counts when it is active in the scope and
      its embedding was made from its content. */
  predicate AcceptsNearest(env: Env, db: Db, id: string, scope: Scope, kind: MemoryKind, now: int) {
    ActiveIn(db, id, scope, kind, now) && id in db.embeddings
    && db.embeddings[id].contentHash == env.hash(db.rows[id].content)
  }

  // ---------- writes ----------

  function Archive(db: Db, ids: set<string>, now: int, reason: string): Db {
    Db(map k | k in db.rows ::
         if k in ids then db.rows[k].(archivedAtMs := Some(now), archiveReason := Some(reason)) else db.rows[k],
       db.embeddings - ids)
  }

  function PutEmbedding(env: Env, db: Db, id: string, vector: Option<Vector>, now: int): Db
    requires id in db.rows
  {
    if id in db.embeddings || vector.None? then db
    else db.(embeddings := db.embeddings[id := Embedding(env.hash(db.rows[id].content), now, vector.value)])
  }

  datatype Input = Input(content: string, expiresAtMs: Option<int>, idempotencyKey: string, kind: MemoryKind)

  function AliasRow(env: Env, db: Db, scope: Scope, input: Input, target: string, now: int): Memory
    requires target in db.rows
  {
    Memory(AliasId(env, scope, input.idempotencyKey, target), scope, db.rows[target].kind, SubjectOf(scope),
           input.content, input.idempotencyKey, now, db.rows[target].expiresAtMs, Some(now), Some(target), None, None)
  }

  /** Remembers the key of a duplicate write; an alias row that is already there is left alone. */
  function PutAlias(env: Env, db: Db, scope: Scope, input: Input, target: string, now: int): Db
    requires target in db.rows
  {
    var alias := AliasRow(env, db, scope, input, target, now);
    if alias.id in db.rows then db else db.(rows := db.rows[alias.id := alias])
  }

  function NewRow(id: string, scope: Scope, input: Input, now: int): Memory {
    Memory(id, scope, input.kind, SubjectOf(scope), input.content, input.idempotencyKey, now, input.expiresAtMs,
           None, None, None, None)
  }

  /** Inserts a memory that supersedes the given ones, whose embeddings go. */
  function Insert(db: Db, id: string, scope: Scope, input: Input, superseded: set<string>, now: int): Db {
    Db((map k | k in db.rows ::
          if k in superseded then db.rows[k].(supersededAtMs := Some(now), supersededById := Some(id)) else db.rows[k])
       [id := NewRow(id, scope, input, now)],
       db.embeddings - superseded)
  }

  // ---------- the outside world ----------

  /** The embedding provider, the vector index, and the supersession decider with its shortlist:
      arbitrary answers. */
  datatype Oracles = Oracles(
    embed: Option<string -> Option<Vector>>,
    nearest: Vector -> Option<string>,
    shortlist: string -> set<string>,
    decide: Option<(string, set<string>) -> set<string>>)

  function EmbeddingOf(o: Oracles, content: string): Option<Vector> {
    if o.embed.None? then None else o.embed.value(content)
  }

  function Nearest(env: Env, db: Db, o: Oracles, scope: Scope, input: Input, now: int): Option<string> {
    var vector := EmbeddingOf(o, input.content);
    if vector.None? then None
    else
      var id := o.nearest(vector.value);
      if id.Some? && AcceptsNearest(env, db, id.value, scope, input.kind, now) then id else None
  }

  /** The memories to supersede: asked for only for a personal preference that is not born expired. */
  function Superseded(db: Db, o: Oracles, scope: Scope, input: Input, now: int): set<string> {
    if scope.kind != Personal || input.kind != Preference || o.decide.None?
       || (input.expiresAtMs.Some? && input.expiresAtMs.value <= now) then {}
    else
      var candidates := set id | id in db.rows && id in o.shortlist(input.content) && ActiveIn(db, id, scope, input.kind, now);
      if candidates == {} then {} else o.decide.value(input.content, candidates) * candidates
  }

  datatype Answer = Answer(db: Db, id: string, created: bool)

  /** A write after expired rows were archived: answered by the key's holder, by an exact or a
      near duplicate, or by a new memory. */
  ghost function Create(env: Env, db: Db, o: Oracles, scope: Scope, input: Input, newId: string, now: int): (a: Answer)
    ensures a.id in a.db.rows
  {
    var holder := HolderOf(db, scope, input.idempotencyKey, now);
    var exact := ExactDuplicate(db, scope, input.kind, input.content, now);
    var near := Nearest(env, db, o, scope, input, now);
    if holder.Some? then
      Answer(PutEmbedding(env, db, holder.value, EmbeddingOf(o, db.rows[holder.value].content), now), holder.value, false)
    else if exact.Some? || near.Some? then
      var target := if exact.Some? then exact.value else near.value;
      var aliased := PutAlias(env, db, scope, input, target, now);
      Answer(PutEmbedding(env, aliased, target, EmbeddingOf(o, aliased.rows[target].content), now), target, false)
    else
      var inserted := Insert(db, newId, scope, input, Superseded(db, o, scope, input, now), now);
      Answer(PutEmbedding(env, inserted, newId, EmbeddingOf(o, input.content), now), newId, true)
  }
}
