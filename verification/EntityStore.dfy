/**
 * The entity-graph tables as a state machine. Every transaction of the storage backends
 * is a function from one table state to the next; the invariant that they keep ties each
 * relationship to the mentions of the chunk it was extracted from.
 */
module EntityStore {
  import opened Wrappers
  import opened Tables
  import opened EntityModel
  import opened GraphBuild

  datatype Db = Db(
    documents: map<DocumentId, Document>,
    chunks: map<ChunkId, Chunk>,
    entities: map<EntityId, Entity>,
    mentions: set<(ChunkId, EntityId)>,
    relationships: map<RelationshipId, Relationship>,
    nextId: nat  // stands for the supply of fresh UUIDs
  )

  const EmptyDb := Db(map[], map[], map[], {}, map[], 0)

  const EMBEDDING_DIMENSIONS := 1024

  datatype ChunkInsert = ChunkInsert(content: string, index: int, title: Option<string>, embedding: seq<real>)

  datatype DbError = Dimensions | ForeignKey | Unique | Check

  // ------------------------------------------- Deletions and what they cascade to

  function ChunkIds(db: Db, document: DocumentId): set<ChunkId> {
    set c | c in db.chunks && db.chunks[c].document == document
  }

  predicate EvidenceIn(r: Relationship, cs: set<ChunkId>) {
    r.evidence.Some? && r.evidence.value in cs
  }

  function DeleteEvidencedBy(db: Db, cs: set<ChunkId>): Db {
    db.(relationships := map r | r in db.relationships && !EvidenceIn(db.relationships[r], cs) :: db.relationships[r])
  }

  /** ON DELETE CASCADE for mentions, ON DELETE SET NULL for evidence. */
  function DeleteChunks(db: Db, cs: set<ChunkId>): Db {
    db.(chunks := db.chunks - cs,
        mentions := (set m | m in db.mentions && m.0 !in cs),
        relationships := map r | r in db.relationships ::
          if EvidenceIn(db.relationships[r], cs) then db.relationships[r].(evidence := None) else db.relationships[r])
  }

  /** ON DELETE CASCADE for mentions and for relationships at either end. */
  function DeleteEntities(db: Db, es: set<EntityId>): Db {
    db.(entities := db.entities - es,
        mentions := (set m | m in db.mentions && m.1 !in es),
        relationships := map r | r in db.relationships && db.relationships[r].source !in es && db.relationships[r].target !in es ::
          db.relationships[r])
  }

  function ClearDocument(db: Db, document: DocumentId): Db {
    var cs := ChunkIds(db, document);
    DeleteChunks(DeleteEvidencedBy(db, cs), cs)
  }

  // -------------------------------------------------------------------- Pruning

  function MentionCount(db: Db, e: EntityId): nat {
    |set m | m in db.mentions && m.1 == e|
  }

  function WithCounts(db: Db, counts: map<EntityId, nat>): Db {
    db.(entities := map e | e in db.entities ::
      if e in counts then db.entities[e].(mentionCount := counts[e]) else db.entities[e])
  }

  function DeleteUncounted(db: Db): Db {
    DeleteEntities(db, set e | e in db.entities && db.entities[e].mentionCount == 0)
  }

  /** SQLite: one correlated count for every entity. */
  function Recounted(db: Db): Db {
    db.(entities := map e | e in db.entities :: db.entities[e].(mentionCount := MentionCount(db, e)))
  }

  function PruneSqlite(db: Db): Db {
    DeleteUncounted(Recounted(db))
  }

  function MentionedIds(db: Db): set<EntityId> {
    set m | m in db.mentions :: m.1
  }

  function GroupedCounts(db: Db): map<EntityId, nat> {
    map e | e in MentionedIds(db) :: MentionCount(db, e)
  }

  function Zeroed(db: Db, mentioned: set<EntityId>): Db {
    db.(entities := map e | e in db.entities ::
      if e !in mentioned then db.entities[e].(mentionCount := 0) else db.entities[e])
  }

  /** PostgreSQL: grouped counts joined in, zeroes for the unmentioned, then the deletion. */
  function PrunePostgres(db: Db): Db {
    DeleteUncounted(Zeroed(WithCounts(db, GroupedCounts(db)), MentionedIds(db)))
  }

  predicate IsMentioned(db: Db, e: EntityId) {
    exists m :: m in db.mentions && m.1 == e
  }

  lemma {:induction false} CountIsZeroWhenUnmentioned(db: Db, e: EntityId)
    ensures MentionCount(db, e) == 0 <==> !IsMentioned(db, e)
  {
    var ms := set m | m in db.mentions && m.1 == e;
    if m :| m in db.mentions && m.1 == e {
      assert m in ms;
    } else {
      assert ms == {};
    }
  }

  lemma {:induction false} RecountsAgree(db: Db)
    ensures Zeroed(WithCounts(db, GroupedCounts(db)), MentionedIds(db)).entities == Recounted(db).entities
  {
    forall e ensures e in MentionedIds(db) <==> MentionCount(db, e) != 0 {
      CountIsZeroWhenUnmentioned(db, e);
    }
  }

  /** On every table state whatsoever, the two prunes are the same transformation. */
  lemma {:induction false} PrunesAgree(db: Db)
    ensures PruneSqlite(db) == PrunePostgres(db)
  {
    RecountsAgree(db);
    assert Zeroed(WithCounts(db, GroupedCounts(db)), MentionedIds(db)) == Recounted(db);
  }

  ghost predicate CountsExact(db: Db) {
    forall e :: e in db.entities ==> db.entities[e].mentionCount == MentionCount(db, e) > 0
  }

  /** Pruning keeps exactly the mentioned entities, counts them, and drops what hung on the others. */
  lemma {:induction false} PruneOutcome(db: Db)
    ensures var after := PruneSqlite(db);
            && (forall e :: e in after.entities <==> e in db.entities && IsMentioned(db, e))
            && (forall e :: e in after.entities ==> after.entities[e] == db.entities[e].(mentionCount := MentionCount(db, e)))
            && after.documents == db.documents && after.chunks == db.chunks && after.nextId == db.nextId
            && (forall m :: m in after.mentions <==> m in db.mentions && (m.1 in db.entities ==> m.1 in after.entities))
            && (forall r :: r in after.relationships <==> r in db.relationships && KeepsEnds(db, db.relationships[r]))
            && (forall r :: r in after.relationships ==> after.relationships[r] == db.relationships[r])
  {
    forall e ensures MentionCount(db, e) == 0 <==> !IsMentioned(db, e) {
      CountIsZeroWhenUnmentioned(db, e);
    }
  }

  predicate KeepsEnds(db: Db, r: Relationship) {
    (r.source in db.entities ==> IsMentioned(db, r.source)) && (r.target in db.entities ==> IsMentioned(db, r.target))
  }

  lemma {:induction false} PruneKeepsMentions(db: Db)
    ensures PruneSqlite(db).mentions == db.mentions
    ensures CountsExact(PruneSqlite(db))
  {
    PruneOutcome(db);
    var after := PruneSqlite(db);
    forall m | m in db.mentions ensures m in after.mentions {
      assert IsMentioned(db, m.1);
    }
    forall e | e in after.entities ensures after.entities[e].mentionCount == MentionCount(after, e) > 0 {
      CountIsZeroWhenUnmentioned(db, e);
      assert after.mentions == db.mentions;
    }
  }

  lemma {:induction false} CountedIsPruned(db: Db)
    requires CountsExact(db)
    ensures PruneSqlite(db) == db
  {
    assert Recounted(db).entities == db.entities;
    var none := set e | e in db.entities && db.entities[e].mentionCount == 0;
    assert none == {};
    assert (set m | m in db.mentions && m.1 !in none) == db.mentions;
    assert (map r | r in db.relationships && db.relationships[r].source !in none && db.relationships[r].target !in none ::
              db.relationships[r]) == db.relationships;
  }

  lemma {:induction false} PruneIsIdempotent(db: Db)
    ensures PruneSqlite(PruneSqlite(db)) == PruneSqlite(db)
  {
    PruneKeepsMentions(db);
    CountedIsPruned(PruneSqlite(db));
  }

  // --------------------------------------------------------------- Transactions

  ghost function DocumentAt(db: Db, path: string): Option<DocumentId> {
    if d :| d in db.documents && db.documents[d].path == path then Some(d) else None
  }

  ghost function UpsertDocument(db: Db, path: string, contentHash: string): (Db, DocumentId) {
    match DocumentAt(db, path)
    case Some(d) => (db.(documents := db.documents[d := Document(path, contentHash)]), d)
    case None => (db.(documents := db.documents[db.nextId := Document(path, contentHash)], nextId := db.nextId + 1), db.nextId)
  }

  function InsertChunk(db: Db, document: DocumentId, insert: ChunkInsert): Result<Db, DbError> {
    if document !in db.documents then Err(ForeignKey)
    else if exists c :: c in ChunkIds(db, document) && db.chunks[c].index == insert.index then Err(Unique)
    else Ok(db.(chunks := db.chunks[db.nextId := Chunk(document, insert.index, insert.content, insert.title)], nextId := db.nextId + 1))
  }

  function InsertChunks(db: Db, document: DocumentId, inserts: seq<ChunkInsert>): Result<Db, DbError> {
    if inserts == [] then Ok(db)
    else
      match InsertChunks(db, document, inserts[..|inserts| - 1])
      case Err(e) => Err(e)
      case Ok(before) => InsertChunk(before, document, inserts[|inserts| - 1])
  }

  function ReplaceDocumentChunks(db: Db, document: DocumentId, inserts: seq<ChunkInsert>): Result<Db, DbError> {
    if exists i :: 0 <= i < |inserts| && |inserts[i].embedding| != EMBEDDING_DIMENSIONS then Err(Dimensions)
    else InsertChunks(ClearDocument(db, document), document, inserts)
  }

  ghost function EntityAt(db: Db, key: Key): Option<EntityId> {
    if e :| e in db.entities && db.entities[e].key == key then Some(e) else None
  }

  /** INSERT .. ON CONFLICT (normalized_name, entity_type) DO UPDATE. */
  ghost function UpsertEntity(db: Db, node: EntityNode): (Db, EntityId) {
    var embedding := if node.embedding == [] then None else Some(node.embedding);
    match EntityAt(db, node.key)
    case Some(e) =>
      var stored := db.entities[e];
      var description := if node.description.Some? then node.description else stored.description;
      (db.(entities := db.entities[e := stored.(name := node.name, description := description, embedding := embedding)]), e)
    case None =>
      var inserted := Entity(node.key, node.name, node.description, embedding, 0);
      (db.(entities := db.entities[db.nextId := inserted], nextId := db.nextId + 1), db.nextId)
  }

  ghost function UpsertEntities(db: Db, nodes: seq<EntityNode>): (Db, map<Key, EntityId>) {
    if nodes == [] then (db, map[])
    else
      var (before, ids) := UpsertEntities(db, nodes[..|nodes| - 1]);
      var (after, e) := UpsertEntity(before, nodes[|nodes| - 1]);
      (after, ids[nodes[|nodes| - 1].key := e])
  }

  ghost function ChunkAt(db: Db, document: DocumentId, index: int): Option<ChunkId> {
    if c :| c in ChunkIds(db, document) && db.chunks[c].index == index then Some(c) else None
  }

  /** Mentions of chunks or entities that are not there are dropped; the others are inserted once. */
  ghost function InsertMention(db: Db, document: DocumentId, ids: map<Key, EntityId>, m: EntityMention): Db {
    match ChunkAt(db, document, m.chunkIndex)
    case Some(c) => if m.key in ids then db.(mentions := db.mentions + {(c, ids[m.key])}) else db
    case None => db
  }

  ghost function InsertMentions(db: Db, document: DocumentId, ids: map<Key, EntityId>, ms: seq<EntityMention>): Db {
    if ms == [] then db
    else InsertMention(InsertMentions(db, document, ids, ms[..|ms| - 1]), document, ids, ms[|ms| - 1])
  }

  /** A relationship whose evidence chunk is not there is inserted all the same, without evidence. */
  ghost function InsertRelationship(db: Db, document: DocumentId, ids: map<Key, EntityId>, edge: EntityEdge): Db {
    if edge.source in ids && edge.target in ids then
      db.(relationships := db.relationships[db.nextId := RowOf(db, document, ids, edge)], nextId := db.nextId + 1)
    else db
  }

  ghost function RowOf(db: Db, document: DocumentId, ids: map<Key, EntityId>, edge: EntityEdge): Relationship
    requires edge.source in ids && edge.target in ids
  {
    Relationship(ids[edge.source], ids[edge.target], edge.kind, edge.description, edge.weight, ChunkAt(db, document, edge.evidence))
  }

  ghost function InsertRelationships(db: Db, document: DocumentId, ids: map<Key, EntityId>, edges: seq<EntityEdge>): Db {
    if edges == [] then db
    else InsertRelationship(InsertRelationships(db, document, ids, edges[..|edges| - 1]), document, ids, edges[|edges| - 1])
  }

  predicate BadEmbedding(node: EntityNode) {
    |node.embedding| != 0 && |node.embedding| != EMBEDDING_DIMENSIONS
  }

  ghost function ReplaceDocumentEntityGraph(db: Db, document: DocumentId, graph: DocumentGraph): Result<Db, DbError> {
    if graph.IsEmpty() then Ok(PruneSqlite(db))
    else if exists i :: 0 <= i < |graph.entities| && BadEmbedding(graph.entities[i]) then Err(Check)
    else
      var (withEntities, ids) := UpsertEntities(db, graph.entities);
      var withMentions := InsertMentions(withEntities, document, ids, graph.mentions);
      Ok(PruneSqlite(InsertRelationships(withMentions, document, ids, graph.relationships)))
  }

  function DeleteDocument(db: Db, document: DocumentId): Db {
    var cleared := ClearDocument(db, document);
    PruneSqlite(cleared.(documents := cleared.documents - {document}))
  }

  // ------------------------------------------------------------------ Invariant

  /** The two ends exist and differ, and the evidence chunk, if any, mentions both. */
  predicate Sound(db: Db, r: Relationship) {
    && r.source in db.entities && r.target in db.entities && r.source != r.target
    && r.weight >= MIN_WEIGHT
    && (r.evidence.Some? ==>
          && r.evidence.value in db.chunks
          && (r.evidence.value, r.source) in db.mentions
          && (r.evidence.value, r.target) in db.mentions)
  }

  predicate AllSound(db: Db) {
    forall r :: r in db.relationships ==> Sound(db, db.relationships[r])
  }

  predicate UniquePaths(db: Db) {
    forall d, d' :: d in db.documents && d' in db.documents && db.documents[d].path == db.documents[d'].path ==> d == d'
  }

  predicate SamePlace(a: Chunk, b: Chunk) {
    a.document == b.document && a.index == b.index
  }

  predicate UniqueIndices(db: Db) {
    forall c, c' :: c in db.chunks && c' in db.chunks && SamePlace(db.chunks[c], db.chunks[c']) ==> c == c'
  }

  predicate UniqueKeys(db: Db) {
    forall e, e' :: e in db.entities && e' in db.entities && db.entities[e].key == db.entities[e'].key ==> e == e'
  }

  predicate IdsAreUsed(db: Db) {
    && (forall d :: d in db.documents ==> d < db.nextId)
    && (forall c :: c in db.chunks ==> c < db.nextId)
    && (forall e :: e in db.entities ==> e < db.nextId)
    && (forall r :: r in db.relationships ==> r < db.nextId)
  }

  predicate ForeignKeys(db: Db) {
    && (forall c :: c in db.chunks ==> db.chunks[c].document in db.documents)
    && (forall m :: m in db.mentions ==> m.0 in db.chunks && m.1 in db.entities)
  }

  predicate Invariant(db: Db) {
    && UniquePaths(db) && UniqueIndices(db) && UniqueKeys(db) && IdsAreUsed(db) && ForeignKeys(db)
    && AllSound(db)
  }

  /** Rows that stay as they are stay sound while nothing they lean on goes. */
  lemma {:induction false} SoundnessLasts(db: Db, after: Db)
    requires AllSound(db) && Unedited(db, after) && after.relationships.Keys <= db.relationships.Keys
    requires db.entities.Keys <= after.entities.Keys && db.chunks.Keys <= after.chunks.Keys && db.mentions <= after.mentions
    ensures AllSound(after)
  {
    forall r | r in after.relationships ensures Sound(after, after.relationships[r]) {
      var row := db.relationships[r];
      assert Sound(db, row) && after.relationships[r] == row;
      assert row.source in after.entities.Keys && row.target in after.entities.Keys;
      assert row.evidence.Some? ==> row.evidence.value in after.chunks.Keys;
    }
  }

  /** Relationship rows are never edited, only inserted and deleted. */
  predicate Unedited(before: Db, after: Db) {
    forall r :: r in before.relationships && r in after.relationships ==> before.relationships[r] == after.relationships[r]
  }

  /** A relationship goes only when its evidence chunk goes, unless it had no evidence to begin with. */
  predicate KeepsGrounded(before: Db, after: Db) {
    forall r :: r in before.relationships ==>
      var evidence := before.relationships[r].evidence;
      evidence.Some? && evidence.value in after.chunks ==> r in after.relationships && after.relationships[r] == before.relationships[r]
  }

  lemma {:induction false} UpsertDocumentKeeps(db: Db, path: string, contentHash: string)
    requires Invariant(db)
    ensures Invariant(UpsertDocument(db, path, contentHash).0)
  {
    SoundnessLasts(db, UpsertDocument(db, path, contentHash).0);
  }

  lemma {:induction false} ClearDocumentKeeps(db: Db, document: DocumentId)
    requires Invariant(db)
    ensures Invariant(ClearDocument(db, document)) && ChunkIds(ClearDocument(db, document), document) == {}
    ensures Unedited(db, ClearDocument(db, document)) && KeepsGrounded(db, ClearDocument(db, document))
    ensures ClearDocument(db, document).nextId == db.nextId
  {
    var after := ClearDocument(db, document);
    forall r | r in after.relationships ensures Sound(after, after.relationships[r]) && after.relationships[r] == db.relationships[r] {
      assert Sound(db, db.relationships[r]);
    }
  }

  /** Chunks may come with new ids; nothing else changes. */
  predicate ExtendsChunks(db: Db, after: Db) {
    && after.relationships == db.relationships && after.mentions == db.mentions
    && after.entities == db.entities && after.documents == db.documents
    && (forall c :: c in db.chunks ==> c in after.chunks && after.chunks[c] == db.chunks[c])
    && (forall c :: c in after.chunks ==> c in db.chunks || c >= db.nextId)
    && after.nextId >= db.nextId
  }

  lemma {:induction false} InsertChunkKeeps(db: Db, document: DocumentId, insert: ChunkInsert)
    requires Invariant(db) && InsertChunk(db, document, insert).Ok?
    ensures var after := InsertChunk(db, document, insert).value; Invariant(after) && ExtendsChunks(db, after)
  {
    var after := InsertChunk(db, document, insert).value;
    SoundnessLasts(db, after);
    forall c | c in db.chunks ensures !SamePlace(db.chunks[c], after.chunks[db.nextId]) {
      if db.chunks[c].document == document {
        assert c in ChunkIds(db, document);
      }
    }
  }

  lemma {:induction false} InsertChunksKeeps(db: Db, document: DocumentId, inserts: seq<ChunkInsert>)
    requires Invariant(db)
    ensures InsertChunks(db, document, inserts).Ok? ==>
              Invariant(InsertChunks(db, document, inserts).value) && ExtendsChunks(db, InsertChunks(db, document, inserts).value)
  {
    if inserts != [] && InsertChunks(db, document, inserts).Ok? {
      InsertChunksKeeps(db, document, inserts[..|inserts| - 1]);
      InsertChunkKeeps(InsertChunks(db, document, inserts[..|inserts| - 1]).value, document, inserts[|inserts| - 1]);
    }
  }

  lemma {:induction false} ReplaceDocumentChunksKeeps(db: Db, document: DocumentId, inserts: seq<ChunkInsert>)
    requires Invariant(db) && ReplaceDocumentChunks(db, document, inserts).Ok?
    ensures var after := ReplaceDocumentChunks(db, document, inserts).value;
            Invariant(after) && Unedited(db, after) && KeepsGrounded(db, after)
  {
    ClearDocumentKeeps(db, document);
    InsertChunksKeeps(ClearDocument(db, document), document, inserts);
    var after := ReplaceDocumentChunks(db, document, inserts).value;
    forall r | r in db.relationships && db.relationships[r].evidence.Some? && db.relationships[r].evidence.value in after.chunks
      ensures db.relationships[r].evidence.value in ClearDocument(db, document).chunks
    {
      assert Sound(db, db.relationships[r]);
    }
  }

  lemma {:induction false} PruneKeeps(db: Db)
    requires Invariant(db)
    ensures Invariant(PruneSqlite(db)) && Unedited(db, PruneSqlite(db)) && KeepsGrounded(db, PruneSqlite(db))
  {
    PruneOutcome(db);
    PruneKeepsMentions(db);
    var after := PruneSqlite(db);
    forall r | r in db.relationships && db.relationships[r].evidence.Some? ensures r in after.relationships {
      var row := db.relationships[r];
      assert Sound(db, row);
      assert (row.evidence.value, row.source).1 == row.source && (row.evidence.value, row.target).1 == row.target;
      assert KeepsEnds(db, row);
    }
    forall r | r in after.relationships ensures Sound(after, after.relationships[r]) {
      assert Sound(db, db.relationships[r]);
    }
  }

  lemma {:induction false} DeleteDocumentKeeps(db: Db, document: DocumentId)
    requires Invariant(db)
    ensures var after := DeleteDocument(db, document); Invariant(after) && Unedited(db, after) && KeepsGrounded(db, after)
  {
    ClearDocumentKeeps(db, document);
    var cleared := ClearDocument(db, document);
    var removed := cleared.(documents := cleared.documents - {document});
    assert ChunkIds(cleared, document) == {};
    forall c | c in removed.chunks ensures removed.chunks[c].document in removed.documents {
      assert c !in ChunkIds(cleared, document);
    }
    forall r | r in removed.relationships ensures Sound(removed, removed.relationships[r]) {
      assert Sound(cleared, cleared.relationships[r]);
    }
    PruneKeeps(removed);
    PruneOutcome(removed);
  }

  // ---- the graph transaction, stage by stage

  /** `ids` leads each key to a stored entity with that key. */
  predicate Resolves(db: Db, ids: map<Key, EntityId>) {
    forall key :: key in ids ==> ids[key] in db.entities && db.entities[ids[key]].key == key
  }

  /** Everything but the entities is as it was; entities may be added and re-described, never re-keyed. */
  predicate ExtendsEntities(db: Db, after: Db) {
    && after.documents == db.documents && after.chunks == db.chunks && after.mentions == db.mentions
    && after.relationships == db.relationships && after.nextId >= db.nextId
    && (forall e :: e in db.entities ==> e in after.entities && after.entities[e].key == db.entities[e].key)
    && (forall e :: e in after.entities ==> e in db.entities || e >= db.nextId)
  }

  /** One row is written: the one with the key, or a new one. */
  ghost predicate IsUpserted(db: Db, node: EntityNode, after: Db, e: EntityId) {
    && e in after.entities && after == db.(entities := db.entities[e := after.entities[e]], nextId := after.nextId)
    && (if e in db.entities then db.entities[e].key == node.key && after.nextId == db.nextId
        else e == db.nextId && after.nextId == db.nextId + 1 && forall e' :: e' in db.entities ==> db.entities[e'].key != node.key)
    && IsRowFor(node, if e in db.entities then Some(db.entities[e]) else None, after.entities[e])
  }

  /** Name and embedding are the node's; its description, or failing that the stored one; the count stays. */
  predicate IsRowFor(node: EntityNode, stored: Option<Entity>, row: Entity) {
    && row.key == node.key && row.name == node.name
    && row.embedding == (if node.embedding == [] then None else Some(node.embedding))
    && row.description == (if node.description.Some? || stored.None? then node.description else stored.value.description)
    && row.mentionCount == (if stored.Some? then stored.value.mentionCount else 0)
  }

  lemma {:induction false} UpsertedRow(db: Db, node: EntityNode)
    requires UniqueKeys(db) && IdsAreUsed(db)
    ensures var (after, e) := UpsertEntity(db, node); IsUpserted(db, node, after, e) && UniqueKeys(after) && IdsAreUsed(after)
  {
  }

  lemma {:induction false} UpsertEntityKeeps(db: Db, node: EntityNode)
    requires Invariant(db)
    ensures var (after, e) := UpsertEntity(db, node);
            Invariant(after) && ExtendsEntities(db, after) && e in after.entities && after.entities[e].key == node.key
  {
    var (after, e) := UpsertEntity(db, node);
    UpsertedRow(db, node);
    SoundnessLasts(db, after);
  }

  lemma {:induction false} UpsertedKeys(db: Db, nodes: seq<EntityNode>)
    ensures forall key :: key in UpsertEntities(db, nodes).1 <==> exists i :: 0 <= i < |nodes| && nodes[i].key == key
  {
    if nodes != [] {
      UpsertedKeys(db, nodes[..|nodes| - 1]);
      assert nodes == nodes[..|nodes| - 1] + [nodes[|nodes| - 1]];
    }
  }

  lemma {:induction false} ExtendsTwice(db: Db, between: Db, after: Db)
    requires ExtendsEntities(db, between) && ExtendsEntities(between, after)
    ensures ExtendsEntities(db, after)
  {
  }

  lemma {:induction false} UpsertEntitiesKeeps(db: Db, nodes: seq<EntityNode>)
    requires Invariant(db)
    ensures var (after, ids) := UpsertEntities(db, nodes);
            && Invariant(after) && ExtendsEntities(db, after) && Resolves(after, ids)
            && (forall key :: key in ids <==> exists i :: 0 <= i < |nodes| && nodes[i].key == key)
  {
    UpsertedKeys(db, nodes);
    if nodes != [] {
      var n := |nodes| - 1;
      UpsertEntitiesKeeps(db, nodes[..n]);
      UpsertEntityKeeps(UpsertEntities(db, nodes[..n]).0, nodes[n]);
      ExtendsTwice(db, UpsertEntities(db, nodes[..n]).0, UpsertEntities(db, nodes).0);
    }
  }

  lemma {:induction false} InsertMentionKeeps(db: Db, document: DocumentId, ids: map<Key, EntityId>, m: EntityMention)
    requires Invariant(db) && Resolves(db, ids)
    ensures var after := InsertMention(db, document, ids, m);
            Invariant(after) && after == db.(mentions := after.mentions) && db.mentions <= after.mentions
  {
    SoundnessLasts(db, InsertMention(db, document, ids, m));
  }

  lemma {:induction false} InsertMentionsKeeps(db: Db, document: DocumentId, ids: map<Key, EntityId>, ms: seq<EntityMention>)
    requires Invariant(db) && Resolves(db, ids)
    ensures var after := InsertMentions(db, document, ids, ms);
            && Invariant(after) && after == db.(mentions := after.mentions) && db.mentions <= after.mentions
            && (forall m, c :: m in ms && m.key in ids && ChunkAt(db, document, m.chunkIndex) == Some(c) ==> (c, ids[m.key]) in after.mentions)
  {
    if ms != [] {
      var n := |ms| - 1;
      InsertMentionsKeeps(db, document, ids, ms[..n]);
      var before := InsertMentions(db, document, ids, ms[..n]);
      assert ms == ms[..n] + [ms[n]];
      SameChunksSameAnswer(db, before, document, ms[n].chunkIndex);
      InsertMentionKeeps(before, document, ids, ms[n]);
    }
  }

  lemma {:induction false} SameChunksSameAnswer(db: Db, other: Db, document: DocumentId, index: int)
    requires UniqueIndices(db) && db.chunks == other.chunks
    ensures ChunkAt(db, document, index) == ChunkAt(other, document, index)
  {
    assert ChunkIds(db, document) == ChunkIds(other, document);
  }

  ghost predicate Supported(db: Db, document: DocumentId, ids: map<Key, EntityId>, edge: EntityEdge) {
    && edge.source != edge.target && edge.weight >= MIN_WEIGHT
    && (edge.source in ids && edge.target in ids && ChunkAt(db, document, edge.evidence).Some? ==>
          && (ChunkAt(db, document, edge.evidence).value, ids[edge.source]) in db.mentions
          && (ChunkAt(db, document, edge.evidence).value, ids[edge.target]) in db.mentions)
  }

  /** Relationships may be added; nothing else changes. */
  predicate ExtendsRelationships(db: Db, after: Db) {
    && after == db.(relationships := after.relationships, nextId := after.nextId) && after.nextId >= db.nextId
    && (forall r :: r in db.relationships ==> r in after.relationships && after.relationships[r] == db.relationships[r])
  }

  lemma {:induction false} InsertRelationshipKeeps(db: Db, document: DocumentId, ids: map<Key, EntityId>, edge: EntityEdge)
    requires Invariant(db) && Resolves(db, ids) && Supported(db, document, ids, edge)
    ensures var after := InsertRelationship(db, document, ids, edge);
            && Invariant(after) && ExtendsRelationships(db, after)
  {
    var after := InsertRelationship(db, document, ids, edge);
    forall r | r in after.relationships ensures Sound(after, after.relationships[r]) {
      if r in db.relationships {
        assert Sound(db, db.relationships[r]);
      }
    }
  }

  lemma {:induction false} StillSupported(db: Db, after: Db, document: DocumentId, ids: map<Key, EntityId>, edge: EntityEdge)
    requires Invariant(db) && db.chunks == after.chunks && db.mentions == after.mentions && db.entities == after.entities
    requires Supported(db, document, ids, edge) && Resolves(db, ids)
    ensures Supported(after, document, ids, edge) && Resolves(after, ids)
  {
    SameChunksSameAnswer(db, after, document, edge.evidence);
  }

  lemma {:induction false} InsertRelationshipsKeeps(db: Db, document: DocumentId, ids: map<Key, EntityId>, edges: seq<EntityEdge>)
    requires Invariant(db) && Resolves(db, ids)
    requires forall i :: 0 <= i < |edges| ==> Supported(db, document, ids, edges[i])
    ensures var after := InsertRelationships(db, document, ids, edges);
            Invariant(after) && ExtendsRelationships(db, after)
  {
    if edges != [] {
      var n := |edges| - 1;
      InsertRelationshipsKeeps(db, document, ids, edges[..n]);
      var before := InsertRelationships(db, document, ids, edges[..n]);
      StillSupported(db, before, document, ids, edges[n]);
      InsertRelationshipKeeps(before, document, ids, edges[n]);
    }
  }

  ghost predicate IsRowOf(db: Db, document: DocumentId, ids: map<Key, EntityId>, edges: seq<EntityEdge>, row: Relationship) {
    exists edge :: edge in edges && edge.source in ids && edge.target in ids && row == RowOf(db, document, ids, edge)
  }

  ghost predicate HasRow(db: Db, row: Relationship) {
    exists r :: r in db.relationships && db.relationships[r] == row
  }

  /** The rows inserted are those of the edges, all of them and nothing else. */
  lemma {:induction false} InsertRelationshipsRows(db: Db, document: DocumentId, ids: map<Key, EntityId>, edges: seq<EntityEdge>)
    requires Invariant(db) && forall edge :: edge in edges ==> edge.source in ids && edge.target in ids
    ensures var after := InsertRelationships(db, document, ids, edges);
            && after.chunks == db.chunks && after.nextId >= db.nextId
            && (forall r :: r in after.relationships ==> r < after.nextId)
            && (forall r :: r in db.relationships ==> r in after.relationships && after.relationships[r] == db.relationships[r])
            && (forall r :: r in after.relationships && r !in db.relationships ==> IsRowOf(db, document, ids, edges, after.relationships[r]))
            && (forall edge :: edge in edges ==> HasRow(after, RowOf(db, document, ids, edge)))
  {
    if edges != [] {
      var n := |edges| - 1;
      assert edges == edges[..n] + [edges[n]];
      InsertRelationshipsRows(db, document, ids, edges[..n]);
      var before := InsertRelationships(db, document, ids, edges[..n]);
      var after := InsertRelationships(db, document, ids, edges);
      SameChunksSameAnswer(db, before, document, edges[n].evidence);
      assert after.relationships == before.relationships[before.nextId := RowOf(db, document, ids, edges[n])];
      forall edge | edge in edges ensures HasRow(after, RowOf(db, document, ids, edge)) {
        if edge in edges[..n] {
          var r :| r in before.relationships && before.relationships[r] == RowOf(db, document, ids, edge);
          assert after.relationships[r] == RowOf(db, document, ids, edge);
        } else {
          assert after.relationships[before.nextId] == RowOf(db, document, ids, edge);
        }
      }
    }
  }

  /** A canonical graph supports every one of its edges once its mentions are stored. */
  lemma {:induction false} CanonicalIsSupported(db: Db, document: DocumentId, graph: DocumentGraph)
    requires Invariant(db) && Canonical(graph)
    ensures var (withEntities, ids) := UpsertEntities(db, graph.entities);
            var withMentions := InsertMentions(withEntities, document, ids, graph.mentions);
            && Invariant(withMentions) && Resolves(withMentions, ids)
            && withMentions.chunks == db.chunks && withMentions.relationships == db.relationships && withMentions.nextId >= db.nextId
            && (forall edge :: edge in graph.relationships ==> Supported(withMentions, document, ids, edge) && edge.source in ids && edge.target in ids)
  {
    var (withEntities, ids) := UpsertEntities(db, graph.entities);
    UpsertEntitiesKeeps(db, graph.entities);
    InsertMentionsKeeps(withEntities, document, ids, graph.mentions);
    var withMentions := InsertMentions(withEntities, document, ids, graph.mentions);
    forall edge | edge in graph.relationships
      ensures Supported(withMentions, document, ids, edge) && edge.source in ids && edge.target in ids
    {
      assert Grounded(graph, edge);
      assert HasEntity(graph, EntityMention(edge.evidence, edge.source).key);
      assert HasEntity(graph, EntityMention(edge.evidence, edge.target).key);
      SameChunksSameAnswer(withEntities, withMentions, document, edge.evidence);
    }
  }

  lemma {:induction false} ReplaceDocumentEntityGraphKeeps(db: Db, document: DocumentId, graph: DocumentGraph)
    requires Invariant(db) && Canonical(graph) && ReplaceDocumentEntityGraph(db, document, graph).Ok?
    ensures var after := ReplaceDocumentEntityGraph(db, document, graph).value;
            Invariant(after) && Unedited(db, after) && KeepsGrounded(db, after) && CountsExact(after)
  {
    if graph.IsEmpty() {
      PruneKeeps(db);
      PruneKeepsMentions(db);
    } else {
      var (withEntities, ids) := UpsertEntities(db, graph.entities);
      var withMentions := InsertMentions(withEntities, document, ids, graph.mentions);
      CanonicalIsSupported(db, document, graph);
      InsertRelationshipsKeeps(withMentions, document, ids, graph.relationships);
      var whole := InsertRelationships(withMentions, document, ids, graph.relationships);
      PruneKeeps(whole);
      PruneKeepsMentions(whole);
      PruneOutcome(whole);
    }
  }

  /** `row` is `edge` as stored: between the entities with its keys, with the chunk at its index as evidence. */
  ghost predicate IsStoredAs(db: Db, document: DocumentId, after: Db, edge: EntityEdge, row: Relationship) {
    && row.source in after.entities && after.entities[row.source].key == edge.source
    && row.target in after.entities && after.entities[row.target].key == edge.target
    && row.kind == edge.kind && row.description == edge.description && row.weight == edge.weight
    && row.evidence == ChunkAt(db, document, edge.evidence)
  }

  /** The last stage before the pruning: the rows of the edges have been inserted among the old ones. */
  ghost predicate IsInserted(base: Db, document: DocumentId, ids: map<Key, EntityId>, graph: DocumentGraph, whole: Db) {
    && Invariant(whole) && UniqueIndices(base) && whole.chunks == base.chunks
    && (forall r :: r in base.relationships ==> r in whole.relationships)
    && (forall r :: r in whole.relationships && r !in base.relationships ==> IsRowOf(base, document, ids, graph.relationships, whole.relationships[r]))
    && (forall edge :: edge in graph.relationships ==> edge.source in ids && edge.target in ids && HasRow(whole, RowOf(base, document, ids, edge)))
    && Resolves(whole, ids)
  }

  lemma {:induction false} GraphIsInserted(db: Db, document: DocumentId, graph: DocumentGraph) returns (base: Db, ids: map<Key, EntityId>, whole: Db)
    requires Invariant(db) && Canonical(graph) && ReplaceDocumentEntityGraph(db, document, graph).Ok? && !graph.IsEmpty()
    ensures IsInserted(base, document, ids, graph, whole) && base.chunks == db.chunks && base.relationships == db.relationships
    ensures ReplaceDocumentEntityGraph(db, document, graph).value == PruneSqlite(whole)
  {
    var (withEntities, ids') := UpsertEntities(db, graph.entities);
    base, ids := InsertMentions(withEntities, document, ids', graph.mentions), ids';
    whole := InsertRelationships(base, document, ids, graph.relationships);
    CanonicalIsSupported(db, document, graph);
    InsertRelationshipsKeeps(base, document, ids, graph.relationships);
    InsertRelationshipsRows(base, document, ids, graph.relationships);
  }

  /** A row with evidence outlasts the pruning, and every row that does keeps its ends with their keys. */
  lemma {:induction false} RowsAfterPrune(whole: Db, r: RelationshipId)
    requires Invariant(whole) && r in whole.relationships
    ensures var after, row := PruneSqlite(whole), whole.relationships[r];
            && (row.evidence.Some? ==> r in after.relationships)
            && (r in after.relationships ==>
                  && after.relationships[r] == row
                  && row.source in after.entities && after.entities[row.source].key == whole.entities[row.source].key
                  && row.target in after.entities && after.entities[row.target].key == whole.entities[row.target].key)
  {
    var after, row := PruneSqlite(whole), whole.relationships[r];
    PruneKeeps(whole);
    PruneOutcome(whole);
    assert Sound(whole, row);
    if r in after.relationships {
      assert Sound(after, after.relationships[r]);
    }
  }

  lemma {:induction false} RowIsStored(db: Db, base: Db, document: DocumentId, ids: map<Key, EntityId>, whole: Db, edge: EntityEdge, r: RelationshipId)
    requires Invariant(whole) && Resolves(whole, ids) && UniqueIndices(base) && base.chunks == db.chunks
    requires edge.source in ids && edge.target in ids
    requires r in whole.relationships && whole.relationships[r] == RowOf(base, document, ids, edge)
    ensures r in PruneSqlite(whole).relationships ==> IsStoredAs(db, document, PruneSqlite(whole), edge, PruneSqlite(whole).relationships[r])
    ensures ChunkAt(db, document, edge.evidence).Some? ==> r in PruneSqlite(whole).relationships
  {
    RowsAfterPrune(whole, r);
    SameChunksSameAnswer(base, db, document, edge.evidence);
  }

  /**
   * What the graph transaction stores. Every edge whose evidence chunk is in the store
   * arrives, with that chunk as evidence, and survives the pruning at the end; every new
   * row is one of the edges, so it lacks evidence only if its chunk index is not stored.
   */
  lemma {:induction false} ReplaceDocumentEntityGraphStores(db: Db, document: DocumentId, graph: DocumentGraph)
    requires Invariant(db) && Canonical(graph) && ReplaceDocumentEntityGraph(db, document, graph).Ok?
    ensures var after := ReplaceDocumentEntityGraph(db, document, graph).value;
            forall edge :: edge in graph.relationships && ChunkAt(db, document, edge.evidence).Some? ==>
              exists r :: r in after.relationships && IsStoredAs(db, document, after, edge, after.relationships[r])
    ensures var after := ReplaceDocumentEntityGraph(db, document, graph).value;
            forall r :: r in after.relationships && r !in db.relationships ==>
              exists edge :: edge in graph.relationships && IsStoredAs(db, document, after, edge, after.relationships[r])
  {
    var after := ReplaceDocumentEntityGraph(db, document, graph).value;
    if graph.IsEmpty() {
      PruneOutcome(db);
    } else {
      var base, ids, whole := GraphIsInserted(db, document, graph);
      forall edge | edge in graph.relationships && ChunkAt(db, document, edge.evidence).Some?
        ensures exists r :: r in after.relationships && IsStoredAs(db, document, after, edge, after.relationships[r])
      {
        var r :| r in whole.relationships && whole.relationships[r] == RowOf(base, document, ids, edge);
        RowIsStored(db, base, document, ids, whole, edge, r);
      }
      forall r | r in after.relationships && r !in db.relationships
        ensures exists edge :: edge in graph.relationships && IsStoredAs(db, document, after, edge, after.relationships[r])
      {
        PruneOutcome(whole);
        var edge :| edge in graph.relationships && edge.source in ids && edge.target in ids && whole.relationships[r] == RowOf(base, document, ids, edge);
        RowIsStored(db, base, document, ids, whole, edge, r);
      }
    }
  }

  /** `m` as stored: the entity with its key, mentioned by chunk `c`. */
  ghost predicate MentionIsStored(after: Db, key: Key, c: ChunkId) {
    exists e :: e in after.entities && after.entities[e].key == key && (c, e) in after.mentions
  }

  /** Every mention by a stored chunk arrives and outlasts the pruning. */
  lemma {:induction false} MentionsAreStored(db: Db, document: DocumentId, graph: DocumentGraph, m: EntityMention, c: ChunkId)
    requires Invariant(db) && Canonical(graph) && ReplaceDocumentEntityGraph(db, document, graph).Ok?
    requires m in graph.mentions && ChunkAt(db, document, m.chunkIndex) == Some(c)
    ensures MentionIsStored(ReplaceDocumentEntityGraph(db, document, graph).value, m.key, c)
  {
    var (withEntities, ids) := UpsertEntities(db, graph.entities);
    var withMentions := InsertMentions(withEntities, document, ids, graph.mentions);
    MentionIsInserted(db, document, graph, m, c);
    CanonicalIsSupported(db, document, graph);
    InsertRelationshipsKeeps(withMentions, document, ids, graph.relationships);
    var e :| e in withMentions.entities && withMentions.entities[e].key == m.key && (c, e) in withMentions.mentions;
    MentionOutlastsPrune(InsertRelationships(withMentions, document, ids, graph.relationships), e, c);
  }

  lemma {:induction false} MentionIsInserted(db: Db, document: DocumentId, graph: DocumentGraph, m: EntityMention, c: ChunkId)
    requires Invariant(db) && Canonical(graph) && m in graph.mentions && ChunkAt(db, document, m.chunkIndex) == Some(c)
    ensures var (withEntities, ids) := UpsertEntities(db, graph.entities);
            MentionIsStored(InsertMentions(withEntities, document, ids, graph.mentions), m.key, c)
  {
    var (withEntities, ids) := UpsertEntities(db, graph.entities);
    UpsertEntitiesKeeps(db, graph.entities);
    assert HasEntity(graph, m.key);
    InsertMentionsKeeps(withEntities, document, ids, graph.mentions);
    SameChunksSameAnswer(db, withEntities, document, m.chunkIndex);
    assert (c, ids[m.key]) in InsertMentions(withEntities, document, ids, graph.mentions).mentions;
  }

  lemma {:induction false} MentionOutlastsPrune(whole: Db, e: EntityId, c: ChunkId)
    requires e in whole.entities && (c, e) in whole.mentions
    ensures MentionIsStored(PruneSqlite(whole), whole.entities[e].key, c)
  {
    PruneOutcome(whole);
    PruneKeepsMentions(whole);
    assert (c, e).1 == e && IsMentioned(whole, e);
  }

  // ------------------------------------------------------------------------ Runs

  datatype Operation =
    | AddDocument(path: string, contentHash: string)
    | StoreChunks(document: DocumentId, inserts: seq<ChunkInsert>)
    | StoreGraph(document: DocumentId, graph: DocumentGraph)
    | RemoveDocument(document: DocumentId)

  /** A transaction that fails is rolled back. */
  ghost function Step(db: Db, op: Operation): Db {
    match op
    case AddDocument(path, contentHash) => UpsertDocument(db, path, contentHash).0
    case StoreChunks(document, inserts) =>
      (match ReplaceDocumentChunks(db, document, inserts) case Ok(after) => after case Err(_) => db)
    case StoreGraph(document, graph) =>
      (match ReplaceDocumentEntityGraph(db, document, graph) case Ok(after) => after case Err(_) => db)
    case RemoveDocument(document) => if document in db.documents then DeleteDocument(db, document) else db
  }

  ghost function Run(ops: seq<Operation>): Db {
    if ops == [] then EmptyDb else Step(Run(ops[..|ops| - 1]), ops[|ops| - 1])
  }

  /** Every graph stored is canonical, as all graphs built from extractions are. */
  ghost predicate Built(ops: seq<Operation>) {
    forall i :: 0 <= i < |ops| && ops[i].StoreGraph? ==> Canonical(ops[i].graph)
  }

  lemma {:induction false} StepKeeps(db: Db, op: Operation)
    requires Invariant(db) && (op.StoreGraph? ==> Canonical(op.graph))
    ensures Invariant(Step(db, op)) && Unedited(db, Step(db, op)) && KeepsGrounded(db, Step(db, op))
  {
    match op {
      case AddDocument(path, contentHash) => UpsertDocumentKeeps(db, path, contentHash);
      case StoreChunks(document, inserts) =>
        if ReplaceDocumentChunks(db, document, inserts).Ok? {
          ReplaceDocumentChunksKeeps(db, document, inserts);
        }
      case StoreGraph(document, graph) =>
        if ReplaceDocumentEntityGraph(db, document, graph).Ok? {
          ReplaceDocumentEntityGraphKeeps(db, document, graph);
        }
      case RemoveDocument(document) =>
        if document in db.documents {
          DeleteDocumentKeeps(db, document);
        }
    }
  }

  /** Ids of chunks and entities are never used again, and no transaction adds both. */
  predicate AddsFreshIds(db: Db, after: Db) {
    && after.nextId >= db.nextId
    && (forall c :: c in after.chunks ==> c in db.chunks || c >= db.nextId)
    && (forall e :: e in after.entities ==> e in db.entities || e >= db.nextId)
    && (after.chunks.Keys <= db.chunks.Keys || after.entities.Keys <= db.entities.Keys)
  }

  lemma {:induction false} StoreGraphAddsFreshIds(db: Db, document: DocumentId, graph: DocumentGraph)
    requires Invariant(db) && Canonical(graph) && ReplaceDocumentEntityGraph(db, document, graph).Ok?
    ensures AddsFreshIds(db, ReplaceDocumentEntityGraph(db, document, graph).value)
  {
    if graph.IsEmpty() {
      PruneOutcome(db);
    } else {
      var (withEntities, ids) := UpsertEntities(db, graph.entities);
      var withMentions := InsertMentions(withEntities, document, ids, graph.mentions);
      UpsertEntitiesKeeps(db, graph.entities);
      InsertMentionsKeeps(withEntities, document, ids, graph.mentions);
      CanonicalIsSupported(db, document, graph);
      InsertRelationshipsKeeps(withMentions, document, ids, graph.relationships);
      PruneOutcome(InsertRelationships(withMentions, document, ids, graph.relationships));
    }
  }

  lemma {:induction false} StepAddsFreshIds(db: Db, op: Operation)
    requires Invariant(db) && (op.StoreGraph? ==> Canonical(op.graph))
    ensures AddsFreshIds(db, Step(db, op))
  {
    match op {
      case AddDocument(path, contentHash) =>
      case StoreChunks(document, inserts) =>
        ClearDocumentKeeps(db, document);
        InsertChunksKeeps(ClearDocument(db, document), document, inserts);
      case StoreGraph(document, graph) =>
        if ReplaceDocumentEntityGraph(db, document, graph).Ok? {
          StoreGraphAddsFreshIds(db, document, graph);
        }
      case RemoveDocument(document) =>
        var cleared := ClearDocument(db, document);
        PruneOutcome(cleared.(documents := cleared.documents - {document}));
    }
  }

  /** Transactions of any number of documents, interleaved in any order, keep the invariant. */
  lemma {:induction false} ReachableStatesAreSound(ops: seq<Operation>)
    requires Built(ops)
    ensures Invariant(Run(ops))
  {
    if ops != [] {
      ReachableStatesAreSound(ops[..|ops| - 1]);
      StepKeeps(Run(ops[..|ops| - 1]), ops[|ops| - 1]);
    }
  }

  lemma {:induction false} StepKeepsGrounded(db: Db, op: Operation, r: RelationshipId, c: ChunkId)
    requires Invariant(db) && (op.StoreGraph? ==> Canonical(op.graph))
    requires r in db.relationships && db.relationships[r].evidence == Some(c) && c in Step(db, op).chunks
    ensures r in Step(db, op).relationships && Step(db, op).relationships[r] == db.relationships[r]
  {
    StepKeeps(db, op);
  }

  /** The chunk is there after every prefix of the run from `start` to `end`. */
  ghost predicate ChunkLasts(ops: seq<Operation>, start: nat, end: nat, c: ChunkId)
    requires end <= |ops|
  {
    forall k :: start <= k <= end ==> c in Run(ops[..k]).chunks
  }

  lemma {:induction false} LastsUntil(ops: seq<Operation>, start: nat, end: nat, r: RelationshipId, c: ChunkId)
    requires Built(ops) && start <= end <= |ops| && ChunkLasts(ops, start, end, c)
    requires r in Run(ops[..start]).relationships && Run(ops[..start]).relationships[r].evidence == Some(c)
    ensures r in Run(ops[..end]).relationships && Run(ops[..end]).relationships[r] == Run(ops[..start]).relationships[r]
    decreases end
  {
    if start < end {
      LastsUntil(ops, start, end - 1, r, c);
      assert ops[..end][..end - 1] == ops[..end - 1] && ops[..end][end - 1] == ops[end - 1];
      assert Run(ops[..end]) == Step(Run(ops[..end - 1]), ops[end - 1]);
      ReachableStatesAreSound(ops[..end - 1]);
      StepKeepsGrounded(Run(ops[..end - 1]), ops[end - 1], r, c);
    }
  }

  /** However a run goes on, a relationship lasts, unedited, for as long as its evidence chunk does. */
  lemma {:induction false} GroundedKnowledgeLasts(ops: seq<Operation>, more: seq<Operation>, r: RelationshipId, c: ChunkId)
    requires Built(ops + more) && ChunkLasts(ops + more, |ops|, |ops + more|, c)
    requires r in Run(ops).relationships && Run(ops).relationships[r].evidence == Some(c)
    ensures r in Run(ops + more).relationships && Run(ops + more).relationships[r] == Run(ops).relationships[r]
  {
    var whole := ops + more;
    assert whole[..|ops|] == ops && whole[..|whole|] == whole;
    LastsUntil(whole, |ops|, |whole|, r, c);
  }
}
