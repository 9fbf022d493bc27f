/**
 * What each transaction leaves in the tables, row by row: which rows stay as they were,
 * which go, and which come with what in them.
 */
module StoreOutcomes {
  import opened Wrappers
  import opened Tables
  import opened Sorting
  import opened EntityModel
  import opened GraphBuild
  import opened EntityStore

  // ------------------------------------------------------------------- Documents

  /** The path leads to a document with the new hash, under its old id if it had one; nothing else changes. */
  ghost predicate IsDocumentUpsert(db: Db, path: string, contentHash: string, after: Db, d: DocumentId) {
    && d in after.documents && after.documents[d] == Document(path, contentHash)
    && (forall other :: other in db.documents && db.documents[other].path == path ==> other == d)
    && (d !in db.documents ==> forall other :: other in db.documents ==> db.documents[other].path != path)
    && (forall other :: other != d ==> (other in after.documents <==> other in db.documents))
    && (forall other :: other != d && other in db.documents ==> after.documents[other] == db.documents[other])
    && after.chunks == db.chunks && after.entities == db.entities && after.mentions == db.mentions && after.relationships == db.relationships
  }

  lemma {:induction false} UpsertDocumentOutcome(db: Db, path: string, contentHash: string)
    requires Invariant(db)
    ensures var (after, d) := UpsertDocument(db, path, contentHash); IsDocumentUpsert(db, path, contentHash, after, d)
  {
  }

  // ---------------------------------------------------------------------- Chunks

  /** Chunk `c` is what `insert` says, in that document. */
  predicate IsChunkOf(db: Db, c: ChunkId, document: DocumentId, insert: ChunkInsert) {
    c in db.chunks && db.chunks[c] == Chunk(document, insert.index, insert.content, insert.title)
  }

  /** A chunk with an id from `start` on is what `insert` says. */
  predicate Arrives(db: Db, start: nat, document: DocumentId, insert: ChunkInsert) {
    exists c :: c in db.chunks && c >= start && IsChunkOf(db, c, document, insert)
  }

  /** Chunk `c` is what one of the insertions says. */
  predicate IsGiven(db: Db, c: ChunkId, document: DocumentId, inserts: seq<ChunkInsert>) {
    exists i :: 0 <= i < |inserts| && IsChunkOf(db, c, document, inserts[i])
  }

  /** The chunks of other documents are the same. */
  predicate KeepsOtherChunks(db: Db, document: DocumentId, after: Db) {
    && (forall c :: c in db.chunks && db.chunks[c].document != document ==> c in after.chunks && after.chunks[c] == db.chunks[c])
    && (forall c :: c in after.chunks && after.chunks[c].document != document ==> c in db.chunks && after.chunks[c] == db.chunks[c])
  }

  /** Mentions by the document's old chunks and relationships evidenced by them are gone, and only they. */
  ghost predicate ForgetsChunks(db: Db, document: DocumentId, after: Db) {
    && (forall m :: m in after.mentions <==> m in db.mentions && m.0 in db.chunks && db.chunks[m.0].document != document)
    && (forall r :: r in after.relationships <==> r in db.relationships && !IsEvidencedBy(db, document, db.relationships[r]))
    && (forall r :: r in after.relationships ==> after.relationships[r] == db.relationships[r])
  }

  predicate IsEvidencedBy(db: Db, document: DocumentId, row: Relationship) {
    row.evidence.Some? && row.evidence.value in db.chunks && db.chunks[row.evidence.value].document == document
  }

  /** The document's chunks are those given, with new ids; what hung on its old ones is gone. */
  ghost predicate IsChunkReplacement(db: Db, document: DocumentId, inserts: seq<ChunkInsert>, after: Db) {
    && after.documents == db.documents && after.entities == db.entities
    && KeepsOtherChunks(db, document, after) && ForgetsChunks(db, document, after)
    && (forall i :: 0 <= i < |inserts| ==> Arrives(after, db.nextId, document, inserts[i]))
    && (forall c :: c in after.chunks && after.chunks[c].document == document ==>
          c >= db.nextId && IsGiven(after, c, document, inserts))
  }

  lemma {:induction false} ClearDocumentOutcome(db: Db, document: DocumentId)
    requires Invariant(db)
    ensures var after := ClearDocument(db, document);
            && after.documents == db.documents && after.entities == db.entities && after.nextId == db.nextId
            && KeepsOtherChunks(db, document, after) && ForgetsChunks(db, document, after)
            && (forall c :: c in after.chunks ==> after.chunks[c].document != document)
  {
    ClearDocumentKeeps(db, document);
    var after, cs := ClearDocument(db, document), ChunkIds(db, document);
    forall r | r in db.relationships ensures EvidenceIn(db.relationships[r], cs) <==> IsEvidencedBy(db, document, db.relationships[r]) {
      assert Sound(db, db.relationships[r]);
    }
    forall r | r in after.relationships ensures r in db.relationships && after.relationships[r] == db.relationships[r] && !EvidenceIn(db.relationships[r], cs) {
    }
    forall c | c in after.chunks ensures after.chunks[c].document != document {
      assert c !in cs;
    }
  }

  /** The chunks that insertions add, and that they change nothing else. */
  ghost predicate AddsChunks(db: Db, document: DocumentId, inserts: seq<ChunkInsert>, after: Db) {
    && after == db.(chunks := after.chunks, nextId := after.nextId) && after.nextId >= db.nextId
    && (forall c :: c in db.chunks ==> c in after.chunks && after.chunks[c] == db.chunks[c])
    && (forall c :: c in after.chunks && c !in db.chunks ==> c >= db.nextId && IsGiven(after, c, document, inserts))
    && (forall i :: 0 <= i < |inserts| ==> Arrives(after, db.nextId, document, inserts[i]))
  }

  lemma {:induction false} InsertChunksOutcome(db: Db, document: DocumentId, inserts: seq<ChunkInsert>)
    requires Invariant(db) && InsertChunks(db, document, inserts).Ok?
    ensures AddsChunks(db, document, inserts, InsertChunks(db, document, inserts).value)
  {
    if inserts != [] {
      var n := |inserts| - 1;
      InsertChunksOutcome(db, document, inserts[..n]);
      InsertChunksKeeps(db, document, inserts[..n]);
      AddsOneMore(db, document, inserts, InsertChunks(db, document, inserts[..n]).value, InsertChunks(db, document, inserts).value);
    }
  }

  lemma {:induction false} AddsOneMore(db: Db, document: DocumentId, inserts: seq<ChunkInsert>, before: Db, after: Db)
    requires inserts != [] && IdsAreUsed(before) && AddsChunks(db, document, inserts[..|inserts| - 1], before)
    requires InsertChunk(before, document, inserts[|inserts| - 1]) == Ok(after)
    ensures AddsChunks(db, document, inserts, after)
  {
    var n := |inserts| - 1;
    assert before.nextId !in before.chunks;
    assert IsChunkOf(after, before.nextId, document, inserts[n]);
    AllArrive(db, document, inserts, before, after);
    forall c | c in after.chunks && c !in db.chunks ensures c >= db.nextId && IsGiven(after, c, document, inserts) {
      if c != before.nextId {
        GivenStill(before, after, c, document, inserts);
      }
    }
  }

  lemma {:induction false} AllArrive(db: Db, document: DocumentId, inserts: seq<ChunkInsert>, before: Db, after: Db)
    requires inserts != [] && before.nextId >= db.nextId && IsChunkOf(after, before.nextId, document, inserts[|inserts| - 1])
    requires var some := inserts[..|inserts| - 1]; forall i :: 0 <= i < |some| ==> Arrives(before, db.nextId, document, some[i])
    requires forall c :: c in before.chunks ==> c in after.chunks && after.chunks[c] == before.chunks[c]
    ensures forall i :: 0 <= i < |inserts| ==> Arrives(after, db.nextId, document, inserts[i])
  {
    forall i | 0 <= i < |inserts| ensures Arrives(after, db.nextId, document, inserts[i]) {
      if i < |inserts| - 1 {
        assert inserts[..|inserts| - 1][i] == inserts[i];
        ArrivesStill(before, after, db.nextId, document, inserts[i]);
      }
    }
  }

  lemma {:induction false} ArrivesStill(before: Db, after: Db, start: nat, document: DocumentId, insert: ChunkInsert)
    requires Arrives(before, start, document, insert) && forall c :: c in before.chunks ==> c in after.chunks && after.chunks[c] == before.chunks[c]
    ensures Arrives(after, start, document, insert)
  {
    var c :| c in before.chunks && c >= start && IsChunkOf(before, c, document, insert);
    assert IsChunkOf(after, c, document, insert);
  }

  lemma {:induction false} GivenStill(before: Db, after: Db, c: ChunkId, document: DocumentId, inserts: seq<ChunkInsert>)
    requires inserts != [] && IsGiven(before, c, document, inserts[..|inserts| - 1]) && c in after.chunks && after.chunks[c] == before.chunks[c]
    ensures IsGiven(after, c, document, inserts)
  {
    var i :| 0 <= i < |inserts| - 1 && IsChunkOf(before, c, document, inserts[..|inserts| - 1][i]);
    assert IsChunkOf(after, c, document, inserts[i]);
  }

  lemma {:induction false} ReplaceDocumentChunksOutcome(db: Db, document: DocumentId, inserts: seq<ChunkInsert>)
    requires Invariant(db) && ReplaceDocumentChunks(db, document, inserts).Ok?
    ensures IsChunkReplacement(db, document, inserts, ReplaceDocumentChunks(db, document, inserts).value)
  {
    var cleared := ClearDocument(db, document);
    var after := ReplaceDocumentChunks(db, document, inserts).value;
    ClearDocumentKeeps(db, document);
    ClearDocumentOutcome(db, document);
    InsertChunksOutcome(cleared, document, inserts);
    assert AddsChunks(cleared, document, inserts, after);
    AddedAfterClearing(db, document, inserts, cleared, after);
  }

  lemma {:induction false} AddedAfterClearing(db: Db, document: DocumentId, inserts: seq<ChunkInsert>, cleared: Db, after: Db)
    requires cleared.documents == db.documents && cleared.entities == db.entities && cleared.nextId == db.nextId
    requires KeepsOtherChunks(db, document, cleared) && ForgetsChunks(db, document, cleared)
    requires forall c :: c in cleared.chunks ==> cleared.chunks[c].document != document
    requires AddsChunks(cleared, document, inserts, after)
    ensures IsChunkReplacement(db, document, inserts, after)
  {
    forall c | c in after.chunks && after.chunks[c].document != document ensures c in db.chunks && after.chunks[c] == db.chunks[c] {
      assert c in cleared.chunks;
    }
    assert KeepsOtherChunks(db, document, after);
    assert ForgetsChunks(db, document, after);
  }

  predicate DistinctIndices(inserts: seq<ChunkInsert>) {
    forall i, j :: 0 <= i < j < |inserts| ==> inserts[i].index != inserts[j].index
  }

  predicate RightDimensions(inserts: seq<ChunkInsert>) {
    forall i :: 0 <= i < |inserts| ==> |inserts[i].embedding| == EMBEDDING_DIMENSIONS
  }

  /** A chunk of the document has the index. */
  predicate IsTaken(db: Db, document: DocumentId, index: int) {
    exists c :: c in ChunkIds(db, document) && db.chunks[c].index == index
  }

  predicate IsIndexOf(inserts: seq<ChunkInsert>, index: int) {
    exists i :: 0 <= i < |inserts| && inserts[i].index == index
  }

  lemma {:induction false} DistinctOneMore(inserts: seq<ChunkInsert>)
    requires inserts != []
    ensures var n := |inserts| - 1; DistinctIndices(inserts) <==> DistinctIndices(inserts[..n]) && !IsIndexOf(inserts[..n], inserts[n].index)
  {
    var n := |inserts| - 1;
    assert forall i :: 0 <= i < n ==> inserts[..n][i] == inserts[i];
  }

  lemma {:induction false} InsertChunksAccepts(db: Db, document: DocumentId, inserts: seq<ChunkInsert>)
    requires Invariant(db) && (forall c :: c in db.chunks ==> db.chunks[c].document != document)
    ensures InsertChunks(db, document, inserts).Ok? <==> (inserts == [] || document in db.documents) && DistinctIndices(inserts)
  {
    if inserts != [] {
      var n := |inserts| - 1;
      InsertChunksAccepts(db, document, inserts[..n]);
      DistinctOneMore(inserts);
      if InsertChunks(db, document, inserts[..n]).Ok? {
        InsertChunksOutcome(db, document, inserts[..n]);
        TakenIndices(db, document, inserts[..n], InsertChunks(db, document, inserts[..n]).value, inserts[n].index);
      }
    }
  }

  lemma {:induction false} TakenIndices(db: Db, document: DocumentId, inserts: seq<ChunkInsert>, after: Db, index: int)
    requires (forall c :: c in db.chunks ==> db.chunks[c].document != document) && AddsChunks(db, document, inserts, after)
    ensures IsTaken(after, document, index) <==> IsIndexOf(inserts, index)
  {
    if IsTaken(after, document, index) {
      var c :| c in ChunkIds(after, document) && after.chunks[c].index == index;
      assert c !in db.chunks && IsGiven(after, c, document, inserts);
      var i :| 0 <= i < |inserts| && IsChunkOf(after, c, document, inserts[i]);
    }
    if IsIndexOf(inserts, index) {
      var i :| 0 <= i < |inserts| && inserts[i].index == index;
      assert Arrives(after, db.nextId, document, inserts[i]);
      var c :| c in after.chunks && c >= db.nextId && IsChunkOf(after, c, document, inserts[i]);
      assert c in ChunkIds(after, document);
    }
  }

  /** What keeps a document's chunks from being replaced, in the order in which it is noticed. */
  function ChunkError(db: Db, document: DocumentId, inserts: seq<ChunkInsert>): Option<DbError> {
    if !RightDimensions(inserts) then Some(Dimensions)
    else if inserts != [] && document !in db.documents then Some(ForeignKey)
    else if !DistinctIndices(inserts) then Some(Unique)
    else None
  }

  lemma {:induction false} InsertChunksFailsWith(db: Db, document: DocumentId, inserts: seq<ChunkInsert>)
    requires InsertChunks(db, document, inserts).Err?
    ensures InsertChunks(db, document, inserts) == Err(if document in db.documents then Unique else ForeignKey)
  {
    var n := |inserts| - 1;
    if InsertChunks(db, document, inserts[..n]).Err? {
      InsertChunksFailsWith(db, document, inserts[..n]);
    } else {
      InsertChunksKeepDocuments(db, document, inserts[..n]);
    }
  }

  lemma {:induction false} InsertChunksKeepDocuments(db: Db, document: DocumentId, inserts: seq<ChunkInsert>)
    requires InsertChunks(db, document, inserts).Ok?
    ensures InsertChunks(db, document, inserts).value.documents == db.documents
  {
    if inserts != [] {
      InsertChunksKeepDocuments(db, document, inserts[..|inserts| - 1]);
    }
  }

  /** The transaction fails exactly for a vector of the wrong dimension, a document that is not stored, or an index given twice. */
  lemma {:induction false} ReplaceDocumentChunksCommits(db: Db, document: DocumentId, inserts: seq<ChunkInsert>)
    requires Invariant(db)
    ensures match ChunkError(db, document, inserts)
            case Some(e) => ReplaceDocumentChunks(db, document, inserts) == Err(e)
            case None => ReplaceDocumentChunks(db, document, inserts).Ok?
  {
    ClearDocumentKeeps(db, document);
    ClearDocumentOutcome(db, document);
    InsertChunksAccepts(ClearDocument(db, document), document, inserts);
    if InsertChunks(ClearDocument(db, document), document, inserts).Err? {
      InsertChunksFailsWith(ClearDocument(db, document), document, inserts);
    }
  }

  // ---------------------------------------------------------------------- Counts

  lemma {:induction false} PairsAreFirsts(ms: set<(ChunkId, EntityId)>, e: EntityId)
    requires forall m :: m in ms ==> m.1 == e
    ensures |ms| == |set m | m in ms :: m.0|
  {
    if ms != {} {
      var m :| m in ms;
      var rest := ms - {m};
      PairsAreFirsts(rest, e);
      forall x | x in rest ensures x.0 != m.0 {
        assert x == (x.0, e) && m == (m.0, e);
      }
      assert (set x | x in ms :: x.0) == (set x | x in rest :: x.0) + {m.0};
    }
  }

  /** The count of an entity is the number of chunks that mention it. */
  lemma {:induction false} CountIsOfChunks(db: Db, e: EntityId)
    requires ForeignKeys(db)
    ensures MentionCount(db, e) == |set c | c in db.chunks && (c, e) in db.mentions|
  {
    var ms := set m | m in db.mentions && m.1 == e;
    PairsAreFirsts(ms, e);
    var cs := set c | c in db.chunks && (c, e) in db.mentions;
    forall c ensures c in cs <==> c in set m | m in ms :: m.0 {
      if c in cs {
        assert (c, e) in ms;
      }
    }
    assert cs == set m | m in ms :: m.0;
  }

  // ------------------------------------------------------------------- Deletions

  /** A chunk of another document mentions the entity. */
  predicate IsMentionedElsewhere(db: Db, document: DocumentId, e: EntityId) {
    exists m :: m in db.mentions && m.1 == e && m.0 in db.chunks && db.chunks[m.0].document != document
  }

  /**
   * The document is gone, with its chunks, their mentions, the relationships that they
   * evidenced, the entities that no chunk of another document mentions, and the
   * relationships of those. All other rows are as they were, but for the counts.
   */
  ghost predicate IsDeletion(db: Db, document: DocumentId, after: Db) {
    && (forall d :: d in after.documents <==> d in db.documents && d != document)
    && (forall d :: d in after.documents ==> after.documents[d] == db.documents[d])
    && (forall c :: c in after.chunks <==> c in db.chunks && db.chunks[c].document != document)
    && (forall c :: c in after.chunks ==> after.chunks[c] == db.chunks[c])
    && (forall m :: m in after.mentions <==> m in db.mentions && m.0 in db.chunks && db.chunks[m.0].document != document)
    && (forall e :: e in after.entities <==> e in db.entities && IsMentionedElsewhere(db, document, e))
    && (forall e :: e in after.entities ==> after.entities[e] == db.entities[e].(mentionCount := after.entities[e].mentionCount))
    && (forall r :: r in after.relationships <==>
          r in db.relationships && !IsEvidencedBy(db, document, db.relationships[r])
          && IsMentionedElsewhere(db, document, db.relationships[r].source) && IsMentionedElsewhere(db, document, db.relationships[r].target))
    && (forall r :: r in after.relationships ==> after.relationships[r] == db.relationships[r])
  }

  lemma {:induction false} DeleteDocumentOutcome(db: Db, document: DocumentId)
    requires Invariant(db)
    ensures IsDeletion(db, document, DeleteDocument(db, document)) && CountsExact(DeleteDocument(db, document))
  {
    var cleared := ClearDocument(db, document);
    var removed := cleared.(documents := cleared.documents - {document});
    ClearDocumentOutcome(db, document);
    PruneOutcome(removed);
    PruneKeepsMentions(removed);
    PrunedAfterClearing(db, document, removed, PruneSqlite(removed));
  }

  lemma {:induction false} MentionedAfterClearing(db: Db, document: DocumentId, removed: Db, e: EntityId)
    requires ForgetsChunks(db, document, removed)
    ensures IsMentioned(removed, e) <==> IsMentionedElsewhere(db, document, e)
  {
  }

  lemma {:induction false} PrunedAfterClearing(db: Db, document: DocumentId, removed: Db, after: Db)
    requires Invariant(db) && removed.documents == db.documents - {document} && removed.entities == db.entities
    requires KeepsOtherChunks(db, document, removed) && ForgetsChunks(db, document, removed)
    requires forall c :: c in removed.chunks ==> removed.chunks[c].document != document
    requires after == PruneSqlite(removed)
    ensures IsDeletion(db, document, after)
  {
    PruneOutcome(removed);
    PruneKeepsMentions(removed);
    forall e ensures IsMentioned(removed, e) <==> IsMentionedElsewhere(db, document, e) {
      MentionedAfterClearing(db, document, removed, e);
    }
    RelationshipsAfterClearing(db, document, removed, after);
  }

  lemma {:induction false} RelationshipsAfterClearing(db: Db, document: DocumentId, removed: Db, after: Db)
    requires Invariant(db) && removed.entities == db.entities && ForgetsChunks(db, document, removed)
    requires forall r :: r in after.relationships <==> r in removed.relationships && KeepsEnds(removed, removed.relationships[r])
    requires forall r :: r in after.relationships ==> after.relationships[r] == removed.relationships[r]
    requires forall e :: IsMentioned(removed, e) <==> IsMentionedElsewhere(db, document, e)
    ensures forall r :: r in after.relationships <==>
              r in db.relationships && !IsEvidencedBy(db, document, db.relationships[r])
              && IsMentionedElsewhere(db, document, db.relationships[r].source) && IsMentionedElsewhere(db, document, db.relationships[r].target)
    ensures forall r :: r in after.relationships ==> after.relationships[r] == db.relationships[r]
  {
    forall r | r in db.relationships ensures db.relationships[r].source in db.entities && db.relationships[r].target in db.entities {
      assert Sound(db, db.relationships[r]);
    }
  }

  // ---------------------------------------------------------------- Entity graphs

  /** The mention `m` of the graph is by chunk `c` of the document. */
  predicate IsMentionBy(db: Db, document: DocumentId, m: EntityMention, c: ChunkId) {
    c in db.chunks && db.chunks[c].document == document && db.chunks[c].index == m.chunkIndex
  }

  /** A mention that the graph brings: of the entity with its key, by the chunk with its index. */
  predicate IsNewMention(db: Db, document: DocumentId, graph: DocumentGraph, after: Db, c: ChunkId, e: EntityId) {
    exists m :: m in graph.mentions && IsMentionBy(db, document, m, c) && e in after.entities && after.entities[e].key == m.key
  }

  lemma {:induction false} ChunkAtIsMentionBy(db: Db, document: DocumentId, m: EntityMention, c: ChunkId)
    requires UniqueIndices(db)
    ensures ChunkAt(db, document, m.chunkIndex) == Some(c) <==> IsMentionBy(db, document, m, c)
  {
    if IsMentionBy(db, document, m, c) {
      assert c in ChunkIds(db, document);
    }
  }

  /** Every mention inserted is one of the graph's. */
  lemma {:induction false} InsertMentionsOnly(db: Db, document: DocumentId, ids: map<Key, EntityId>, ms: seq<EntityMention>)
    requires Invariant(db) && Resolves(db, ids)
    ensures db.mentions <= InsertMentions(db, document, ids, ms).mentions
    ensures forall c, e :: (c, e) in InsertMentions(db, document, ids, ms).mentions && (c, e) !in db.mentions ==> IsOneOf(db, document, ids, ms, c, e)
  {
    if ms != [] {
      var n := |ms| - 1;
      InsertMentionsOnly(db, document, ids, ms[..n]);
      InsertMentionsKeeps(db, document, ids, ms[..n]);
      var before := InsertMentions(db, document, ids, ms[..n]);
      SameChunksSameAnswer(db, before, document, ms[n].chunkIndex);
      forall c, e | (c, e) in InsertMentions(db, document, ids, ms).mentions && (c, e) !in db.mentions ensures IsOneOf(db, document, ids, ms, c, e) {
        if (c, e) in before.mentions {
          OneOfMore(db, document, ids, ms, c, e);
        } else {
          ChunkAtIsMentionBy(db, document, ms[n], c);
        }
      }
    }
  }

  /** One of the mentions is by the chunk, and of the entity that its key leads to. */
  predicate IsOneOf(db: Db, document: DocumentId, ids: map<Key, EntityId>, ms: seq<EntityMention>, c: ChunkId, e: EntityId) {
    exists m :: m in ms && IsMentionBy(db, document, m, c) && m.key in ids && ids[m.key] == e
  }

  lemma {:induction false} OneOfMore(db: Db, document: DocumentId, ids: map<Key, EntityId>, ms: seq<EntityMention>, c: ChunkId, e: EntityId)
    requires ms != [] && IsOneOf(db, document, ids, ms[..|ms| - 1], c, e)
    ensures IsOneOf(db, document, ids, ms, c, e)
  {
    var m :| m in ms[..|ms| - 1] && IsMentionBy(db, document, m, c) && m.key in ids && ids[m.key] == e;
    assert m in ms;
  }

  /** The row of a node of the graph: its name, its vector, and its description or the stored one. */
  predicate IsWrittenFrom(db: Db, node: EntityNode, e: EntityId, row: Entity) {
    && row.key == node.key && row.name == node.name
    && row.embedding == (if node.embedding == [] then None else Some(node.embedding))
    && row.description == (if node.description.Some? || e !in db.entities then node.description else db.entities[e].description)
  }

  predicate HasKey(db: Db, key: Key) {
    exists e :: e in db.entities && db.entities[e].key == key
  }

  predicate IsNodeKey(nodes: seq<EntityNode>, key: Key) {
    exists i :: 0 <= i < |nodes| && nodes[i].key == key
  }

  predicate KeysDiffer(nodes: seq<EntityNode>) {
    forall i, j :: 0 <= i < j < |nodes| ==> nodes[i].key != nodes[j].key
  }

  /** The row is that of the node with its key, and failing such a node the stored one. */
  predicate IsWritten(db: Db, nodes: seq<EntityNode>, e: EntityId, row: Entity) {
    if IsNodeKey(nodes, row.key) then exists i :: 0 <= i < |nodes| && IsWrittenFrom(db, nodes[i], e, row)
    else e in db.entities && row == db.entities[e]
  }

  /** After upserting nodes with different keys: their rows, under the id of a stored entity with the key if there is one, and the others as they were. */
  ghost predicate WritesEntities(db: Db, nodes: seq<EntityNode>, after: Db) {
    && (forall e :: e in db.entities ==> e in after.entities)
    && (forall e :: e in after.entities ==> IsWritten(db, nodes, e, after.entities[e]))
    && (forall i :: 0 <= i < |nodes| ==> HasKey(after, nodes[i].key))
  }

  lemma {:induction false} UpsertEntitiesOutcome(db: Db, nodes: seq<EntityNode>)
    requires Invariant(db) && KeysDiffer(nodes)
    ensures WritesEntities(db, nodes, UpsertEntities(db, nodes).0)
  {
    if nodes != [] {
      var n := |nodes| - 1;
      UpsertEntitiesOutcome(db, nodes[..n]);
      UpsertEntitiesKeeps(db, nodes[..n]);
      var before := UpsertEntities(db, nodes[..n]).0;
      UpsertedRow(before, nodes[n]);
      var (after, e) := UpsertEntity(before, nodes[n]);
      WritesOneMore(db, nodes, before, after, e);
    }
  }

  lemma {:induction false} WritesOneMore(db: Db, nodes: seq<EntityNode>, before: Db, after: Db, e: EntityId)
    requires nodes != [] && KeysDiffer(nodes)
    requires WritesEntities(db, nodes[..|nodes| - 1], before) && UniqueKeys(before) && before.nextId >= db.nextId && IdsAreUsed(before) && IdsAreUsed(db)
    requires IsUpserted(before, nodes[|nodes| - 1], after, e)
    ensures WritesEntities(db, nodes, after)
  {
    var n := |nodes| - 1;
    forall x | x in after.entities ensures IsWritten(db, nodes, x, after.entities[x]) {
      if x == e {
        assert nodes[n].key == after.entities[x].key;
        WrittenLast(db, nodes, before, after, e);
      } else {
        assert IsWritten(db, nodes[..n], x, before.entities[x]);
        assert before.entities[x].key != nodes[n].key;
        WrittenBefore(db, nodes, x, before.entities[x]);
      }
    }
    forall i | 0 <= i < |nodes| ensures HasKey(after, nodes[i].key) {
      if i < n {
        assert HasKey(before, nodes[..n][i].key);
        KeyStays(before, after, e, nodes[i].key);
      } else {
        assert after.entities[e].key == nodes[n].key;
      }
    }
  }

  lemma {:induction false} KeyStays(before: Db, after: Db, e: EntityId, key: Key)
    requires HasKey(before, key) && e in after.entities && after.entities == before.entities[e := after.entities[e]]
    requires e in before.entities ==> before.entities[e].key == after.entities[e].key
    ensures HasKey(after, key)
  {
    var x :| x in before.entities && before.entities[x].key == key;
    assert after.entities[x].key == key;
  }

  lemma {:induction false} WrittenBefore(db: Db, nodes: seq<EntityNode>, x: EntityId, row: Entity)
    requires nodes != [] && IsWritten(db, nodes[..|nodes| - 1], x, row) && row.key != nodes[|nodes| - 1].key
    ensures IsWritten(db, nodes, x, row)
  {
    var n := |nodes| - 1;
    var some := nodes[..n];
    assert forall i :: 0 <= i < n ==> some[i] == nodes[i];
    if IsNodeKey(some, row.key) {
      var j :| 0 <= j < n && IsWrittenFrom(db, some[j], x, row);
      assert IsWrittenFrom(db, nodes[j], x, row);
    }
  }

  lemma {:induction false} WrittenLast(db: Db, nodes: seq<EntityNode>, before: Db, after: Db, e: EntityId)
    requires nodes != [] && KeysDiffer(nodes)
    requires WritesEntities(db, nodes[..|nodes| - 1], before) && before.nextId >= db.nextId && IdsAreUsed(db)
    requires IsUpserted(before, nodes[|nodes| - 1], after, e)
    ensures IsWrittenFrom(db, nodes[|nodes| - 1], e, after.entities[e])
  {
    var n := |nodes| - 1;
    if e in before.entities {
      assert forall i :: 0 <= i < n ==> nodes[..n][i].key != nodes[n].key;
      assert IsWritten(db, nodes[..n], e, before.entities[e]);
      assert e in db.entities && before.entities[e] == db.entities[e];
    }
  }

  /**
   * The transaction of one document's graph. Documents and chunks stay. No mention goes, and
   * those that come are the graph's, by the chunks at their indices. Exactly the mentioned
   * entities stay or come, each as its node says or as it was, with its mentions counted.
   */
  ghost predicate IsGraphReplacement(db: Db, document: DocumentId, graph: DocumentGraph, after: Db) {
    && after.documents == db.documents && after.chunks == db.chunks
    && BringsMentions(db, document, graph, after)
    && (forall m, c :: m in graph.mentions && IsMentionBy(db, document, m, c) ==> MentionIsStored(after, m.key, c))
    && (forall e :: e in after.entities ==> IsWrittenAndCounted(db, graph.entities, e, after.entities[e]) && IsMentioned(after, e))
    && (forall e :: e in db.entities && IsMentioned(db, e) ==> e in after.entities)
    && KeepsRelationships(db, after) && CountsExact(after)
  }

  /** Old relationships are unedited, and go only with one of their ends. */
  predicate KeepsRelationships(db: Db, after: Db) {
    forall r :: r in db.relationships ==>
      && (r in after.relationships <==> db.relationships[r].source in after.entities && db.relationships[r].target in after.entities)
      && (r in after.relationships ==> after.relationships[r] == db.relationships[r])
  }

  /** The row is written from its node, or is the stored one, whatever its count. */
  ghost predicate IsWrittenAndCounted(db: Db, nodes: seq<EntityNode>, e: EntityId, row: Entity) {
    exists count: nat :: IsWritten(db, nodes, e, row.(mentionCount := count))
  }

  lemma {:induction false} ReplaceDocumentEntityGraphOutcome(db: Db, document: DocumentId, graph: DocumentGraph)
    requires Invariant(db) && Canonical(graph) && ReplaceDocumentEntityGraph(db, document, graph).Ok?
    ensures IsGraphReplacement(db, document, graph, ReplaceDocumentEntityGraph(db, document, graph).value)
  {
    var after := ReplaceDocumentEntityGraph(db, document, graph).value;
    ReplaceDocumentEntityGraphKeeps(db, document, graph);
    forall m, c | m in graph.mentions && IsMentionBy(db, document, m, c) ensures MentionIsStored(after, m.key, c) {
      ChunkAtIsMentionBy(db, document, m, c);
      MentionsAreStored(db, document, graph, m, c);
    }
    var whole := GraphIsWritten(db, document, graph);
    PrunedTables(db, whole, document, graph);
    PrunedRelationships(db, whole);
  }

  lemma {:induction false} GraphIsWritten(db: Db, document: DocumentId, graph: DocumentGraph) returns (whole: Db)
    requires Invariant(db) && Canonical(graph) && ReplaceDocumentEntityGraph(db, document, graph).Ok?
    ensures ReplaceDocumentEntityGraph(db, document, graph).value == PruneSqlite(whole)
    ensures Invariant(whole) && whole.documents == db.documents && whole.chunks == db.chunks
    ensures WritesEntities(db, graph.entities, whole) && BringsMentions(db, document, graph, whole)
    ensures forall r :: r in db.relationships ==> r in whole.relationships && whole.relationships[r] == db.relationships[r]
  {
    if graph.IsEmpty() {
      whole := db;
    } else {
      var (withEntities, ids) := UpsertEntities(db, graph.entities);
      var withMentions := InsertMentions(withEntities, document, ids, graph.mentions);
      whole := InsertRelationships(withMentions, document, ids, graph.relationships);
      EntitiesAndMentionsAreWritten(db, document, graph);
      RelationshipsAreAdded(db, document, graph);
      SameEntitiesAndMentions(db, document, graph, withMentions, whole);
    }
  }

  lemma {:induction false} RelationshipsAreAdded(db: Db, document: DocumentId, graph: DocumentGraph)
    requires Invariant(db) && Canonical(graph)
    ensures var (withEntities, ids) := UpsertEntities(db, graph.entities);
            var withMentions := InsertMentions(withEntities, document, ids, graph.mentions);
            var whole := InsertRelationships(withMentions, document, ids, graph.relationships);
            Invariant(whole) && ExtendsRelationships(withMentions, whole)
  {
    var (withEntities, ids) := UpsertEntities(db, graph.entities);
    CanonicalIsSupported(db, document, graph);
    InsertRelationshipsKeeps(InsertMentions(withEntities, document, ids, graph.mentions), document, ids, graph.relationships);
  }

  lemma {:induction false} SameEntitiesAndMentions(db: Db, document: DocumentId, graph: DocumentGraph, base: Db, whole: Db)
    requires WritesEntities(db, graph.entities, base) && BringsMentions(db, document, graph, base)
    requires whole.entities == base.entities && whole.mentions == base.mentions
    ensures WritesEntities(db, graph.entities, whole) && BringsMentions(db, document, graph, whole)
  {
    assert forall key :: HasKey(base, key) ==> HasKey(whole, key);
    forall c, e | (c, e) in whole.mentions && (c, e) !in db.mentions ensures IsNewMention(db, document, graph, whole, c, e) {
      assert IsNewMention(db, document, graph, base, c, e);
    }
  }

  lemma {:induction false} EntitiesAndMentionsAreWritten(db: Db, document: DocumentId, graph: DocumentGraph)
    requires Invariant(db) && Canonical(graph)
    ensures var (withEntities, ids) := UpsertEntities(db, graph.entities);
            var withMentions := InsertMentions(withEntities, document, ids, graph.mentions);
            && withMentions.documents == db.documents && withMentions.chunks == db.chunks && withMentions.relationships == db.relationships
            && WritesEntities(db, graph.entities, withMentions) && BringsMentions(db, document, graph, withMentions)
  {
    var (withEntities, ids) := UpsertEntities(db, graph.entities);
    UpsertEntitiesKeeps(db, graph.entities);
    UpsertEntitiesOutcome(db, graph.entities);
    MentionsBeforePrune(db, document, graph);
    InsertMentionsKeeps(withEntities, document, ids, graph.mentions);
    assert forall key :: HasKey(withEntities, key) ==> HasKey(InsertMentions(withEntities, document, ids, graph.mentions), key);
  }

  lemma {:induction false} PrunedRelationships(db: Db, whole: Db)
    requires Invariant(whole) && forall r :: r in db.relationships ==> r in whole.relationships && whole.relationships[r] == db.relationships[r]
    ensures KeepsRelationships(db, PruneSqlite(whole))
  {
    PruneOutcome(whole);
    forall r | r in db.relationships ensures Sound(whole, whole.relationships[r]) {
    }
  }

  /** The transaction fails exactly for a vector that is neither empty nor of the right dimension. */
  lemma {:induction false} ReplaceDocumentEntityGraphCommits(db: Db, document: DocumentId, graph: DocumentGraph)
    ensures if forall i :: 0 <= i < |graph.entities| ==> |graph.entities[i].embedding| in {0, EMBEDDING_DIMENSIONS}
            then ReplaceDocumentEntityGraph(db, document, graph).Ok?
            else ReplaceDocumentEntityGraph(db, document, graph) == Err(Check)
  {
    assert forall i :: 0 <= i < |graph.entities| ==> (BadEmbedding(graph.entities[i]) <==> |graph.entities[i].embedding| !in {0, EMBEDDING_DIMENSIONS});
  }

  /** The mentions of a later stage: the old ones, and others that the graph brings. */
  ghost predicate BringsMentions(db: Db, document: DocumentId, graph: DocumentGraph, after: Db) {
    && db.mentions <= after.mentions
    && forall c, e :: (c, e) in after.mentions && (c, e) !in db.mentions ==> IsNewMention(db, document, graph, after, c, e)
  }

  lemma {:induction false} MentionsBeforePrune(db: Db, document: DocumentId, graph: DocumentGraph)
    requires Invariant(db) && Canonical(graph)
    ensures var (withEntities, ids) := UpsertEntities(db, graph.entities);
            BringsMentions(db, document, graph, InsertMentions(withEntities, document, ids, graph.mentions))
  {
    var (withEntities, ids) := UpsertEntities(db, graph.entities);
    UpsertEntitiesKeeps(db, graph.entities);
    InsertMentionsOnly(withEntities, document, ids, graph.mentions);
    InsertMentionsKeeps(withEntities, document, ids, graph.mentions);
    var after := InsertMentions(withEntities, document, ids, graph.mentions);
    forall c, e | (c, e) in after.mentions && (c, e) !in db.mentions ensures IsNewMention(db, document, graph, after, c, e) {
      assert IsOneOf(withEntities, document, ids, graph.mentions, c, e);
      var m :| m in graph.mentions && IsMentionBy(withEntities, document, m, c) && m.key in ids && ids[m.key] == e;
      assert IsMentionBy(db, document, m, c);
    }
  }

  lemma {:induction false} PrunedTables(db: Db, whole: Db, document: DocumentId, graph: DocumentGraph)
    requires Invariant(db) && Invariant(whole) && whole.documents == db.documents && whole.chunks == db.chunks
    requires WritesEntities(db, graph.entities, whole) && BringsMentions(db, document, graph, whole)
    ensures var after := PruneSqlite(whole);
            && after.documents == db.documents && after.chunks == db.chunks && BringsMentions(db, document, graph, after)
            && (forall e :: e in after.entities ==> IsWrittenAndCounted(db, graph.entities, e, after.entities[e]) && IsMentioned(after, e))
            && (forall e :: e in db.entities && IsMentioned(db, e) ==> e in after.entities)
  {
    var after := PruneSqlite(whole);
    PruneOutcome(whole);
    PruneKeepsMentions(whole);
    forall e | e in after.entities ensures IsWrittenAndCounted(db, graph.entities, e, after.entities[e]) && IsMentioned(after, e) {
      CountedAfterPrune(db, graph.entities, whole, e);
    }
    forall c, e | (c, e) in after.mentions && (c, e) !in db.mentions ensures IsNewMention(db, document, graph, after, c, e) {
      NewMentionStays(db, document, graph, whole, c, e);
    }
    forall e | e in db.entities && IsMentioned(db, e) ensures e in after.entities {
      var m :| m in db.mentions && m.1 == e;
      assert m in whole.mentions;
    }
  }

  lemma {:induction false} CountedAfterPrune(db: Db, nodes: seq<EntityNode>, whole: Db, e: EntityId)
    requires e in PruneSqlite(whole).entities && WritesEntities(db, nodes, whole)
    ensures IsWrittenAndCounted(db, nodes, e, PruneSqlite(whole).entities[e]) && IsMentioned(whole, e)
  {
    PruneOutcome(whole);
    assert IsWritten(db, nodes, e, whole.entities[e]);
    assert PruneSqlite(whole).entities[e].(mentionCount := whole.entities[e].mentionCount) == whole.entities[e];
  }

  lemma {:induction false} NewMentionStays(db: Db, document: DocumentId, graph: DocumentGraph, whole: Db, c: ChunkId, e: EntityId)
    requires IsNewMention(db, document, graph, whole, c, e) && (c, e) in whole.mentions
    ensures IsNewMention(db, document, graph, PruneSqlite(whole), c, e)
  {
    PruneOutcome(whole);
    var m :| m in graph.mentions && IsMentionBy(db, document, m, c) && e in whole.entities && whole.entities[e].key == m.key;
    assert (c, e).1 == e && IsMentioned(whole, e);
    assert PruneSqlite(whole).entities[e].key == m.key;
  }
}
