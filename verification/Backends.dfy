/**
 * The storage backends. A transaction works on a copy of the tables and commits it at the
 * end; returning early leaves the committed state as it was.
 */
module Backends {
  import opened Wrappers
  import opened Tables
  import opened EntityModel
  import opened EntityStore
  import opened StoreOutcomes
  import GraphBuild

  /** Recomputes mention counts with one correlated subquery, then deletes the orphans. */
  method PruneOrphansSqlite(db: Db) returns (tx: Db)
    ensures tx == PruneSqlite(db)
    ensures CountsExact(tx)
  {
    tx := db;
    tx := tx.(entities := map e | e in tx.entities :: tx.entities[e].(mentionCount := MentionCount(tx, e)));
    tx := DeleteUncounted(tx);
    PruneKeepsMentions(db);
  }

  /** Joins grouped counts in, zeroes the unmentioned, then deletes the orphans. */
  method PruneOrphansPostgres(db: Db) returns (tx: Db)
    ensures tx == PruneSqlite(db)
    ensures CountsExact(tx)
  {
    tx := db;
    var mentioned := set m | m in tx.mentions :: m.1;
    var counts := map e | e in mentioned :: MentionCount(tx, e);
    tx := WithCounts(tx, counts);
    tx := tx.(entities := map e | e in tx.entities ::
      if e !in mentioned then tx.entities[e].(mentionCount := 0) else tx.entities[e]);
    tx := DeleteUncounted(tx);
    PrunesAgree(db);
    PruneKeepsMentions(db);
  }

  class SqliteBackend {
    var db: Db

    constructor ()
      ensures db == EmptyDb && Invariant(db)
    {
      db := EmptyDb;
    }

    method Upsert(path: string, contentHash: string) returns (id: DocumentId)
      requires Invariant(db)
      modifies this
      ensures (db, id) == UpsertDocument(old(db), path, contentHash)
      ensures Invariant(db) && IsDocumentUpsert(old(db), path, contentHash, db, id)
    {
      UpsertDocumentOutcome(db, path, contentHash);
      UpsertDocumentKeeps(db, path, contentHash);
      if d :| d in db.documents && db.documents[d].path == path {
        id := d;
        db := db.(documents := db.documents[d := Document(path, contentHash)]);
      } else {
        id := db.nextId;
        db := db.(documents := db.documents[id := Document(path, contentHash)], nextId := db.nextId + 1);
      }
    }

    method ReplaceChunks(document: DocumentId, chunks: seq<ChunkInsert>) returns (r: Result<(), DbError>)
      requires Invariant(db)
      modifies this
      ensures Invariant(db)
      ensures match ReplaceDocumentChunks(old(db), document, chunks)
              case Ok(after) => r == Ok(()) && db == after
              case Err(e) => r == Err(e) && db == old(db)
      ensures match ChunkError(old(db), document, chunks)
              case Some(e) => r == Err(e)
              case None => r == Ok(()) && IsChunkReplacement(old(db), document, chunks, db)
    {
      ReplaceDocumentChunksCommits(db, document, chunks);
      var tx := DeleteEvidencedBy(db, ChunkIds(db, document));
      tx := DeleteChunks(tx, ChunkIds(tx, document));
      assert tx == ClearDocument(db, document);
      for i := 0 to |chunks|
        invariant forall k :: 0 <= k < i ==> |chunks[k].embedding| == EMBEDDING_DIMENSIONS
      {
        if |chunks[i].embedding| != EMBEDDING_DIMENSIONS {
          return Err(Dimensions);
        }
      }
      ghost var cleared := tx;
      for i := 0 to |chunks|
        invariant InsertChunks(cleared, document, chunks[..i]) == Ok(tx)
      {
        assert chunks[..i + 1][..i] == chunks[..i];
        var inserted := InsertChunk(tx, document, chunks[i]);
        match inserted {
          case Err(e) =>
            ErrorsStay(cleared, document, chunks, i + 1);
            return Err(e);
          case Ok(next) => tx := next;
        }
      }
      assert chunks[..|chunks|] == chunks;
      ReplaceDocumentChunksKeeps(db, document, chunks);
      ReplaceDocumentChunksOutcome(db, document, chunks);
      db := tx;
      r := Ok(());
    }

    method ReplaceEntityGraph(document: DocumentId, graph: DocumentGraph) returns (r: Result<(), DbError>)
      requires Invariant(db) && GraphBuild.Canonical(graph)
      modifies this
      ensures Invariant(db)
      ensures match ReplaceDocumentEntityGraph(old(db), document, graph)
              case Ok(after) => r == Ok(()) && db == after && CountsExact(db)
              case Err(e) => r == Err(e) && db == old(db)
      ensures r.Ok? ==> IsGraphReplacement(old(db), document, graph, db)
    {
      GraphOutcome(db, document, graph);
      if graph.IsEmpty() {
        PruneKeeps(db);
        var pruned := PruneOrphansSqlite(db);
        db := pruned;
        return Ok(());
      }
      var byIndex := ChunkIdsByIndex(db, document);
      var upserted := InsertAllEntities(db, graph.entities);
      if upserted.Err? {
        return Err(upserted.error);
      }
      var (tx, ids) := upserted.value;
      CanonicalIsSupported(db, document, graph);
      UpsertEntitiesKeeps(db, graph.entities);
      SameLookup(db, tx, document, byIndex);
      tx := InsertAllMentions(tx, document, byIndex, ids, graph.mentions);
      tx := InsertAllRelationships(tx, document, byIndex, ids, graph.relationships);
      ReplaceDocumentEntityGraphKeeps(db, document, graph);
      tx := PruneOrphansSqlite(tx);
      db := tx;
      r := Ok(());
    }

    method Delete(filePath: Option<string>, documentId: Option<DocumentId>) returns (r: Option<(string, nat)>)
      requires Invariant(db)
      modifies this
      ensures Invariant(db)
      ensures var target := if documentId.Some? then (if documentId.value in old(db).documents then documentId else None)
                            else if filePath.Some? then DocumentAt(old(db), filePath.value) else None;
              match target
              case None => r == None && db == old(db)
              case Some(d) =>
                && db == DeleteDocument(old(db), d) && IsDeletion(old(db), d, db) && CountsExact(db)
                && r == Some((old(db).documents[d].path, |ChunkIds(old(db), d)|))
    {
      var document: DocumentId;
      if documentId.Some? {
        if documentId.value !in db.documents {
          return None;
        }
        document := documentId.value;
      } else if filePath.Some? {
        if d :| d in db.documents && db.documents[d].path == filePath.value {
          document := d;
        } else {
          return None;
        }
      } else {
        return None;
      }
      var path, chunkCount := db.documents[document].path, |ChunkIds(db, document)|;
      DeleteDocumentKeeps(db, document);
      DeleteDocumentOutcome(db, document);
      var tx := DeleteEvidencedBy(db, ChunkIds(db, document));
      tx := DeleteChunks(tx, ChunkIds(tx, document));
      tx := tx.(documents := tx.documents - {document});
      tx := PruneOrphansSqlite(tx);
      db := tx;
      r := Some((path, chunkCount));
    }
  }

  lemma {:induction false} GraphOutcome(db: Db, document: DocumentId, graph: DocumentGraph)
    requires Invariant(db) && GraphBuild.Canonical(graph)
    ensures ReplaceDocumentEntityGraph(db, document, graph).Ok? ==>
              IsGraphReplacement(db, document, graph, ReplaceDocumentEntityGraph(db, document, graph).value)
  {
    if ReplaceDocumentEntityGraph(db, document, graph).Ok? {
      ReplaceDocumentEntityGraphOutcome(db, document, graph);
    }
  }

  lemma {:induction false} ErrorsStay(db: Db, document: DocumentId, inserts: seq<ChunkInsert>, i: nat)
    requires i <= |inserts| && InsertChunks(db, document, inserts[..i]).Err?
    ensures InsertChunks(db, document, inserts) == InsertChunks(db, document, inserts[..i])
    decreases |inserts|
  {
    if i < |inserts| {
      var n := |inserts| - 1;
      assert inserts[..n][..i] == inserts[..i];
      ErrorsStay(db, document, inserts[..n], i);
    } else {
      assert inserts[..i] == inserts;
    }
  }

  /** One entity by key: its row is updated or added, and no other row changes. */
  method UpsertOne(db: Db, entity: EntityNode) returns (tx: Db, id: EntityId)
    requires UniqueKeys(db) && IdsAreUsed(db)
    ensures (tx, id) == UpsertEntity(db, entity)
    ensures IsUpserted(db, entity, tx, id) && UniqueKeys(tx) && IdsAreUsed(tx)
  {
    UpsertedRow(db, entity);
    tx := db;
    var embedding := if entity.embedding == [] then None else Some(entity.embedding);
    if e :| e in tx.entities && tx.entities[e].key == entity.key {
      id := e;
      var stored := tx.entities[e];
      var description := if entity.description.Some? then entity.description else stored.description;
      tx := tx.(entities := tx.entities[e := stored.(name := entity.name, description := description, embedding := embedding)]);
    } else {
      id := tx.nextId;
      tx := tx.(entities := tx.entities[id := Entity(entity.key, entity.name, entity.description, embedding, 0)], nextId := tx.nextId + 1);
    }
  }

  lemma {:induction false} UpsertOneMore(db: Db, entities: seq<EntityNode>, i: nat)
    requires Invariant(db) && i < |entities|
    ensures var (tx, ids) := UpsertEntities(db, entities[..i]);
            var (after, e) := UpsertEntity(tx, entities[i]);
            UniqueKeys(tx) && IdsAreUsed(tx) && UpsertEntities(db, entities[..i + 1]) == (after, ids[entities[i].key := e])
  {
    assert entities[..i + 1][..i] == entities[..i];
    UpsertEntitiesKeeps(db, entities[..i]);
  }

  method InsertAllEntities(db: Db, entities: seq<EntityNode>) returns (r: Result<(Db, map<Key, EntityId>), DbError>)
    requires Invariant(db)
    ensures if exists i :: 0 <= i < |entities| && BadEmbedding(entities[i]) then r == Err(Check) else r == Ok(UpsertEntities(db, entities))
  {
    var tx, ids: map<Key, EntityId> := db, map[];
    for i := 0 to |entities|
      invariant forall k :: 0 <= k < i ==> !BadEmbedding(entities[k])
      invariant (tx, ids) == UpsertEntities(db, entities[..i])
    {
      UpsertOneMore(db, entities, i);
      if BadEmbedding(entities[i]) {
        return Err(Check);
      }
      var e;
      tx, e := UpsertOne(tx, entities[i]);
      ids := ids[entities[i].key := e];
    }
    assert entities[..|entities|] == entities;
    r := Ok((tx, ids));
  }

  method ChunkIdsByIndex(db: Db, document: DocumentId) returns (byIndex: map<int, ChunkId>)
    requires UniqueIndices(db)
    ensures LooksUp(db, document, byIndex)
  {
    var chunkIds := ChunkIds(db, document);
    byIndex := map c | c in chunkIds :: db.chunks[c].index := c;
  }

  lemma {:induction false} SameLookup(db: Db, other: Db, document: DocumentId, byIndex: map<int, ChunkId>)
    requires UniqueIndices(db) && db.chunks == other.chunks && LooksUp(db, document, byIndex)
    ensures LooksUp(other, document, byIndex)
  {
    forall index ensures ChunkAt(other, document, index) == ChunkAt(db, document, index) {
      SameChunksSameAnswer(db, other, document, index);
    }
  }

  /** The lookup built from the chunk rows answers as the table does. */
  ghost predicate LooksUp(db: Db, document: DocumentId, byIndex: map<int, ChunkId>) {
    forall index :: ChunkAt(db, document, index) == if index in byIndex then Some(byIndex[index]) else None
  }

  method InsertAllMentions(db: Db, document: DocumentId, byIndex: map<int, ChunkId>, ids: map<Key, EntityId>, mentions: seq<EntityMention>)
    returns (tx: Db)
    requires Invariant(db) && Resolves(db, ids) && LooksUp(db, document, byIndex)
    ensures tx == InsertMentions(db, document, ids, mentions) == db.(mentions := tx.mentions)
    ensures LooksUp(tx, document, byIndex)
    ensures forall c: ChunkId, e: EntityId :: (c, e) in tx.mentions <==> (c, e) in db.mentions || IsOneOf(db, document, ids, mentions, c, e)
  {
    tx := db;
    for i := 0 to |mentions|
      invariant tx == InsertMentions(db, document, ids, mentions[..i]) && LooksUp(tx, document, byIndex)
    {
      var mention := mentions[i];
      assert mentions[..i + 1][..i] == mentions[..i];
      InsertMentionsKeeps(db, document, ids, mentions[..i]);
      if mention.chunkIndex in byIndex && mention.key in ids {
        tx := tx.(mentions := tx.mentions + {(byIndex[mention.chunkIndex], ids[mention.key])});
      }
      SameLookup(db, tx, document, byIndex);
    }
    assert mentions[..|mentions|] == mentions;
    InsertMentionsExactly(db, document, ids, mentions);
  }

  lemma {:induction false} InsertMentionsExactly(db: Db, document: DocumentId, ids: map<Key, EntityId>, mentions: seq<EntityMention>)
    requires Invariant(db) && Resolves(db, ids)
    ensures var tx := InsertMentions(db, document, ids, mentions);
            && tx == db.(mentions := tx.mentions)
            && forall c: ChunkId, e: EntityId :: (c, e) in tx.mentions <==> (c, e) in db.mentions || IsOneOf(db, document, ids, mentions, c, e)
  {
    InsertMentionsKeeps(db, document, ids, mentions);
    InsertMentionsOnly(db, document, ids, mentions);
    forall c: ChunkId, e: EntityId | IsOneOf(db, document, ids, mentions, c, e) ensures (c, e) in InsertMentions(db, document, ids, mentions).mentions {
      var m :| m in mentions && IsMentionBy(db, document, m, c) && m.key in ids && ids[m.key] == e;
      ChunkAtIsMentionBy(db, document, m, c);
    }
  }

  method InsertAllRelationships(db: Db, document: DocumentId, byIndex: map<int, ChunkId>, ids: map<Key, EntityId>, edges: seq<EntityEdge>)
    returns (tx: Db)
    requires UniqueIndices(db) && LooksUp(db, document, byIndex)
    ensures tx == InsertRelationships(db, document, ids, edges)
  {
    tx := db;
    for i := 0 to |edges|
      invariant tx == InsertRelationships(db, document, ids, edges[..i]) && tx.chunks == db.chunks
    {
      var edge := edges[i];
      assert edges[..i + 1][..i] == edges[..i];
      SameChunksSameAnswer(db, tx, document, edge.evidence);
      if edge.source in ids && edge.target in ids {
        var evidence := if edge.evidence in byIndex then Some(byIndex[edge.evidence]) else None;
        var row := Relationship(ids[edge.source], ids[edge.target], edge.kind, edge.description, edge.weight, evidence);
        tx := tx.(relationships := tx.relationships[tx.nextId := row], nextId := tx.nextId + 1);
      }
    }
    assert edges[..|edges|] == edges;
  }
}
