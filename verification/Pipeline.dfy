/** One document's ingestion as a sequence of store transactions. */
module Pipeline {
  import opened Tables
  import opened EntityModel
  import opened EntityStore
  import GraphBuild
  import Chunker

  /** Chunks are zipped with their vectors: what is left over on either side is dropped. */
  function Zipped(chunks: seq<Chunker.RawChunk>, vectors: seq<seq<real>>): nat {
    if |chunks| < |vectors| then |chunks| else |vectors|
  }

  function Inserts(chunks: seq<Chunker.RawChunk>, vectors: seq<seq<real>>): (inserts: seq<ChunkInsert>)
    ensures |inserts| == Zipped(chunks, vectors)
    ensures forall i :: 0 <= i < |inserts| ==> IsInsertOf(inserts[i], chunks[i], vectors[i])
  {
    seq(Zipped(chunks, vectors), i requires 0 <= i < Zipped(chunks, vectors) =>
      ChunkInsert(chunks[i].content, chunks[i].index, chunks[i].title, vectors[i]))
  }

  /** The insertion carries all of the chunk, and the vector. */
  predicate IsInsertOf(insert: ChunkInsert, chunk: Chunker.RawChunk, vector: seq<real>) {
    && insert.content == chunk.content && insert.index == chunk.index && insert.title == chunk.title && insert.embedding == vector
  }

  predicate HasIndex(db: Db, document: DocumentId, index: int) {
    exists c :: c in ChunkIds(db, document) && db.chunks[c].index == index
  }

  /** Consecutive numbering never violates the uniqueness of chunk indices. */
  lemma {:induction false} NumberedChunksAreInserted(db: Db, document: DocumentId, inserts: seq<ChunkInsert>)
    requires Invariant(db) && document in db.documents && ChunkIds(db, document) == {}
    requires forall i :: 0 <= i < |inserts| ==> inserts[i].index == i
    ensures var r := InsertChunks(db, document, inserts);
            && r.Ok? && Invariant(r.value) && r.value.documents == db.documents && r.value.relationships == db.relationships
            && (forall index :: HasIndex(r.value, document, index) <==> 0 <= index < |inserts|)
  {
    InsertChunksKeeps(db, document, inserts);
    if inserts == [] {
      assert forall index :: !HasIndex(db, document, index);
    } else {
      var n := |inserts| - 1;
      NumberedChunksAreInserted(db, document, inserts[..n]);
      InsertChunksKeeps(db, document, inserts[..n]);
      var before := InsertChunks(db, document, inserts[..n]).value;
      assert !HasIndex(before, document, n);
      OneMoreIndex(before, document, inserts[n], n);
    }
  }

  lemma {:induction false} OneMoreIndex(db: Db, document: DocumentId, insert: ChunkInsert, n: nat)
    requires Invariant(db) && document in db.documents && insert.index == n
    requires forall index :: HasIndex(db, document, index) <==> 0 <= index < n
    ensures InsertChunk(db, document, insert).Ok?
    ensures forall index :: HasIndex(InsertChunk(db, document, insert).value, document, index) <==> 0 <= index < n + 1
  {
    assert !HasIndex(db, document, n);
    var after := InsertChunk(db, document, insert).value;
    assert db.nextId !in db.chunks;
    assert ChunkIds(after, document) == ChunkIds(db, document) + {db.nextId};
    forall index ensures HasIndex(after, document, index) <==> 0 <= index < n + 1 {
      if HasIndex(db, document, index) {
        var c :| c in ChunkIds(db, document) && db.chunks[c].index == index;
        assert c in ChunkIds(after, document) && after.chunks[c].index == index;
      }
      if index == n {
        assert db.nextId in ChunkIds(after, document) && after.chunks[db.nextId].index == index;
      }
      if c :| c in ChunkIds(after, document) && after.chunks[c].index == index {
        assert c == db.nextId || (c in ChunkIds(db, document) && db.chunks[c].index == index);
      }
    }
  }

  /** The store accepts chunks as the chunker numbers them if and only if their vectors have the right dimension, and stores their indices. */
  lemma {:induction false} NumberedChunksAreAccepted(db: Db, document: DocumentId, chunks: seq<Chunker.RawChunk>, vectors: seq<seq<real>>)
    requires Invariant(db) && document in db.documents && Chunker.Numbered(chunks)
    ensures var r, n := ReplaceDocumentChunks(db, document, Inserts(chunks, vectors)), Zipped(chunks, vectors);
            && (r.Ok? <==> forall i :: 0 <= i < n ==> |vectors[i]| == EMBEDDING_DIMENSIONS)
            && (r.Ok? ==> Invariant(r.value) && r.value.relationships.Keys <= db.relationships.Keys
                          && forall index :: HasIndex(r.value, document, index) <==> 0 <= index < n)
  {
    var inserts := Inserts(chunks, vectors);
    assert forall i :: 0 <= i < |inserts| ==> inserts[i].embedding == vectors[i];
    ClearDocumentKeeps(db, document);
    NumberedChunksAreInserted(ClearDocument(db, document), document, inserts);
  }

  /** With every evidence index stored, the graph transaction adds no relationship without evidence. */
  lemma {:induction false} StoredIndicesGiveEvidence(db: Db, document: DocumentId, graph: DocumentGraph)
    requires Invariant(db) && GraphBuild.Canonical(graph)
    requires forall edge :: edge in graph.relationships ==> HasIndex(db, document, edge.evidence)
    ensures var s := ReplaceDocumentEntityGraph(db, document, graph);
            s.Ok? ==> forall k :: k in s.value.relationships && s.value.relationships[k].evidence.None? ==> k in db.relationships
  {
    var s := ReplaceDocumentEntityGraph(db, document, graph);
    if s.Ok? {
      ReplaceDocumentEntityGraphStores(db, document, graph);
      forall k | k in s.value.relationships && k !in db.relationships ensures s.value.relationships[k].evidence.Some? {
        var edge :| edge in graph.relationships && IsStoredAs(db, document, s.value, edge, s.value.relationships[k]);
        assert HasIndex(db, document, edge.evidence);
      }
    }
  }

  /** An edge's evidence is the index of one of the chunks that the extractions came from. */
  lemma {:induction false} EvidenceIsExtracted(lower: string -> string, extractions: seq<Extraction>, vectors: seq<seq<real>>, graph: DocumentGraph, edge: EntityEdge)
    requires GraphBuild.IsGraphOf(lower, extractions, vectors, graph) && edge in graph.relationships
    ensures exists n :: 0 <= n < |extractions| && extractions[n].chunkIndex == edge.evidence
  {
    GraphBuild.EdgeIsMentioned(lower, extractions, edge);
    var n :| 0 <= n < |extractions| && GraphBuild.MentionedIn(lower, extractions[n], EntityMention(edge.evidence, edge.source));
  }

  /** The edge that a relationship without evidence comes from: its chunk got no vector. */
  ghost predicate IsFromDroppedChunk(graph: DocumentGraph, stored: nat, count: nat, row: Relationship) {
    exists edge :: edge in graph.relationships && stored <= edge.evidence < count && row.kind == edge.kind && row.description == edge.description
  }

  lemma {:induction false} StoredWithoutEvidence(db: Db, document: DocumentId, after: Db, edge: EntityEdge, row: Relationship)
    requires IsStoredAs(db, document, after, edge, row) && row.evidence.None?
    ensures !HasIndex(db, document, edge.evidence) && row.kind == edge.kind && row.description == edge.description
  {
  }

  /** A row added without evidence is that of an edge whose chunk is not stored. */
  lemma {:induction false} UnevidencedIsDropped(db: Db, document: DocumentId, graph: DocumentGraph, stored: nat, count: nat, k: RelationshipId)
    requires Invariant(db) && GraphBuild.Canonical(graph) && ReplaceDocumentEntityGraph(db, document, graph).Ok?
    requires forall index :: HasIndex(db, document, index) <==> 0 <= index < stored
    requires forall edge :: edge in graph.relationships ==> 0 <= edge.evidence < count
    requires var after := ReplaceDocumentEntityGraph(db, document, graph).value;
             k in after.relationships && k !in db.relationships && after.relationships[k].evidence.None?
    ensures IsFromDroppedChunk(graph, stored, count, ReplaceDocumentEntityGraph(db, document, graph).value.relationships[k])
  {
    var after := ReplaceDocumentEntityGraph(db, document, graph).value;
    ReplaceDocumentEntityGraphStores(db, document, graph);
    var edge :| edge in graph.relationships && IsStoredAs(db, document, after, edge, after.relationships[k]);
    StoredWithoutEvidence(db, document, after, edge, after.relationships[k]);
  }

  /**
   * A document's chunks, as the chunker numbers them, followed by the graph extracted from
   * them, with no write of the same document between: a relationship is added without
   * evidence only for a chunk that got no vector and was dropped.
   */
  lemma {:induction false} IngestionLeavesEvidence(db: Db, document: DocumentId, chunks: seq<Chunker.RawChunk>, vectors: seq<seq<real>>,
                                                   lower: string -> string, extractions: seq<Extraction>, entityVectors: seq<seq<real>>, graph: DocumentGraph)
    requires Invariant(db) && document in db.documents && Chunker.Numbered(chunks)
    requires GraphBuild.IsGraphOf(lower, extractions, entityVectors, graph)
    requires forall n :: 0 <= n < |extractions| ==> exists i :: 0 <= i < |chunks| && extractions[n].chunkIndex == chunks[i].index
    ensures var r := ReplaceDocumentChunks(db, document, Inserts(chunks, vectors));
            r.Ok? ==>
            var s := ReplaceDocumentEntityGraph(r.value, document, graph);
            s.Ok? ==>
              forall k :: k in s.value.relationships && k !in db.relationships && s.value.relationships[k].evidence.None? ==>
                IsFromDroppedChunk(graph, Zipped(chunks, vectors), |chunks|, s.value.relationships[k])
    ensures |chunks| <= |vectors| ==> forall row :: !IsFromDroppedChunk(graph, Zipped(chunks, vectors), |chunks|, row)
  {
    NumberedChunksAreAccepted(db, document, chunks, vectors);
    GraphBuild.BuiltGraphIsCanonical(lower, extractions, entityVectors, graph);
    var r := ReplaceDocumentChunks(db, document, Inserts(chunks, vectors));
    if r.Ok? {
      var s := ReplaceDocumentEntityGraph(r.value, document, graph);
      if s.Ok? {
        forall edge | edge in graph.relationships ensures 0 <= edge.evidence < |chunks| {
          EvidenceIsExtracted(lower, extractions, entityVectors, graph, edge);
        }
        forall k | k in s.value.relationships && k !in db.relationships && s.value.relationships[k].evidence.None?
          ensures IsFromDroppedChunk(graph, Zipped(chunks, vectors), |chunks|, s.value.relationships[k])
        {
          UnevidencedIsDropped(r.value, document, graph, Zipped(chunks, vectors), |chunks|, k);
        }
      }
    }
  }

  // ------------------------------------------------- Whether evidence is the text

  /** Every chunk of the document holds the text for its index. */
  predicate HoldsTexts(db: Db, document: DocumentId, texts: seq<string>) {
    forall c :: c in ChunkIds(db, document) ==> 0 <= db.chunks[c].index < |texts| && db.chunks[c].content == texts[db.chunks[c].index]
  }

  function Texts(chunks: seq<Chunker.RawChunk>): (texts: seq<string>)
    ensures |texts| == |chunks| && forall i :: 0 <= i < |chunks| ==> texts[i] == chunks[i].content
  {
    seq(|chunks|, i requires 0 <= i < |chunks| => chunks[i].content)
  }

  lemma {:induction false} InsertsHoldTexts(db: Db, document: DocumentId, inserts: seq<ChunkInsert>, texts: seq<string>)
    requires Invariant(db) && ChunkIds(db, document) == {} && InsertChunks(db, document, inserts).Ok?
    requires forall i :: 0 <= i < |inserts| ==> 0 <= inserts[i].index < |texts| && inserts[i].content == texts[inserts[i].index]
    ensures HoldsTexts(InsertChunks(db, document, inserts).value, document, texts)
  {
    if inserts != [] {
      var n := |inserts| - 1;
      InsertsHoldTexts(db, document, inserts[..n], texts);
      var before := InsertChunks(db, document, inserts[..n]).value;
      var after := InsertChunk(before, document, inserts[n]).value;
      forall c | c in ChunkIds(after, document) && c != before.nextId ensures c in ChunkIds(before, document) && after.chunks[c] == before.chunks[c] {
      }
    }
  }

  lemma {:induction false} StoredChunksHoldTexts(db: Db, document: DocumentId, chunks: seq<Chunker.RawChunk>, vectors: seq<seq<real>>)
    requires Invariant(db) && Chunker.Numbered(chunks) && ReplaceDocumentChunks(db, document, Inserts(chunks, vectors)).Ok?
    ensures HoldsTexts(ReplaceDocumentChunks(db, document, Inserts(chunks, vectors)).value, document, Texts(chunks))
  {
    ClearDocumentKeeps(db, document);
    InsertsHoldTexts(ClearDocument(db, document), document, Inserts(chunks, vectors), Texts(chunks));
  }

  /** The transaction neither replaces the chunks of the document nor deletes it. */
  predicate SparesChunks(op: Operation, document: DocumentId) {
    !(op.StoreChunks? && op.document == document) && !(op.RemoveDocument? && op.document == document)
  }

  predicate SameChunksOf(db: Db, after: Db, document: DocumentId) {
    && ChunkIds(db, document) == ChunkIds(after, document)
    && forall c :: c in ChunkIds(db, document) ==> after.chunks[c] == db.chunks[c]
  }

  lemma {:induction false} InsertsSpareOthers(db: Db, document: DocumentId, other: DocumentId, inserts: seq<ChunkInsert>)
    requires Invariant(db) && other != document && InsertChunks(db, other, inserts).Ok?
    ensures SameChunksOf(db, InsertChunks(db, other, inserts).value, document)
  {
    if inserts != [] {
      var n := |inserts| - 1;
      InsertsSpareOthers(db, document, other, inserts[..n]);
      InsertChunksKeeps(db, other, inserts[..n]);
      var before := InsertChunks(db, other, inserts[..n]).value;
      assert before.nextId !in before.chunks;
      assert ChunkIds(InsertChunk(before, other, inserts[n]).value, document) == ChunkIds(before, document);
    }
  }

  lemma {:induction false} StepSparesChunks(db: Db, op: Operation, document: DocumentId)
    requires Invariant(db) && (op.StoreGraph? ==> GraphBuild.Canonical(op.graph)) && SparesChunks(op, document)
    ensures SameChunksOf(db, Step(db, op), document)
  {
    match op {
      case AddDocument(_, _) =>
      case StoreChunks(other, inserts) =>
        if ReplaceDocumentChunks(db, other, inserts).Ok? {
          ClearDocumentKeeps(db, other);
          assert SameChunksOf(db, ClearDocument(db, other), document);
          InsertsSpareOthers(ClearDocument(db, other), document, other, inserts);
        }
      case StoreGraph(other, graph) =>
        if ReplaceDocumentEntityGraph(db, other, graph).Ok? {
          GraphKeepsChunks(db, other, graph);
        }
      case RemoveDocument(other) =>
        var cleared := ClearDocument(db, other);
        PruneOutcome(cleared.(documents := cleared.documents - {other}));
        assert SameChunksOf(db, cleared, document);
    }
  }

  lemma {:induction false} GraphKeepsChunks(db: Db, document: DocumentId, graph: DocumentGraph)
    requires Invariant(db) && GraphBuild.Canonical(graph) && ReplaceDocumentEntityGraph(db, document, graph).Ok?
    ensures ReplaceDocumentEntityGraph(db, document, graph).value.chunks == db.chunks
  {
    if graph.IsEmpty() {
      PruneOutcome(db);
    } else {
      var base, ids, whole := GraphIsInserted(db, document, graph);
      PruneOutcome(whole);
    }
  }

  ghost function RunFrom(db: Db, ops: seq<Operation>): Db {
    if ops == [] then db else Step(RunFrom(db, ops[..|ops| - 1]), ops[|ops| - 1])
  }

  lemma {:induction false} RunSparesChunks(db: Db, ops: seq<Operation>, document: DocumentId)
    requires Invariant(db) && Built(ops) && forall i :: 0 <= i < |ops| ==> SparesChunks(ops[i], document)
    ensures Invariant(RunFrom(db, ops)) && SameChunksOf(db, RunFrom(db, ops), document)
  {
    if ops != [] {
      var n := |ops| - 1;
      RunSparesChunks(db, ops[..n], document);
      StepKeeps(RunFrom(db, ops[..n]), ops[n]);
      StepSparesChunks(RunFrom(db, ops[..n]), ops[n], document);
    }
  }

  /** Every relationship stored with evidence is evidenced by the text it was extracted from. */
  ghost predicate EvidenceIsText(db: Db, document: DocumentId, graph: DocumentGraph, texts: seq<string>, after: Db) {
    forall edge, r :: edge in graph.relationships && r in after.relationships && 0 <= edge.evidence < |texts|
                      && IsStoredAs(db, document, after, edge, after.relationships[r]) && after.relationships[r].evidence.Some? ==>
      HasText(after, after.relationships[r].evidence.value, texts[edge.evidence])
  }

  predicate HasText(db: Db, c: ChunkId, text: string) {
    c in db.chunks && db.chunks[c].content == text
  }

  /**
   * Relationships are evidenced by the texts they were extracted from if and only if, when
   * the graph is stored, the chunks at their indices still hold those texts.
   */
  lemma {:induction false} EvidenceIsTextExactly(db: Db, document: DocumentId, graph: DocumentGraph, texts: seq<string>)
    requires Invariant(db) && GraphBuild.Canonical(graph) && ReplaceDocumentEntityGraph(db, document, graph).Ok?
    ensures EvidenceIsText(db, document, graph, texts, ReplaceDocumentEntityGraph(db, document, graph).value) <==>
            forall edge :: edge in graph.relationships && 0 <= edge.evidence < |texts| && ChunkAt(db, document, edge.evidence).Some? ==>
              HasText(db, ChunkAt(db, document, edge.evidence).value, texts[edge.evidence])
  {
    var after := ReplaceDocumentEntityGraph(db, document, graph).value;
    GraphKeepsChunks(db, document, graph);
    ReplaceDocumentEntityGraphStores(db, document, graph);
    if EvidenceIsText(db, document, graph, texts, after) {
      forall edge | edge in graph.relationships && 0 <= edge.evidence < |texts| && ChunkAt(db, document, edge.evidence).Some?
        ensures HasText(db, ChunkAt(db, document, edge.evidence).value, texts[edge.evidence])
      {
        var r :| r in after.relationships && IsStoredAs(db, document, after, edge, after.relationships[r]);
      }
    }
  }

  /** With no other write of the document's chunks between, whatever else is written: the evidence is the text. */
  lemma {:induction false} IngestionLeavesTexts(db: Db, document: DocumentId, chunks: seq<Chunker.RawChunk>, vectors: seq<seq<real>>,
                                                between: seq<Operation>, graph: DocumentGraph)
    requires Invariant(db) && Chunker.Numbered(chunks) && ReplaceDocumentChunks(db, document, Inserts(chunks, vectors)).Ok?
    requires Built(between) && (forall i :: 0 <= i < |between| ==> SparesChunks(between[i], document)) && GraphBuild.Canonical(graph)
    ensures var start := RunFrom(ReplaceDocumentChunks(db, document, Inserts(chunks, vectors)).value, between);
            ReplaceDocumentEntityGraph(start, document, graph).Ok? ==>
              EvidenceIsText(start, document, graph, Texts(chunks), ReplaceDocumentEntityGraph(start, document, graph).value)
  {
    var stored := ReplaceDocumentChunks(db, document, Inserts(chunks, vectors)).value;
    ReplaceDocumentChunksKeeps(db, document, Inserts(chunks, vectors));
    StoredChunksHoldTexts(db, document, chunks, vectors);
    RunSparesChunks(stored, between, document);
    var start := RunFrom(stored, between);
    assert HoldsTexts(start, document, Texts(chunks));
    if ReplaceDocumentEntityGraph(start, document, graph).Ok? {
      EvidenceIsTextExactly(start, document, graph, Texts(chunks));
    }
  }

  /** When the chunks of another ingestion of the document come between, a relationship is evidenced by a text it was not extracted from. */
  lemma {:induction false} InterleavingMisleads(db: Db, document: DocumentId, chunks: seq<Chunker.RawChunk>,
                                                others: seq<Chunker.RawChunk>, vectors: seq<seq<real>>, graph: DocumentGraph, edge: EntityEdge)
    requires Invariant(db) && document in db.documents && Chunker.Numbered(others) && ReplaceDocumentChunks(db, document, Inserts(others, vectors)).Ok?
    requires GraphBuild.Canonical(graph) && edge in graph.relationships && 0 <= edge.evidence < |chunks| && edge.evidence < Zipped(others, vectors)
    requires others[edge.evidence].content != chunks[edge.evidence].content
    ensures var start := ReplaceDocumentChunks(db, document, Inserts(others, vectors)).value;
            ReplaceDocumentEntityGraph(start, document, graph).Ok? ==>
              var after := ReplaceDocumentEntityGraph(start, document, graph).value;
              Invariant(after) && !EvidenceIsText(start, document, graph, Texts(chunks), after)
  {
    var start := ReplaceDocumentChunks(db, document, Inserts(others, vectors)).value;
    NumberedChunksAreAccepted(db, document, others, vectors);
    StoredChunksHoldTexts(db, document, others, vectors);
    assert HasIndex(start, document, edge.evidence);
    assert ChunkAt(start, document, edge.evidence).Some?;
    if ReplaceDocumentEntityGraph(start, document, graph).Ok? {
      ReplaceDocumentEntityGraphKeeps(start, document, graph);
      EvidenceIsTextExactly(start, document, graph, Texts(chunks));
    }
  }
}
