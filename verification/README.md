# Verified model of a retrieval knowledge store

A Dafny model of the parts of the repository where a mistake is hard to see: the entity
graph that ingestion builds and the store keeps, the recursive graph search of both
storage backends, Louvain community detection, document chunking, rank fusion, vector
similarity, LIKE and trigram matching, and directory ingestion.

`dafny verify dfyconfig.toml` checks everything.

## Layout

| file | what it holds |
|---|---|
| `Wrappers`, `Tables`, `Strings`, `Sorting`, `Reals` | options and results, table rows, Rust string operations, sorting, products and quotients |
| `EntityModel`, `GraphBuild`, `GraphOutcomes` | extractions, normalisation, their aggregation into one document graph, and what the graph holds, said of the extractions |
| `EntityStore`, `StoreOutcomes`, `Backends` | the tables as a state machine with an invariant; what each transaction leaves in them, row by row; the transactions as a class that refines both |
| `GraphWalk`, `GraphParity`, `Retrieval` | the recursive query of SQLite and of PostgreSQL, related by cycle erasure |
| `Communities` | stored communities beside those tables, what ingestion saves, and the two-tier community search |
| `SparseGraphs`, `Modularity`, `Louvain` | the weighted graph, the objective and the gain, the move loops and the groups |
| `LouvainSettling`, `EmbeddedGraphs`, `LouvainRuns` | when local moving comes to rest, graphs that differ by isolated nodes, and runs on documents whose relationships join three entities |
| `Sections`, `Semantic`, `Chunker`, `Pipeline` | paragraph packing, sentence and window splitting, whole documents, and how their chunks reach the store |
| `Fusion`, `Embeddings`, `LikePatterns`, `Trigrams` | rank fusion and max-merge, cosine and blobs, LIKE escaping, trigram similarity |
| `Directory` | concurrent ingestion and orphan deletion |

## Main results

* **Graph search parity.** The rows of SQLite's recursive query are exactly the walks up to
  the depth bound, those of PostgreSQL's exactly the simple walks. Erasing cycles shows that
  both give every entity the same best score, and that they do so exactly when the bound is
  at most 2 or no weight exceeds sqrt(12) (graphs without self-loops), and exactly when the
  bound is at most 1 or no weight exceeds 3 (graphs with them). For chunks the difference is
  exact: SQLite's score is the greater of PostgreSQL's and of a sixth of the squared weight of
  a relationship at a seed entity that the chunk mentions. At the default depth of 2 that
  holds for every chunk of every database that ingestion can produce, at the maximum of 3
  exactly for weights up to sqrt(12); and the ranked, filtered and limited answers are the same
  where no chunk that can be returned mentions a seed entity.
* **What transactions do.** For every state that meets the invariant each transaction is
  described row by row: which documents, chunks, mentions, entities and relationships are
  there afterwards and with what in them, and exactly when it fails. The same is stated for
  saved communities, for the document graph in terms of the extractions, and for the graph
  search in terms of walks from the entities that the seed chunks mention.
* **Grounded knowledge lasts.** Over every interleaving of document, chunk, graph and delete
  transactions, each relationship with an evidence chunk has both ends mentioned in that
  chunk. Pruning and its cascades never remove such a relationship while its chunk exists, and
  `ON DELETE SET NULL` never takes effect. The two prunes are one transformation.
* **Louvain.** Every run is a sequence of sweeps in which each node adopts a best label;
  bookkeeping agrees with recomputation; labels never leave a connected component; the gain is
  exactly half the change of standard modularity for a node on its own; the number of
  improving iterations is below 2 / minimum gain. A move raises standard modularity exactly
  when its gain exceeds what the node already has. Without the limit of ten sweeps, local
  moving comes to rest if and only if from some sweep on every turn does that; a run finds
  nothing if and only if no link is heavier than chance. On every document, however large,
  whose relationships form a certain path of three entities an accepted move lowers
  modularity, and on every one where they form a certain triangle no sweep of any run
  settles. The quantity checked for convergence exceeds standard modularity by an exact sum of products of
  degrees, and equals it exactly when no community holds two nodes with relationships.
* **Communities in the store.** In every store that ingestion, deletion and saved communities
  lead to, community search finds nothing on either backend; it returns what its documentation
  promises exactly when no chunk mentions a member of a matched community. After every
  ingestion that saves communities, a search seeded with a chunk of that document that mentions
  anything is promised that chunk and finds none.
* **Evidence.** Chunks followed by the graph extracted from them leave every relationship
  evidenced by the very text it came from, exactly when the chunks at those indices still hold
  these texts; that is so whatever is written between, but for the same document's chunks.
* **Chunking.** A sentence ends exactly at the first terminator that no abbreviation ends in and
  that a new sentence or nothing follows. Greedy packing needs the fewest sections; breakpoint spacing is bounded;
  overlapping windows reconstruct the text. For sections of any size, with windows or by
  sentences, the visible text of a document is a subsequence of that of its chunks. All chunks
  are within the size limit exactly when no oversized section makes the semantic splitter
  return a longer text early.
* **Fusion and matching.** Reciprocal rank fusion is an exact top-k, and rewards a better rank
  exactly for k above -1; cosine lies in [-1, 1]; an escaped LIKE pattern matches exactly the
  strings that contain the query.
* **Directory ingestion** gives the result of sequential ingestion for every completion order,
  reports exactly the orphans it met, in order, and its counters add up.

## Where the code and its documentation differ

* `calculate_modularity` (`src/entity/community.rs:333-361`) subtracts the squared degree of
  each node, not of each community. Its penalty is the same for every partition, so the
  quantity it checks is greatest for one single community
  (`Modularity.CheckedModularityPrefersOneCommunity`). The exact difference from standard
  modularity is `Modularity.CheckedIsStandardPlusCross`; the two are equal if and only if no
  community holds two nodes with relationships or the resolution is zero
  (`Modularity.CheckedIsStandardWhenScattered`), and `LouvainRuns.CheckCanMissModularity` is a
  run in which they differ.
* `find_best_community` compares candidates with a gain of zero for staying, so the
  "modularity-based optimization" of `src/entity/community.rs:52-59` can lower modularity
  (`LouvainRuns.AcceptedMoveCanLowerModularity`, with the exact condition in
  `Modularity.GainDecidesMove`), and its local phase need not come to rest
  (`LouvainRuns.LocalMovingNeedNotSettle`). Both are shown for documents of any size, so also
  from the five entities on at which ingestion looks for communities
  (`src/ingest/pipeline.rs:254`). Local moving rests if and only if from some sweep on every
  turn gains more than the node leaves behind (`LouvainSettling.RestsExactlyWhenPaying`), a
  comparison that the source does not make; with it, no labelling would recur
  (`LouvainSettling.PayingSweepsAreFew`).
* The semantic splitter takes a maximum chunk size but returns a single sentence, or sentences
  too few to compare, as one chunk (`src/ingest/chunker_semantic.rs:67-94`), which can exceed it
  (`Chunker.LongSentenceExceeds`). The limit is kept exactly under the
  condition of `Chunker.ChunksAreNumberedAndFit`.
* Community search is documented to fetch chunks that mention the entities of the matched
  communities (`src/retrieve/community.rs:24-30`). Its local tier passes chunk ids to a query
  over `cm.entity_id` and matches no community (`Communities.LocalTierMatchesNothing`); what
  the global tier matches is passed on as community ids to a query that expects chunk ids. So
  the search finds nothing, and does what is documented if and only if no chunk mentions a
  member of a matched community (`Communities.CommunitySearchIsDocumented`). After every
  ingestion that saves communities one does (`Communities.SavedCommunitiesAreSearchedInVain`;
  `Communities.CommunitySearchCanMissDocumented` is a store of five entities).
* `build_document_entity_graph` keeps an entity that no chunk mentions when a relationship is
  dropped because its target has no name or is its source, and nothing else mentions that
  source (`GraphBuild.SourceCanBeUnmentioned`); every entity is mentioned if and only if no
  relationship is of that kind (`GraphBuild.AllEntitiesAreMentioned`). The extractor in
  `src/entity/extractor.rs:209-211` drops relationships without a target name, so with it only
  a relationship of an entity to itself does this.
* A relationship's evidence is looked up by chunk index when the graph is stored
  (`src/store/sqlite/entity_graph.rs:145-191`). When another ingestion of the same document
  replaces its chunks between, the evidence is a text that the relationship was not extracted
  from (`Pipeline.InterleavingMisleads`, with the exact condition in
  `Pipeline.EvidenceIsTextExactly`).

## Model

| member | source | states |
|---|---|---|
| GraphWalk.SqliteRowsAreWalks | src/store/sqlite/mod.rs:346-374 | the rows of the recursive query are exactly the walks from a seed of at most the bounded length, each with its end, length, start and score (product of clamped weights over (depth+1)!) |
| GraphWalk.PostgresRowsAreSimpleWalks | src/store/postgres/search.rs:247-280 | the rows are exactly the walks that visit no entity twice, with the same score |
| GraphWalk.ScoreByStep | src/store/sqlite/mod.rs:361-364 | an empty walk scores one, and each step multiplies by its clamped weight over its number plus one |
| GraphParity.PostgresRowIsSqliteRow | src/store/postgres/search.rs:247-280 | every PostgreSQL row is a SQLite row with the path's first entity as path start |
| GraphParity.CutCycle | src/store/sqlite/mod.rs:361-364 | cutting one cycle out of a walk keeps where it leads and does not lower its score, for weights at most 3, or at most sqrt(12) and a cycle of two steps or more |
| GraphParity.EraseCycles | src/store/sqlite/mod.rs:346-374 | every walk to another entity shortens to a simple walk there; it scores no less where cycles never pay |
| GraphParity.SqliteRowIsMatched | src/store/sqlite/mod.rs:346-374 | every SQLite row that does not lead back to its start has a PostgreSQL row to the same entity that scores no less, where cycles never pay |
| GraphParity.EntityParity | src/store/sqlite/mod.rs:346-374 | the best SQLite score over walks not starting at an entity equals the best PostgreSQL score for it |
| GraphParity.DetourPays | src/store/sqlite/mod.rs:361-369 | beyond the bounds, a graph with one relationship (and one self-loop) on which the two best scores differ |
| GraphParity.ParityIsExact | src/store/postgres/search.rs:247-280 | the backends agree on all graphs of a class if and only if: depth at most 2 or weights at most sqrt(12) without self-loops; depth at most 1 or weights at most 3 with them |
| GraphParity.SqliteChunkScoresAreWalks | src/store/sqlite/mod.rs:331-401 | the scores considered for a chunk that is no seed are exactly those of the walks of one to the bounded number of steps from any entity that a seed chunk mentions to one that the chunk mentions |
| GraphParity.PostgresChunkScoresAreWalks | src/store/postgres/search.rs:242-301 | the same of the walks that visit no entity twice |
| GraphParity.ChunkParity | src/store/sqlite/mod.rs:375-401 | under the same condition a chunk that mentions no seed entity has the same best score on both backends |
| GraphParity.PostgresChunkScoreIsSqlite | src/store/postgres/search.rs:281-301 | every score PostgreSQL considers for a chunk SQLite considers too, so SQLite returns it with no lower score |
| GraphParity.ReturnedChunks | src/store/sqlite/mod.rs:375-401 | without self-loops SQLite returns a chunk if and only if PostgreSQL does, or the depth is at least 2 and the chunk mentions a seed entity that has a relationship |
| GraphParity.ClosedWalkIsCheap | src/store/sqlite/mod.rs:361-374 | a walk back to its start scores no more than going out and back over one relationship there, where cycles never pay |
| GraphParity.ChunkScoresAreExact | src/store/sqlite/mod.rs:346-401 | without self-loops and where cycles never pay, the best SQLite score of any chunk is the best of its PostgreSQL scores and of w*w/6 over the relationships of the seed entities it mentions, the latter from depth 2 on |
| Retrieval.StoredGraphHasNoSelfLoops | src/entity/graph_build.rs:76-82 | no table state that meets the invariant, so none that transactions lead to, holds a self-loop |
| Retrieval.BackendsRankAlike | src/entity/model.rs:11-33 | on every such database and for every chunk: SQLite's best score is that of PostgreSQL or of a return to a mentioned seed entity, for configured depths up to the default 2 whatever the weights, and up to the maximum 3 for weights at most sqrt(12); the same score for a chunk that mentions no seed entity |
| Retrieval.WeightsSufficeExactly | src/entity/model.rs:11-33 | those scores hold on every database that meets the invariant, with weights up to a maximum, if and only if the configured depth is at most the default or the maximum is at most sqrt(12) |
| Retrieval.BackendsAnswerAlike | src/store/postgres/search.rs:281-309 | with filters, order and limit: SQLite's possible answers are exactly those that PostgreSQL's scores and the returns to seed entities rank; they are PostgreSQL's where no chunk that passes the filters and is no seed itself mentions a seed entity |
| Retrieval.ForeignSeedsFindNothing | src/retrieve/community.rs:58-61 | on a database that meets the invariant, seeding the graph search with ids that are no chunk's finds no chunk on either backend |
| Communities.ReachableStoresAreSound | migrations/sqlite/004_entity_communities.sql:2-17 | after every run of ingestions, deletions, saved and deleted communities: memberships join stored communities and stored entities, and no community or entity has a chunk's id |
| Communities.SaveKeeps | src/store/sqlite/community.rs:22-77 | saving communities keeps that, with the names that are not stored skipped and the embedding length checked |
| Communities.SaveCommunitiesOutcome | src/store/sqlite/community.rs:22-77 | each community gets a new id, with its name, summary, project and embedding, and exactly the stored entities of its names as members; the others stay |
| Communities.DeleteProjectCommunitiesOutcome | src/store/sqlite/community.rs:83-101 | exactly the project's communities go, with their members; without a project, those without one |
| Communities.IngestKeeps | migrations/sqlite/004_entity_communities.sql:13-17 | every ingestion or deletion keeps it, the memberships of pruned entities going along |
| Communities.LocalTierMatchesNothing | src/retrieve/community.rs:41-43 | asked with ids of seed chunks, the local tier matches no community |
| Communities.GlobalTierIsNearest | src/store/sqlite/community.rs:150-183 | the global tier holds five, or all, of the communities in scope whose embedding is comparable, none less similar than one left out |
| Communities.MatchedIsInScope | src/store/sqlite/community.rs:122-139 | a matched community belongs to the project or to none |
| Communities.FoundExactly | src/store/sqlite/mod.rs:331-401 | for any ids, the graph search finds exactly the chunks that a walk leads to from an entity that one of the ids mentions, the ids themselves apart |
| Communities.CommunitySearchFindsNothing | src/retrieve/community.rs:31-64 | the ids handed on are those of the global tier, and lead the graph search to no chunk on either backend |
| Communities.CommunitySearchIsDocumented | src/retrieve/community.rs:23-64 | the search finds exactly the chunks that its documentation promises if and only if no chunk mentions a member of a matched community |
| Communities.AnalyseGraph | src/ingest/pipeline.rs:254-280 | fewer than five entities, or a failed summary of a detected group, change nothing; when every group has its summary, the communities with these summaries take the place of the project's old ones, which are lost even when saving fails |
| Communities.Summarised | src/entity/community_manager.rs:145-185 | one community for each group, with the name, text and embedding of its summary, unless a summary fails |
| Communities.AnalysisIsSaved | src/ingest/pipeline.rs:268-275 | with storable embeddings the project's old communities are gone and the detected ones are there |
| Communities.EveryEntityIsMember | src/entity/community.rs:84-104 | every entity of the document is a member of a detected community |
| Communities.SavedCommunitiesAreSearchedInVain | src/ingest/pipeline.rs:246-280 | in whatever store, after an ingestion of five entities or more: a search seeded with a chunk of the document that mentions anything is promised that chunk and finds none, on either backend |
| Communities.CommunitySearchCanMissDocumented | src/retrieve/community.rs:23-64 | an ingestion of one chunk that mentions five entities, two pairs of them related, with whatever communities detection finds: the documentation promises the chunk and the search finds none |
| GraphBuild.UpsertAggregatedEntity | src/entity/graph_build.rs:144-183 | a supply without a name changes nothing; otherwise only its key's entry changes, and goes on to hold the earliest of the longest names and descriptions supplied so far |
| GraphBuild.AggregateKeepsKeys | src/entity/graph_build.rs:155-182 | the aggregated keys are exactly those supplied with a name, and each entity sits under its own key |
| GraphBuild.AggregateKeepsBest | src/entity/graph_build.rs:163-195 | name and description kept for a key are the earliest among the longest supplied for it |
| GraphBuild.AddEntities | src/entity/graph_build.rs:47-56 | the entity loop merges every entity of a chunk and marks exactly the named keys |
| GraphBuild.AddRelationship | src/entity/graph_build.rs:59-93 | an edge arises if and only if both ends have names and differ, between those ends, with the weight raised to 0.1 where it is below; the source's key is added, and the target's when the source has a name |
| GraphBuild.AddRelationships | src/entity/graph_build.rs:58-94 | the relationship loop: all ends merged, all edges in order, both ends of every edge marked |
| GraphBuild.AggregateExtractions | src/entity/graph_build.rs:36-103 | the whole aggregation: entities, mentions and relationships of all chunks |
| GraphBuild.BuildDocumentEntityGraph | src/entity/graph_build.rs:32-138 | the empty graph without any embedding call, the embedder's failure, the count mismatch, or the graph of the extractions with each entity's own vector |
| GraphBuild.MentionedIsSupplied | src/entity/graph_build.rs:47-102 | every mentioned key is an aggregated entity |
| GraphBuild.EdgeIsMentioned | src/entity/graph_build.rs:76-102 | every edge joins two different entities, weighs at least 0.1, and both ends are mentioned by its evidence chunk |
| GraphBuild.BuiltGraphIsCanonical | src/entity/graph_build.rs:32-138 | whatever the extractor returned: unique keys, mentions and relationships closed over the entities, every edge grounded in a mention of both ends |
| GraphBuild.BuiltEntitiesAreBest | src/entity/graph_build.rs:163-195 | every entity of the built graph carries the earliest longest name and description of its key |
| EntityModel.SpaceSeparatesWords | src/entity/normalize.rs:11-17 | white space separates words, however much of it there is |
| EntityModel.WordIsItself | src/entity/normalize.rs:11-17 | what holds no white space is its own only word |
| EntityModel.NamesAgreeExactly | src/entity/normalize.rs:11-17 | two names agree before lower-casing exactly when they have the same words; blank ones come out empty; lower-casing comes last |
| EntityModel.KindIsNormal | src/entity/normalize.rs:22-37 | a blank type is CONCEPT; otherwise letter by letter capitals, digits and underscores; normalising twice is normalising once |
| GraphOutcomes.EdgesAreExtracted | src/entity/graph_build.rs:58-94 | the relationships are exactly the edges that some chunk's relationships yield: between two different keys, with normal type, cleaned description, clamped weight and the chunk's index |
| GraphOutcomes.EdgesOneMore | src/entity/graph_build.rs:58-94 | one relationship more adds its edge at the end, or nothing |
| GraphOutcomes.MentionsAreExtracted | src/entity/graph_build.rs:47-103 | a mention is there exactly when a chunk with that index names the key as an entity or as an end of an edge that it yields |
| GraphOutcomes.KeysAreExtracted | src/entity/graph_build.rs:144-183 | there is an entity for exactly the keys that some chunk calls by a name |
| GraphOutcomes.EntitiesAreExtracted | src/entity/graph_build.rs:109-195 | each is called by one of the longest names and described by one of the longest descriptions that the chunks give it, and has its own vector |
| GraphBuild.SomewhereIsMentioned | src/entity/graph_build.rs:47-102 | a key is mentioned by some chunk if and only if the mentions hold it |
| GraphBuild.AllEntitiesAreMentioned | src/entity/graph_build.rs:59-103 | for all extractions: every aggregated entity is mentioned if and only if every relationship that is dropped for an unnamed or equal target has its source mentioned elsewhere |
| GraphBuild.SourceCanBeUnmentioned | src/entity/graph_build.rs:59-78 | a relationship without a target name, or from an entity to itself, can leave behind an entity that no chunk mentions |
| EntityStore.PrunesAgree | src/store/postgres/entity_graph.rs:163-196 | on every table state the three-statement prune and SQLite's correlated one end in the same tables |
| EntityStore.PruneOutcome | src/store/sqlite/entity_graph.rs:201-222 | exactly the mentioned entities stay, exactly counted, with the relationships whose ends stay |
| EntityStore.PruneKeepsMentions | src/store/sqlite/entity_graph.rs:201-222 | no mention goes, and every count is exact and positive afterwards |
| EntityStore.PruneIsIdempotent | src/store/sqlite/entity_graph.rs:201-222 | pruning twice is pruning once |
| StoreOutcomes.CountIsOfChunks | src/store/sqlite/entity_graph.rs:201-222 | the count of an entity is the number of chunks that mention it |
| EntityStore.ReplaceDocumentChunksKeeps | src/store/sqlite/mod.rs:251-305 | replacing chunks keeps the invariant, edits no relationship, and drops none whose evidence chunk stays |
| StoreOutcomes.UpsertDocumentOutcome | src/store/sqlite/mod.rs:218-249 | the path leads to a document with the new hash, under its old id if it had one, and no other row changes |
| StoreOutcomes.ReplaceDocumentChunksOutcome | src/store/sqlite/mod.rs:251-305 | the document's chunks are exactly those given, with new ids; the mentions and relationships that hung on its old ones are gone; all else stays |
| StoreOutcomes.ReplaceDocumentChunksCommits | src/store/sqlite/mod.rs:251-305 | it fails exactly for a vector of the wrong dimension, a document that is not stored or an index given twice, in this order |
| EntityStore.PruneKeeps | src/store/sqlite/entity_graph.rs:201-222 | pruning keeps every relationship that has an evidence chunk |
| EntityStore.DeleteDocumentKeeps | src/store/sqlite/mod.rs:607-659 | deleting a document keeps the invariant and all knowledge grounded in other documents' chunks |
| StoreOutcomes.DeleteDocumentOutcome | src/store/sqlite/mod.rs:607-659 | the document is gone, with its chunks, their mentions, the relationships they evidenced, the entities that no other document's chunk mentions and the relationships of those; all other rows stay, but for the counts |
| EntityStore.CanonicalIsSupported | src/store/sqlite/entity_graph.rs:113-174 | once the mentions of a canonical graph are stored, every edge about to be inserted has both ends mentioned by its evidence chunk |
| EntityStore.ReplaceDocumentEntityGraphKeeps | src/store/sqlite/entity_graph.rs:21-195 | storing a canonical graph keeps the invariant and all grounded knowledge, and leaves exact counts |
| EntityStore.ReplaceDocumentEntityGraphStores | src/store/sqlite/entity_graph.rs:113-195 | every edge whose chunk index is stored arrives with that chunk as evidence and survives the prune; every new row is one of the edges |
| EntityStore.MentionsAreStored | src/store/sqlite/entity_graph.rs:113-195 | every mention by a stored chunk arrives at the entity with its key and outlasts the prune |
| StoreOutcomes.ReplaceDocumentEntityGraphOutcome | src/store/sqlite/entity_graph.rs:21-195 | mentions only come, and every one that comes is the graph's, by the chunk at its index; exactly the mentioned entities are there, written from their nodes or as they were; old relationships go only with an end; documents and chunks stay |
| StoreOutcomes.ReplaceDocumentEntityGraphCommits | src/store/sqlite/entity_graph.rs:53-104 | it fails exactly for a vector that is neither empty nor of the right dimension |
| EntityStore.StepKeeps | migrations/sqlite/002_entity_graph.sql:15-31 | every transaction keeps the invariant and never edits a relationship row, so ON DELETE SET NULL has no effect |
| EntityStore.StepAddsFreshIds | src/store/sqlite/entity_graph.rs:61-103 | the chunks and entities that a transaction adds have ids never used before, and no transaction adds both |
| EntityStore.ReachableStatesAreSound | migrations/sqlite/002_entity_graph.sql:2-31 | after every run, interleaving any documents: keys unique, foreign keys met, every evidenced relationship's ends mentioned in its chunk |
| EntityStore.GroundedKnowledgeLasts | src/store/sqlite/entity_graph.rs:113-222 | through every continuation of a run a relationship stays, unchanged, as long as its evidence chunk does |
| Backends.PruneOrphansSqlite | src/store/sqlite/entity_graph.rs:201-222 | the count update followed by the deletion is the prune |
| Backends.PruneOrphansPostgres | src/store/postgres/entity_graph.rs:163-196 | update, zero and delete end in the tables of the SQLite prune |
| Backends.ChunkIdsByIndex | src/store/sqlite/entity_graph.rs:33-49 | the lookup answers for every index as the table does |
| Backends.UpsertOne | src/store/sqlite/entity_graph.rs:61-103 | the row with that key is updated, or one with a fresh id added, and no other row changes; a stored description stays when none is given, the embedding is replaced; keys stay unique |
| Backends.InsertAllEntities | src/store/sqlite/entity_graph.rs:53-104 | all upserts with the ids by key, or the CHECK failure of an embedding of the wrong length |
| Backends.InsertAllMentions | src/store/sqlite/entity_graph.rs:113-133 | exactly the old mentions and, for each given mention with a known key, the one by the chunk at its index; nothing else changes |
| Backends.InsertAllRelationships | src/store/sqlite/entity_graph.rs:145-191 | one row per relationship with known ends; evidence only if the chunk index is stored |
| Backends.SqliteBackend.constructor | migrations/sqlite/002_entity_graph.sql:2-31 | an empty database meets the invariant |
| Backends.SqliteBackend.Upsert | src/store/sqlite/mod.rs:218-249 | insert or update by path, keeping the id of a known path and storing the new hash; no other row changes |
| Backends.SqliteBackend.ReplaceChunks | src/store/sqlite/mod.rs:251-305 | exactly the chunks given in the place of the document's old ones, or the error and the old tables unchanged |
| Backends.SqliteBackend.ReplaceEntityGraph | src/store/sqlite/entity_graph.rs:21-195 | the graph's mentions and entities added and nothing else but what the pruning takes, with exact counts; or the error and the old tables unchanged |
| Backends.SqliteBackend.Delete | src/store/sqlite/mod.rs:607-659 | the target by id or path, its path and chunk count, and the tables without it and all that hung on it; nothing when there is no target |
| Pipeline.NumberedChunksAreInserted | src/store/sqlite/mod.rs:286-302 | consecutively numbered chunks never collide, and their indices are exactly those stored |
| Pipeline.NumberedChunksAreAccepted | src/ingest/pipeline.rs:231-245 | for any number of vectors: the store accepts what the chunker numbered, zipped with them, if and only if each has the right dimension, and then stores exactly those indices |
| Pipeline.StoredIndicesGiveEvidence | src/store/sqlite/entity_graph.rs:145-191 | when all evidence indices are stored, no relationship is added without evidence |
| Pipeline.EvidenceIsExtracted | src/entity/graph_build.rs:58-94 | an edge's evidence is the chunk index of one of the extractions |
| Pipeline.UnevidencedIsDropped | src/store/sqlite/entity_graph.rs:145-191 | when the indices below some number are stored, a row added without evidence is that of an edge whose chunk index is not below it |
| Pipeline.IngestionLeavesEvidence | src/ingest/pipeline.rs:221-252 | chunks then graph of one document: a relationship is added without evidence only for a chunk that got no vector, and so never when there are as many vectors as chunks |
| Pipeline.EvidenceIsTextExactly | src/store/sqlite/entity_graph.rs:145-191 | relationships are evidenced by the texts they came from if and only if the chunks at their indices hold those texts when the graph is stored |
| Pipeline.IngestionLeavesTexts | src/ingest/pipeline.rs:231-252 | so it is when whatever is written between leaves the document's chunks alone |
| Pipeline.InterleavingMisleads | src/ingest/pipeline.rs:242-252 | when another ingestion's chunks of the document, with another text at that index, come between, a relationship is evidenced by a text it did not come from |
| SparseGraphs.AddEdge | src/entity/community.rs:150-166 | one relationship at both ends, in the degrees and twice in the total |
| SparseGraphs.AggregateRow | src/entity/community.rs:168-178 | parallel links become one per neighbour with the same weight towards every node |
| SparseGraphs.AggregatedRowAccounts | src/entity/community.rs:168-178 | aggregation keeps row sums, so degrees and total still agree |
| SparseGraphs.BuildSparseGraph | src/entity/community.rs:133-186 | weights are those of the relationships between two known, different names (the last of namesakes), degrees are row sums, the total is the degree sum, no neighbour twice |
| SparseGraphs.EdgeWeightIsSymmetric | src/entity/community.rs:158-160 | the weight between two nodes is symmetric, and zero from a node to itself |
| SparseGraphs.TotalIsTwiceLinked | src/entity/community.rs:147-166 | the total weight is twice that of all relationships between two different names of entities |
| Modularity.MoveChangesModularity | src/entity/community.rs:314-321 | a move changes standard modularity by twice the new attraction minus the old one |
| Modularity.GainIsAttraction | src/entity/community.rs:295-321 | the gain computed for a candidate is exactly its attraction |
| Modularity.GainDecidesMove | src/entity/community.rs:295-329 | a move raises standard modularity if and only if its gain exceeds the attraction of the community left, which is zero for a node on its own |
| Modularity.BestFromSingleton | src/entity/community.rs:285-330 | for a node on its own the choice maximises standard modularity over all communities, and every move strictly raises it |
| Modularity.CheckedModularityIsAtMostOne | src/entity/community.rs:333-361 | the quantity checked for convergence is at most 1 |
| Modularity.CheckedModularityPrefersOneCommunity | src/entity/community.rs:356-357 | as checked, no partition beats a single community |
| Modularity.CheckedIsStandardPlusCross | src/entity/community.rs:333-361 | the checked quantity exceeds standard modularity by exactly resolution times the products of degrees of different nodes of a community, over the squared total |
| Modularity.CheckedIsStandardWhenScattered | src/entity/community.rs:333-361 | the two are equal if and only if no community holds two nodes with relationships, or the resolution is zero; for a resolution not below zero the checked one is never less |
| Louvain.FindBestCommunity | src/entity/community.rs:285-330 | the current community when no other neighbouring one has positive gain, otherwise one of greatest gain, for any map order |
| Louvain.MoveIsConsistent | src/entity/community.rs:236-246 | a move's updates to sizes and degrees agree with recomputing both |
| Louvain.MoveNodes | src/entity/community.rs:223-248 | one sweep: nodes take turns in index order, each adopting a best label; bookkeeping stays exact; the flag tells whether any label changed |
| Louvain.LocalPasses | src/entity/community.rs:215-249 | one to ten sweeps, stopping at the first that changes nothing and no earlier |
| Louvain.SettledIsStable | src/entity/community.rs:219-249 | after a sweep that changes nothing, no node has a candidate of positive gain |
| LouvainSettling.AtRestExactly | src/entity/community.rs:223-248 | a sweep can leave labels alone if and only if every node's own is a best one |
| LouvainSettling.PayingSweepRises | src/entity/community.rs:224-247 | a sweep whose turns all gain more than the node leaves strictly raises standard modularity, unless it moves nothing |
| LouvainSettling.OnlyLossesReturn | src/entity/community.rs:219-249 | labels recur only by way of a turn that gains no more than the node leaves |
| LouvainSettling.PayingSweepsAreFew | src/entity/community.rs:219-249 | with turns that all gain more than the node leaves, no labelling recurs, and there are no more sweeps than labellings |
| LouvainSettling.RestsExactlyWhenPaying | src/entity/community.rs:219-249 | without the limit of ten, local moving comes to rest if and only if from some sweep on every turn gains more than the node leaves |
| LouvainSettling.FirstSweepIsStillExactly | src/entity/community.rs:285-330 | the first sweep moves nothing if and only if w(i,j) * T <= resolution * k(i) * k(j) for every link |
| LouvainSettling.RunFindsNothingExactly | src/entity/community.rs:196-267 | a whole run leaves every node on its own under exactly that condition |
| EmbeddedGraphs.BuiltEmbeds | src/entity/community.rs:133-186 | a graph built for relationships with the weights of a smaller graph has it among isolated nodes, whatever the order of links |
| EmbeddedGraphs.BestEmbeds | src/entity/community.rs:285-330 | isolated nodes and the order of links do not change which label is best |
| EmbeddedGraphs.SweepComesFrom | src/entity/community.rs:223-248 | every sweep of the larger graph is one of the smaller, the isolated nodes staying |
| EmbeddedGraphs.SweepGoesTo | src/entity/community.rs:223-248 | and the other way round |
| LouvainRuns.AcceptedMoveCanLowerModularity | src/entity/community.rs:285-330 | on the graph built for every document, of any size, whose relationships form a certain path of three entities: in the first sweep the second turn can only move its node, and lowers standard modularity |
| LouvainRuns.CheckCanMissModularity | src/entity/community.rs:196-267 | on every such document the first local phase can only join the three, where the checked quantity exceeds standard modularity |
| LouvainRuns.PathSweeps | src/entity/community.rs:223-248 | the sweeps from singletons on that path, which no map order changes |
| LouvainRuns.TriangleSweeps | src/entity/community.rs:223-248 | on a triangle the sweeps lead from singletons to a pair of labels that they swap ever after, whatever the map order |
| LouvainRuns.LocalMovingNeedNotSettle | src/entity/community.rs:215-249 | in every detection on every document, of any size, whose relationships form a certain triangle: every local phase is cut off by the limit of ten sweeps, none of which leaves the labels alone |
| Louvain.CalculateModularity | src/entity/community.rs:333-361 | the internal weight share minus the per-node penalty, zero for an edgeless graph |
| Louvain.LouvainAssignment | src/entity/community.rs:196-267 | the whole run: local phases from singletons, stopping exactly at the first iteration that does not improve or at the limit; improving iterations times minimum gain stay below 2; labels stay connected |
| Louvain.LabelStaysConnected | src/entity/community.rs:224-247 | adopting a neighbour's label keeps every node connected to its label |
| Louvain.SameLabelIsConnected | src/entity/community.rs:224-247 | any two nodes with one label are connected |
| Louvain.GroupNodes | src/entity/community.rs:269-281 | one group per label in use, holding its nodes in ascending order; together every node exactly once |
| Louvain.GroupsPartition | src/entity/community.rs:269-281 | the groups together hold every node exactly once |
| Louvain.BuiltGraphIsRegular | src/entity/community.rs:133-186 | the built graph is symmetric, with degrees and total that agree, as the optimiser needs |
| Louvain.LouvainPartitions | src/entity/community.rs:196-282 | the groups partition the nodes, and two nodes of a group are joined by a chain of relationships |
| Louvain.EachNodeOnce | src/entity/community.rs:84-104 | naming every node once names every entity as often as it occurs |
| Louvain.DetectCommunities | src/entity/community.rs:60-105 | the groups of a finished run by name; together the members are the entities as a multiset; no group spans two components |
| Sections.ExtractTextSections | src/ingest/chunker_sections.rs:78-102 | an order-preserving greedy packing of the non-blank paragraphs, with no more sections than any other packing |
| Sections.FirstGroupIsLongest | src/ingest/chunker_sections.rs:84-96 | no packing puts more paragraphs into its first section |
| Sections.GreedyIsOptimal | src/ingest/chunker_sections.rs:78-102 | a greedy packing has the fewest sections |
| Sections.PackingKeepsText | src/ingest/chunker_sections.rs:78-102 | any packing shows the visible characters of the text, in order |
| Sections.SplitExactly | src/ingest/chunker_sections.rs:78-79 | joined by blank lines the pieces are the text; none holds a blank line, and none before a separator ends with a line break |
| Sections.NonBlankOneMore | src/ingest/chunker_sections.rs:84-88 | the paragraphs are the pieces that are not blank, trimmed, in order |
| Semantic.SplitSentences | src/ingest/chunker_semantic.rs:167-216 | the sentences of the scan; the final fallback is never taken |
| Semantic.SentencesKeepText | src/ingest/chunker_semantic.rs:167-216 | sentences lose, repeat and move no visible character |
| Semantic.SentencesEndWell | src/ingest/chunker_semantic.rs:178-209 | every sentence is non-blank, and all but the last end with a terminator |
| Semantic.NextSentence | src/ingest/chunker_semantic.rs:178-209 | a sentence is cut at the first terminator that no abbreviation ends in and that the text's end, or white space and then an end, an upper-case letter or a quotation mark follow; the next starts after that white space |
| Semantic.LastSentence | src/ingest/chunker_semantic.rs:205-209 | what no such place follows is the last sentence, unless it is blank |
| Semantic.SentencesEndThere | src/ingest/chunker_semantic.rs:178-209 | every sentence but the last ends at such a place |
| Semantic.SentencesOfBoth | src/ingest/chunker_semantic.rs:178-209 | a text that ends in a terminator and in no abbreviation, a space, and a text that begins with an upper-case letter or a quotation mark have the sentences of the one and then of the other |
| Semantic.FindBreakpoints | src/ingest/chunker_semantic.rs:256-300 | ascending and distinct: the positions at or below the percentile, and the forced ones without a breakpoint nearby |
| Semantic.PercentileIndexExactly | src/ingest/chunker_semantic.rs:269-270 | the threshold is at the least place no lower than the percentile of the number of similarities |
| Semantic.WithForcedCovers | src/ingest/chunker_semantic.rs:280-295 | every multiple of the forced interval has a breakpoint within distance 2 |
| Semantic.BreakpointsCover | src/ingest/chunker_semantic.rs:256-300 | there is a breakpoint, all are in range, and the forced intervals are covered |
| Semantic.BreakpointSpacing | src/ingest/chunker_semantic.rs:256-300 | for a maximum of at least 4, neighbouring breakpoints are at most the maximum plus one apart, and the tail holds at most the maximum |
| Semantic.StretchesAlmostFit | src/ingest/chunker_semantic.rs:256-351 | before re-splitting, every stretch of sentences exceeds the maximum by at most one, the last by none |
| Semantic.GroupSentencesAtBreaks | src/ingest/chunker_semantic.rs:306-353 | the groups between the breaks: consecutive, non-empty, none above the maximum, and together the sentences |
| Semantic.GroupsKeepSentences | src/ingest/chunker_semantic.rs:306-374 | for any breaks the groups are the sentences in order, none empty and none above the maximum |
| Semantic.GroupsBreakAt | src/ingest/chunker_semantic.rs:306-353 | there is a boundary between groups at every break |
| Semantic.GroupsEndAtBreaks | src/ingest/chunker_semantic.rs:306-374 | a group that is not full ends at a break or at the end |
| Semantic.PushBounded | src/ingest/chunker_semantic.rs:334-339 | a stretch taken at most the maximum at a time |
| Semantic.BoundedGroups | src/ingest/chunker_semantic.rs:359-374 | bounded groups are non-empty, within the maximum and make up the stretch |
| Semantic.SplitIntoMaxSentences | src/ingest/chunker_semantic.rs:359-374 | the bounded groups; one empty group for no sentences |
| Semantic.SplitWithOverlap | src/ingest/chunker_semantic.rs:379-398 | the non-blank ones of the overlapping windows |
| Semantic.WindowsReconstruct | src/ingest/chunker_semantic.rs:379-398 | consecutive windows share the overlap, none exceeds its size, and dropping the shared parts gives the text back |
| Semantic.WindowCount | src/ingest/chunker_semantic.rs:385-395 | the number of windows is one plus the ceiling of the rest over the step |
| Semantic.OverlappingWindows | src/ingest/chunker_semantic.rs:379-398 | both, from the start of any text, for any window and overlap |
| Semantic.DropBlankKeeps | src/ingest/chunker_semantic.rs:387-390 | only windows without a visible character are dropped |
| Semantic.ChunksFit | src/ingest/chunker_semantic.rs:379-398 | no window exceeds its size |
| Semantic.ChunkGroups | src/ingest/chunker_semantic.rs:108-123 | a group that fits stays one chunk, a larger one becomes windows |
| Semantic.ChunksKeepText | src/ingest/chunker_semantic.rs:108-123 | groups that fit lose no visible character |
| Semantic.SemanticSplit | src/ingest/chunker_semantic.rs:57-126 | the four early returns, for any limit of sentences; the embedder's failure; and otherwise the chunks of the groups at the breakpoints |
| Semantic.WindowsSlide | src/ingest/chunker_semantic.rs:227-236 | from more than three sentences, one text to embed for each three neighbours |
| Semantic.KeepOneMore | src/ingest/chunker_semantic.rs:132-161 | filtering keeps exactly the sentences that pass, in order |
| Semantic.SplitKeepsText | src/ingest/chunker_semantic.rs:57-126 | past the early returns: groups within the sentence limit, chunks within the size limit, and without filtering no visible character lost |
| Semantic.SplitFitsExactly | src/ingest/chunker_semantic.rs:57-126 | all chunks are within the size limit if and only if the splitter does not return early or the text it then returns whole is |
| Semantic.WindowsShowText | src/ingest/chunker_semantic.rs:379-398 | the visible text is a subsequence of that of its kept windows |
| Semantic.SplitShowsKept | src/ingest/chunker_semantic.rs:57-126 | on every way through the splitter, groups cut into windows included, the kept sentences' visible text is a subsequence of the chunks'; without filtering they show the whole text |
| Semantic.SplitIsNotBlank | src/ingest/chunker_semantic.rs:57-126 | no chunk of a text that is not blank is blank |
| Chunker.FindSections | src/ingest/chunker.rs:41-44 | markup by its parser, plain text packed greedily |
| Chunker.SplitOversized | src/ingest/chunker.rs:105-123 | the pieces show all visible text in order unless sentences are filtered, and none is blank unless the text is; fixed windows within the size; failure only where the semantic splitter's embedding fails |
| Chunker.CutSection | src/ingest/chunker.rs:54-88 | the same for a section of any size, once trimmed and cleaned |
| Chunker.AppendPieces | src/ingest/chunker.rs:80-87 | pieces numbered on under their section's title |
| Chunker.ChunkSections | src/ingest/chunker.rs:51-89 | the pieces of all sections in order, numbered through; failure only when an embedding fails |
| Chunker.ChunkDocument | src/ingest/chunker.rs:32-99 | the pieces of all sections in order, or the first characters of a document with text but no chunk; within the size exactly when every section allows it; failure only when an embedding fails |
| Chunker.ChunksAreNumberedAndFit | src/ingest/chunker.rs:51-99 | numbered from zero without gaps, at least one for a document with text; all within the size, for either strategy, if and only if no oversized section makes the semantic splitter return a longer text early |
| Chunker.LongSentenceExceeds | src/ingest/chunker_semantic.rs:66-69 | a Markdown section of more than 4000 letters without a terminator becomes a chunk beyond the limit |
| Chunker.PlainTextIsKept | src/ingest/chunker.rs:32-99 | without filtering, the visible text of a plain document of any size is a subsequence of that of its chunks, and equal to it when no section exceeds the window |
| Chunker.DocumentIsShown | src/ingest/chunker.rs:32-99 | for markup too, and with cleaning under fixed windows: the visible text of the cleaned sections is a subsequence of that of the chunks |
| Chunker.ChunksAreTitled | src/ingest/chunker.rs:78-88 | every chunk is a piece of a section under that section's title |
| Chunker.FallbackIsPrefix | src/ingest/chunker.rs:90-99 | without a piece, a document with text becomes one untitled chunk of its first characters, as many as the size allows |
| Chunker.FittingSectionIsOnePiece | src/ingest/chunker.rs:54-74 | a section within the size is one piece, trimmed and cleaned of boilerplate if asked, or none when that leaves nothing |
| Chunker.FixedPiecesReconstruct | src/ingest/chunker.rs:75-123 | with fixed windows a section that is too large comes back from its windows by dropping the overlaps; the pieces are the windows but blank ones |
| Fusion.Rank | src/retrieve/fusion.rs:40-46 | an exact top-k: distinct ids, descending scores, no omitted id above a kept one |
| Fusion.RrfWithK | src/retrieve/fusion.rs:18-47 | for every k that makes no rank occurring divide by zero: the top-k of the sums of 1/(k+rank) over all occurrences, each with the data of its first occurrence |
| Fusion.ReciprocalRankFusion | src/retrieve/fusion.rs:14-16 | the same with k = 60 |
| Fusion.ShareIsInverse | src/retrieve/fusion.rs:24-25 | a share times k plus the rank, counted from one, is one |
| Fusion.BranchScoreOneMore | src/retrieve/fusion.rs:22-30 | each occurrence in a branch adds its share, the first like any other |
| Fusion.BranchOrderIsIrrelevant | src/retrieve/fusion.rs:22-30 | scores do not depend on the order of the branches |
| Fusion.BetterRanksScoreNoLower | src/retrieve/fusion.rs:22-30 | for k above -1, a chunk ranked at least as well in every branch never scores lower |
| Fusion.SharesFallExactly | src/retrieve/fusion.rs:24-25 | shares fall with the rank if and only if k is above -1 |
| Fusion.MergeByMax | src/store/sqlite/mod.rs:474-484 | each id once, the first chunk met, at the greatest score met |
| Fusion.SearchSparse | src/store/postgres/search.rs:192-222 | the top-k of the merged branches |
| Embeddings.CosineSimilarity | src/store/sqlite/embeddings.rs:53-79 | the dimension error, zero for a zero vector, otherwise the cosine, within [-1, 1] |
| Embeddings.CauchySchwarz | src/store/sqlite/embeddings.rs:62-72 | the squared dot product never exceeds the product of the squared norms |
| Embeddings.CosineLaws | src/store/sqlite/embeddings.rs:53-79 | symmetric, and 1 for a non-zero vector with itself |
| Embeddings.CosineExactly | src/store/sqlite/embeddings.rs:53-79 | zero for a zero vector, and otherwise the cosine times both lengths is the product of the vectors |
| Embeddings.DotOfUnit | src/store/sqlite/embeddings.rs:62-72 | the product with a unit vector is the coordinate there |
| Embeddings.DotIsLinear | src/store/sqlite/embeddings.rs:62-72 | and the product is linear |
| Embeddings.BytesInOrder | src/store/sqlite/embeddings.rs:11-19 | four bytes for each value in turn, the lowest first |
| Embeddings.DecodeUndoesEncode | src/store/sqlite/embeddings.rs:11-33 | decoding an encoded vector gives it back |
| Embeddings.EncodeUndoesDecode | src/store/sqlite/embeddings.rs:21-33 | a blob that decodes is the encoding of what it decodes to |
| LikePatterns.ThreePassesAreOne | src/store/sqlite/text_util.rs:30-35 | three replacements in this order escape each special character once |
| LikePatterns.EscapedMatchesLiterally | src/store/sqlite/text_util.rs:30-35 | an escaped query matches itself and nothing else |
| LikePatterns.PatternMeansContains | src/store/sqlite/mod.rs:121-140 | the candidate pattern matches exactly the strings that contain the query, up to case folding |
| Trigrams.BuildTrigramMultiset | src/store/sqlite/text_util.rs:78-88 | the counts are those of the bag of trigrams |
| Trigrams.SharedCount | src/store/sqlite/text_util.rs:64-68 | the loop counts the intersection of the two bags, for any map order |
| Trigrams.TrigramSimilarity | src/store/sqlite/text_util.rs:41-73 | the short cuts for empty, equal and short strings, otherwise the Sorensen-Dice coefficient of the bags |
| Trigrams.SimilarityLaws | src/store/sqlite/text_util.rs:41-73 | within [0, 1], symmetric; from three characters on, 1 exactly for equal bags and 0 exactly for disjoint ones |
| Trigrams.BagCounts | src/store/sqlite/text_util.rs:78-88 | the bag holds each string of three characters as often as the string shows it |
| Trigrams.DiceIsTwiceShared | src/store/sqlite/text_util.rs:58-73 | from three characters on, the score times the number of all trigrams is twice that of the shared ones |
| Trigrams.ShortStringsMatchInside | src/store/sqlite/text_util.rs:45-57 | below three characters, 1 exactly when one string is inside the other and neither is empty, otherwise 0 |
| Trigrams.FullScoreDoesNotMeanEqual | src/store/sqlite/text_util.rs:41-73 | two different strings with a score of 1 |
| Directory.AggregateResults | src/ingest/directory.rs:108-134 | for every completion order, the output of sequential processing |
| Directory.OrderIsRestored | src/ingest/directory.rs:121-121 | sorting by index restores discovery order, and panics are neither lost nor invented |
| Directory.TallyIsSequential | src/ingest/directory.rs:111-134 | counting panics first and results afterwards gives what counting in file order gives |
| Directory.SequentialCounts | src/ingest/directory.rs:209-242 | each counter is the number of files with that outcome; all others, and the failures before, count as failed |
| Directory.SequentialLists | src/ingest/directory.rs:209-242 | every file whose ingestion did not panic is listed with its status, in discovery order |
| Directory.DeleteOrphanedDocuments | src/ingest/directory.rs:249-296 | the statuses appended are those of the stored documents under the directory that were not discovered and were there to delete, each once and in order; the deletions that succeeded are counted, the others failed |
| Directory.OrphansAreReported | src/ingest/directory.rs:249-296 | the statuses that sequential deletion appends are those of the orphans that were there to delete, each once and in order |
| Directory.OrphansAreCounted | src/ingest/directory.rs:249-296 | successful deletions count as deleted, the other reported ones as failed, and nothing else is counted |
| Directory.OrphanLiesUnder | src/ingest/directory.rs:257-270 | an orphan's path is the directory, a slash and a rest, and is none of the files found, whichever way the slashes lean |
| Directory.SequentialAddsUp | src/ingest/directory.rs:209-242 | counters add up to the listed documents and the failures that list none |
| Directory.OrphansAddUp | src/ingest/directory.rs:249-296 | orphan deletion keeps that balance |
| Directory.IngestDirectory | src/ingest/directory.rs:31-147 | both together, for every schedule |

## Left out

- Floating point: f32 and f64 are `real`, so rounding, overflow and NaN are not captured; `sqrt` and `ceil` are exact. Weights read from the database as REAL likewise.
- Unicode lower-casing, upper-case tests and case folding are parameters of the functions that use them.
- Markdown, PDF, DOCX, CSV and HTML parsing: `extract_markdown_sections` is a parameter, any function from text to titled bodies.
- Embedding, reranking, extraction and summary clients: their answers are arbitrary inputs. The boilerplate filters (`src/ingest/chunker_semantic.rs:132-161`, `src/ingest/chunker.rs:158-192`) are parameters too, lists of patterns rather than logic.
- `SqliteBackend` models the SQLite transactions only. The PostgreSQL ones differ in statements; the one that decomposes its work differently, the prune, is `Backends.PruneOrphansPostgres`. They differ in effect for an entity without a vector, for which SQLite stores NULL and PostgreSQL binds an empty vector (`src/store/postgres/entity_graph.rs:45-69`); that, and that PostgreSQL moves embeddings out of the graph it is given, is not modelled.
- Row ids are a counter instead of random UUIDs; timestamps, tags, projects and multi-row batch sizes are left out.
- What the document filters let through is any set of chunks, and ties in `ORDER BY` fall in any order. The empty answer for an empty seed list needs no query. Rows are sets, since duplicate rows do not change a maximum. `COALESCE(weight, 1.0)` has no effect on a column that is NOT NULL.
- GraphParity.EntityParity: is about walks that do not start at the entity; SQLite also returns to its own seeds, and what that adds is stated in GraphParity.ReturnedChunks and GraphParity.ChunkScoresAreExact.
- Retrieval.BackendsRankAlike: at the configured depth 3 covers weights at most sqrt(12); that this is all it can cover is Retrieval.WeightsSufficeExactly.
- FTS5 and bm25, pgvector and pg_trgm scoring, and `build_fts5_query`: inside the databases, or one expression.
- Semantic.GroupSentencesAtBreaks: needs a maximum of at least one, because with zero the source never advances (`src/ingest/chunker_semantic.rs:335-339`); the splitter needs one only past its early returns, and the chunker asks for one throughout.
- Semantic.SplitKeepsText: is about the chunks past the early returns; what the early returns give is in Semantic.SplitShowsKept and Semantic.SplitFitsExactly.
- Chunker.PlainTextIsKept: is a subsequence, not an equality, where a section exceeds the window, because overlapping windows show what they share twice; the removal of boilerplate sentences is excluded, since what it removes is a parameter.
- Directory.IngestDirectory: one file's ingestion and one deletion are arbitrary outcomes; the glob, permits and tasks are represented by the multiset of their completions. Deletion errors end up in the output; an error listing the stored documents aborts the source and is not modelled.
- Pipeline.IngestionLeavesEvidence: is about chunks and graph of one ingestion with nothing between; what writes between them do to the evidence is in Pipeline.IngestionLeavesTexts and Pipeline.InterleavingMisleads.
- Louvain: detected communities get no names or importance; ties between equal gains and the order of hash maps are arbitrary choices, so everything holds for each of them.
- Communities: importance, `entity_count`, creation times and the order of the local tier are left out, and the query's similarity is any partial function of an embedding. `list_communities` reads without choosing.
- Fusion.RrfWithK: leaves out a k for which the divisor of a rank that occurs is zero; the source's share is then infinite, which no real number is.
- Sorting is any sort that orders its elements; that `sort_by` is stable is not used.
- Memory, sessions, query routing, MCP, HTTP, configuration, URL fetching and path validation: plumbing or input checks without a property of this kind.
