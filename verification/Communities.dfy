/**
 * Stored communities, and the two-tier community search. The ids of communities come from
 * the same supply as those of chunks and entities.
 */
module Communities {
  import opened Wrappers
  import opened Tables
  import opened Sorting
  import opened EntityModel
  import opened EntityStore
  import opened GraphParity
  import GraphBuild
  import GraphWalk
  import Fusion
  import Louvain
  import Retrieval
  import SparseGraphs

  type CommunityId = nat

  datatype Community = Community(name: string, summary: Option<string>, project: Option<string>, embedding: Option<seq<real>>)

  /** A detected community with its summary; its members are normalised names. */
  datatype Detected = Detected(name: string, summary: Option<string>, embedding: Option<seq<real>>, members: seq<string>)

  datatype Store = Store(db: Db, communities: map<CommunityId, Community>, members: set<(CommunityId, EntityId)>)

  const EmptyStore := Store(EmptyDb, map[], {})

  const GLOBAL_TIER_SIZE: nat := 5

  // --------------------------------------------------------------- Transactions

  /** The entities with one of the names, of whatever type; names that are not stored are skipped. */
  function Resolved(db: Db, names: seq<string>): set<EntityId> {
    set e | e in db.entities && db.entities[e].key.name in names
  }

  function SaveOne(s: Store, project: Option<string>, c: Detected): Result<Store, DbError> {
    if c.embedding.Some? && |c.embedding.value| != EMBEDDING_DIMENSIONS then Err(Check)
    else
      var id := s.db.nextId;
      Ok(Store(s.db.(nextId := id + 1),
               s.communities[id := Community(c.name, c.summary, project, c.embedding)],
               s.members + set e | e in Resolved(s.db, c.members) :: (id, e)))
  }

  function SaveCommunities(s: Store, project: Option<string>, cs: seq<Detected>): Result<Store, DbError> {
    if cs == [] then Ok(s)
    else
      match SaveCommunities(s, project, cs[..|cs| - 1])
      case Err(e) => Err(e)
      case Ok(before) => SaveOne(before, project, cs[|cs| - 1])
  }

  /** ON DELETE CASCADE takes the members of the deleted communities along. */
  function DeleteProjectCommunities(s: Store, project: Option<string>): Store {
    var kept := map k | k in s.communities && s.communities[k].project != project :: s.communities[k];
    s.(communities := kept, members := set m | m in s.members && m.0 in kept)
  }

  datatype StoreOperation =
    | Ingest(op: Operation)
    | Save(project: Option<string>, communities: seq<Detected>)
    | Forget(project: Option<string>)

  /** An entity that goes takes its memberships along. */
  ghost function StoreStep(s: Store, op: StoreOperation): Store {
    match op
    case Ingest(op) =>
      var after := Step(s.db, op);
      s.(db := after, members := set m | m in s.members && m.1 in after.entities)
    case Save(project, communities) =>
      (match SaveCommunities(s, project, communities) case Ok(after) => after case Err(_) => s)
    case Forget(project) => DeleteProjectCommunities(s, project)
  }

  ghost function StoreRun(ops: seq<StoreOperation>): Store {
    if ops == [] then EmptyStore else StoreStep(StoreRun(ops[..|ops| - 1]), ops[|ops| - 1])
  }

  // ------------------------------------------------------------------ Invariant

  /** Memberships join stored communities and entities, and no id serves two tables. */
  predicate StoreInvariant(s: Store) {
    && Invariant(s.db)
    && (forall k :: k in s.communities ==> k < s.db.nextId)
    && (forall m :: m in s.members ==> m.0 in s.communities && m.1 in s.db.entities)
    && s.db.chunks.Keys !! s.db.entities.Keys
    && s.db.chunks.Keys !! s.communities.Keys
  }

  ghost predicate IsBuilt(op: StoreOperation) {
    op.Ingest? && op.op.StoreGraph? ==> GraphBuild.Canonical(op.op.graph)
  }

  lemma {:induction false} LaterIdsAreFree(db: Db)
    requires Invariant(db)
    ensures Invariant(db.(nextId := db.nextId + 1))
  {
    SoundnessLasts(db, db.(nextId := db.nextId + 1));
  }

  lemma {:induction false} SaveOneKeeps(s: Store, project: Option<string>, c: Detected)
    requires StoreInvariant(s) && SaveOne(s, project, c).Ok?
    ensures StoreInvariant(SaveOne(s, project, c).value)
  {
    LaterIdsAreFree(s.db);
  }

  lemma {:induction false} SaveKeeps(s: Store, project: Option<string>, cs: seq<Detected>)
    requires StoreInvariant(s)
    ensures SaveCommunities(s, project, cs).Ok? ==> StoreInvariant(SaveCommunities(s, project, cs).value)
  {
    if cs != [] && SaveCommunities(s, project, cs).Ok? {
      SaveKeeps(s, project, cs[..|cs| - 1]);
      SaveOneKeeps(SaveCommunities(s, project, cs[..|cs| - 1]).value, project, cs[|cs| - 1]);
    }
  }

  lemma {:induction false} IngestKeeps(s: Store, op: Operation)
    requires StoreInvariant(s) && (op.StoreGraph? ==> GraphBuild.Canonical(op.graph))
    ensures StoreInvariant(StoreStep(s, Ingest(op)))
  {
    var after := Step(s.db, op);
    StepKeeps(s.db, op);
    StepAddsFreshIds(s.db, op);
    assert IdsAreUsed(s.db);
    forall c | c in after.chunks ensures c !in after.entities && c !in s.communities {
      assert c in s.db.chunks || c >= s.db.nextId;
      FreshIdsDiffer(s.db, after, c);
    }
  }

  lemma {:induction false} FreshIdsDiffer(db: Db, after: Db, id: nat)
    requires IdsAreUsed(db) && AddsFreshIds(db, after) && db.chunks.Keys !! db.entities.Keys
    ensures !(id in after.chunks && id in after.entities)
  {
    if after.chunks.Keys <= db.chunks.Keys {
      assert id in after.chunks ==> id in after.chunks.Keys;
    } else {
      assert id in after.entities ==> id in after.entities.Keys;
    }
  }

  /** Whatever is ingested, deleted, saved and forgotten, in any order: no community or entity has the id of a chunk. */
  lemma {:induction false} ReachableStoresAreSound(ops: seq<StoreOperation>)
    requires forall i :: 0 <= i < |ops| ==> IsBuilt(ops[i])
    ensures StoreInvariant(StoreRun(ops))
  {
    if ops != [] {
      var n := |ops| - 1;
      var before := StoreRun(ops[..n]);
      ReachableStoresAreSound(ops[..n]);
      assert IsBuilt(ops[n]);
      match ops[n] {
        case Ingest(op) => IngestKeeps(before, op);
        case Save(project, communities) => SaveKeeps(before, project, communities);
        case Forget(project) =>
      }
    }
  }

  // ------------------------------------------------------- What saving leaves behind

  /** New ids in order, each with its name, summary, project and embedding, and as members the stored entities of its names; all else as it was. */
  ghost predicate IsSaving(s: Store, project: Option<string>, cs: seq<Detected>, after: Store) {
    && after.db == s.db.(nextId := s.db.nextId + |cs|)
    && AddsCommunities(s, project, cs, after.communities) && AddsMembers(s, cs, after.members)
  }

  ghost predicate AddsCommunities(s: Store, project: Option<string>, cs: seq<Detected>, communities: map<CommunityId, Community>) {
    var start := s.db.nextId;
    && (forall k :: k in communities <==> k in s.communities || start <= k < start + |cs|)
    && (forall k :: k in s.communities ==> communities[k] == s.communities[k])
    && (forall k: nat :: start <= k < start + |cs| ==>
          communities[k] == Community(cs[k - start].name, cs[k - start].summary, project, cs[k - start].embedding))
  }

  ghost predicate AddsMembers(s: Store, cs: seq<Detected>, members: set<(CommunityId, EntityId)>) {
    forall m: (CommunityId, EntityId) :: m in members <==> m in s.members || IsNewMember(s, cs, m)
  }

  /** The community is one of the new ones, and the entity one with a name among its members. */
  predicate IsNewMember(s: Store, cs: seq<Detected>, m: (CommunityId, EntityId)) {
    var start := s.db.nextId;
    start <= m.0 < start + |cs| && m.1 in s.db.entities && s.db.entities[m.1].key.name in cs[m.0 - start].members
  }

  lemma {:induction false} SaveCommunitiesOutcome(s: Store, project: Option<string>, cs: seq<Detected>)
    requires StoreInvariant(s) && SaveCommunities(s, project, cs).Ok?
    ensures IsSaving(s, project, cs, SaveCommunities(s, project, cs).value)
  {
    if cs != [] {
      var n := |cs| - 1;
      SaveCommunitiesOutcome(s, project, cs[..n]);
      SavesOneMore(s, project, cs, SaveCommunities(s, project, cs[..n]).value, SaveCommunities(s, project, cs).value);
    }
  }

  lemma {:induction false} SavesOneMore(s: Store, project: Option<string>, cs: seq<Detected>, before: Store, after: Store)
    requires StoreInvariant(s) && cs != [] && IsSaving(s, project, cs[..|cs| - 1], before)
    requires SaveOne(before, project, cs[|cs| - 1]) == Ok(after)
    ensures IsSaving(s, project, cs, after)
  {
    CommunitiesOneMore(s, project, cs, before.communities);
    MembersOneMore(s, project, cs, before, after);
  }

  lemma {:induction false} CommunitiesOneMore(s: Store, project: Option<string>, cs: seq<Detected>, communities: map<CommunityId, Community>)
    requires StoreInvariant(s) && cs != [] && AddsCommunities(s, project, cs[..|cs| - 1], communities)
    ensures var c := cs[|cs| - 1];
            AddsCommunities(s, project, cs, communities[s.db.nextId + |cs| - 1 := Community(c.name, c.summary, project, c.embedding)])
  {
    var n, start := |cs| - 1, s.db.nextId;
    var c := cs[n];
    var longer := communities[start + n := Community(c.name, c.summary, project, c.embedding)];
    forall k: nat | start <= k < start + |cs|
      ensures longer[k] == Community(cs[k - start].name, cs[k - start].summary, project, cs[k - start].embedding)
    {
      if k < start + n {
        assert cs[..n][k - start] == cs[k - start];
      }
    }
  }

  lemma {:induction false} MembersOneMore(s: Store, project: Option<string>, cs: seq<Detected>, before: Store, after: Store)
    requires cs != [] && AddsMembers(s, cs[..|cs| - 1], before.members) && before.db == s.db.(nextId := s.db.nextId + |cs| - 1)
    requires SaveOne(before, project, cs[|cs| - 1]) == Ok(after)
    ensures AddsMembers(s, cs, after.members)
  {
    var n, start := |cs| - 1, s.db.nextId;
    forall m: (CommunityId, EntityId) ensures m in after.members <==> m in s.members || IsNewMember(s, cs, m) {
      assert m in after.members <==> m in before.members || (m.0 == start + n && m.1 in Resolved(s.db, cs[n].members));
      if start <= m.0 < start + n {
        assert cs[..n][m.0 - start] == cs[m.0 - start];
      }
      assert IsNewMember(s, cs, m) <==> IsNewMember(s, cs[..n], m) || (m.0 == start + n && m.1 in Resolved(s.db, cs[n].members));
    }
  }

  /** The project's communities are gone with their members, and no others; with no project, the communities without one. */
  ghost predicate IsForgetting(s: Store, project: Option<string>, after: Store) {
    && after.db == s.db
    && (forall k :: k in after.communities <==> k in s.communities && s.communities[k].project != project)
    && (forall k :: k in after.communities ==> after.communities[k] == s.communities[k])
    && (forall m :: m in after.members <==> m in s.members && m.0 in after.communities)
  }

  lemma {:induction false} DeleteProjectCommunitiesOutcome(s: Store, project: Option<string>)
    ensures IsForgetting(s, project, DeleteProjectCommunities(s, project))
  {
  }

  /** With each document transaction, the memberships of the entities that it prunes go, and nothing else of the communities. */
  lemma {:induction false} IngestOutcome(s: Store, op: Operation)
    ensures var after := StoreStep(s, Ingest(op));
            && after.db == Step(s.db, op) && after.communities == s.communities
            && forall m :: m in after.members <==> m in s.members && m.1 in after.db.entities
  {
  }

  // --------------------------------------------------------------------- Search

  predicate InScope(c: Community, project: Option<string>) {
    c.project.None? || c.project == project
  }

  /** The communities in scope with one of the ids among their members. */
  function CommunitiesFor(s: Store, project: Option<string>, ids: set<EntityId>): set<CommunityId> {
    set m | m in s.members && m.1 in ids && m.0 in s.communities && InScope(s.communities[m.0], project) :: m.0
  }

  /** The communities in scope with an embedding comparable to the query's; `similarity` is to the query. */
  function Comparable(s: Store, project: Option<string>, similarity: seq<real> -> Option<real>): set<CommunityId> {
    set k | k in s.communities && InScope(s.communities[k], project)
            && s.communities[k].embedding.Some? && similarity(s.communities[k].embedding.value).Some?
  }

  function SimilarityOf(s: Store, similarity: seq<real> -> Option<real>, k: CommunityId): real {
    if k in s.communities && s.communities[k].embedding.Some? && similarity(s.communities[k].embedding.value).Some?
    then similarity(s.communities[k].embedding.value).value
    else 0.0
  }

  ghost predicate IsGlobalTier(s: Store, project: Option<string>, similarity: seq<real> -> Option<real>, nearest: seq<CommunityId>) {
    Fusion.IsTopK(Comparable(s, project, similarity), (k: CommunityId) => SimilarityOf(s, similarity, k), GLOBAL_TIER_SIZE, nearest)
  }

  /** The global tier: five communities in scope with a comparable embedding, or all if there are fewer; the most similar, best first. */
  lemma {:induction false} GlobalTierIsNearest(s: Store, project: Option<string>, similarity: seq<real> -> Option<real>, nearest: seq<CommunityId>, k: CommunityId)
    requires IsGlobalTier(s, project, similarity, nearest)
    requires k in s.communities && (s.communities[k].project.None? || s.communities[k].project == project)
    requires s.communities[k].embedding.Some? && similarity(s.communities[k].embedding.value).Some?
    ensures k in nearest || |nearest| == 5
    ensures forall i :: 0 <= i < |nearest| ==>
              && nearest[i] in s.communities && s.communities[nearest[i]].embedding.Some?
              && similarity(s.communities[nearest[i]].embedding.value).Some?
              && (k !in nearest ==>
                    similarity(s.communities[k].embedding.value).value <= similarity(s.communities[nearest[i]].embedding.value).value)
  {
    var all := Comparable(s, project, similarity);
    assert k in all;
    if k !in nearest && |nearest| != 5 {
      AllAreRanked(all, nearest, k);
    }
    forall i | 0 <= i < |nearest| ensures nearest[i] in all {
    }
  }

  lemma {:induction false} AllAreRanked(all: set<CommunityId>, ranked: seq<CommunityId>, k: CommunityId)
    requires |ranked| == |all| && k in all && Distinct(ranked) && forall i :: 0 <= i < |ranked| ==> ranked[i] in all
    ensures k in ranked
  {
    if k !in ranked {
      DistinctFit(ranked, all - {k});
    }
  }

  lemma {:induction false} DistinctFit(ranked: seq<CommunityId>, all: set<CommunityId>)
    requires Distinct(ranked) && forall i :: 0 <= i < |ranked| ==> ranked[i] in all
    ensures |ranked| <= |all|
  {
    if ranked != [] {
      var n := |ranked| - 1;
      DistinctFit(ranked[..n], all - {ranked[n]});
    }
  }

  /** The ids that the search hands to the graph search: the local tier is asked with the ids of the seed chunks. */
  function HandedOn(s: Store, project: Option<string>, seedChunks: set<ChunkId>, nearest: seq<CommunityId>): set<CommunityId> {
    CommunitiesFor(s, project, seedChunks) + set k | k in nearest
  }

  /** The chunks that the search finds on either backend, before filters and limit. */
  function FoundOnSqlite(s: Store, ids: set<nat>, depth: nat): set<ChunkId> {
    set c | c in s.db.chunks && SqliteChunkScores(s.db.relationships, s.db.mentions, ids, depth, c) != {}
  }

  function FoundOnPostgres(s: Store, ids: set<nat>, depth: nat): set<ChunkId> {
    set c | c in s.db.chunks && PostgresChunkScores(s.db.relationships, s.db.mentions, ids, depth, c) != {}
  }

  /** On either backend the graph search finds the chunks that a walk leads to from an entity mentioned by one of the ids, and no others. */
  lemma {:induction false} FoundExactly(s: Store, ids: set<nat>, depth: nat, c: ChunkId)
    ensures c in FoundOnSqlite(s, ids, depth) <==>
            c in s.db.chunks && c !in ids && exists x, e, walk :: LeadsTo(s.db.relationships, s.db.mentions, ids, depth, c, x, e, walk)
    ensures c in FoundOnPostgres(s, ids, depth) <==>
            c in s.db.chunks && c !in ids && exists x, e, walk ::
              LeadsTo(s.db.relationships, s.db.mentions, ids, depth, c, x, e, walk) && GraphWalk.Simple(s.db.relationships, e, walk)
  {
    FoundOnSqliteExactly(s, ids, depth, c);
    FoundOnPostgresExactly(s, ids, depth, c);
  }

  lemma {:induction false} FoundOnSqliteExactly(s: Store, ids: set<nat>, depth: nat, c: ChunkId)
    ensures c in FoundOnSqlite(s, ids, depth) <==>
            c in s.db.chunks && c !in ids && exists x, e, walk :: LeadsTo(s.db.relationships, s.db.mentions, ids, depth, c, x, e, walk)
  {
    var g, mentions := s.db.relationships, s.db.mentions;
    if c in FoundOnSqlite(s, ids, depth) {
      var score :| score in SqliteChunkScores(g, mentions, ids, depth, c);
      SqliteChunkScoresAreWalks(g, mentions, ids, depth, c, score);
    }
    forall x, e, walk | c in s.db.chunks && c !in ids && LeadsTo(g, mentions, ids, depth, c, x, e, walk) ensures c in FoundOnSqlite(s, ids, depth) {
      GraphWalk.WalkIsKnown(g, e, walk);
      SqliteChunkScoresAreWalks(g, mentions, ids, depth, c, GraphWalk.Score(g, walk));
    }
  }

  lemma {:induction false} FoundOnPostgresExactly(s: Store, ids: set<nat>, depth: nat, c: ChunkId)
    ensures c in FoundOnPostgres(s, ids, depth) <==>
            c in s.db.chunks && c !in ids && exists x, e, walk ::
              LeadsTo(s.db.relationships, s.db.mentions, ids, depth, c, x, e, walk) && GraphWalk.Simple(s.db.relationships, e, walk)
  {
    var g, mentions := s.db.relationships, s.db.mentions;
    if c in FoundOnPostgres(s, ids, depth) {
      var score :| score in PostgresChunkScores(g, mentions, ids, depth, c);
      PostgresChunkScoresAreWalks(g, mentions, ids, depth, c, score);
    }
    forall x, e, walk | c in s.db.chunks && c !in ids && LeadsTo(g, mentions, ids, depth, c, x, e, walk) && GraphWalk.Simple(g, e, walk)
      ensures c in FoundOnPostgres(s, ids, depth)
    {
      GraphWalk.WalkIsKnown(g, e, walk);
      PostgresChunkScoresAreWalks(g, mentions, ids, depth, c, GraphWalk.Score(g, walk));
    }
  }

  /** The communities that the documentation means: of the entities that the seed chunks mention, and the nearest. */
  function Matched(s: Store, project: Option<string>, seedChunks: set<ChunkId>, nearest: seq<CommunityId>): set<CommunityId> {
    CommunitiesFor(s, project, SeedEntities(s.db.mentions, seedChunks)) + set k | k in nearest
  }

  predicate MentionsMember(s: Store, communities: set<CommunityId>, c: ChunkId) {
    exists m :: m in s.members && m.0 in communities && (c, m.1) in s.db.mentions
  }

  /** The chunks that the documentation promises: those that mention a member of a matched community. */
  function Documented(s: Store, project: Option<string>, seedChunks: set<ChunkId>, nearest: seq<CommunityId>): set<ChunkId> {
    set c | c in s.db.chunks && MentionsMember(s, Matched(s, project, seedChunks, nearest), c)
  }

  /** Asked with ids of chunks, the local tier matches no community. */
  lemma {:induction false} LocalTierMatchesNothing(s: Store, project: Option<string>, seedChunks: set<ChunkId>)
    requires StoreInvariant(s) && seedChunks <= s.db.chunks.Keys
    ensures CommunitiesFor(s, project, seedChunks) == {}
  {
    forall m | m in s.members ensures m.1 !in seedChunks {
      assert m.1 in s.db.entities.Keys;
    }
  }

  /** Whatever the tiers match, what they hand on leads the graph search to nothing. */
  lemma {:induction false} CommunitySearchFindsNothing(s: Store, project: Option<string>, seedChunks: set<ChunkId>,
                                                       similarity: seq<real> -> Option<real>, nearest: seq<CommunityId>, depth: nat)
    requires StoreInvariant(s) && seedChunks <= s.db.chunks.Keys && IsGlobalTier(s, project, similarity, nearest)
    ensures forall k :: k in HandedOn(s, project, seedChunks, nearest) <==> k in nearest
    ensures FoundOnSqlite(s, HandedOn(s, project, seedChunks, nearest), depth) == {}
    ensures FoundOnPostgres(s, HandedOn(s, project, seedChunks, nearest), depth) == {}
  {
    var ids := HandedOn(s, project, seedChunks, nearest);
    LocalTierMatchesNothing(s, project, seedChunks);
    forall k | k in ids ensures k in s.communities.Keys {
      var i :| 0 <= i < |nearest| && nearest[i] == k;
      assert nearest[i] in Comparable(s, project, similarity);
    }
    forall c | c in s.db.chunks
      ensures SqliteChunkScores(s.db.relationships, s.db.mentions, ids, depth, c) == {}
      ensures PostgresChunkScores(s.db.relationships, s.db.mentions, ids, depth, c) == {}
    {
      Retrieval.ForeignSeedsFindNothing(s.db, ids, depth, c);
    }
  }

  /**
   * The community search returns the chunks that its documentation promises if and only
   * if no chunk mentions a member of a matched community, when there are none to return.
   */
  lemma {:induction false} CommunitySearchIsDocumented(s: Store, project: Option<string>, seedChunks: set<ChunkId>,
                                                       similarity: seq<real> -> Option<real>, nearest: seq<CommunityId>, depth: nat)
    requires StoreInvariant(s) && seedChunks <= s.db.chunks.Keys && IsGlobalTier(s, project, similarity, nearest)
    ensures var ids, documented := HandedOn(s, project, seedChunks, nearest), Documented(s, project, seedChunks, nearest);
            FoundOnSqlite(s, ids, depth) == FoundOnPostgres(s, ids, depth) == documented <==>
            forall c :: c in s.db.chunks ==> !MentionsMember(s, Matched(s, project, seedChunks, nearest), c)
  {
    CommunitySearchFindsNothing(s, project, seedChunks, similarity, nearest, depth);
    var documented := Documented(s, project, seedChunks, nearest);
    assert documented == {} <==> forall c :: c in s.db.chunks ==> c !in documented;
  }

  // ------------------------------------------------ What ingestion saves is not found

  const MIN_ENTITIES_FOR_COMMUNITIES: nat := 5

  datatype Summary = Summary(name: string, text: Option<string>, embedding: Option<seq<real>>)

  /** The communities of a finished detection on a document's graph, with their summaries. */
  ghost predicate AreDetected(graph: DocumentGraph, config: Louvain.Config, sparse: SparseGraphs.SparseGraph,
                              history: seq<seq<nat>>, groups: seq<seq<nat>>, detected: seq<Detected>) {
    && Louvain.IsDetection(graph.entities, graph.relationships, config, sparse, history, groups)
    && |detected| == |groups|
    && forall g :: 0 <= g < |groups| ==> detected[g].members == Louvain.Names(graph.entities, groups[g])
  }

  lemma {:induction false} NameIsListed(entities: seq<EntityNode>, nodes: seq<nat>, v: nat)
    requires v in nodes && v < |entities|
    ensures entities[v].key.name in Louvain.Names(entities, nodes)
  {
    var n := |nodes| - 1;
    assert nodes == nodes[..n] + [nodes[n]];
    if v != nodes[n] {
      NameIsListed(entities, nodes[..n], v);
    }
  }

  /** Every entity of the document is a member of a detected community. */
  lemma {:induction false} EveryEntityIsMember(graph: DocumentGraph, config: Louvain.Config, sparse: SparseGraphs.SparseGraph,
                                               history: seq<seq<nat>>, groups: seq<seq<nat>>, detected: seq<Detected>, v: nat) returns (g: nat)
    requires AreDetected(graph, config, sparse, history, groups, detected) && v < |graph.entities|
    ensures g < |detected| && graph.entities[v].key.name in detected[g].members
  {
    var last := history[|history| - 1];
    var labels :| Louvain.AreGroups(last, labels, groups);
    assert last[v] in labels;
    g :| 0 <= g < |labels| && labels[g] == last[v];
    Louvain.MembersCount(last, last[v], |last|, v);
    NameIsListed(graph.entities, groups[g], v);
  }

  lemma {:induction false} MentionedIsMember(graph: DocumentGraph, config: Louvain.Config, sparse: SparseGraphs.SparseGraph,
                                             history: seq<seq<nat>>, groups: seq<seq<nat>>, detected: seq<Detected>, m: EntityMention) returns (g: nat)
    requires AreDetected(graph, config, sparse, history, groups, detected) && GraphBuild.Canonical(graph) && m in graph.mentions
    ensures g < |detected| && m.key.name in detected[g].members
  {
    assert GraphBuild.HasEntity(graph, m.key);
    var v :| 0 <= v < |graph.entities| && graph.entities[v].key == m.key;
    g := EveryEntityIsMember(graph, config, sparse, history, groups, detected, v);
  }

  /** A stored community of the project, or of no project, has entity `e` among its members. */
  ghost predicate IsMember(s: Store, project: Option<string>, e: EntityId) {
    exists k :: k in s.communities && (s.communities[k].project.None? || s.communities[k].project == project) && (k, e) in s.members
  }

  /** A community that is matched belongs to the project, or to none. */
  lemma {:induction false} MatchedIsInScope(s: Store, project: Option<string>, seedChunks: set<ChunkId>,
                                            similarity: seq<real> -> Option<real>, nearest: seq<CommunityId>, k: CommunityId)
    requires IsGlobalTier(s, project, similarity, nearest) && k in Matched(s, project, seedChunks, nearest)
    ensures k in s.communities && (s.communities[k].project.None? || s.communities[k].project == project)
  {
    if k in nearest {
      var i :| 0 <= i < |nearest| && nearest[i] == k;
      assert nearest[i] in Comparable(s, project, similarity);
    }
  }

  lemma {:induction false} MembersAreSaved(s: Store, project: Option<string>, cs: seq<Detected>, g: nat, e: EntityId)
    requires StoreInvariant(s) && SaveCommunities(s, project, cs).Ok? && g < |cs|
    requires e in s.db.entities && s.db.entities[e].key.name in cs[g].members
    ensures var after := SaveCommunities(s, project, cs).value; IsMember(after, project, e) && after.db == s.db.(nextId := after.db.nextId)
  {
    SaveCommunitiesOutcome(s, project, cs);
    var after, k := SaveCommunities(s, project, cs).value, s.db.nextId + g;
    assert after.communities[k] == Community(cs[g].name, cs[g].summary, project, cs[g].embedding);
    assert IsNewMember(s, cs, (k, e));
  }

  /** A chunk that mentions a member of a community in scope is promised to a search seeded with it, and not found. */
  lemma {:induction false} MemberIsSearchedInVain(s: Store, project: Option<string>, e: EntityId, c: ChunkId,
                                                  similarity: seq<real> -> Option<real>, nearest: seq<CommunityId>, depth: nat)
    requires StoreInvariant(s) && IsMember(s, project, e) && c in s.db.chunks && (c, e) in s.db.mentions
    requires IsGlobalTier(s, project, similarity, nearest)
    ensures c in Documented(s, project, {c}, nearest)
    ensures FoundOnSqlite(s, HandedOn(s, project, {c}, nearest), depth) == FoundOnPostgres(s, HandedOn(s, project, {c}, nearest), depth) == {}
  {
    CommunitySearchFindsNothing(s, project, {c}, similarity, nearest, depth);
    var k :| k in s.communities && (s.communities[k].project.None? || s.communities[k].project == project) && (k, e) in s.members;
    var m := (k, e);
    assert (c, e).0 in {c} && (c, e).1 == e;
    assert e in SeedEntities(s.db.mentions, {c});
    assert m in s.members && m.1 == e && m.0 in CommunitiesFor(s, project, SeedEntities(s.db.mentions, {c}));
    assert MentionsMember(s, Matched(s, project, {c}, nearest), c);
  }

  /** The store after a document's graph, and once its communities have taken the place of the project's old ones. */
  ghost function Analysed(s: Store, document: DocumentId, graph: DocumentGraph, project: Option<string>, detected: seq<Detected>): Store {
    StoreStep(StoreStep(StoreStep(s, Ingest(StoreGraph(document, graph))), Forget(project)), Save(project, detected))
  }

  /**
   * In whatever store, after every ingestion that detects and saves communities: a search
   * seeded with a chunk of the document that mentions anything is promised that chunk and
   * finds none.
   */
  lemma {:induction false} SavedCommunitiesAreSearchedInVain(s: Store, document: DocumentId, graph: DocumentGraph, project: Option<string>,
      config: Louvain.Config, sparse: SparseGraphs.SparseGraph, history: seq<seq<nat>>, groups: seq<seq<nat>>, detected: seq<Detected>,
      m: EntityMention, c: ChunkId, similarity: seq<real> -> Option<real>, nearest: seq<CommunityId>, depth: nat)
    requires StoreInvariant(s) && GraphBuild.Canonical(graph) && |graph.entities| >= MIN_ENTITIES_FOR_COMMUNITIES
    requires ReplaceDocumentEntityGraph(s.db, document, graph).Ok? && AreDetected(graph, config, sparse, history, groups, detected)
    requires forall g :: 0 <= g < |detected| && detected[g].embedding.Some? ==> |detected[g].embedding.value| == EMBEDDING_DIMENSIONS
    requires m in graph.mentions && ChunkAt(s.db, document, m.chunkIndex) == Some(c)
    requires IsGlobalTier(Analysed(s, document, graph, project, detected), project, similarity, nearest)
    ensures var after := Analysed(s, document, graph, project, detected);
            && StoreInvariant(after) && c in Documented(after, project, {c}, nearest)
            && FoundOnSqlite(after, HandedOn(after, project, {c}, nearest), depth) ==
               FoundOnPostgres(after, HandedOn(after, project, {c}, nearest), depth) == {}
  {
    var start := StoreStep(StoreStep(s, Ingest(StoreGraph(document, graph))), Forget(project));
    var e := MentionIsKept(s, document, graph, project, m, c);
    var g := MentionedIsMember(graph, config, sparse, history, groups, detected, m);
    NameIsSaved(start, project, detected, g, e);
    MemberIsSearchedInVain(StoreStep(start, Save(project, detected)), project, e, c, similarity, nearest, depth);
  }

  lemma {:induction false} MentionIsKept(s: Store, document: DocumentId, graph: DocumentGraph, project: Option<string>, m: EntityMention, c: ChunkId)
    returns (e: EntityId)
    requires StoreInvariant(s) && GraphBuild.Canonical(graph) && ReplaceDocumentEntityGraph(s.db, document, graph).Ok?
    requires m in graph.mentions && ChunkAt(s.db, document, m.chunkIndex) == Some(c)
    ensures var start := StoreStep(StoreStep(s, Ingest(StoreGraph(document, graph))), Forget(project));
            && StoreInvariant(start) && c in start.db.chunks && (c, e) in start.db.mentions
            && e in start.db.entities && start.db.entities[e].key == m.key
  {
    var stored := StoreStep(s, Ingest(StoreGraph(document, graph)));
    IngestKeeps(s, StoreGraph(document, graph));
    ForgetKeeps(stored, project);
    MentionsAreStored(s.db, document, graph, m, c);
    e := StoredMention(stored, m.key, c);
  }

  lemma {:induction false} ForgetKeeps(s: Store, project: Option<string>)
    requires StoreInvariant(s)
    ensures StoreInvariant(StoreStep(s, Forget(project))) && StoreStep(s, Forget(project)).db == s.db
  {
  }

  lemma {:induction false} StoredMention(s: Store, key: Key, c: ChunkId) returns (e: EntityId)
    requires StoreInvariant(s) && MentionIsStored(s.db, key, c)
    ensures c in s.db.chunks && (c, e) in s.db.mentions && e in s.db.entities && s.db.entities[e].key == key
  {
    e :| e in s.db.entities && s.db.entities[e].key == key && (c, e) in s.db.mentions;
    assert (c, e).0 in s.db.chunks;
  }

  lemma {:induction false} NameIsSaved(s: Store, project: Option<string>, cs: seq<Detected>, g: nat, e: EntityId)
    requires StoreInvariant(s) && g < |cs| && e in s.db.entities && s.db.entities[e].key.name in cs[g].members
    requires forall h :: 0 <= h < |cs| && cs[h].embedding.Some? ==> |cs[h].embedding.value| == EMBEDDING_DIMENSIONS
    ensures var after := StoreStep(s, Save(project, cs));
            && StoreInvariant(after) && IsMember(after, project, e)
            && after.db.mentions == s.db.mentions && after.db.chunks == s.db.chunks
  {
    GoodEmbeddingsAreSaved(s, project, cs);
    SaveKeeps(s, project, cs);
    MembersAreSaved(s, project, cs, g, e);
  }

  predicate IsStorable(c: Detected) {
    c.embedding.Some? ==> |c.embedding.value| == EMBEDDING_DIMENSIONS
  }

  lemma {:induction false} GoodEmbeddingsAreSaved(s: Store, project: Option<string>, cs: seq<Detected>)
    ensures SaveCommunities(s, project, cs).Ok? <==> forall g :: 0 <= g < |cs| ==> IsStorable(cs[g])
  {
    if cs != [] {
      var n := |cs| - 1;
      GoodEmbeddingsAreSaved(s, project, cs[..n]);
      assert forall g :: 0 <= g < n ==> cs[..n][g] == cs[g];
    }
  }

  /**
   * What an ingestion does once the graph is stored: from five entities on, detection, a
   * summary for each community, and the project's communities replaced. A failed summary
   * changes nothing; communities that cannot be saved are lost with the old ones.
   */
  method AnalyseGraph(s: Store, graph: DocumentGraph, project: Option<string>, config: Louvain.Config, summarise: seq<string> -> Option<Summary>)
    returns (after: Store, ghost sparse: SparseGraphs.SparseGraph, ghost history: seq<seq<nat>>, ghost groups: seq<seq<nat>>, ghost detected: seq<Detected>)
    ensures |graph.entities| < MIN_ENTITIES_FOR_COMMUNITIES ==> after == s
    ensures |graph.entities| >= MIN_ENTITIES_FOR_COMMUNITIES ==>
              && Louvain.IsDetection(graph.entities, graph.relationships, config, sparse, history, groups)
              && ((exists g :: 0 <= g < |groups| && summarise(Louvain.Names(graph.entities, groups[g])).None?) ==> after == s)
              && ((forall g :: 0 <= g < |groups| ==> summarise(Louvain.Names(graph.entities, groups[g])).Some?) ==>
                    && AreDetected(graph, config, sparse, history, groups, detected) && AreSummarised(detected, summarise)
                    && after == match SaveCommunities(DeleteProjectCommunities(s, project), project, detected)
                                case Ok(saved) => saved
                                case Err(_) => DeleteProjectCommunities(s, project))
  {
    sparse, history, groups, detected := SparseGraphs.SparseGraph([], map[], 0.0, []), [], [], [];
    if |graph.entities| < MIN_ENTITIES_FOR_COMMUNITIES {
      return s, sparse, history, groups, detected;
    }
    var communities;
    communities, sparse, history, groups := Louvain.DetectCommunities(graph.entities, graph.relationships, config);
    var summarised := Summarised(communities, summarise);
    if summarised.None? {
      return s, sparse, history, groups, detected;
    }
    detected := summarised.value;
    var cleared := DeleteProjectCommunities(s, project);
    var saved := SaveCommunities(cleared, project, summarised.value);
    after := if saved.Ok? then saved.value else cleared;
  }

  /** Each community has the name, text and embedding of the summary of its members. */
  ghost predicate AreSummarised(detected: seq<Detected>, summarise: seq<string> -> Option<Summary>) {
    forall g :: 0 <= g < |detected| ==> summarise(detected[g].members) == Some(Summary(detected[g].name, detected[g].summary, detected[g].embedding))
  }

  /** The communities with their summaries, unless one of the summaries fails. */
  method Summarised(communities: seq<seq<string>>, summarise: seq<string> -> Option<Summary>) returns (r: Option<seq<Detected>>)
    ensures r.None? <==> exists g :: 0 <= g < |communities| && summarise(communities[g]).None?
    ensures r.Some? ==> |r.value| == |communities| && forall g :: 0 <= g < |communities| ==> r.value[g].members == communities[g]
    ensures r.Some? ==> AreSummarised(r.value, summarise)
  {
    var detected: seq<Detected> := [];
    for g := 0 to |communities|
      invariant |detected| == g && AreSummarised(detected, summarise)
      invariant forall h :: 0 <= h < g ==> detected[h].members == communities[h] && summarise(communities[h]).Some?
    {
      var summary := summarise(communities[g]);
      if summary.None? {
        return None;
      }
      detected := detected + [Detected(summary.value.name, summary.value.text, summary.value.embedding, communities[g])];
    }
    r := Some(detected);
  }

  /**
   * An ingestion that saves its communities: the project's old ones are gone, the detected
   * ones are there with their summaries, and their members are the stored entities of
   * their names.
   */
  lemma {:induction false} AnalysisIsSaved(s: Store, project: Option<string>, detected: seq<Detected>)
    requires StoreInvariant(s)
    requires forall g :: 0 <= g < |detected| && detected[g].embedding.Some? ==> |detected[g].embedding.value| == EMBEDDING_DIMENSIONS
    ensures var saved := SaveCommunities(DeleteProjectCommunities(s, project), project, detected);
            && saved.Ok? && IsForgetting(s, project, DeleteProjectCommunities(s, project))
            && IsSaving(DeleteProjectCommunities(s, project), project, detected, saved.value)
  {
    var cleared := DeleteProjectCommunities(s, project);
    assert StoreStep(s, Forget(project)) == cleared;
    ForgetKeeps(s, project);
    DeleteProjectCommunitiesOutcome(s, project);
    GoodEmbeddingsAreSaved(cleared, project, detected);
    SaveCommunitiesOutcome(cleared, project, detected);
  }

  // --------------------------------------------------------- A store of that kind

  function FiveKey(i: nat): Key
    requires i < 5
  {
    Key(["abcde"[i]], DEFAULT_ENTITY_TYPE)
  }

  /** Five entities, all mentioned by chunk 0, and two relationships between three of them. */
  const FiveGraph := DocumentGraph(
    seq(5, i requires 0 <= i < 5 => EntityNode(FiveKey(i), FiveKey(i).name, None, [])),
    seq(5, i requires 0 <= i < 5 => EntityMention(0, FiveKey(i))),
    [EntityEdge(FiveKey(0), FiveKey(1), DEFAULT_ENTITY_TYPE, None, 2.0, 0), EntityEdge(FiveKey(1), FiveKey(2), DEFAULT_ENTITY_TYPE, None, 1.0, 0)])

  /** One document with one chunk. */
  function OneChunk(embedding: seq<real>): seq<StoreOperation> {
    [Ingest(AddDocument("d", "h")), Ingest(StoreChunks(0, [ChunkInsert("a", 0, None, embedding)]))]
  }

  const WithDocument := Db(map[0 := Document("d", "h")], map[], map[], {}, map[], 1)

  const WithChunk := Db(map[0 := Document("d", "h")], map[1 := Chunk(0, 0, "a", None)], map[], {}, map[], 2)

  lemma {:induction false} ChunkIsStored(embedding: seq<real>)
    requires |embedding| == EMBEDDING_DIMENSIONS
    ensures StoreRun(OneChunk(embedding)) == Store(WithChunk, map[], {})
  {
    var ops, inserts := OneChunk(embedding), [ChunkInsert("a", 0, None, embedding)];
    assert ops[..1][..0] == [] && StoreRun([]) == EmptyStore;
    assert Step(EmptyDb, ops[0].op) == WithDocument;
    assert StoreRun(ops[..1]) == Store(WithDocument, map[], {});
    assert ChunkIds(WithDocument, 0) == {};
    assert ClearDocument(WithDocument, 0) == WithDocument;
    assert inserts[..0] == [];
    assert InsertChunks(WithDocument, 0, []) == Ok(WithDocument);
    assert ReplaceDocumentChunks(WithDocument, 0, inserts) == Ok(WithChunk);
  }

  lemma {:induction false} FiveGraphIsCanonical()
    ensures GraphBuild.Canonical(FiveGraph)
  {
    forall i: nat, j: nat | i < j < 5 ensures FiveKey(i) != FiveKey(j) {
      assert FiveKey(i).name[0] == "abcde"[i] && FiveKey(j).name[0] == "abcde"[j];
    }
    forall i: nat | i < 5 ensures GraphBuild.HasEntity(FiveGraph, FiveKey(i)) && EntityMention(0, FiveKey(i)) in FiveGraph.mentions {
      assert FiveGraph.entities[i].key == FiveKey(i) && FiveGraph.mentions[i] == EntityMention(0, FiveKey(i));
    }
    forall edge | edge in FiveGraph.relationships ensures GraphBuild.Grounded(FiveGraph, edge) {
    }
  }

  lemma {:induction false} FiveGraphFits(embedding: seq<real>)
    requires |embedding| == EMBEDDING_DIMENSIONS
    ensures var s := StoreRun(OneChunk(embedding));
            && StoreInvariant(s) && GraphBuild.Canonical(FiveGraph) && ReplaceDocumentEntityGraph(s.db, 0, FiveGraph).Ok?
            && EntityMention(0, FiveKey(0)) in FiveGraph.mentions && ChunkAt(s.db, 0, 0) == Some(1)
  {
    ChunkIsStored(embedding);
    ReachableStoresAreSound(OneChunk(embedding));
    FiveGraphIsCanonical();
    assert ChunkIds(WithChunk, 0) == {1};
    assert FiveGraph.mentions[0] == EntityMention(0, FiveKey(0));
  }

  /** A run as ingestion makes it, of a document with five entities, ends in a store that is searched in vain. */
  lemma {:induction false} CommunitySearchCanMissDocumented(embedding: seq<real>, project: Option<string>, config: Louvain.Config,
      sparse: SparseGraphs.SparseGraph, history: seq<seq<nat>>, groups: seq<seq<nat>>, detected: seq<Detected>,
      similarity: seq<real> -> Option<real>, nearest: seq<CommunityId>, depth: nat)
    requires |embedding| == EMBEDDING_DIMENSIONS && AreDetected(FiveGraph, config, sparse, history, groups, detected)
    requires forall g :: 0 <= g < |detected| && detected[g].embedding.Some? ==> |detected[g].embedding.value| == EMBEDDING_DIMENSIONS
    requires IsGlobalTier(Analysed(StoreRun(OneChunk(embedding)), 0, FiveGraph, project, detected), project, similarity, nearest)
    ensures var after := Analysed(StoreRun(OneChunk(embedding)), 0, FiveGraph, project, detected);
            && 1 in Documented(after, project, {1}, nearest)
            && FoundOnSqlite(after, HandedOn(after, project, {1}, nearest), depth) ==
               FoundOnPostgres(after, HandedOn(after, project, {1}, nearest), depth) == {}
  {
    FiveGraphFits(embedding);
    SavedCommunitiesAreSearchedInVain(StoreRun(OneChunk(embedding)), 0, FiveGraph, project, config, sparse, history, groups, detected,
                                      EntityMention(0, FiveKey(0)), 1, similarity, nearest, depth);
  }
}
