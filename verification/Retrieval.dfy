/** Graph retrieval on the table states that ingestion can actually produce. */
module Retrieval {
  import opened Wrappers
  import opened Tables
  import opened GraphParity
  import opened GraphWalk
  import opened EntityStore
  import opened Fusion

  const DEFAULT_GRAPH_TRAVERSAL_DEPTH: nat := 2
  const MAX_GRAPH_TRAVERSAL_DEPTH: nat := 3

  /** The depth a configuration value is clamped to. */
  function TraversalDepth(configured: nat): (depth: nat)
    ensures 1 <= depth <= 3 && (1 <= configured <= 3 ==> depth == configured)
    ensures (configured < 1 ==> depth == 1) && (configured > 3 ==> depth == 3)
  {
    if configured < 1 then 1 else if configured > MAX_GRAPH_TRAVERSAL_DEPTH then MAX_GRAPH_TRAVERSAL_DEPTH else configured
  }

  lemma {:induction false} TopWeight(g: Graph) returns (top: real)
    ensures WeightsAtMost(g, top)
  {
    var weights := set id | id in g :: Clamped(g[id]);
    top := 0.0;
    if weights != {} {
      HasMaximum(weights);
      top :| top in weights && forall x :: x in weights ==> x <= top;
    }
    forall id | id in g ensures Clamped(g[id]) <= top {
      assert Clamped(g[id]) in weights;
    }
  }

  lemma {:induction false} StoredGraphHasNoSelfLoops(db: Db)
    requires Invariant(db)
    ensures NoSelfLoops(db.relationships)
  {
    forall r | r in db.relationships ensures db.relationships[r].source != db.relationships[r].target {
      assert Sound(db, db.relationships[r]);
    }
  }

  /** Depths up to the default are short enough for any weights; the greatest depth needs weights up to sqrt(12). */
  predicate WeightsSuffice(db: Db, configured: nat, top: real) {
    configured <= DEFAULT_GRAPH_TRAVERSAL_DEPTH || (WeightsAtMost(db.relationships, top) && top * top <= 12.0)
  }

  /** SQLite's best score of a chunk is the best of PostgreSQL's scores and of the returns to seed entities that it mentions. */
  ghost predicate ScoresAreExact(db: Db, seedChunks: set<ChunkId>, configured: nat, c: ChunkId) {
    var depth := TraversalDepth(configured);
    Best(SqliteChunkScores(db.relationships, db.mentions, seedChunks, depth, c)) ==
    Best(PostgresChunkScores(db.relationships, db.mentions, seedChunks, depth, c) +
         ReturnScores(db.relationships, db.mentions, seedChunks, depth, c))
  }

  /**
   * In every state that the invariant allows, which are all that ingestions and deletions
   * lead to, SQLite scores a chunk with the best of PostgreSQL's score and of a sixth of
   * the squared weight of a relationship at a seed entity that the chunk mentions. A chunk
   * that mentions none has the same score on both backends.
   */
  lemma {:induction false} BackendsRankAlike(db: Db, seedChunks: set<ChunkId>, configured: nat, top: real, c: ChunkId)
    requires Invariant(db) && WeightsSuffice(db, configured, top)
    ensures ScoresAreExact(db, seedChunks, configured, c)
    ensures !MentionsSeed(db.mentions, seedChunks, c) ==>
              ReturnScores(db.relationships, db.mentions, seedChunks, TraversalDepth(configured), c) == {}
  {
    StoredGraphHasNoSelfLoops(db);
    var limit := top;
    if configured <= DEFAULT_GRAPH_TRAVERSAL_DEPTH {
      limit := TopWeight(db.relationships);
    }
    ChunkScoresAreExact(db.relationships, db.mentions, seedChunks, TraversalDepth(configured), limit, c);
  }

  // ------------------------------------------------------ Where the bound is sharp

  /** Two related entities, each mentioned by a chunk of its own. */
  function TwoChunks(weight: real): Db {
    Db(map[3 := Document("d", "h")], map[4 := Chunk(3, 0, "a", None), 5 := Chunk(3, 1, "b", None)],
       map[1 := Entity(Key("a", "CONCEPT"), "a", None, None, 1), 2 := Entity(Key("b", "CONCEPT"), "b", None, None, 1)],
       {(4, 1), (5, 2)}, Detour(weight, false), 6)
  }

  lemma {:induction false} TwoChunksAreStored(weight: real)
    requires weight >= MIN_WEIGHT
    ensures Invariant(TwoChunks(weight))
  {
    var db := TwoChunks(weight);
    assert db.entities[1].key.name[0] == 'a' && db.entities[2].key.name[0] == 'b';
    assert db.relationships.Keys == {0};
    assert Sound(db, db.relationships[0]);
  }

  lemma {:induction false} TwoChunksDisagree(weight: real, configured: nat)
    requires weight >= MIN_WEIGHT && weight * weight > 12.0 && configured > DEFAULT_GRAPH_TRAVERSAL_DEPTH
    ensures !ScoresAreExact(TwoChunks(weight), {4}, configured, 5)
  {
    var db, depth := TwoChunks(weight), TraversalDepth(configured);
    var g := db.relationships;
    assert (4, 1).0 in {4};
    assert SeedEntities(db.mentions, {4}) == {1};
    forall w | w in SqliteRows(g, {1}, depth) ensures w.pathStart == 1 {
      SqliteRowsAreWalks(g, {1}, depth, w);
    }
    assert SqliteChunkScores(g, db.mentions, {4}, depth, 5) == SqliteScores(g, {1}, depth, 2);
    assert PostgresChunkScores(g, db.mentions, {4}, depth, 5) == PostgresScores(g, {1}, depth, 2);
    assert ReturnScores(g, db.mentions, {4}, depth, 5) == {};
    assert PostgresScores(g, {1}, depth, 2) + {} == PostgresScores(g, {1}, depth, 2);
    DetourPays(weight, false, depth);
  }

  /**
   * SQLite's scores are exactly PostgreSQL's and the returns, in every state that the
   * invariant allows with weights up to `top`, if and only if the configured depth is at
   * most the default or the weights are at most sqrt(12).
   */
  lemma {:induction false} WeightsSufficeExactly(configured: nat, top: real)
    requires top >= MIN_WEIGHT
    ensures (forall db, seedChunks, c :: Invariant(db) && WeightsAtMost(db.relationships, top) ==> ScoresAreExact(db, seedChunks, configured, c)) <==>
            configured <= DEFAULT_GRAPH_TRAVERSAL_DEPTH || top * top <= 12.0
  {
    if configured <= DEFAULT_GRAPH_TRAVERSAL_DEPTH || top * top <= 12.0 {
      forall db, seedChunks, c | Invariant(db) && WeightsAtMost(db.relationships, top) ensures ScoresAreExact(db, seedChunks, configured, c) {
        BackendsRankAlike(db, seedChunks, configured, top, c);
      }
    } else {
      TwoChunksAreStored(top);
      TwoChunksDisagree(top, configured);
      assert WeightsAtMost(TwoChunks(top).relationships, top);
    }
  }

  // -------------------------------------------------------------- Ranked answers

  /** MAX(score) of a group, where there is one. */
  ghost function MaxScore(scores: set<real>): real {
    if Best(scores).Some? then Best(scores).value else 0.0
  }

  /** The best `limit` of the chunks that pass the filters and have a score, best first; ties in any order. */
  ghost predicate IsAnswer(db: Db, allowed: set<ChunkId>, scores: ChunkId -> set<real>, limit: nat, answer: seq<ChunkId>) {
    IsTopK(set c | c in db.chunks && c in allowed && scores(c) != {}, (c: ChunkId) => MaxScore(scores(c)), limit, answer)
  }

  lemma {:induction false} SameScoresSameRanking(ids: set<ChunkId>, f: ChunkId -> real, g: ChunkId -> real, limit: nat, ranked: seq<ChunkId>)
    requires forall c :: c in ids ==> f(c) == g(c)
    ensures IsTopK(ids, f, limit, ranked) <==> IsTopK(ids, g, limit, ranked)
  {
    assert forall i :: 0 <= i < |ranked| && ranked[i] in ids ==> f(ranked[i]) == g(ranked[i]);
  }

  lemma {:induction false} SameBestSameAnswers(db: Db, allowed: set<ChunkId>, s: ChunkId -> set<real>, t: ChunkId -> set<real>, limit: nat, answer: seq<ChunkId>)
    requires forall c :: c in db.chunks && c in allowed ==> Best(s(c)) == Best(t(c))
    ensures IsAnswer(db, allowed, s, limit, answer) <==> IsAnswer(db, allowed, t, limit, answer)
  {
    var ids, ids' := set c | c in db.chunks && c in allowed && s(c) != {}, set c | c in db.chunks && c in allowed && t(c) != {};
    assert ids == ids' by {
      forall c | c in db.chunks && c in allowed ensures s(c) != {} <==> t(c) != {} {
        assert s(c) != {} <==> Best(s(c)).Some?;
        assert t(c) != {} <==> Best(t(c)).Some?;
      }
    }
    SameScoresSameRanking(ids, (c: ChunkId) => MaxScore(s(c)), (c: ChunkId) => MaxScore(t(c)), limit, answer);
  }

  /**
   * SQLite's answers are those that PostgreSQL's scores and the returns to seed entities
   * rank; they are PostgreSQL's where no chunk that passes the filters, seed chunks apart,
   * mentions a seed entity.
   */
  lemma {:induction false} BackendsAnswerAlike(db: Db, allowed: set<ChunkId>, seedChunks: set<ChunkId>, configured: nat, top: real, limit: nat, answer: seq<ChunkId>)
    requires Invariant(db) && WeightsSuffice(db, configured, top)
    ensures var depth := TraversalDepth(configured);
            var sqlite := IsAnswer(db, allowed, (c: ChunkId) => SqliteChunkScores(db.relationships, db.mentions, seedChunks, depth, c), limit, answer);
            && (sqlite <==> IsAnswer(db, allowed, (c: ChunkId) => PostgresChunkScores(db.relationships, db.mentions, seedChunks, depth, c) +
                                                                  ReturnScores(db.relationships, db.mentions, seedChunks, depth, c), limit, answer))
            && ((forall c :: c in db.chunks && c in allowed && c !in seedChunks ==> !MentionsSeed(db.mentions, seedChunks, c)) ==>
                  (sqlite <==> IsAnswer(db, allowed, (c: ChunkId) => PostgresChunkScores(db.relationships, db.mentions, seedChunks, depth, c), limit, answer)))
  {
    var depth := TraversalDepth(configured);
    var s := (c: ChunkId) => SqliteChunkScores(db.relationships, db.mentions, seedChunks, depth, c);
    var p := (c: ChunkId) => PostgresChunkScores(db.relationships, db.mentions, seedChunks, depth, c);
    var t := (c: ChunkId) => PostgresChunkScores(db.relationships, db.mentions, seedChunks, depth, c) +
                             ReturnScores(db.relationships, db.mentions, seedChunks, depth, c);
    forall c | c in db.chunks && c in allowed ensures Best(s(c)) == Best(t(c)) {
      BackendsRankAlike(db, seedChunks, configured, top, c);
    }
    SameBestSameAnswers(db, allowed, s, t, limit, answer);
    if forall c :: c in db.chunks && c in allowed && c !in seedChunks ==> !MentionsSeed(db.mentions, seedChunks, c) {
      forall c | c in db.chunks && c in allowed ensures Best(s(c)) == Best(p(c)) {
        BackendsRankAlike(db, seedChunks, configured, top, c);
        if c !in seedChunks {
          assert p(c) + {} == p(c);
        }
      }
      SameBestSameAnswers(db, allowed, s, p, limit, answer);
    }
  }

  lemma {:induction false} NoSeedsNoRows(g: Graph, bound: nat)
    ensures forall d: nat :: d <= bound ==> SqliteLevel(g, {}, d) == {} && PostgresLevel(g, {}, d) == {}
    ensures SqliteRows(g, {}, bound) == {} && PostgresRows(g, {}, bound) == {}
  {
    if bound > 0 {
      NoSeedsNoRows(g, bound - 1);
    }
  }

  /** Seeding the walk with ids that are no chunk's finds nothing. */
  lemma {:induction false} ForeignSeedsFindNothing(db: Db, seedIds: set<ChunkId>, bound: nat, c: ChunkId)
    requires Invariant(db) && seedIds !! db.chunks.Keys
    ensures SqliteChunkScores(db.relationships, db.mentions, seedIds, bound, c) == {}
    ensures PostgresChunkScores(db.relationships, db.mentions, seedIds, bound, c) == {}
  {
    assert SeedEntities(db.mentions, seedIds) == {} by {
      forall m | m in db.mentions ensures m.0 !in seedIds {
        assert m.0 in db.chunks;
      }
    }
    NoSeedsNoRows(db.relationships, bound);
  }
}
