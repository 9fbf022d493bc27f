/**
 * Erasing cycles from walks relates the rows of the two backends, and decides exactly
 * when both give an entity, or a chunk, the same best score.
 */
module GraphParity {
  import opened Sorting
  import opened Wrappers
  import opened Tables
  import opened GraphWalk

  // -------------------------------------------------------------- Cycle erasure

  predicate NoSelfLoops(g: Graph) {
    forall id :: id in g ==> g[id].source != g[id].target
  }

  predicate WeightsAtMost(g: Graph, top: real) {
    forall id :: id in g ==> Clamped(g[id]) <= top
  }

  /**
   * The condition under which no detour through a cycle can raise a score: either the
   * bound leaves no room for a cycle, or the weights are too small to pay for its steps.
   */
  predicate CyclesNeverPay(loopFree: bool, bound: nat, top: real) {
    if loopFree then bound <= 2 || top * top <= 12.0 else bound <= 1 || top <= 3.0
  }

  lemma {:induction false} MultiplyBelow(a: real, b: real, x: real, y: real)
    requires 0.0 <= a <= x && 0.0 <= b <= y
    ensures a * b <= x * y
  {
    assert a * b <= x * b <= x * y;
  }

  lemma {:induction false} CycleIsCheap(g: Graph, cycle: seq<RelationshipId>, m: nat, top: real)
    requires Known(g, cycle) && WeightsAtMost(g, top) && m >= 1
    requires top <= 3.0 || (|cycle| >= 2 && top * top <= 12.0)
    ensures Times(WeightProduct(g, cycle), Factorial(m + 1)) <= Factorial(m + 1 + |cycle|)
  {
    if cycle != [] {
      var n := |cycle| - 1;
      var rest, id, w := cycle[..n], cycle[n], Clamped(g[cycle[n]]);
      assert cycle == rest + [id];
      ProductSnoc(g, rest, id);
      var p, f := WeightProduct(g, rest), Factorial(m + 1);
      if top <= 3.0 || n >= 2 {
        CycleIsCheap(g, rest, m, top);
        OneStep(m + 1 + n, p, w, f, top);
      } else {
        assert rest == [rest[0]] && rest[1..] == [];
        assert p == Clamped(g[rest[0]]);
        TwoSteps(m, p, w, f, top);
      }
    }
  }

  lemma {:induction false} OneStep(k: nat, p: real, w: real, f: real, top: real)
    requires p > 0.0 && f > 0.0 && 0.0 <= w <= top <= (k + 1) as real && Times(p, f) <= Factorial(k)
    ensures Times(Times(p, w), f) <= Factorial(k + 1)
  {
    MultiplyBelow(w, p * f, (k + 1) as real, Factorial(k));
    assert (p * w) * f == w * (p * f);
  }

  lemma {:induction false} TwoSteps(m: nat, p: real, w: real, f: real, top: real)
    requires m >= 1 && f == Factorial(m + 1) && 0.0 <= p <= top && 0.0 <= w <= top && top * top <= 12.0
    ensures Times(Times(p, w), f) <= Factorial(m + 3)
  {
    MultiplyBelow(p, w, top, top);
    var x, y := (m + 2) as real, (m + 3) as real;
    assert Factorial(m + 2) == x * f;
    assert Factorial(m + 3) == y * Factorial(m + 2);
    MultiplyBelow(4.0, 3.0, y, x);
    assert y * (x * f) == (y * x) * f;
    MultiplyBelow(Times(p, w), f, y * x, f);
  }

  lemma {:induction false} CutFractions(pa: real, pc: real, pb: real, pab: real, pac: real, pacb: real, n: nat, k: nat)
    requires pa > 0.0 && pb > 0.0 && Times(pc, Factorial(n)) <= Factorial(k)
    requires pab == Times(pa, pb) && pac == Times(pa, pc) && pacb == Times(pac, pb)
    ensures Over(pacb, k) <= Over(pab, n)
  {
    var f, whole := Factorial(n), Factorial(k);
    assert pab > 0.0 && pacb == pab * pc && Times(pc, f) == pc * f;
  }

  /** Cutting one cycle out of a walk that still leads somewhere does not lower its score. */
  lemma {:induction false} CutCycle(g: Graph, start: EntityId, a: seq<RelationshipId>, cycle: seq<RelationshipId>, b: seq<RelationshipId>, top: real)
    requires IsWalk(g, start, a + cycle + b)
    requires IsWalk(g, start, a) && IsWalk(g, start, a + cycle) && Finish(g, start, a) == Finish(g, start, a + cycle)
    requires WeightsAtMost(g, top) && |a + b| >= 1
    requires top <= 3.0 || (|cycle| >= 2 && top * top <= 12.0)
    ensures IsWalk(g, start, a + b) && Finish(g, start, a + b) == Finish(g, start, a + cycle + b)
    ensures Known(g, a + b) && Known(g, a + cycle + b) && Score(g, a + cycle + b) <= Score(g, a + b)
  {
    WalkConcat(g, start, a + cycle, b);
    WalkConcat(g, start, a, b);
    WalkIsKnown(g, start, a + cycle + b);
    KnownParts(g, a, cycle, b);
    CutScores(g, a, cycle, b, top);
  }

  lemma {:induction false} KnownParts(g: Graph, a: seq<RelationshipId>, b: seq<RelationshipId>, c: seq<RelationshipId>)
    requires Known(g, a + b + c)
    ensures Known(g, a) && Known(g, b) && Known(g, c) && Known(g, a + c)
  {
    var whole := a + b + c;
    assert forall i :: 0 <= i < |a| ==> a[i] == whole[i];
    assert forall i :: 0 <= i < |b| ==> b[i] == whole[|a| + i];
    assert forall i :: 0 <= i < |c| ==> c[i] == whole[|a| + |b| + i];
  }

  lemma {:induction false} CutScores(g: Graph, a: seq<RelationshipId>, cycle: seq<RelationshipId>, b: seq<RelationshipId>, top: real)
    requires Known(g, a) && Known(g, cycle) && Known(g, b) && Known(g, a + b) && Known(g, a + cycle + b)
    requires WeightsAtMost(g, top) && |a + b| >= 1
    requires top <= 3.0 || (|cycle| >= 2 && top * top <= 12.0)
    ensures Score(g, a + cycle + b) <= Score(g, a + b)
  {
    var n, k := |a + b| + 1, |a + cycle + b| + 1;
    assert k == n + |cycle|;
    CycleIsCheap(g, cycle, n - 1, top);
    ProductConcat(g, a, b);
    ProductConcat(g, a, cycle);
    ProductConcat(g, a + cycle, b);
    CutFractions(WeightProduct(g, a), WeightProduct(g, cycle), WeightProduct(g, b),
                 WeightProduct(g, a + b), WeightProduct(g, a + cycle), WeightProduct(g, a + cycle + b), n, k);
  }

  lemma {:induction false} VerticesAreFinishes(g: Graph, start: EntityId, walk: seq<RelationshipId>, i: nat)
    requires IsWalk(g, start, walk) && i <= |walk|
    ensures IsWalk(g, start, walk[..i]) && Vertices(g, start, walk)[i] == Finish(g, start, walk[..i])
  {
    assert walk == walk[..i] + walk[i..];
    WalkConcat(g, start, walk[..i], walk[i..]);
    var left := Vertices(g, start, walk[..i]);
    assert Vertices(g, start, walk)[i] == left[i];
  }

  /** From any walk to another entity, a simple walk there; it scores no less where cycles never pay. */
  lemma {:induction false} EraseCycles(g: Graph, start: EntityId, walk: seq<RelationshipId>, bound: nat, top: real)
    returns (short: seq<RelationshipId>)
    requires IsWalk(g, start, walk) && Finish(g, start, walk) != start && |walk| <= bound
    ensures IsWalk(g, start, short) && Simple(g, start, short) && 1 <= |short| <= |walk|
    ensures Finish(g, start, short) == Finish(g, start, walk)
    ensures Known(g, walk) && Known(g, short)
    ensures WeightsAtMost(g, top) && CyclesNeverPay(NoSelfLoops(g), bound, top) ==> Score(g, walk) <= Score(g, short)
    decreases |walk|
  {
    WalkIsKnown(g, start, walk);
    if Simple(g, start, walk) {
      short := walk;
    } else {
      var v := Vertices(g, start, walk);
      var i, j :| 0 <= i < j < |v| && v[i] == v[j];
      EraseOneCycle(g, start, walk, i, j, bound, top);
      short := EraseCycles(g, start, walk[..i] + walk[j..], bound, top);
    }
  }

  lemma {:induction false} EraseOneCycle(g: Graph, start: EntityId, walk: seq<RelationshipId>, i: nat, j: nat, bound: nat, top: real)
    requires IsWalk(g, start, walk) && Finish(g, start, walk) != start && |walk| <= bound
    requires i < j <= |walk| && Vertices(g, start, walk)[i] == Vertices(g, start, walk)[j]
    ensures var short := walk[..i] + walk[j..];
            && |short| < |walk| && IsWalk(g, start, short) && Finish(g, start, short) == Finish(g, start, walk)
            && Known(g, walk) && Known(g, short)
            && (WeightsAtMost(g, top) && CyclesNeverPay(NoSelfLoops(g), bound, top) ==> Score(g, walk) <= Score(g, short))
  {
    var a, cycle, b := walk[..i], walk[i..j], walk[j..];
    assert a + cycle == walk[..j] && a + cycle + b == walk;
    VerticesAreFinishes(g, start, walk, i);
    VerticesAreFinishes(g, start, walk, j);
    WalkConcat(g, start, a + cycle, b);
    WalkConcat(g, start, a, b);
    WalkIsKnown(g, start, walk);
    WalkIsKnown(g, start, a + b);
    if WeightsAtMost(g, top) && CyclesNeverPay(NoSelfLoops(g), bound, top) {
      if NoSelfLoops(g) {
        LoopFreeCyclesAreLong(g, start, walk, i);
      }
      CutCycle(g, start, a, cycle, b, top);
    }
  }

  lemma {:induction false} LoopFreeCyclesAreLong(g: Graph, start: EntityId, walk: seq<RelationshipId>, i: nat)
    requires IsWalk(g, start, walk) && NoSelfLoops(g) && i < |walk|
    ensures Vertices(g, start, walk)[i] != Vertices(g, start, walk)[i + 1]
  {
    var prefix, id := walk[..i], walk[i];
    VerticesAreFinishes(g, start, walk, i);
    VerticesAreFinishes(g, start, walk, i + 1);
    assert walk[..i + 1] == prefix + [id];
    WalkConcat(g, start, prefix, [id]);
    ExtendWalk(g, start, prefix, id);
  }

  // -------------------------------------------------------- Parity of best scores

  lemma {:induction false} Pick<T>(s: set<T>) returns (x: T)
    requires s != {}
    ensures x in s
  {
    x :| x in s;
  }

  lemma {:induction false} HasMaximum(s: set<real>)
    requires s != {}
    ensures exists m :: m in s && forall x :: x in s ==> x <= m
  {
    var m := Maximum(s);
  }

  lemma {:induction false} Maximum(s: set<real>) returns (m: real)
    requires s != {}
    ensures m in s && forall x :: x in s ==> x <= m
  {
    var a := Pick(s);
    var rest := s - {a};
    assert forall x :: x in s ==> x == a || x in rest;
    m := a;
    if rest != {} {
      var n := Maximum(rest);
      m := if n > a then n else a;
    }
  }

  /** What MAX(score) of a group of rows is, absent when the group is empty. */
  ghost function Best(s: set<real>): Option<real> {
    if s == {} then None
    else
      HasMaximum(s);
      var m :| m in s && forall x :: x in s ==> x <= m;
      Some(m)
  }

  lemma {:induction false} BestAgrees(s: set<real>, t: set<real>)
    requires forall x :: x in s ==> exists y :: y in t && x <= y
    requires forall y :: y in t ==> exists x :: x in s && y <= x
    ensures Best(s) == Best(t)
  {
    if s == {} {
      if t != {} {
        var y := Pick(t);
        assert false;
      }
    } else {
      var x := Pick(s);
      var y :| y in t && x <= y;
      HasMaximum(s);
      HasMaximum(t);
    }
  }

  /** Scores under which SQLite reaches `v` from a different entity. */
  function SqliteScores(g: Graph, seeds: set<EntityId>, bound: nat, v: EntityId): set<real> {
    set w | w in SqliteRows(g, seeds, bound) && w.depth > 0 && w.entity == v && w.pathStart != v :: w.score
  }

  function PostgresScores(g: Graph, seeds: set<EntityId>, bound: nat, v: EntityId): set<real> {
    set w | w in PostgresRows(g, seeds, bound) && w.depth > 0 && w.entity == v :: w.score
  }

  /** Every PostgreSQL row is, forgetting the path, a SQLite row that ends away from its start. */
  lemma {:induction false} PostgresRowIsSqliteRow(g: Graph, seeds: set<EntityId>, bound: nat, row: PostgresRow)
    requires row in PostgresRows(g, seeds, bound)
    ensures row.path != [] && SqliteRow(row.entity, row.depth, row.path[0], row.score) in SqliteRows(g, seeds, bound)
    ensures row.depth > 0 ==> row.path[0] != row.entity
    ensures |row.path| == row.depth + 1 && Distinct(row.path) && row.depth <= bound && row.path[0] in seeds
  {
    PostgresRowsAreSimpleWalks(g, seeds, bound, row);
    var start, walk :| WalkTo(g, seeds, bound, start, walk) && Simple(g, start, walk) && row == PostgresRowOf(g, start, walk);
    SqliteRowsAreWalks(g, seeds, bound, SqliteRowOf(g, start, walk));
  }

  /** A SQLite row that ends away from its start is matched by a PostgreSQL row scoring no less. */
  lemma {:induction false} SqliteRowIsMatched(g: Graph, seeds: set<EntityId>, bound: nat, top: real, row: SqliteRow) returns (twin: PostgresRow)
    requires WeightsAtMost(g, top) && CyclesNeverPay(NoSelfLoops(g), bound, top)
    requires row in SqliteRows(g, seeds, bound) && row.entity != row.pathStart
    ensures twin in PostgresRows(g, seeds, bound) && twin.entity == row.entity
    ensures 0 < twin.depth <= row.depth && row.score <= twin.score
  {
    SqliteRowsAreWalks(g, seeds, bound, row);
    var start, walk :| WalkTo(g, seeds, bound, start, walk) && row == SqliteRowOf(g, start, walk);
    var short := EraseCycles(g, start, walk, bound, top);
    twin := PostgresRowOf(g, start, short);
    assert WalkTo(g, seeds, bound, start, short);
    PostgresRowsAreSimpleWalks(g, seeds, bound, twin);
  }

  lemma {:induction false} EntityParity(g: Graph, seeds: set<EntityId>, bound: nat, top: real, v: EntityId)
    requires WeightsAtMost(g, top) && CyclesNeverPay(NoSelfLoops(g), bound, top)
    ensures Best(SqliteScores(g, seeds, bound, v)) == Best(PostgresScores(g, seeds, bound, v))
  {
    var s, t := SqliteScores(g, seeds, bound, v), PostgresScores(g, seeds, bound, v);
    forall x | x in s ensures exists y :: y in t && x <= y {
      var w :| w in SqliteRows(g, seeds, bound) && w.depth > 0 && w.entity == v && w.pathStart != v && w.score == x;
      var p := SqliteRowIsMatched(g, seeds, bound, top, w);
      assert p.score in t;
    }
    forall y | y in t ensures exists x :: x in s && y <= x {
      var p :| p in PostgresRows(g, seeds, bound) && p.depth > 0 && p.entity == v && p.score == y;
      PostgresRowIsSqliteRow(g, seeds, bound, p);
      var w := SqliteRow(p.entity, p.depth, p.path[0], p.score);
      assert w in SqliteRows(g, seeds, bound) && w.score in s;
    }
    BestAgrees(s, t);
  }

  // --------------------------------------------------- Where the bounds are sharp

  /** Two entities and one relationship; optionally a self-loop at the first. */
  function Detour(top: real, loop: bool): Graph {
    var edge := Relationship(1, 2, "", None, top, None);
    if loop then map[0 := edge, 1 := edge.(target := 1)] else map[0 := edge]
  }

  lemma {:induction false} DetourHasOneSimpleWalk(top: real, loop: bool, walk: seq<RelationshipId>)
    requires IsWalk(Detour(top, loop), 1, walk) && Finish(Detour(top, loop), 1, walk) == 2
    requires Simple(Detour(top, loop), 1, walk)
    ensures walk == [0]
  {
    var g := Detour(top, loop);
    var v := Vertices(g, 1, walk);
    assert walk != [];
    assert v[1] == Other(g[walk[0]], 1);
    assert v[0] != v[1];
    if |walk| > 1 {
      assert false;
    }
  }

  /** Going back and forth, or round the loop first, and then across. */
  function DetourWalk(loop: bool): seq<RelationshipId> {
    if loop then [1, 0] else [0, 0, 0]
  }

  lemma {:induction false} DetourScores(top: real, loop: bool)
    requires top >= MIN_WEIGHT
    ensures var g := Detour(top, loop);
            && IsWalk(g, 1, DetourWalk(loop)) && Finish(g, 1, DetourWalk(loop)) == 2
            && Known(g, [0]) && Score(g, [0]) == top / 2.0
            && Known(g, DetourWalk(loop))
            && Score(g, DetourWalk(loop)) == if loop then (top * top) / 6.0 else (top * top * top) / 24.0
  {
    var g := Detour(top, loop);
    assert Factorial(2) == 2.0 && Factorial(3) == 6.0 && Factorial(4) == 24.0 by {
      assert Factorial(1) == 1.0 * Factorial(0);
    }
    assert WeightProduct(g, [0]) == top * WeightProduct(g, []) == top;
    if loop {
      assert [1, 0][1..] == [0] && [0][1..] == [];
      assert IsWalk(g, 1, [0]);
      assert WeightProduct(g, [1, 0]) == top * top;
    } else {
      assert [0, 0, 0][1..] == [0, 0] && [0, 0][1..] == [0] && [0][1..] == [];
      assert IsWalk(g, 1, [0]) && IsWalk(g, 2, [0, 0]);
      assert WeightProduct(g, [0, 0]) == top * top;
      assert WeightProduct(g, [0, 0, 0]) == top * WeightProduct(g, [0, 0]) == top * top * top;
    }
  }

  lemma {:induction false} DetourArithmetic(top: real, loop: bool)
    requires top > 0.0
    requires if loop then top > 3.0 else top * top > 12.0
    ensures top / 2.0 < if loop then (top * top) / 6.0 else (top * top * top) / 24.0
  {
    if loop {
      assert top * top > 3.0 * top;
    } else {
      assert (top * top) * top > 12.0 * top;
    }
  }

  lemma {:induction false} DetourPays(top: real, loop: bool, bound: nat)
    requires top >= MIN_WEIGHT && bound >= |DetourWalk(loop)|
    requires if loop then top > 3.0 else top * top > 12.0
    ensures Best(SqliteScores(Detour(top, loop), {1}, bound, 2)) != Best(PostgresScores(Detour(top, loop), {1}, bound, 2))
  {
    var g, walk := Detour(top, loop), DetourWalk(loop);
    DetourScores(top, loop);
    var high, low := Score(g, walk), Score(g, [0]);
    assert high > low by {
      DetourArithmetic(top, loop);
    }
    var row := SqliteRowOf(g, 1, walk);
    assert WalkTo(g, {1}, bound, 1, walk);
    SqliteRowsAreWalks(g, {1}, bound, row);
    var s, t := SqliteScores(g, {1}, bound, 2), PostgresScores(g, {1}, bound, 2);
    assert high in s by {
      assert row in SqliteRows(g, {1}, bound) && row.score == high;
    }
    forall y | y in t ensures y == low {
      var p :| p in PostgresRows(g, {1}, bound) && p.depth > 0 && p.entity == 2 && p.score == y;
      PostgresRowsAreSimpleWalks(g, {1}, bound, p);
      var start, w :| WalkTo(g, {1}, bound, start, w) && Simple(g, start, w) && p == PostgresRowOf(g, start, w);
      DetourHasOneSimpleWalk(top, loop, w);
    }
    HasMaximum(s);
    if t != {} {
      HasMaximum(t);
    }
  }

  /** Both backends give every entity the same best score, on every graph of a class. */
  ghost predicate BackendsAgree(loopFree: bool, bound: nat, top: real) {
    forall g: Graph, seeds: set<EntityId>, v: EntityId :: WeightsAtMost(g, top) && (loopFree ==> NoSelfLoops(g)) ==>
      Best(SqliteScores(g, seeds, bound, v)) == Best(PostgresScores(g, seeds, bound, v))
  }

  /**
   * The backends agree exactly when cycles never pay: without self-loops, up to depth 2
   * or up to weight sqrt(12); with self-loops, up to depth 1 or up to weight 3.
   */
  lemma {:induction false} ParityIsExact(loopFree: bool, bound: nat, top: real)
    requires top >= MIN_WEIGHT
    ensures BackendsAgree(loopFree, bound, top) <==> CyclesNeverPay(loopFree, bound, top)
  {
    if CyclesNeverPay(loopFree, bound, top) {
      forall g: Graph, seeds: set<EntityId>, v: EntityId | WeightsAtMost(g, top) && (loopFree ==> NoSelfLoops(g))
        ensures Best(SqliteScores(g, seeds, bound, v)) == Best(PostgresScores(g, seeds, bound, v))
      {
        if !loopFree && top <= 3.0 {
          MultiplyBelow(top, top, 3.0, 3.0);
        }
        EntityParity(g, seeds, bound, top, v);
      }
    } else {
      var g := Detour(top, !loopFree);
      DetourPays(top, !loopFree, bound);
      assert WeightsAtMost(g, top) && (loopFree ==> NoSelfLoops(g));
    }
  }

  // -------------------------------------------------------------- Ranked chunks

  type Mentions = set<(ChunkId, EntityId)>

  function SeedEntities(mentions: Mentions, seedChunks: set<ChunkId>): set<EntityId> {
    set m | m in mentions && m.0 in seedChunks :: m.1
  }

  /** The scores over which SQLite takes MAX for chunk `c`; empty when `c` is not returned. */
  function SqliteChunkScores(g: Graph, mentions: Mentions, seedChunks: set<ChunkId>, bound: nat, c: ChunkId): set<real> {
    if c in seedChunks then {}
    else set w | w in SqliteRows(g, SeedEntities(mentions, seedChunks), bound) && w.depth > 0 && (c, w.entity) in mentions :: w.score
  }

  function PostgresChunkScores(g: Graph, mentions: Mentions, seedChunks: set<ChunkId>, bound: nat, c: ChunkId): set<real> {
    if c in seedChunks then {}
    else set w | w in PostgresRows(g, SeedEntities(mentions, seedChunks), bound) && w.depth > 0 && (c, w.entity) in mentions :: w.score
  }

  /** A walk leads from an entity that a seed chunk mentions to one that `c` mentions, in one to `bound` steps. */
  ghost predicate LeadsTo(g: Graph, mentions: Mentions, seedChunks: set<ChunkId>, bound: nat, c: ChunkId, s: ChunkId, e: EntityId, walk: seq<RelationshipId>) {
    && s in seedChunks && (s, e) in mentions && 1 <= |walk| <= bound
    && IsWalk(g, e, walk) && (c, Finish(g, e, walk)) in mentions
  }

  /** What SQLite scores for a chunk: exactly the walks there from the entities of the seed chunks, all of them. */
  lemma {:induction false} SqliteChunkScoresAreWalks(g: Graph, mentions: Mentions, seedChunks: set<ChunkId>, bound: nat, c: ChunkId, score: real)
    ensures score in SqliteChunkScores(g, mentions, seedChunks, bound, c) <==>
            c !in seedChunks && exists s, e, walk :: LeadsTo(g, mentions, seedChunks, bound, c, s, e, walk) && Known(g, walk) && score == Score(g, walk)
  {
    var seeds := SeedEntities(mentions, seedChunks);
    if score in SqliteChunkScores(g, mentions, seedChunks, bound, c) {
      var w :| w in SqliteRows(g, seeds, bound) && w.depth > 0 && (c, w.entity) in mentions && w.score == score;
      SqliteRowsAreWalks(g, seeds, bound, w);
      var start, walk :| WalkTo(g, seeds, bound, start, walk) && w == SqliteRowOf(g, start, walk);
      var s := MentioningSeed(mentions, seedChunks, start);
      WalkIsKnown(g, start, walk);
      assert LeadsTo(g, mentions, seedChunks, bound, c, s, start, walk);
    }
    forall s, e, walk | c !in seedChunks && LeadsTo(g, mentions, seedChunks, bound, c, s, e, walk) && Known(g, walk) && score == Score(g, walk)
      ensures score in SqliteChunkScores(g, mentions, seedChunks, bound, c)
    {
      SeedIsMentioned(mentions, seedChunks, s, e);
      assert WalkTo(g, seeds, bound, e, walk);
      SqliteRowsAreWalks(g, seeds, bound, SqliteRowOf(g, e, walk));
    }
  }

  /** What PostgreSQL scores for a chunk: exactly the simple ones among them. */
  lemma {:induction false} PostgresChunkScoresAreWalks(g: Graph, mentions: Mentions, seedChunks: set<ChunkId>, bound: nat, c: ChunkId, score: real)
    ensures score in PostgresChunkScores(g, mentions, seedChunks, bound, c) <==>
            c !in seedChunks && exists s, e, walk ::
              LeadsTo(g, mentions, seedChunks, bound, c, s, e, walk) && Simple(g, e, walk) && Known(g, walk) && score == Score(g, walk)
  {
    var seeds := SeedEntities(mentions, seedChunks);
    if score in PostgresChunkScores(g, mentions, seedChunks, bound, c) {
      var w :| w in PostgresRows(g, seeds, bound) && w.depth > 0 && (c, w.entity) in mentions && w.score == score;
      PostgresRowsAreSimpleWalks(g, seeds, bound, w);
      var start, walk :| WalkTo(g, seeds, bound, start, walk) && Simple(g, start, walk) && w == PostgresRowOf(g, start, walk);
      var s := MentioningSeed(mentions, seedChunks, start);
      WalkIsKnown(g, start, walk);
      assert LeadsTo(g, mentions, seedChunks, bound, c, s, start, walk);
    }
    forall s, e, walk | c !in seedChunks && LeadsTo(g, mentions, seedChunks, bound, c, s, e, walk) && Simple(g, e, walk) && Known(g, walk)
                        && score == Score(g, walk)
      ensures score in PostgresChunkScores(g, mentions, seedChunks, bound, c)
    {
      SeedIsMentioned(mentions, seedChunks, s, e);
      assert WalkTo(g, seeds, bound, e, walk);
      PostgresRowsAreSimpleWalks(g, seeds, bound, PostgresRowOf(g, e, walk));
    }
  }

  lemma {:induction false} MentioningSeed(mentions: Mentions, seedChunks: set<ChunkId>, e: EntityId) returns (s: ChunkId)
    requires e in SeedEntities(mentions, seedChunks)
    ensures s in seedChunks && (s, e) in mentions
  {
    var m :| m in mentions && m.0 in seedChunks && m.1 == e;
    s := m.0;
    assert m == (s, e);
  }

  lemma {:induction false} SeedIsMentioned(mentions: Mentions, seedChunks: set<ChunkId>, s: ChunkId, e: EntityId)
    requires s in seedChunks && (s, e) in mentions
    ensures e in SeedEntities(mentions, seedChunks)
  {
    assert (s, e).0 in seedChunks && (s, e).1 == e;
  }

  predicate MentionsSeed(mentions: Mentions, seedChunks: set<ChunkId>, c: ChunkId) {
    exists m :: m in mentions && m.0 == c && m.1 in SeedEntities(mentions, seedChunks)
  }

  /** A chunk that mentions no seed entity is returned by both backends with the same score, or by neither. */
  lemma {:induction false} ChunkParity(g: Graph, mentions: Mentions, seedChunks: set<ChunkId>, bound: nat, top: real, c: ChunkId)
    requires WeightsAtMost(g, top) && CyclesNeverPay(NoSelfLoops(g), bound, top)
    requires !MentionsSeed(mentions, seedChunks, c)
    ensures Best(SqliteChunkScores(g, mentions, seedChunks, bound, c)) == Best(PostgresChunkScores(g, mentions, seedChunks, bound, c))
  {
    var seeds := SeedEntities(mentions, seedChunks);
    var s, t := SqliteChunkScores(g, mentions, seedChunks, bound, c), PostgresChunkScores(g, mentions, seedChunks, bound, c);
    forall x | x in s ensures exists y :: y in t && x <= y {
      var w :| w in SqliteRows(g, seeds, bound) && w.depth > 0 && (c, w.entity) in mentions && w.score == x;
      SqliteRowsAreWalks(g, seeds, bound, w);
      assert w.pathStart in seeds && (c, w.entity).1 !in seeds;
      var p := SqliteRowIsMatched(g, seeds, bound, top, w);
      assert p.score in t;
    }
    forall y | y in t ensures exists x :: x in s && y <= x {
      PostgresChunkScoreIsSqlite(g, mentions, seedChunks, bound, c, y);
    }
    BestAgrees(s, t);
  }

  /** On any graph, whatever PostgreSQL returns, SQLite returns with no lower score. */
  lemma {:induction false} PostgresChunkScoreIsSqlite(g: Graph, mentions: Mentions, seedChunks: set<ChunkId>, bound: nat, c: ChunkId, score: real)
    requires score in PostgresChunkScores(g, mentions, seedChunks, bound, c)
    ensures score in SqliteChunkScores(g, mentions, seedChunks, bound, c)
  {
    var seeds := SeedEntities(mentions, seedChunks);
    var p :| p in PostgresRows(g, seeds, bound) && p.depth > 0 && (c, p.entity) in mentions && p.score == score;
    PostgresRowIsSqliteRow(g, seeds, bound, p);
    var w := SqliteRow(p.entity, p.depth, p.path[0], p.score);
    assert w in SqliteRows(g, seeds, bound) && (c, w.entity) in mentions;
  }

  /** A seed entity of `c` that has any relationship: SQLite walks out and back to it. */
  predicate ReturnsToSeed(g: Graph, mentions: Mentions, seedChunks: set<ChunkId>, c: ChunkId) {
    exists m, id :: m in mentions && id in g && m.0 == c && m.1 in SeedEntities(mentions, seedChunks) && Incident(g[id], m.1)
  }

  /**
   * Which chunks the two backends return, on every graph without self-loops and for any
   * weights: SQLite returns those of PostgreSQL, and the chunks of its own seed entities.
   */
  lemma {:induction false} ReturnedChunks(g: Graph, mentions: Mentions, seedChunks: set<ChunkId>, bound: nat, c: ChunkId)
    requires NoSelfLoops(g) && c !in seedChunks
    ensures SqliteChunkScores(g, mentions, seedChunks, bound, c) != {} <==>
            || PostgresChunkScores(g, mentions, seedChunks, bound, c) != {}
            || (bound >= 2 && ReturnsToSeed(g, mentions, seedChunks, c))
  {
    var seeds := SeedEntities(mentions, seedChunks);
    var s, t := SqliteChunkScores(g, mentions, seedChunks, bound, c), PostgresChunkScores(g, mentions, seedChunks, bound, c);
    if t != {} {
      var y := Pick(t);
      PostgresChunkScoreIsSqlite(g, mentions, seedChunks, bound, c, y);
    }
    if bound >= 2 && ReturnsToSeed(g, mentions, seedChunks, c) {
      SeedsAreReturned(g, mentions, seedChunks, bound, c);
    }
    if s != {} {
      var x := Pick(s);
      var w :| w in SqliteRows(g, seeds, bound) && w.depth > 0 && (c, w.entity) in mentions && w.score == x;
      SqliteRowsAreWalks(g, seeds, bound, w);
      var start, walk :| WalkTo(g, seeds, bound, start, walk) && w == SqliteRowOf(g, start, walk);
      if w.entity == start {
        ClosedWalksAreLong(g, start, walk);
        var m := (c, w.entity);
        assert m in mentions && walk[0] in g && Incident(g[walk[0]], m.1);
      } else {
        OtherEntitiesAreReturned(g, seeds, bound, start, walk);
        var p :| p in PostgresRows(g, seeds, bound) && p.depth > 0 && p.entity == w.entity;
        assert p.score in t;
      }
    }
  }

  lemma {:induction false} SeedsAreReturned(g: Graph, mentions: Mentions, seedChunks: set<ChunkId>, bound: nat, c: ChunkId)
    requires c !in seedChunks && bound >= 2 && ReturnsToSeed(g, mentions, seedChunks, c)
    ensures SqliteChunkScores(g, mentions, seedChunks, bound, c) != {}
  {
    var seeds := SeedEntities(mentions, seedChunks);
    var m, id :| m in mentions && id in g && m.0 == c && m.1 in seeds && Incident(g[id], m.1);
    OutAndBack(g, m.1, id);
    var w := SqliteRowOf(g, m.1, [id, id]);
    assert WalkTo(g, seeds, bound, m.1, [id, id]);
    SqliteRowsAreWalks(g, seeds, bound, w);
    assert m == (c, w.entity) && w.score in SqliteChunkScores(g, mentions, seedChunks, bound, c);
  }

  lemma {:induction false} OtherEntitiesAreReturned(g: Graph, seeds: set<EntityId>, bound: nat, start: EntityId, walk: seq<RelationshipId>)
    requires WalkTo(g, seeds, bound, start, walk) && Finish(g, start, walk) != start
    ensures exists p :: p in PostgresRows(g, seeds, bound) && p.depth > 0 && p.entity == Finish(g, start, walk)
  {
    var short := EraseCycles(g, start, walk, bound, 0.0);
    var p := PostgresRowOf(g, start, short);
    assert WalkTo(g, seeds, bound, start, short);
    PostgresRowsAreSimpleWalks(g, seeds, bound, p);
  }

  lemma {:induction false} OutAndBack(g: Graph, e: EntityId, id: RelationshipId)
    requires id in g && Incident(g[id], e)
    ensures IsWalk(g, e, [id, id]) && Finish(g, e, [id, id]) == e
  {
    var there := Other(g[id], e);
    assert [id, id][1..] == [id] && [id][1..] == [];
    assert Other(g[id], there) == e && IsWalk(g, e, []) && Finish(g, e, []) == e;
    assert IsWalk(g, there, [id]) && Finish(g, there, [id]) == e;
  }

  lemma {:induction false} ClosedWalksAreLong(g: Graph, start: EntityId, walk: seq<RelationshipId>)
    requires IsWalk(g, start, walk) && NoSelfLoops(g) && Finish(g, start, walk) == start && walk != []
    ensures |walk| >= 2
  {
    if |walk| == 1 {
      LoopFreeCyclesAreLong(g, start, walk, 0);
    }
  }

  // --------------------------------------------------------- Returning to a seed

  /** What SQLite scores for walking over `r` and back. */
  function OutAndBackScore(r: Relationship): real {
    Over(Times(Clamped(r), Clamped(r)), 3)
  }

  /** The scores of going out from a seed entity that `c` mentions, and back over the same relationship. */
  function ReturnScores(g: Graph, mentions: Mentions, seedChunks: set<ChunkId>, bound: nat, c: ChunkId): set<real> {
    if bound < 2 || c in seedChunks then {}
    else
      set m, id | m in mentions && id in g && m.0 == c && m.1 in SeedEntities(mentions, seedChunks) && Incident(g[id], m.1) ::
        OutAndBackScore(g[id])
  }

  lemma {:induction false} OutAndBackScores(g: Graph, id: RelationshipId)
    requires id in g
    ensures Known(g, [id, id]) && Score(g, [id, id]) == OutAndBackScore(g[id])
  {
    assert [id, id] == [id] + [id] && [id][1..] == [];
    ProductConcat(g, [id], [id]);
  }

  /** What lies between the first and the last step of a closed walk does not pay for its length. */
  lemma {:induction false} MiddleIsCheap(g: Graph, middle: seq<RelationshipId>, top: real)
    requires Known(g, middle) && WeightsAtMost(g, top) && top <= 4.0
    ensures Times(WeightProduct(g, middle), Factorial(3)) <= Factorial(3 + |middle|)
  {
    if middle != [] {
      var n := |middle| - 1;
      assert middle == middle[..n] + [middle[n]];
      ProductSnoc(g, middle[..n], middle[n]);
      MiddleIsCheap(g, middle[..n], top);
      OneStep(3 + n, WeightProduct(g, middle[..n]), Clamped(g[middle[n]]), Factorial(3), top);
    }
  }

  lemma {:induction false} NoMiddleOrCheap(g: Graph, middle: seq<RelationshipId>, bound: nat, top: real)
    requires Known(g, middle) && WeightsAtMost(g, top) && CyclesNeverPay(true, bound, top) && |middle| + 2 <= bound
    ensures Times(WeightProduct(g, middle), Factorial(3)) <= Factorial(3 + |middle|)
  {
    if middle != [] {
      if top > 4.0 {
        SquareAbove(top);
      }
      MiddleIsCheap(g, middle, top);
    }
  }

  lemma {:induction false} LastStepReturns(g: Graph, start: EntityId, walk: seq<RelationshipId>)
    requires IsWalk(g, start, walk) && Finish(g, start, walk) == start && |walk| >= 2
    ensures walk[0] in g && Incident(g[walk[0]], start)
    ensures walk[|walk| - 1] in g && Incident(g[walk[|walk| - 1]], start)
  {
    var n := |walk| - 1;
    assert walk == walk[..n] + [walk[n]];
    WalkConcat(g, start, walk[..n], [walk[n]]);
    ExtendWalk(g, start, walk[..n], walk[n]);
  }

  lemma {:induction false} HeavierEnd(x: real, y: real)
    requires x > 0.0 && y > 0.0
    ensures Over(Times(x, y), 3) <= Over(Times(if x <= y then y else x, if x <= y then y else x), 3)
  {
    var z := if x <= y then y else x;
    MultiplyBelow(x, y, z, z);
    assert Factorial(3) == 6.0;
  }

  lemma {:induction false} SquareAbove(top: real)
    requires top > 4.0
    ensures top * top > 12.0
  {
  }

  /** A closed walk scores no more than going out and back over the heavier of its first and last steps. */
  lemma {:induction false} ClosedWalkIsCheap(g: Graph, start: EntityId, walk: seq<RelationshipId>, bound: nat, top: real)
    returns (id: RelationshipId)
    requires IsWalk(g, start, walk) && Finish(g, start, walk) == start && 1 <= |walk| <= bound
    requires NoSelfLoops(g) && WeightsAtMost(g, top) && CyclesNeverPay(true, bound, top)
    ensures id in g && Incident(g[id], start)
    ensures Known(g, walk) && Score(g, walk) <= OutAndBackScore(g[id])
  {
    ClosedWalksAreLong(g, start, walk);
    LastStepReturns(g, start, walk);
    WalkIsKnown(g, start, walk);
    var n := |walk| - 1;
    var a, middle, b := [walk[0]], walk[1..n], [walk[n]];
    assert walk == a + middle + b;
    KnownParts(g, a, middle, b);
    NoMiddleOrCheap(g, middle, bound, top);
    ProductConcat(g, a, b);
    ProductConcat(g, a, middle);
    ProductConcat(g, a + middle, b);
    CutFractions(WeightProduct(g, a), WeightProduct(g, middle), WeightProduct(g, b),
                 WeightProduct(g, a + b), WeightProduct(g, a + middle), WeightProduct(g, walk), 3, |walk| + 1);
    assert a[1..] == [] && b[1..] == [];
    id := if Clamped(g[walk[0]]) <= Clamped(g[walk[n]]) then walk[n] else walk[0];
    HeavierEnd(Clamped(g[walk[0]]), Clamped(g[walk[n]]));
  }

  /**
   * For every chunk, whether it mentions a seed entity or not: SQLite's score is the best
   * of PostgreSQL's and of going out and back at a seed entity that the chunk mentions.
   */
  lemma {:induction false} ChunkScoresAreExact(g: Graph, mentions: Mentions, seedChunks: set<ChunkId>, bound: nat, top: real, c: ChunkId)
    requires NoSelfLoops(g) && WeightsAtMost(g, top) && CyclesNeverPay(true, bound, top)
    ensures Best(SqliteChunkScores(g, mentions, seedChunks, bound, c)) ==
            Best(PostgresChunkScores(g, mentions, seedChunks, bound, c) + ReturnScores(g, mentions, seedChunks, bound, c))
  {
    var s, t := SqliteChunkScores(g, mentions, seedChunks, bound, c), PostgresChunkScores(g, mentions, seedChunks, bound, c);
    var u := ReturnScores(g, mentions, seedChunks, bound, c);
    forall x | x in s ensures exists y :: y in t + u && x <= y {
      var y := ScoreIsMatched(g, mentions, seedChunks, bound, top, c, x);
      assert y in t + u;
    }
    forall y | y in t + u ensures exists x :: x in s && y <= x {
      if y in t {
        PostgresChunkScoreIsSqlite(g, mentions, seedChunks, bound, c, y);
      } else {
        ReturnScoreIsSqlite(g, mentions, seedChunks, bound, c, y);
      }
      assert y in s && y <= y;
    }
    BestAgrees(s, t + u);
  }

  lemma {:induction false} ScoreIsMatched(g: Graph, mentions: Mentions, seedChunks: set<ChunkId>, bound: nat, top: real, c: ChunkId, x: real)
    returns (y: real)
    requires NoSelfLoops(g) && WeightsAtMost(g, top) && CyclesNeverPay(true, bound, top)
    requires x in SqliteChunkScores(g, mentions, seedChunks, bound, c)
    ensures x <= y
    ensures y in PostgresChunkScores(g, mentions, seedChunks, bound, c) || y in ReturnScores(g, mentions, seedChunks, bound, c)
  {
    var seeds := SeedEntities(mentions, seedChunks);
    var w :| w in SqliteRows(g, seeds, bound) && w.depth > 0 && (c, w.entity) in mentions && w.score == x;
    SqliteRowsAreWalks(g, seeds, bound, w);
    var start, walk :| WalkTo(g, seeds, bound, start, walk) && w == SqliteRowOf(g, start, walk);
    if w.entity == start {
      var id := ClosedWalkIsCheap(g, start, walk, bound, top);
      ClosedWalksAreLong(g, start, walk);
      var m := (c, start);
      assert m in mentions && m.1 in seeds;
      y := OutAndBackScore(g[id]);
    } else {
      var p := SqliteRowIsMatched(g, seeds, bound, top, w);
      y := p.score;
    }
  }

  lemma {:induction false} ReturnScoreIsSqlite(g: Graph, mentions: Mentions, seedChunks: set<ChunkId>, bound: nat, c: ChunkId, score: real)
    requires score in ReturnScores(g, mentions, seedChunks, bound, c)
    ensures score in SqliteChunkScores(g, mentions, seedChunks, bound, c)
  {
    var seeds := SeedEntities(mentions, seedChunks);
    var m, id :| m in mentions && id in g && m.0 == c && m.1 in seeds && Incident(g[id], m.1) && score == OutAndBackScore(g[id]);
    OutAndBack(g, m.1, id);
    OutAndBackScores(g, id);
    var w := SqliteRowOf(g, m.1, [id, id]);
    assert WalkTo(g, seeds, bound, m.1, [id, id]);
    SqliteRowsAreWalks(g, seeds, bound, w);
    assert m == (c, w.entity);
  }
}
