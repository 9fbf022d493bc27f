/**
 * The recursive graph query of both backends. SQLite follows every walk up to the
 * depth bound, PostgreSQL only those that never return to an entity already on
 * their path. The module reduces both row sets to walks.
 */
module GraphWalk {
  import opened Sorting
  import opened Tables

  type Graph = map<RelationshipId, Relationship>

  function Clamped(r: Relationship): (w: real)
    ensures w >= MIN_WEIGHT && w >= r.weight && (w == MIN_WEIGHT || w == r.weight)
  {
    if r.weight < MIN_WEIGHT then MIN_WEIGHT else r.weight
  }

  /** The score of a row of the given depth and score, extended by `r`. */
  function Extended(score: real, r: Relationship, depth: nat): real {
    score * (Clamped(r) / (depth + 2) as real)
  }

  predicate Incident(r: Relationship, e: EntityId) {
    r.source == e || r.target == e
  }

  /** The far end of a relationship; a self-loop leads back to `e`. */
  function Other(r: Relationship, e: EntityId): (other: EntityId)
    ensures Incident(r, e) ==> (r.source, r.target) == (e, other) || (r.source, r.target) == (other, e)
  {
    if r.source == e then r.target else r.source
  }

  // ---------------------------------------------------------------- SQLite rows

  datatype SqliteRow = SqliteRow(entity: EntityId, depth: nat, pathStart: EntityId, score: real)

  function SqliteStep(row: SqliteRow, r: Relationship): SqliteRow {
    SqliteRow(Other(r, row.entity), row.depth + 1, row.pathStart,
              Extended(row.score, r, row.depth))
  }

  /** The rows that the recursive query adds in round `d`. */
  function SqliteLevel(g: Graph, seeds: set<EntityId>, d: nat): set<SqliteRow> {
    if d == 0 then
      set e | e in seeds :: SqliteRow(e, 0, e, 1.0)
    else
      set w, id | w in SqliteLevel(g, seeds, d - 1) && id in g && Incident(g[id], w.entity) :: SqliteStep(w, g[id])
  }

  /** All rounds: only rows shallower than `bound` are extended. */
  function SqliteRows(g: Graph, seeds: set<EntityId>, bound: nat): set<SqliteRow> {
    if bound == 0 then
      SqliteLevel(g, seeds, 0)
    else
      SqliteRows(g, seeds, bound - 1) + SqliteLevel(g, seeds, bound)
  }

  // ------------------------------------------------------------ PostgreSQL rows

  datatype PostgresRow = PostgresRow(entity: EntityId, depth: nat, path: seq<EntityId>, score: real)

  function PostgresStep(row: PostgresRow, r: Relationship): PostgresRow {
    PostgresRow(Other(r, row.entity), row.depth + 1, row.path + [Other(r, row.entity)],
                Extended(row.score, r, row.depth))
  }

  predicate PostgresJoins(row: PostgresRow, r: Relationship) {
    Incident(r, row.entity) && Other(r, row.entity) !in row.path
  }

  function PostgresLevel(g: Graph, seeds: set<EntityId>, d: nat): set<PostgresRow> {
    if d == 0 then
      set e | e in seeds :: PostgresRow(e, 0, [e], 1.0)
    else
      set w, id | w in PostgresLevel(g, seeds, d - 1) && id in g && PostgresJoins(w, g[id]) :: PostgresStep(w, g[id])
  }

  function PostgresRows(g: Graph, seeds: set<EntityId>, bound: nat): set<PostgresRow> {
    if bound == 0 then
      PostgresLevel(g, seeds, 0)
    else
      PostgresRows(g, seeds, bound - 1) + PostgresLevel(g, seeds, bound)
  }

  // ----------------------------------------------------------------------- Walks

  /** `walk` lists relationship rows that can be followed one after the other from `start`. */
  predicate IsWalk(g: Graph, start: EntityId, walk: seq<RelationshipId>)
    decreases |walk|
  {
    walk == [] ||
    (walk[0] in g && Incident(g[walk[0]], start) && IsWalk(g, Other(g[walk[0]], start), walk[1..]))
  }

  function Finish(g: Graph, start: EntityId, walk: seq<RelationshipId>): EntityId
    requires IsWalk(g, start, walk)
    decreases |walk|
  {
    if walk == [] then start else Finish(g, Other(g[walk[0]], start), walk[1..])
  }

  function Vertices(g: Graph, start: EntityId, walk: seq<RelationshipId>): (v: seq<EntityId>)
    requires IsWalk(g, start, walk)
    ensures |v| == |walk| + 1 && v[0] == start && v[|walk|] == Finish(g, start, walk)
    decreases |walk|
  {
    if walk == [] then [start] else [start] + Vertices(g, Other(g[walk[0]], start), walk[1..])
  }

  predicate Simple(g: Graph, start: EntityId, walk: seq<RelationshipId>)
    requires IsWalk(g, start, walk)
  {
    Distinct(Vertices(g, start, walk))
  }

  function Factorial(n: nat): (f: real)
    ensures f > 0.0
  {
    if n == 0 then 1.0 else n as real * Factorial(n - 1)
  }

  function Times(x: real, y: real): real {
    x * y
  }

  function Over(p: real, n: nat): (q: real)
    ensures p > 0.0 ==> q > 0.0
  {
    p / Factorial(n)
  }

  predicate Known(g: Graph, walk: seq<RelationshipId>) {
    forall i :: 0 <= i < |walk| ==> walk[i] in g
  }

  function WeightProduct(g: Graph, walk: seq<RelationshipId>): (p: real)
    requires Known(g, walk)
    ensures p > 0.0
  {
    if walk == [] then 1.0 else Clamped(g[walk[0]]) * WeightProduct(g, walk[1..])
  }

  /** What a row scores: its clamped weights multiplied, over (depth + 1)!. */
  function Score(g: Graph, walk: seq<RelationshipId>): (s: real)
    requires Known(g, walk)
    ensures s > 0.0
  {
    Over(WeightProduct(g, walk), |walk| + 1)
  }

  lemma {:induction false} WalkIsKnown(g: Graph, start: EntityId, walk: seq<RelationshipId>)
    requires IsWalk(g, start, walk)
    ensures Known(g, walk)
    decreases |walk|
  {
    if walk != [] {
      WalkIsKnown(g, Other(g[walk[0]], start), walk[1..]);
      assert forall i :: 1 <= i < |walk| ==> walk[i] == walk[1..][i - 1];
    }
  }

  lemma {:induction false} ProductConcat(g: Graph, a: seq<RelationshipId>, b: seq<RelationshipId>)
    requires Known(g, a) && Known(g, b)
    ensures Known(g, a + b) && WeightProduct(g, a + b) == Times(WeightProduct(g, a), WeightProduct(g, b))
  {
    if a == [] {
      assert a + b == b;
    } else {
      assert (a + b)[1..] == a[1..] + b;
      ProductConcat(g, a[1..], b);
      TimesAssociates(Clamped(g[a[0]]), WeightProduct(g, a[1..]), WeightProduct(g, b));
    }
  }

  lemma {:induction false} TimesAssociates(x: real, y: real, z: real)
    ensures x * Times(y, z) == Times(x * y, z)
  {
  }

  lemma {:induction false} WalkConcat(g: Graph, start: EntityId, a: seq<RelationshipId>, b: seq<RelationshipId>)
    ensures IsWalk(g, start, a + b) <==> IsWalk(g, start, a) && IsWalk(g, Finish(g, start, a), b)
    ensures IsWalk(g, start, a + b) ==>
              && Finish(g, start, a + b) == Finish(g, Finish(g, start, a), b)
              && Vertices(g, start, a + b) == Vertices(g, start, a) + Vertices(g, Finish(g, start, a), b)[1..]
    decreases |a|
  {
    if a == [] {
      assert a + b == b;
    } else {
      assert (a + b)[0] == a[0] && (a + b)[1..] == a[1..] + b;
      if a[0] in g && Incident(g[a[0]], start) {
        WalkConcat(g, Other(g[a[0]], start), a[1..], b);
      }
    }
  }

  lemma {:induction false} FractionsMultiply(p: real, c: real, f: real, n: real, whole: real)
    requires f > 0.0 && n > 0.0 && whole == n * f
    ensures whole != 0.0 && (p * c) / whole == (p / f) * (c / n)
  {
    var x, y := p / f, c / n;
    assert p == x * f && c == y * n;
    assert p * c == (x * y) * whole;
  }

  lemma {:induction false} ProductSnoc(g: Graph, walk: seq<RelationshipId>, id: RelationshipId)
    requires Known(g, walk) && id in g
    ensures Known(g, walk + [id])
    ensures WeightProduct(g, walk + [id]) == Times(WeightProduct(g, walk), Clamped(g[id]))
  {
    ProductConcat(g, walk, [id]);
    assert [id][1..] == [];
  }

  lemma {:induction false} ScoreSnoc(g: Graph, walk: seq<RelationshipId>, id: RelationshipId)
    requires Known(g, walk) && id in g
    ensures Known(g, walk + [id])
    ensures Score(g, walk + [id]) == Extended(Score(g, walk), g[id], |walk|)
  {
    var n := |walk| + 2;
    ProductSnoc(g, walk, id);
    FractionsMultiply(WeightProduct(g, walk), Clamped(g[id]), Factorial(n - 1), n as real, Factorial(n));
  }

  /** A walk without a step scores one, and each step multiplies by its clamped weight over its number plus one. */
  lemma {:induction false} ScoreByStep(g: Graph, walk: seq<RelationshipId>, id: RelationshipId)
    requires Known(g, walk) && id in g
    ensures Known(g, walk + [id]) && Score(g, []) == 1.0
    ensures Score(g, walk + [id]) == Score(g, walk) * (Clamped(g[id]) / (|walk| + 2) as real)
  {
    EmptyWalkScoresOne(g);
    ScoreSnoc(g, walk, id);
  }

  // ------------------------------------------------- Rows are exactly the walks

  function SqliteRowOf(g: Graph, start: EntityId, walk: seq<RelationshipId>): SqliteRow
    requires IsWalk(g, start, walk)
  {
    WalkIsKnown(g, start, walk);
    SqliteRow(Finish(g, start, walk), |walk|, start, Score(g, walk))
  }

  function PostgresRowOf(g: Graph, start: EntityId, walk: seq<RelationshipId>): PostgresRow
    requires IsWalk(g, start, walk)
  {
    WalkIsKnown(g, start, walk);
    PostgresRow(Finish(g, start, walk), |walk|, Vertices(g, start, walk), Score(g, walk))
  }

  lemma {:induction false} ExtendWalk(g: Graph, start: EntityId, walk: seq<RelationshipId>, id: RelationshipId)
    requires IsWalk(g, start, walk) && id in g && Incident(g[id], Finish(g, start, walk))
    ensures IsWalk(g, start, walk + [id])
    ensures Finish(g, start, walk + [id]) == Other(g[id], Finish(g, start, walk))
    ensures Vertices(g, start, walk + [id]) == Vertices(g, start, walk) + [Other(g[id], Finish(g, start, walk))]
  {
    var e := Finish(g, start, walk);
    var last := Other(g[id], e);
    assert [id][1..] == [];
    assert IsWalk(g, last, []) && Finish(g, last, []) == last && Vertices(g, last, []) == [last];
    assert IsWalk(g, e, [id]) && Finish(g, e, [id]) == last && Vertices(g, e, [id]) == [e, last];
    WalkConcat(g, start, walk, [id]);
  }

  lemma {:induction false} ExtendRows(g: Graph, start: EntityId, walk: seq<RelationshipId>, id: RelationshipId)
    requires IsWalk(g, start, walk) && id in g && Incident(g[id], Finish(g, start, walk))
    ensures IsWalk(g, start, walk + [id])
    ensures SqliteRowOf(g, start, walk + [id]) == SqliteStep(SqliteRowOf(g, start, walk), g[id])
    ensures PostgresRowOf(g, start, walk + [id]) == PostgresStep(PostgresRowOf(g, start, walk), g[id])
  {
    ExtendWalk(g, start, walk, id);
    WalkIsKnown(g, start, walk);
    ScoreSnoc(g, walk, id);
  }

  lemma {:induction false} EmptyWalkScoresOne(g: Graph)
    ensures Score(g, []) == 1.0
  {
    assert Factorial(1) == 1.0 * Factorial(0);
  }

  lemma {:induction false} SqliteRowHasWalk(g: Graph, seeds: set<EntityId>, d: nat, row: SqliteRow) returns (walk: seq<RelationshipId>)
    requires row in SqliteLevel(g, seeds, d)
    ensures row.pathStart in seeds && |walk| == d
    ensures IsWalk(g, row.pathStart, walk) && row == SqliteRowOf(g, row.pathStart, walk)
  {
    if d == 0 {
      walk := [];
      EmptyWalkScoresOne(g);
    } else {
      var w, id :| w in SqliteLevel(g, seeds, d - 1) && id in g && Incident(g[id], w.entity) && row == SqliteStep(w, g[id]);
      var prefix := SqliteRowHasWalk(g, seeds, d - 1, w);
      ExtendRows(g, w.pathStart, prefix, id);
      walk := prefix + [id];
    }
  }

  lemma {:induction false} WalkHasSqliteRow(g: Graph, seeds: set<EntityId>, start: EntityId, walk: seq<RelationshipId>)
    requires start in seeds && IsWalk(g, start, walk)
    ensures SqliteRowOf(g, start, walk) in SqliteLevel(g, seeds, |walk|)
    decreases |walk|
  {
    EmptyWalkScoresOne(g);
    if walk != [] {
      var n := |walk| - 1;
      var prefix, id := walk[..n], walk[n];
      assert walk == prefix + [id];
      WalkConcat(g, start, prefix, [id]);
      WalkHasSqliteRow(g, seeds, start, prefix);
      ExtendRows(g, start, prefix, id);
    }
  }

  lemma {:induction false} PostgresRowHasWalk(g: Graph, seeds: set<EntityId>, d: nat, row: PostgresRow) returns (walk: seq<RelationshipId>)
    requires row in PostgresLevel(g, seeds, d)
    ensures row.path != [] && row.path[0] in seeds && |walk| == d
    ensures IsWalk(g, row.path[0], walk) && row == PostgresRowOf(g, row.path[0], walk)
    ensures Simple(g, row.path[0], walk)
  {
    if d == 0 {
      walk := [];
      EmptyWalkScoresOne(g);
    } else {
      var w, id :| w in PostgresLevel(g, seeds, d - 1) && id in g && PostgresJoins(w, g[id]) && row == PostgresStep(w, g[id]);
      var prefix := PostgresRowHasWalk(g, seeds, d - 1, w);
      ExtendRows(g, w.path[0], prefix, id);
      walk := prefix + [id];
    }
  }

  lemma {:induction false} SimpleWalkHasPostgresRow(g: Graph, seeds: set<EntityId>, start: EntityId, walk: seq<RelationshipId>)
    requires start in seeds && IsWalk(g, start, walk) && Simple(g, start, walk)
    ensures PostgresRowOf(g, start, walk) in PostgresLevel(g, seeds, |walk|)
    decreases |walk|
  {
    EmptyWalkScoresOne(g);
    if walk != [] {
      var n := |walk| - 1;
      var prefix, id := walk[..n], walk[n];
      assert walk == prefix + [id];
      WalkConcat(g, start, prefix, [id]);
      ExtendRows(g, start, prefix, id);
      var shorter, whole := Vertices(g, start, prefix), Vertices(g, start, walk);
      assert whole == shorter + [whole[|walk|]];
      assert forall i :: 0 <= i < |shorter| ==> shorter[i] == whole[i];
      SimpleWalkHasPostgresRow(g, seeds, start, prefix);
      assert PostgresJoins(PostgresRowOf(g, start, prefix), g[id]);
    }
  }

  lemma {:induction false} LevelsAreRows(g: Graph, seeds: set<EntityId>, d: nat, bound: nat)
    requires d <= bound
    ensures SqliteLevel(g, seeds, d) <= SqliteRows(g, seeds, bound)
    ensures PostgresLevel(g, seeds, d) <= PostgresRows(g, seeds, bound)
    decreases bound
  {
    if d < bound {
      LevelsAreRows(g, seeds, d, bound - 1);
    }
  }

  lemma {:induction false} SqliteRowLevel(g: Graph, seeds: set<EntityId>, bound: nat, row: SqliteRow) returns (d: nat)
    requires row in SqliteRows(g, seeds, bound)
    ensures d <= bound && row in SqliteLevel(g, seeds, d)
  {
    if row in SqliteLevel(g, seeds, bound) {
      d := bound;
    } else {
      d := SqliteRowLevel(g, seeds, bound - 1, row);
    }
  }

  lemma {:induction false} PostgresRowLevel(g: Graph, seeds: set<EntityId>, bound: nat, row: PostgresRow) returns (d: nat)
    requires row in PostgresRows(g, seeds, bound)
    ensures d <= bound && row in PostgresLevel(g, seeds, d)
  {
    if row in PostgresLevel(g, seeds, bound) {
      d := bound;
    } else {
      d := PostgresRowLevel(g, seeds, bound - 1, row);
    }
  }

  ghost predicate WalkTo(g: Graph, seeds: set<EntityId>, bound: nat, start: EntityId, walk: seq<RelationshipId>) {
    start in seeds && |walk| <= bound && IsWalk(g, start, walk)
  }

  /** The recursive query of SQLite returns the walks up to the bound, no more and no less. */
  lemma {:induction false} SqliteRowsAreWalks(g: Graph, seeds: set<EntityId>, bound: nat, row: SqliteRow)
    ensures row in SqliteRows(g, seeds, bound) <==>
            exists start, walk :: WalkTo(g, seeds, bound, start, walk) && row == SqliteRowOf(g, start, walk)
  {
    if row in SqliteRows(g, seeds, bound) {
      var d := SqliteRowLevel(g, seeds, bound, row);
      var walk := SqliteRowHasWalk(g, seeds, d, row);
      assert WalkTo(g, seeds, bound, row.pathStart, walk);
    }
    forall start, walk | WalkTo(g, seeds, bound, start, walk) && row == SqliteRowOf(g, start, walk)
      ensures row in SqliteRows(g, seeds, bound)
    {
      WalkHasSqliteRow(g, seeds, start, walk);
      LevelsAreRows(g, seeds, |walk|, bound);
    }
  }

  /** The recursive query of PostgreSQL returns exactly the simple ones among them. */
  lemma {:induction false} PostgresRowsAreSimpleWalks(g: Graph, seeds: set<EntityId>, bound: nat, row: PostgresRow)
    ensures row in PostgresRows(g, seeds, bound) <==>
            exists start, walk :: WalkTo(g, seeds, bound, start, walk) && Simple(g, start, walk) && row == PostgresRowOf(g, start, walk)
  {
    if row in PostgresRows(g, seeds, bound) {
      var d := PostgresRowLevel(g, seeds, bound, row);
      var walk := PostgresRowHasWalk(g, seeds, d, row);
      assert WalkTo(g, seeds, bound, row.path[0], walk);
    }
    forall start, walk | WalkTo(g, seeds, bound, start, walk) && Simple(g, start, walk) && row == PostgresRowOf(g, start, walk)
      ensures row in PostgresRows(g, seeds, bound)
    {
      SimpleWalkHasPostgresRow(g, seeds, start, walk);
      LevelsAreRows(g, seeds, |walk|, bound);
    }
  }
}
