/**
 * Runs of the optimiser on documents whose relationships join three entities, among any
 * number of others: what the move loops can do that their goal does not promise.
 */
module LouvainRuns {
  import opened Wrappers
  import opened EntityModel
  import opened SparseGraphs
  import opened Modularity
  import opened Louvain
  import opened LouvainSettling
  import opened EmbeddedGraphs

  // ------------------------------------------------------------ Three-node graphs

  predicate IsThreeNode(g: SparseGraph) {
    |g.adjacency| == 3 && |g.nodeDegrees| == 3 && g.totalWeight > 0.0 && forall i :: 0 <= i < 3 ==> LinksBelow(g.adjacency[i], 3)
  }

  function IfIn(a: Assignment, j: nat, c: nat, x: real): real
    requires j < |a|
  {
    if a[j] == c then x else 0.0
  }

  lemma {:induction false} ThreeNodeGain(g: SparseGraph, a: Assignment, i: nat, c: nat)
    requires IsThreeNode(g) && |a| == 3 && i < 3
    ensures CandidateGain(g, 1.0, a, i, c) ==
            Gain(g.totalWeight, 1.0,
                 IfIn(a, 0, c, WeightTo(g.adjacency[i], 0)) + IfIn(a, 1, c, WeightTo(g.adjacency[i], 1)) + IfIn(a, 2, c, WeightTo(g.adjacency[i], 2)),
                 g.nodeDegrees[i],
                 IfIn(a, 0, c, g.nodeDegrees[0]) + IfIn(a, 1, c, g.nodeDegrees[1]) + IfIn(a, 2, c, g.nodeDegrees[2]))
  {
    var row, degrees := g.adjacency[i], g.nodeDegrees;
    ConnectionsAreByNode(row, a, c);
    assert ConnectionsBelow(row, a, c, 1) == IfIn(a, 0, c, WeightTo(row, 0));
    assert ConnectionsBelow(row, a, c, 2) == ConnectionsBelow(row, a, c, 1) + IfIn(a, 1, c, WeightTo(row, 1));
    assert DegreeOf(a, degrees, c, 1) == IfIn(a, 0, c, degrees[0]);
    assert DegreeOf(a, degrees, c, 2) == DegreeOf(a, degrees, c, 1) + IfIn(a, 1, c, degrees[1]);
  }

  lemma {:induction false} OneLink(row: seq<Link>, j: nat)
    requires |row| == 1
    ensures WeightTo(row, j) == if row[0].node == j then row[0].weight else 0.0
    ensures RowSum(row) == row[0].weight
  {
    assert row[..0] == [];
    assert WeightTo([], j) == 0.0 && RowSum([]) == 0.0;
  }

  lemma {:induction false} TwoLinks(row: seq<Link>, j: nat)
    requires |row| == 2
    ensures WeightTo(row, j) == (if row[0].node == j then row[0].weight else 0.0) + (if row[1].node == j then row[1].weight else 0.0)
    ensures RowSum(row) == row[0].weight + row[1].weight
  {
    OneLink(row[..1], j);
  }

  lemma {:induction false} ThreeNodeRegular(g: SparseGraph)
    requires IsThreeNode(g) && g.totalWeight == g.nodeDegrees[0] + g.nodeDegrees[1] + g.nodeDegrees[2]
    requires DegreesAccount(g.adjacency, g.nodeDegrees)
    requires WeightTo(g.adjacency[0], 1) == WeightTo(g.adjacency[1], 0)
    requires WeightTo(g.adjacency[0], 2) == WeightTo(g.adjacency[2], 0)
    requires WeightTo(g.adjacency[1], 2) == WeightTo(g.adjacency[2], 1)
    ensures Regular(g)
  {
    var ds := g.nodeDegrees;
    var one, two := ds[..1], ds[..2];
    assert two[..1] == one && one[..0] == [];
    assert Sum([]) == 0.0 && Sum(one) == ds[0];
    assert Sum(two) == ds[0] + ds[1];
    forall i, j | 0 <= i < 3 && 0 <= j < 3 ensures WeightTo(g.adjacency[i], j) == WeightTo(g.adjacency[j], i) {
      assert i == 0 || i == 1 || i == 2;
    }
  }

  /** From `a`, the turn of node `i` leads to `b` and nowhere else. */
  ghost predicate OnlyTurn(g: SparseGraph, a: Assignment, i: nat, b: Assignment) {
    forall x: Assignment :: IsTurn(g, 1.0, a, i, x) <==> x == b
  }

  lemma {:induction false} StrictlyBest(g: SparseGraph, a: Assignment, i: nat, best: nat)
    requires Regular(g) && Fits(g, a) && i < |a|
    requires if best == a[i] then IsBest(g, 1.0, a, i, best)
             else
               && NeighborCommunity(g, a, i, best) && CandidateGain(g, 1.0, a, i, best) > 0.0
               && forall c: nat :: NeighborCommunity(g, a, i, c) && c != a[i] && c != best ==>
                    CandidateGain(g, 1.0, a, i, c) < CandidateGain(g, 1.0, a, i, best)
    ensures OnlyTurn(g, a, i, a[i := best])
  {
    assert IsBest(g, 1.0, a, i, best);
    forall other: nat | IsBest(g, 1.0, a, i, other) ensures other == best {
    }
  }

  ghost predicate OnlySweep(g: SparseGraph, a: Assignment, b: Assignment) {
    forall x: Assignment :: IsSweep(g, 1.0, a, x) <==> x == b
  }

  lemma {:induction false} ThreeTurns(g: SparseGraph, a: Assignment, a1: Assignment, a2: Assignment, a3: Assignment)
    requires |a| == 3 && OnlyTurn(g, a, 0, a1) && OnlyTurn(g, a1, 1, a2) && OnlyTurn(g, a2, 2, a3)
    ensures OnlySweep(g, a, a3)
  {
    forall x: Assignment ensures SweepsFirst(g, 1.0, a, 1, x) <==> x == a1 {
      assert SweepsFirst(g, 1.0, a, 0, a);
      if x == a1 {
        assert SweepsVia(g, 1.0, a, 1, a, x);
      }
    }
    forall x: Assignment ensures SweepsFirst(g, 1.0, a, 2, x) <==> x == a2 {
      if x == a2 {
        assert SweepsVia(g, 1.0, a, 2, a1, x);
      }
    }
    forall x: Assignment ensures SweepsFirst(g, 1.0, a, 3, x) <==> x == a3 {
      if x == a3 {
        assert SweepsVia(g, 1.0, a, 3, a2, x);
      }
    }
  }

  // -------------------------------------------- Among entities without relationships

  /** `edge` relates the entities `i` and `j`. */
  predicate Relates(entities: seq<EntityNode>, edge: EntityEdge, i: nat, j: nat, weight: real)
    requires i < |entities| && j < |entities|
  {
    edge.source.name == entities[i].key.name && edge.target.name == entities[j].key.name && edge.weight == weight
  }

  lemma {:induction false} RelatesEnds(entities: seq<EntityNode>, index: map<string, nat>, edge: EntityEdge, i: nat, j: nat, weight: real)
    requires NamesDiffer(entities) && Indexes(index, entities) && i < |entities| && j < |entities| && i != j
    requires Relates(entities, edge, i, j, weight)
    ensures Ends(index, edge) == Some((i, j))
  {
    forall k | 0 <= k < |entities| ensures index[entities[k].key.name] == k {
      assert entities[index[entities[k].key.name]].key.name == entities[k].key.name;
    }
  }

  lemma {:induction false} TwoEdges(index: map<string, nat>, edges: seq<EntityEdge>, i: nat, j: nat)
    requires |edges| == 2
    ensures EdgeWeight(index, edges, i, j) ==
            (if Joins(index, edges[0], i, j) then edges[0].weight else 0.0) + (if Joins(index, edges[1], i, j) then edges[1].weight else 0.0)
  {
    assert edges[..1][..0] == [];
    assert EdgeWeight(index, [], i, j) == 0.0;
    assert EdgeWeight(index, edges[..1], i, j) == if Joins(index, edges[0], i, j) then edges[0].weight else 0.0;
  }

  lemma {:induction false} ThreeEdges(index: map<string, nat>, edges: seq<EntityEdge>, i: nat, j: nat)
    requires |edges| == 3
    ensures EdgeWeight(index, edges, i, j) ==
            (if Joins(index, edges[0], i, j) then edges[0].weight else 0.0) + (if Joins(index, edges[1], i, j) then edges[1].weight else 0.0)
            + (if Joins(index, edges[2], i, j) then edges[2].weight else 0.0)
  {
    TwoEdges(index, edges[..2], i, j);
  }

  lemma {:induction false} OnlyTurnEmbeds(g: SparseGraph, h: SparseGraph, a: Assignment, i: nat, b: Assignment)
    requires Embeds(g, h) && Fits(g, a) && i < |a| == |b| && OnlyTurn(g, a, i, b)
    ensures OnlyTurn(h, Padded(a, |h.adjacency|), i, Padded(b, |h.adjacency|))
  {
    var p, q := Padded(a, |h.adjacency|), Padded(b, |h.adjacency|);
    forall x: Assignment ensures IsTurn(h, 1.0, p, i, x) <==> x == q {
      TurnEmbeds(g, h, 1.0, a, i, b);
      assert IsTurn(g, 1.0, a, i, b);
      if IsTurn(h, 1.0, p, i, x) {
        var y := TurnComesFrom(g, h, 1.0, a, i, x);
      }
    }
  }

  lemma {:induction false} OnlySweepEmbeds(g: SparseGraph, h: SparseGraph, a: Assignment, b: Assignment)
    requires Embeds(g, h) && Fits(g, a) && |a| == |b| && OnlySweep(g, a, b)
    ensures OnlySweep(h, Padded(a, |h.adjacency|), Padded(b, |h.adjacency|))
  {
    var p, q := Padded(a, |h.adjacency|), Padded(b, |h.adjacency|);
    forall x: Assignment ensures IsSweep(h, 1.0, p, x) <==> x == q {
      assert IsSweep(g, 1.0, a, b);
      SweepGoesTo(g, h, 1.0, a, |p|, b);
      if IsSweep(h, 1.0, p, x) {
        var y := SweepComesFrom(g, h, 1.0, a, |p|, x);
        assert IsSweep(g, 1.0, a, y);
      }
    }
  }

  lemma {:induction false} SingletonsArePadded(size: nat)
    requires size >= 3
    ensures Singletons(size) == Padded([0, 1, 2], size) && Singletons(3) == [0, 1, 2]
  {
  }

  // ------------------------------------------------------------- A path of three

  /** Node 1 is tied twice as strongly to node 0 as to node 2. */
  const Path := SparseGraph(
    [[Link(1, 2.0)], [Link(0, 2.0), Link(2, 1.0)], [Link(1, 1.0)]],
    map["a" := 0, "b" := 1, "c" := 2], 6.0, [2.0, 3.0, 1.0])

  lemma {:induction false} PathRows(j: nat)
    ensures WeightTo(Path.adjacency[0], j) == (if j == 1 then 2.0 else 0.0) && WeightTo(Path.adjacency[2], j) == (if j == 1 then 1.0 else 0.0)
    ensures WeightTo(Path.adjacency[1], j) == (if j == 0 then 2.0 else 0.0) + (if j == 2 then 1.0 else 0.0)
    ensures LeadsTo(Path.adjacency[0], j) <==> j == 1
    ensures LeadsTo(Path.adjacency[1], j) <==> j == 0 || j == 2
    ensures LeadsTo(Path.adjacency[2], j) <==> j == 1
  {
    OneLink(Path.adjacency[0], j);
    TwoLinks(Path.adjacency[1], j);
    OneLink(Path.adjacency[2], j);
    assert Path.adjacency[0][0].node == 1 && Path.adjacency[1][0].node == 0 && Path.adjacency[1][1].node == 2 && Path.adjacency[2][0].node == 1;
  }

  lemma {:induction false} PathWeights()
    ensures Regular(Path) && IsThreeNode(Path) && NonNegative(Path)
    ensures WeightTo(Path.adjacency[0], 0) == 0.0 && WeightTo(Path.adjacency[0], 1) == 2.0 && WeightTo(Path.adjacency[0], 2) == 0.0
    ensures WeightTo(Path.adjacency[1], 0) == 2.0 && WeightTo(Path.adjacency[1], 1) == 0.0 && WeightTo(Path.adjacency[1], 2) == 1.0
    ensures WeightTo(Path.adjacency[2], 0) == 0.0 && WeightTo(Path.adjacency[2], 1) == 1.0 && WeightTo(Path.adjacency[2], 2) == 0.0
  {
    PathRows(0);
    PathRows(1);
    PathRows(2);
    OneLink(Path.adjacency[0], 0);
    TwoLinks(Path.adjacency[1], 0);
    OneLink(Path.adjacency[2], 0);
    ThreeNodeRegular(Path);
  }

  /** A document of at least three entities, any number beyond them, the first three related as in the path. */
  predicate IsPathDocument(entities: seq<EntityNode>, edges: seq<EntityEdge>) {
    && |entities| >= 3 && NamesDiffer(entities) && |edges| == 2
    && Relates(entities, edges[0], 0, 1, 2.0) && Relates(entities, edges[1], 1, 2, 1.0)
  }

  lemma {:induction false} PathIsBuilt(entities: seq<EntityNode>, edges: seq<EntityEdge>, h: SparseGraph)
    requires IsPathDocument(entities, edges) && IsBuiltFrom(h, entities, edges)
    ensures Embeds(Path, h) && NonNegative(h)
  {
    RelatesEnds(entities, h.nodeIndex, edges[0], 0, 1, 2.0);
    RelatesEnds(entities, h.nodeIndex, edges[1], 1, 2, 1.0);
    PathHasWeights(h.nodeIndex, edges, |entities|);
    PathWeights();
    BuiltEmbeds(Path, h, entities, edges);
  }

  lemma {:induction false} PathHasWeights(index: map<string, nat>, edges: seq<EntityEdge>, size: nat)
    requires |edges| == 2 && Ends(index, edges[0]) == Some((0, 1)) && Ends(index, edges[1]) == Some((1, 2))
    requires edges[0].weight == 2.0 && edges[1].weight == 1.0
    ensures HasWeightsOf(index, edges, Path, size)
  {
    forall i: nat, j: nat
      ensures EdgeWeight(index, edges, i, j) == if i < 3 then WeightTo(Path.adjacency[i], j) else 0.0
      ensures Related(index, edges, i, j) <==> i < 3 && LeadsTo(Path.adjacency[i], j)
      ensures i < 3 && LeadsTo(Path.adjacency[i], j) ==> WeightTo(Path.adjacency[i], j) > 0.0
    {
      TwoEdges(index, edges, i, j);
      PathRows(j);
      assert Related(index, edges, i, j) <==> Joins(index, edges[0], i, j) || Joins(index, edges[1], i, j);
    }
  }

  /** Node 0 joins node 1, then node 1 leaves it for node 2. */
  lemma {:induction false} PathTurns()
    ensures OnlyTurn(Path, Singletons(3), 0, [1, 1, 2]) && OnlyTurn(Path, [1, 1, 2], 1, [1, 2, 2]) && OnlyTurn(Path, [1, 2, 2], 2, [1, 2, 2])
  {
    PathWeights();
    var s: Assignment, t: Assignment, u: Assignment := [0, 1, 2], [1, 1, 2], [1, 2, 2];
    assert Singletons(3) == s;
    ThreeNodeGain(Path, s, 0, 1);
    assert s[Path.adjacency[0][0].node] == 1;
    StrictlyBest(Path, s, 0, 1);
    assert s[0 := 1] == t;
    ThreeNodeGain(Path, t, 1, 2);
    assert t[Path.adjacency[1][1].node] == 2;
    StrictlyBest(Path, t, 1, 2);
    assert t[1 := 2] == u;
    StrictlyBest(Path, u, 2, 2);
    assert u[2 := 2] == u;
  }

  lemma {:induction false} PathMoveDoesNotPay()
    ensures CandidateGain(Path, 1.0, [1, 1, 2], 1, 2) < Attraction(Path, 1.0, [1, 1, 2], 1, 1)
  {
    PathWeights();
    var a: Assignment := [1, 1, 2];
    ThreeNodeGain(Path, a, 1, 2);
    var p := Terms(Path, 1.0);
    assert p(1, 0) == 2.0 / 6.0 - 6.0 / 36.0;
    assert Pull(p, a, 1, 1, 1) == p(1, 0);
    assert Pull(p, a, 1, 1, 2) == p(1, 0);
    assert Attraction(Path, 1.0, a, 1, 1) == Pull(p, a, 1, 1, 2);
  }

  /**
   * The search for the best community compares a candidate with staying at gain zero, not
   * with what the node already has. In every run on such a document, with any number of
   * further entities, the first sweep makes entity 0 join entity 1, and then entity 1 leave
   * it for a positive gain; standard modularity falls.
   */
  lemma {:induction false} AcceptedMoveCanLowerModularity(entities: seq<EntityNode>, edges: seq<EntityEdge>, h: SparseGraph)
    requires IsPathDocument(entities, edges) && IsBuiltFrom(h, entities, edges)
    ensures var before, after := Padded([1, 1, 2], |entities|), Padded([1, 2, 2], |entities|);
            && OnlyTurn(h, Singletons(|entities|), 0, before) && OnlyTurn(h, before, 1, after)
            && StandardModularity(h, 1.0, after) < StandardModularity(h, 1.0, before)
  {
    var size, a: Assignment, b: Assignment := |entities|, [1, 1, 2], [1, 2, 2];
    PathIsBuilt(entities, edges, h);
    PathTurns();
    SingletonsArePadded(size);
    OnlyTurnEmbeds(Path, h, [0, 1, 2], 0, a);
    OnlyTurnEmbeds(Path, h, a, 1, b);
    PathMoveLowers(h);
  }

  lemma {:induction false} PathMoveLowers(h: SparseGraph)
    requires Embeds(Path, h)
    ensures var size := |h.adjacency|;
            StandardModularity(h, 1.0, Padded([1, 2, 2], size)) < StandardModularity(h, 1.0, Padded([1, 1, 2], size))
  {
    var size, a: Assignment := |h.adjacency|, [1, 1, 2];
    PathMoveDoesNotPay();
    GainEmbeds(Path, h, 1.0, a, 1, 2);
    AttractionEmbeds(Path, h, 1.0, a, 1, 1);
    GainDecidesMove(h, 1.0, Padded(a, size), 1, 2);
    assert Padded(a, size)[1 := 2] == Padded([1, 2, 2], size);
  }

  lemma {:induction false} PathSweeps()
    ensures OnlySweep(Path, Singletons(3), [1, 2, 2]) && OnlySweep(Path, [1, 2, 2], [2, 2, 2]) && OnlySweep(Path, [2, 2, 2], [2, 2, 2])
  {
    PathTurns();
    PathWeights();
    ThreeTurns(Path, Singletons(3), [1, 1, 2], [1, 2, 2], [1, 2, 2]);
    var u: Assignment, v: Assignment := [1, 2, 2], [2, 2, 2];
    ThreeNodeGain(Path, u, 0, 2);
    assert u[Path.adjacency[0][0].node] == 2;
    StrictlyBest(Path, u, 0, 2);
    assert u[0 := 2] == v;
    forall i: nat | i < 3 ensures OnlyTurn(Path, v, i, v) {
      StrictlyBest(Path, v, i, 2);
      assert v[i := 2] == v;
    }
    ThreeTurns(Path, u, v, v, v);
    ThreeTurns(Path, v, v, v, v);
  }

  /** In every run on such a document the first local phase can put the related entities into one community, where the convergence check is not on standard modularity. */
  lemma {:induction false} CheckCanMissModularity(entities: seq<EntityNode>, edges: seq<EntityEdge>, h: SparseGraph)
    requires IsPathDocument(entities, edges) && IsBuiltFrom(h, entities, edges)
    ensures var b := Padded([2, 2, 2], |entities|);
            && (forall x :: IsLocalPhase(h, 1.0, Singletons(|entities|), x) <==> x == b)
            && CheckedModularity(h, 1.0, b) > StandardModularity(h, 1.0, b)
  {
    PathIsBuilt(entities, edges, h);
    PathPhase(h);
    PathCheckMisses(h);
  }

  lemma {:induction false} PathCheckMisses(h: SparseGraph)
    requires Embeds(Path, h) && NonNegative(h)
    ensures var b := Padded([2, 2, 2], |h.adjacency|); CheckedModularity(h, 1.0, b) > StandardModularity(h, 1.0, b)
  {
    var b := Padded([2, 2, 2], |h.adjacency|);
    CheckedIsStandardWhenScattered(h, 1.0, b);
    assert Path.nodeDegrees[0] == h.nodeDegrees[0] && Path.nodeDegrees[1] == h.nodeDegrees[1];
    assert HasWeight(h, 0) && HasWeight(h, 1) && b[0] == b[1];
  }

  lemma {:induction false} PathPhase(h: SparseGraph)
    requires Embeds(Path, h)
    ensures var size := |h.adjacency|;
            forall x :: IsLocalPhase(h, 1.0, Singletons(size), x) <==> x == Padded([2, 2, 2], size)
  {
    var size := |h.adjacency|;
    var s, u, v := Singletons(size), Padded([1, 2, 2], size), Padded([2, 2, 2], size);
    PathSweeps();
    SingletonsArePadded(size);
    OnlySweepEmbeds(Path, h, [0, 1, 2], [1, 2, 2]);
    OnlySweepEmbeds(Path, h, [1, 2, 2], [2, 2, 2]);
    OnlySweepEmbeds(Path, h, [2, 2, 2], [2, 2, 2]);
    assert s[0] == 0 && u[0] == 1 && v[0] == 2;
    ThirdSweepIsStill(h, s, u, v);
  }

  lemma {:induction false} ThirdSweepIsStill(h: SparseGraph, s: Assignment, u: Assignment, v: Assignment)
    requires OnlySweep(h, s, u) && OnlySweep(h, u, v) && OnlySweep(h, v, v) && s != u && u != v
    ensures forall x :: IsLocalPhase(h, 1.0, s, x) <==> x == v
  {
    forall x ensures IsLocalPhase(h, 1.0, s, x) <==> x == v {
      if IsLocalPhase(h, 1.0, s, x) {
        var states := StatesOf(h, 1.0, s, x);
        assert IsSweep(h, 1.0, states[1 - 1], states[1]);
        assert IsSweep(h, 1.0, states[2 - 1], states[2]);
        assert IsSweep(h, 1.0, states[3 - 1], states[3]);
        assert |states| == 4;
      }
    }
    var states := [s, u, v, v];
    forall k | 0 < k < |states| ensures IsSweep(h, 1.0, states[k - 1], states[k]) {
      assert k == 1 || k == 2 || k == 3;
    }
    forall k | 0 < k < |states| - 1 ensures states[k - 1] != states[k] {
      assert k == 1 || k == 2;
    }
    assert AreSweeps(h, 1.0, states) && states[0] == s && states[|states| - 1] == v && states[|states| - 2] == v;
  }

  // ------------------------------------------------------------------- A triangle

  /** Nodes 0 and 1 are tied twice as strongly to each other as to node 2. */
  const Triangle := SparseGraph(
    [[Link(1, 2.0), Link(2, 1.0)], [Link(0, 2.0), Link(2, 1.0)], [Link(0, 1.0), Link(1, 1.0)]],
    map["a" := 0, "b" := 1, "c" := 2], 8.0, [3.0, 3.0, 2.0])

  lemma {:induction false} TriangleWeights()
    ensures Regular(Triangle) && IsThreeNode(Triangle)
    ensures WeightTo(Triangle.adjacency[0], 0) == 0.0 && WeightTo(Triangle.adjacency[0], 1) == 2.0 && WeightTo(Triangle.adjacency[0], 2) == 1.0
    ensures WeightTo(Triangle.adjacency[1], 0) == 2.0 && WeightTo(Triangle.adjacency[1], 1) == 0.0 && WeightTo(Triangle.adjacency[1], 2) == 1.0
    ensures WeightTo(Triangle.adjacency[2], 0) == 1.0 && WeightTo(Triangle.adjacency[2], 1) == 1.0 && WeightTo(Triangle.adjacency[2], 2) == 0.0
  {
    TriangleRow(0);
    TriangleRow(1);
    TriangleRow(2);
    ThreeNodeRegular(Triangle);
  }

  lemma {:induction false} TriangleRow(i: nat)
    requires i < 3
    ensures var row := Triangle.adjacency[i];
            && RowSum(row) == row[0].weight + row[1].weight && LinksBelow(row, 3)
            && forall j: nat :: WeightTo(row, j) == (if row[0].node == j then row[0].weight else 0.0) + (if row[1].node == j then row[1].weight else 0.0)
  {
    var row := Triangle.adjacency[i];
    TwoLinks(row, 0);
    forall j: nat ensures WeightTo(row, j) == (if row[0].node == j then row[0].weight else 0.0) + (if row[1].node == j then row[1].weight else 0.0) {
      TwoLinks(row, j);
    }
  }

  /** A turn that moves node `i` to `c`, when its links lead to `c` and to its own community only. */
  lemma {:induction false} TriangleMove(a: Assignment, i: nat, c: nat)
    requires |a| == 3 && i < 3 && c != a[i] && c in a && forall j :: 0 <= j < 3 && j != i ==> a[j] == c || a[j] == a[i]
    requires CandidateGain(Triangle, 1.0, a, i, c) > 0.0
    ensures OnlyTurn(Triangle, a, i, a[i := c])
  {
    TriangleWeights();
    var row := Triangle.adjacency[i];
    assert NeighborCommunity(Triangle, a, i, c) by {
      assert a[row[0].node] == c || a[row[1].node] == c;
    }
    StrictlyBest(Triangle, a, i, c);
  }

  lemma {:induction false} FirstTriangleTurn()
    ensures OnlyTurn(Triangle, Singletons(3), 0, [1, 1, 2])
  {
    TriangleWeights();
    var s: Assignment := [0, 1, 2];
    assert Singletons(3) == s;
    ThreeNodeGain(Triangle, s, 0, 1);
    ThreeNodeGain(Triangle, s, 0, 2);
    assert s[Triangle.adjacency[0][0].node] == 1;
    StrictlyBest(Triangle, s, 0, 1);
    assert s[0 := 1] == [1, 1, 2];
  }

  lemma {:induction false} TriangleTurn(a: Assignment, i: nat, c: nat, b: Assignment)
    requires (a, i, c) in {([1, 1, 2], 1, 2), ([1, 2, 2], 2, 1),
                           ([1, 2, 1], 0, 2), ([2, 2, 1], 1, 1), ([2, 1, 1], 2, 2),
                           ([2, 1, 2], 0, 1)}
    requires b == a[i := c]
    ensures OnlyTurn(Triangle, a, i, b)
  {
    TriangleWeights();
    ThreeNodeGain(Triangle, a, i, c);
    assert a[0] == c || a[1] == c || a[2] == c;
    TriangleMove(a, i, c);
  }

  lemma {:induction false} TriangleSweeps()
    ensures OnlySweep(Triangle, Singletons(3), [1, 2, 1])
    ensures OnlySweep(Triangle, [1, 2, 1], [2, 1, 2]) && OnlySweep(Triangle, [2, 1, 2], [1, 2, 1])
  {
    FirstTriangleTurn();
    TriangleTurn([1, 1, 2], 1, 2, [1, 2, 2]);
    TriangleTurn([1, 2, 2], 2, 1, [1, 2, 1]);
    TriangleTurn([1, 2, 1], 0, 2, [2, 2, 1]);
    TriangleTurn([2, 2, 1], 1, 1, [2, 1, 1]);
    TriangleTurn([2, 1, 1], 2, 2, [2, 1, 2]);
    TriangleTurn([2, 1, 2], 0, 1, [1, 1, 2]);
    ThreeTurns(Triangle, Singletons(3), [1, 1, 2], [1, 2, 2], [1, 2, 1]);
    ThreeTurns(Triangle, [1, 2, 1], [2, 2, 1], [2, 1, 1], [2, 1, 2]);
    ThreeTurns(Triangle, [2, 1, 2], [1, 1, 2], [1, 2, 2], [1, 2, 1]);
  }

  /** A document of at least three entities, any number beyond them, the first three related as in the triangle. */
  predicate IsTriangleDocument(entities: seq<EntityNode>, edges: seq<EntityEdge>) {
    && |entities| >= 3 && NamesDiffer(entities) && |edges| == 3
    && Relates(entities, edges[0], 0, 1, 2.0) && Relates(entities, edges[1], 0, 2, 1.0) && Relates(entities, edges[2], 1, 2, 1.0)
  }

  lemma {:induction false} TriangleIsBuilt(entities: seq<EntityNode>, edges: seq<EntityEdge>, h: SparseGraph)
    requires IsTriangleDocument(entities, edges) && IsBuiltFrom(h, entities, edges)
    ensures Embeds(Triangle, h)
  {
    RelatesEnds(entities, h.nodeIndex, edges[0], 0, 1, 2.0);
    RelatesEnds(entities, h.nodeIndex, edges[1], 0, 2, 1.0);
    RelatesEnds(entities, h.nodeIndex, edges[2], 1, 2, 1.0);
    TriangleHasWeights(h.nodeIndex, edges, |entities|);
    TriangleWeights();
    BuiltEmbeds(Triangle, h, entities, edges);
  }

  lemma {:induction false} TriangleHasWeights(index: map<string, nat>, edges: seq<EntityEdge>, size: nat)
    requires |edges| == 3 && edges[0].weight == 2.0 && edges[1].weight == 1.0 && edges[2].weight == 1.0
    requires Ends(index, edges[0]) == Some((0, 1)) && Ends(index, edges[1]) == Some((0, 2)) && Ends(index, edges[2]) == Some((1, 2))
    ensures HasWeightsOf(index, edges, Triangle, size)
  {
    forall i: nat, j: nat
      ensures EdgeWeight(index, edges, i, j) == if i < 3 then WeightTo(Triangle.adjacency[i], j) else 0.0
      ensures Related(index, edges, i, j) <==> i < 3 && LeadsTo(Triangle.adjacency[i], j)
      ensures i < 3 && LeadsTo(Triangle.adjacency[i], j) ==> WeightTo(Triangle.adjacency[i], j) > 0.0
    {
      ThreeEdges(index, edges, i, j);
      TriangleLinks(i, j);
      assert Related(index, edges, i, j) <==>
        Joins(index, edges[0], i, j) || Joins(index, edges[1], i, j) || Joins(index, edges[2], i, j);
    }
  }

  lemma {:induction false} TriangleLinks(i: nat, j: nat)
    ensures i < 3 ==> (LeadsTo(Triangle.adjacency[i], j) <==> j < 3 && j != i)
    ensures i < 3 ==> WeightTo(Triangle.adjacency[i], j) == if j >= 3 || j == i then 0.0 else if i + j == 1 then 2.0 else 1.0
  {
    if i < 3 {
      TriangleRow(i);
      assert LeadsTo(Triangle.adjacency[i], j) <==> Triangle.adjacency[i][0].node == j || Triangle.adjacency[i][1].node == j;
    }
  }

  /** The labels after `k` sweeps, from singletons or from where a local phase left them. */
  function Swapped(k: nat, size: nat): Assignment
    requires size >= 3
  {
    Padded(if k % 2 == 1 then [1, 2, 1] else [2, 1, 2], size)
  }

  ghost predicate Swaps(h: SparseGraph) {
    var size := |h.adjacency|;
    && size >= 3 && OnlySweep(h, Singletons(size), Swapped(1, size))
    && OnlySweep(h, Swapped(1, size), Swapped(0, size)) && OnlySweep(h, Swapped(0, size), Swapped(1, size))
  }

  lemma {:induction false} TriangleSwaps(h: SparseGraph)
    requires Embeds(Triangle, h)
    ensures Swaps(h)
  {
    TriangleSweeps();
    SingletonsArePadded(|h.adjacency|);
    OnlySweepEmbeds(Triangle, h, [0, 1, 2], [1, 2, 1]);
    OnlySweepEmbeds(Triangle, h, [1, 2, 1], [2, 1, 2]);
    OnlySweepEmbeds(Triangle, h, [2, 1, 2], [1, 2, 1]);
  }

  lemma {:induction false} StatesSwap(h: SparseGraph, states: seq<Assignment>, k: nat)
    requires Swaps(h) && AreSweeps(h, 1.0, states) && 0 < k < |states|
    requires states[0] == Singletons(|h.adjacency|) || states[0] == Swapped(0, |h.adjacency|)
    ensures states[k] == Swapped(k, |h.adjacency|) && states[k - 1] != states[k]
  {
    assert IsSweep(h, 1.0, states[k - 1], states[k]);
    if k > 1 {
      StatesSwap(h, states, k - 1);
    }
    var size := |h.adjacency|;
    assert Singletons(size)[0] == 0 && Swapped(0, size)[0] == 2 && Swapped(1, size)[0] == 1;
  }

  /** No sweep from `a` leaves the labels alone. */
  ghost predicate NeverStill(g: SparseGraph, a: Assignment) {
    forall states, k :: AreSweeps(g, 1.0, states) && states[0] == a && 0 < k < |states| ==> states[k - 1] != states[k]
  }

  lemma {:induction false} SwappingPhase(h: SparseGraph, a: Assignment, b: Assignment)
    requires Swaps(h) && (a == Singletons(|h.adjacency|) || a == Swapped(0, |h.adjacency|)) && IsLocalPhase(h, 1.0, a, b)
    ensures b == Swapped(0, |h.adjacency|)
  {
    var states := StatesOf(h, 1.0, a, b);
    LastState(h, states);
  }

  lemma {:induction false} LastState(h: SparseGraph, states: seq<Assignment>)
    requires Swaps(h) && AreSweeps(h, 1.0, states) && 1 <= |states| - 1 <= MAX_LOCAL_PASSES
    requires states[0] == Singletons(|h.adjacency|) || states[0] == Swapped(0, |h.adjacency|)
    requires |states| - 1 < MAX_LOCAL_PASSES ==> states[|states| - 2] == states[|states| - 1]
    ensures states[|states| - 1] == Swapped(0, |h.adjacency|)
  {
    StatesSwap(h, states, |states| - 1);
    assert Swapped(10, |h.adjacency|) == Swapped(0, |h.adjacency|);
  }

  lemma {:induction false} SwappingIsNeverStill(h: SparseGraph, a: Assignment)
    requires Swaps(h) && (a == Singletons(|h.adjacency|) || a == Swapped(0, |h.adjacency|))
    ensures NeverStill(h, a)
  {
    forall states, k | AreSweeps(h, 1.0, states) && states[0] == a && 0 < k < |states| ensures states[k - 1] != states[k] {
      StatesSwap(h, states, k);
    }
  }

  lemma {:induction false} HistorySwaps(h: SparseGraph, config: Config, history: seq<Assignment>, k: nat)
    requires Swaps(h) && config.resolution == 1.0 && IsHistory(h, config, history) && 0 < k < |history|
    ensures history[k] == Swapped(0, |h.adjacency|) && NeverStill(h, history[k - 1])
  {
    if k > 1 {
      HistorySwaps(h, config, history, k - 1);
    }
    assert IsLocalPhase(h, config.resolution, history[k - 1], history[k]);
    SwappingPhase(h, history[k - 1], history[k]);
    SwappingIsNeverStill(h, history[k - 1]);
  }

  /**
   * Local moving need not settle. However many entities such a document has besides, and
   * whatever the limits, in every detection of its communities every local phase is cut off
   * by the limit of ten sweeps, none of which leaves the labels alone, and ends where it
   * will begin again.
   */
  lemma {:induction false} LocalMovingNeedNotSettle(entities: seq<EntityNode>, edges: seq<EntityEdge>, config: Config,
                                                    graph: SparseGraph, history: seq<Assignment>, groups: seq<seq<nat>>, k: nat)
    requires IsTriangleDocument(entities, edges) && IsDetection(entities, edges, config, graph, history, groups)
    requires config.resolution == 1.0 && 0 < k < |history|
    ensures history[k] == Padded([2, 1, 2], |entities|) && NeverStill(graph, history[k - 1])
  {
    TriangleIsBuilt(entities, edges, graph);
    TriangleSwaps(graph);
    HistorySwaps(graph, config, history, k);
  }
}
