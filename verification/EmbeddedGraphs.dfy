/**
 * A graph and a larger one that differs from it by isolated nodes and the order of links:
 * local moving does to the larger one what it does to the smaller.
 */
module EmbeddedGraphs {
  import opened EntityModel
  import opened SparseGraphs
  import opened Modularity
  import opened Louvain
  import opened LouvainSettling

  function Least(k: nat, n: nat): nat {
    if k < n then k else n
  }

  /** The nodes of `g` come first in `h`, with the same links and weights; the others have no links. */
  ghost predicate Embeds(g: SparseGraph, h: SparseGraph) {
    var n := |g.adjacency|;
    && Regular(g) && Regular(h) && n <= |h.adjacency| && g.totalWeight == h.totalWeight
    && (forall i: nat :: i < n ==> SameLinks(g.adjacency[i], h.adjacency[i]) && g.nodeDegrees[i] == h.nodeDegrees[i])
    && (forall i: nat :: n <= i < |h.adjacency| ==> h.adjacency[i] == [] && h.nodeDegrees[i] == 0.0)
  }

  predicate LeadsTo(row: seq<Link>, j: nat) {
    exists k :: 0 <= k < |row| && row[k].node == j
  }

  ghost predicate SameLinks(row: seq<Link>, row': seq<Link>) {
    forall j: nat :: WeightTo(row, j) == WeightTo(row', j) && (LeadsTo(row, j) <==> LeadsTo(row', j))
  }

  /** The labels of the first nodes, and every further node on its own. */
  function Padded(a: Assignment, size: nat): (p: Assignment)
    requires |a| <= size
    ensures |p| == size && forall v :: 0 <= v < size ==> p[v] == if v < |a| then a[v] else v
  {
    a + seq(size - |a|, v requires 0 <= v < size - |a| => |a| + v)
  }

  lemma {:induction false} NoWeightBeyond(row: seq<Link>, j: nat)
    requires !LeadsTo(row, j)
    ensures WeightTo(row, j) == 0.0
  {
    if row != [] {
      var rest := row[..|row| - 1];
      assert forall k :: 0 <= k < |rest| ==> rest[k] == row[k];
      NoWeightBeyond(rest, j);
    }
  }

  // ---------------------------------------------------------- The gain is the same

  lemma {:induction false} ConnectionsEmbed(g: SparseGraph, h: SparseGraph, a: Assignment, i: nat, c: nat, k: nat)
    requires Embeds(g, h) && Fits(g, a) && i < |a| && k <= |h.adjacency|
    ensures ConnectionsBelow(h.adjacency[i], Padded(a, |h.adjacency|), c, k) == ConnectionsBelow(g.adjacency[i], a, c, Least(k, |a|))
  {
    if k > 0 {
      ConnectionsEmbed(g, h, a, i, c, k - 1);
      assert SameLinks(g.adjacency[i], h.adjacency[i]);
      assert WeightTo(g.adjacency[i], k - 1) == WeightTo(h.adjacency[i], k - 1);
      if k > |a| {
        NoWeightBeyond(g.adjacency[i], k - 1);
      }
    }
  }

  lemma {:induction false} DegreesEmbed(g: SparseGraph, h: SparseGraph, a: Assignment, c: nat, k: nat)
    requires Embeds(g, h) && Fits(g, a) && k <= |h.adjacency|
    ensures DegreeOf(Padded(a, |h.adjacency|), h.nodeDegrees, c, k) == DegreeOf(a, g.nodeDegrees, c, Least(k, |a|))
  {
    if k > 0 {
      DegreesEmbed(g, h, a, c, k - 1);
    }
  }

  lemma {:induction false} GainEmbeds(g: SparseGraph, h: SparseGraph, resolution: real, a: Assignment, i: nat, c: nat)
    requires Embeds(g, h) && Fits(g, a) && i < |a|
    ensures CandidateGain(h, resolution, Padded(a, |h.adjacency|), i, c) == CandidateGain(g, resolution, a, i, c)
  {
    var p := Padded(a, |h.adjacency|);
    ConnectionsAreByNode(g.adjacency[i], a, c);
    ConnectionsAreByNode(h.adjacency[i], p, c);
    ConnectionsEmbed(g, h, a, i, c, |p|);
    DegreesEmbed(g, h, a, c, |p|);
  }

  lemma {:induction false} NeighborsEmbed(g: SparseGraph, h: SparseGraph, a: Assignment, i: nat, c: nat)
    requires Embeds(g, h) && Fits(g, a) && i < |a|
    ensures NeighborCommunity(h, Padded(a, |h.adjacency|), i, c) <==> NeighborCommunity(g, a, i, c)
  {
    var p := Padded(a, |h.adjacency|);
    assert SameLinks(g.adjacency[i], h.adjacency[i]);
    if k :| 0 <= k < |g.adjacency[i]| && a[g.adjacency[i][k].node] == c {
      assert LeadsTo(h.adjacency[i], g.adjacency[i][k].node);
      var k' :| 0 <= k' < |h.adjacency[i]| && h.adjacency[i][k'].node == g.adjacency[i][k].node;
      assert p[h.adjacency[i][k'].node] == c;
    }
    if k :| 0 <= k < |h.adjacency[i]| && p[h.adjacency[i][k].node] == c {
      assert LeadsTo(g.adjacency[i], h.adjacency[i][k].node);
      var k' :| 0 <= k' < |g.adjacency[i]| && g.adjacency[i][k'].node == h.adjacency[i][k].node;
      assert a[g.adjacency[i][k'].node] == c;
    }
  }

  lemma {:induction false} BestEmbeds(g: SparseGraph, h: SparseGraph, resolution: real, a: Assignment, i: nat, best: nat)
    requires Embeds(g, h) && Fits(g, a) && i < |a|
    ensures IsBest(h, resolution, Padded(a, |h.adjacency|), i, best) <==> IsBest(g, resolution, a, i, best)
  {
    forall c: nat
      ensures NeighborCommunity(h, Padded(a, |h.adjacency|), i, c) <==> NeighborCommunity(g, a, i, c)
      ensures CandidateGain(h, resolution, Padded(a, |h.adjacency|), i, c) == CandidateGain(g, resolution, a, i, c)
    {
      NeighborsEmbed(g, h, a, i, c);
      GainEmbeds(g, h, resolution, a, i, c);
    }
  }

  lemma {:induction false} TermEmbeds(g: SparseGraph, h: SparseGraph, resolution: real, i: nat, j: nat)
    requires Embeds(g, h) && i < |g.adjacency| && j < |g.adjacency|
    ensures PairTerm(h, resolution, i, j) == PairTerm(g, resolution, i, j)
  {
    assert SameLinks(g.adjacency[i], h.adjacency[i]);
    assert WeightTo(g.adjacency[i], j) == WeightTo(h.adjacency[i], j);
    assert g.nodeDegrees[i] == h.nodeDegrees[i] && g.nodeDegrees[j] == h.nodeDegrees[j];
  }

  lemma {:induction false} PullsAgree(p: Pairwise, q: Pairwise, a: Assignment, b: Assignment, i: nat, c: nat, k: nat)
    requires |a| <= |b| && k <= |b| && forall v :: 0 <= v < |b| ==> if v < |a| then b[v] == a[v] && p(i, v) == q(i, v) else b[v] != c
    ensures Pull(q, b, i, c, k) == Pull(p, a, i, c, Least(k, |a|))
  {
    if k > 0 {
      PullsAgree(p, q, a, b, i, c, k - 1);
    }
  }

  lemma {:induction false} AttractionEmbeds(g: SparseGraph, h: SparseGraph, resolution: real, a: Assignment, i: nat, c: nat)
    requires Embeds(g, h) && Fits(g, a) && i < |a| && c < |a|
    ensures Attraction(h, resolution, Padded(a, |h.adjacency|), i, c) == Attraction(g, resolution, a, i, c)
  {
    var p, q := Terms(g, resolution), Terms(h, resolution);
    forall v: nat | v < |a| ensures p(i, v) == q(i, v) {
      TermEmbeds(g, h, resolution, i, v);
    }
    PullsAgree(p, q, a, Padded(a, |h.adjacency|), i, c, |h.adjacency|);
  }

  // -------------------------------------------------------- The sweeps are the same

  /** The turns of the larger graph are those of the smaller; an isolated node stays. */
  lemma {:induction false} TurnEmbeds(g: SparseGraph, h: SparseGraph, resolution: real, a: Assignment, i: nat, b: Assignment)
    requires Embeds(g, h) && Fits(g, a) && |b| == |a| && i < |a|
    ensures IsTurn(h, resolution, Padded(a, |h.adjacency|), i, Padded(b, |h.adjacency|)) <==> IsTurn(g, resolution, a, i, b)
  {
    var p, q := Padded(a, |h.adjacency|), Padded(b, |h.adjacency|);
    forall best: nat ensures IsBest(h, resolution, p, i, best) <==> IsBest(g, resolution, a, i, best) {
      BestEmbeds(g, h, resolution, a, i, best);
    }
    assert p[i := q[i]] == Padded(a[i := b[i]], |h.adjacency|);
    if IsTurn(h, resolution, p, i, q) {
      var best: nat :| IsBest(h, resolution, p, i, best) && q == p[i := best];
      forall v | 0 <= v < |a| ensures b[v] == a[i := best][v] {
        assert q[v] == p[i := best][v];
      }
      assert b == a[i := best];
    }
    if IsTurn(g, resolution, a, i, b) {
      var best: nat :| IsBest(g, resolution, a, i, best) && b == a[i := best];
      assert q == p[i := best];
    }
  }

  lemma {:induction false} TurnComesFrom(g: SparseGraph, h: SparseGraph, resolution: real, a: Assignment, i: nat, q: Assignment)
    returns (b: Assignment)
    requires Embeds(g, h) && Fits(g, a) && i < |a| && IsTurn(h, resolution, Padded(a, |h.adjacency|), i, q)
    ensures |b| == |a| && q == Padded(b, |h.adjacency|) && IsTurn(g, resolution, a, i, b)
  {
    b := a[i := q[i]];
    assert q == Padded(b, |h.adjacency|);
    TurnEmbeds(g, h, resolution, a, i, b);
  }

  lemma {:induction false} IsolatedStays(g: SparseGraph, h: SparseGraph, resolution: real, p: Assignment, i: nat, q: Assignment)
    requires Embeds(g, h) && Fits(h, p) && |g.adjacency| <= i < |p|
    ensures IsTurn(h, resolution, p, i, q) <==> q == p
  {
    assert forall c: nat :: !NeighborCommunity(h, p, i, c);
    assert IsBest(h, resolution, p, i, p[i]) && p == p[i := p[i]];
  }

  /** Whatever the first turns make of the larger graph, they make of the smaller. */
  lemma {:induction false} SweepComesFrom(g: SparseGraph, h: SparseGraph, resolution: real, a: Assignment, k: nat, q: Assignment)
    returns (b: Assignment)
    requires Embeds(g, h) && Fits(g, a) && k <= |h.adjacency| && SweepsFirst(h, resolution, Padded(a, |h.adjacency|), k, q)
    ensures |b| == |a| && q == Padded(b, |h.adjacency|) && SweepsFirst(g, resolution, a, Least(k, |a|), b)
  {
    var size := |h.adjacency|;
    if k == 0 {
      b := a;
    } else {
      var before :| SweepsVia(h, resolution, Padded(a, size), k, before, q);
      var b' := SweepComesFrom(g, h, resolution, a, k - 1, before);
      if k > |a| {
        IsolatedStays(g, h, resolution, before, k - 1, q);
        b := b';
      } else {
        b := TurnComesFrom(g, h, resolution, b', k - 1, q);
        assert SweepsVia(g, resolution, a, k, b', b);
      }
    }
  }

  lemma {:induction false} SweepGoesTo(g: SparseGraph, h: SparseGraph, resolution: real, a: Assignment, k: nat, b: Assignment)
    requires Embeds(g, h) && Fits(g, a) && k <= |h.adjacency| && SweepsFirst(g, resolution, a, Least(k, |a|), b)
    ensures |b| == |a| && SweepsFirst(h, resolution, Padded(a, |h.adjacency|), k, Padded(b, |h.adjacency|))
  {
    var size := |h.adjacency|;
    SweepTouchesOnce(g, resolution, a, Least(k, |a|), b);
    if k > |a| {
      SweepGoesTo(g, h, resolution, a, k - 1, b);
      IsolatedStays(g, h, resolution, Padded(b, size), k - 1, Padded(b, size));
      assert SweepsVia(h, resolution, Padded(a, size), k, Padded(b, size), Padded(b, size));
    } else if k > 0 {
      var before :| SweepsVia(g, resolution, a, k, before, b);
      SweepGoesTo(g, h, resolution, a, k - 1, before);
      TurnEmbeds(g, h, resolution, before, k - 1, b);
      assert SweepsVia(h, resolution, Padded(a, size), k, Padded(before, size), Padded(b, size));
    }
  }

  // ----------------------------------------------------- Graphs built for entities

  predicate NamesDiffer(entities: seq<EntityNode>) {
    forall u, v :: 0 <= u < v < |entities| ==> entities[u].key.name != entities[v].key.name
  }

  /** The graph that is built for a document's entities and relationships, whatever the order of its hash maps. */
  ghost predicate IsBuiltFrom(h: SparseGraph, entities: seq<EntityNode>, edges: seq<EntityEdge>) {
    && |h.adjacency| == |entities| && Indexes(h.nodeIndex, entities)
    && Accounts(h.nodeIndex, edges, h.adjacency, h.nodeDegrees, h.totalWeight)
  }

  /** The relationships have the weights of `g`, and where there is one there is weight. */
  ghost predicate HasWeightsOf(index: map<string, nat>, edges: seq<EntityEdge>, g: SparseGraph, size: nat) {
    && (forall e :: 0 <= e < |edges| ==> edges[e].weight >= 0.0)
    && (forall i: nat, j: nat :: EdgeWeight(index, edges, i, j) == if i < |g.adjacency| then WeightTo(g.adjacency[i], j) else 0.0)
    && (forall i: nat, j: nat :: Related(index, edges, i, j) <==> i < |g.adjacency| && LeadsTo(g.adjacency[i], j))
    && (forall i: nat, j: nat :: i < |g.adjacency| && LeadsTo(g.adjacency[i], j) ==> WeightTo(g.adjacency[i], j) > 0.0)
  }

  lemma {:induction false} SumEmbeds(xs: seq<real>, ys: seq<real>, k: nat)
    requires |xs| <= |ys| && k <= |ys| && forall i :: 0 <= i < |ys| ==> ys[i] == if i < |xs| then xs[i] else 0.0
    ensures Sum(ys[..k]) == Sum(xs[..Least(k, |xs|)])
  {
    if k > 0 {
      SumEmbeds(xs, ys, k - 1);
      assert ys[..k][..k - 1] == ys[..k - 1];
      assert k <= |xs| ==> xs[..k][..k - 1] == xs[..k - 1];
    }
  }

  lemma {:induction false} SameRowSum(row: seq<Link>, row': seq<Link>, n: nat, size: nat)
    requires LinksBelow(row, n) && n <= size && LinksBelow(row', size) && SameLinks(row, row')
    ensures RowSum(row) == RowSum(row')
  {
    RowSumIsWeightBelow(row, size);
    RowSumIsWeightBelow(row', size);
    assert forall j: nat :: j < size ==> WeightTo(row, j) == WeightTo(row', j);
    SameWeightBelow(row, row', size);
  }

  /** A graph built for relationships with the weights of `g` embeds `g`. */
  lemma {:induction false} BuiltEmbeds(g: SparseGraph, h: SparseGraph, entities: seq<EntityNode>, edges: seq<EntityEdge>)
    requires Regular(g) && |g.adjacency| <= |entities| && IsBuiltFrom(h, entities, edges)
    requires HasWeightsOf(h.nodeIndex, edges, g, |entities|)
    ensures Embeds(g, h) && NonNegative(h)
  {
    var n, size := |g.adjacency|, |entities|;
    BuiltGraphIsRegular(h, edges);
    forall i: nat | i < n ensures SameLinks(g.adjacency[i], h.adjacency[i]) && g.nodeDegrees[i] == h.nodeDegrees[i] {
      RowEmbeds(g, h, edges, i, size);
    }
    forall i: nat | n <= i < size ensures h.adjacency[i] == [] && h.nodeDegrees[i] == 0.0 {
      OtherRowIsEmpty(g, h, edges, i, size);
    }
    TotalEmbeds(g, h);
  }

  lemma {:induction false} TotalEmbeds(g: SparseGraph, h: SparseGraph)
    requires |g.nodeDegrees| <= |h.nodeDegrees|
    requires forall i: nat :: i < |h.nodeDegrees| ==> h.nodeDegrees[i] == if i < |g.nodeDegrees| then g.nodeDegrees[i] else 0.0
    ensures Sum(h.nodeDegrees) == Sum(g.nodeDegrees)
  {
    SumEmbeds(g.nodeDegrees, h.nodeDegrees, |h.nodeDegrees|);
    assert h.nodeDegrees[..|h.nodeDegrees|] == h.nodeDegrees && g.nodeDegrees[..|g.nodeDegrees|] == g.nodeDegrees;
  }

  lemma {:induction false} RowEmbeds(g: SparseGraph, h: SparseGraph, edges: seq<EntityEdge>, i: nat, size: nat)
    requires Regular(g) && Regular(h) && i < |g.adjacency| <= size == |h.adjacency|
    requires RowAccounts(h.nodeIndex, edges, h.adjacency[i], i, size) && HasWeightsOf(h.nodeIndex, edges, g, size)
    ensures SameLinks(g.adjacency[i], h.adjacency[i]) && g.nodeDegrees[i] == h.nodeDegrees[i]
  {
    RowIsSame(g, h, edges, i, size);
    SameRowSum(g.adjacency[i], h.adjacency[i], |g.adjacency|, size);
  }

  lemma {:induction false} OtherRowIsEmpty(g: SparseGraph, h: SparseGraph, edges: seq<EntityEdge>, i: nat, size: nat)
    requires |g.adjacency| <= i < size == |h.adjacency| && RowAccounts(h.nodeIndex, edges, h.adjacency[i], i, size)
    requires HasWeightsOf(h.nodeIndex, edges, g, size)
    ensures h.adjacency[i] == []
  {
    assert h.adjacency[i] == [] || Related(h.nodeIndex, edges, i, h.adjacency[i][0].node);
  }

  lemma {:induction false} RowIsSame(g: SparseGraph, h: SparseGraph, edges: seq<EntityEdge>, i: nat, size: nat)
    requires i < |g.adjacency| && i < |h.adjacency| && RowAccounts(h.nodeIndex, edges, h.adjacency[i], i, size)
    requires HasWeightsOf(h.nodeIndex, edges, g, size)
    ensures SameLinks(g.adjacency[i], h.adjacency[i])
  {
    var row, row' := g.adjacency[i], h.adjacency[i];
    forall j: nat ensures WeightTo(row, j) == WeightTo(row', j) && (LeadsTo(row, j) <==> LeadsTo(row', j)) {
      assert WeightTo(row', j) == EdgeWeight(h.nodeIndex, edges, i, j);
      if LeadsTo(row', j) {
        assert Related(h.nodeIndex, edges, i, j);
      }
      if !LeadsTo(row', j) {
        NoWeightBeyond(row', j);
      }
    }
  }
}
