/**
 * Modularity: the standard objective, the gain that the optimiser computes, and the
 * quantity that it checks convergence with. The gain is exact for inserting an isolated
 * node; what a move out of a larger community loses is not part of it.
 */
module Modularity {
  import opened Reals
  import opened SparseGraphs

  type Assignment = seq<nat>

  // ---------------------------------------------- Sums over pairs of a partition

  type Pairwise = (nat, nat) -> real

  /** The sum of p(i, j) over the members j < n of community `c` other than `i` itself. */
  function Pull(p: Pairwise, a: Assignment, i: nat, c: nat, n: nat): real
    requires n <= |a|
  {
    if n == 0 then 0.0
    else Pull(p, a, i, c, n - 1) + (if n - 1 != i && a[n - 1] == c then p(i, n - 1) else 0.0)
  }

  /** The sum of p(i, j) over the nodes j < n that share the community of `i`. */
  function Shared(p: Pairwise, a: Assignment, i: nat, n: nat): real
    requires n <= |a| && i < |a|
  {
    if n == 0 then 0.0
    else Shared(p, a, i, n - 1) + (if a[n - 1] == a[i] then p(i, n - 1) else 0.0)
  }

  /** The first `m` rows of the double sum over all pairs in a common community. */
  function Rows(p: Pairwise, a: Assignment, m: nat): real
    requires m <= |a|
  {
    if m == 0 then 0.0 else Rows(p, a, m - 1) + Shared(p, a, m - 1, |a|)
  }

  lemma {:induction false} OwnRow(p: Pairwise, a: Assignment, i: nat, n: nat)
    requires n <= |a| && i < |a|
    ensures Shared(p, a, i, n) == Pull(p, a, i, a[i], n) + (if i < n then p(i, i) else 0.0)
  {
    if n > 0 {
      OwnRow(p, a, i, n - 1);
    }
  }

  lemma {:induction false} PullIgnoresSelf(p: Pairwise, a: Assignment, i: nat, c: nat, d: nat, n: nat)
    requires n <= |a| && i < |a|
    ensures Pull(p, a[i := d], i, c, n) == Pull(p, a, i, c, n)
  {
    if n > 0 {
      PullIgnoresSelf(p, a, i, c, d, n - 1);
    }
  }

  lemma {:induction false} OtherRow(p: Pairwise, a: Assignment, i: nat, d: nat, r: nat, n: nat)
    requires n <= |a| && i < |a| && r < |a| && r != i
    ensures Shared(p, a[i := d], r, n) == Shared(p, a, r, n)
              + (if i < n then (if a[r] == d then p(r, i) else 0.0) - (if a[r] == a[i] then p(r, i) else 0.0) else 0.0)
  {
    if n > 0 {
      OtherRow(p, a, i, d, r, n - 1);
    }
  }

  lemma {:induction false} MoveRows(p: Pairwise, a: Assignment, i: nat, d: nat, m: nat)
    requires m <= |a| && i < |a|
    requires forall r, s :: p(r, s) == p(s, r)
    ensures Rows(p, a[i := d], m) - Rows(p, a, m) ==
            (Pull(p, a, i, d, m) - Pull(p, a, i, a[i], m))
            + (if i < m then Pull(p, a, i, d, |a|) - Pull(p, a, i, a[i], |a|) else 0.0)
  {
    if m > 0 {
      MoveRows(p, a, i, d, m - 1);
      var r, moved := m - 1, a[i := d];
      if r == i {
        OwnRow(p, a, i, |a|);
        OwnRow(p, moved, i, |a|);
        PullIgnoresSelf(p, a, i, d, d, |a|);
      } else {
        OtherRow(p, a, i, d, r, |a|);
        assert p(r, i) == p(i, r);
      }
    }
  }

  // --------------------------------------------------------- Standard modularity

  ghost predicate Regular(g: SparseGraph) {
    && |g.nodeDegrees| == |g.adjacency|
    && (forall i :: 0 <= i < |g.adjacency| ==> LinksBelow(g.adjacency[i], |g.adjacency|))
    && (forall i, j :: 0 <= i < |g.adjacency| && 0 <= j < |g.adjacency| ==> WeightTo(g.adjacency[i], j) == WeightTo(g.adjacency[j], i))
    && DegreesAccount(g.adjacency, g.nodeDegrees)
    && g.totalWeight == Sum(g.nodeDegrees)
  }

  predicate Fits(g: SparseGraph, a: Assignment) {
    |a| == |g.adjacency| && |g.nodeDegrees| == |g.adjacency|
  }

  /** A(i,j)/T - resolution * k(i) * k(j) / T^2, where T is twice the weight of all edges. */
  function PairTerm(g: SparseGraph, resolution: real, i: nat, j: nat): real {
    if i < |g.adjacency| && j < |g.nodeDegrees| && i < |g.nodeDegrees| && g.totalWeight > 0.0 then
      Ratio(WeightTo(g.adjacency[i], j), g.totalWeight)
      - Ratio(Product(resolution, Product(g.nodeDegrees[i], g.nodeDegrees[j])), Square(g.totalWeight))
    else 0.0
  }

  function Terms(g: SparseGraph, resolution: real): Pairwise {
    (i: nat, j: nat) => PairTerm(g, resolution, i, j)
  }

  /** Newman modularity of a partition: the pair terms summed over all pairs in a common community. */
  function StandardModularity(g: SparseGraph, resolution: real, a: Assignment): real {
    Rows(Terms(g, resolution), a, |a|)
  }

  /** What community `c` contributes to the modularity of a partition through node `i`. */
  function Attraction(g: SparseGraph, resolution: real, a: Assignment, i: nat, c: nat): real {
    Pull(Terms(g, resolution), a, i, c, |a|)
  }

  /** Moving a node changes modularity by twice what it gains minus what it leaves. */
  lemma {:induction false} MoveChangesModularity(g: SparseGraph, resolution: real, a: Assignment, i: nat, d: nat)
    requires Regular(g) && Fits(g, a) && i < |a|
    ensures StandardModularity(g, resolution, a[i := d]) - StandardModularity(g, resolution, a) ==
            2.0 * (Attraction(g, resolution, a, i, d) - Attraction(g, resolution, a, i, a[i]))
  {
    var p := Terms(g, resolution);
    forall r, s ensures p(r, s) == p(s, r) {
    }
    MoveRows(p, a, i, d, |a|);
  }

  // ------------------------------------------------------- The gain of the source

  /** The weight of the links of `row` into community `c`. */
  function Connections(row: seq<Link>, a: Assignment, c: nat): real
    requires LinksBelow(row, |a|)
  {
    if row == [] then 0.0
    else
      Connections(row[..|row| - 1], a, c) + (if a[row[|row| - 1].node] == c then row[|row| - 1].weight else 0.0)
  }

  /** The summed degrees of the members below `n` of community `c`. */
  function DegreeOf(a: Assignment, degrees: seq<real>, c: nat, n: nat): real
    requires n <= |a| && |degrees| == |a|
  {
    if n == 0 then 0.0 else DegreeOf(a, degrees, c, n - 1) + (if a[n - 1] == c then degrees[n - 1] else 0.0)
  }

  function SizeOf(a: Assignment, c: nat, n: nat): nat
    requires n <= |a|
  {
    if n == 0 then 0 else SizeOf(a, c, n - 1) + (if a[n - 1] == c then 1 else 0)
  }

  function Gain(total: real, resolution: real, connections: real, nodeDegree: real, communityDegree: real): real {
    if total > 0.0
    then Ratio(connections, total) - Ratio(Product(resolution, Product(nodeDegree, communityDegree)), Square(total))
    else 0.0
  }

  /** The members below `n` of `c`, weighed by the links of one row. */
  function ConnectionsBelow(row: seq<Link>, a: Assignment, c: nat, n: nat): real
    requires n <= |a|
  {
    if n == 0 then 0.0 else ConnectionsBelow(row, a, c, n - 1) + (if a[n - 1] == c then WeightTo(row, n - 1) else 0.0)
  }

  lemma {:induction false} ConnectionsBelowSnoc(row: seq<Link>, link: Link, a: Assignment, c: nat, n: nat)
    requires n <= |a|
    ensures ConnectionsBelow(row + [link], a, c, n) ==
            ConnectionsBelow(row, a, c, n) + (if link.node < n && a[link.node] == c then link.weight else 0.0)
  {
    if n > 0 {
      ConnectionsBelowSnoc(row, link, a, c, n - 1);
      WeightToSnoc(row, link, n - 1);
    }
  }

  lemma {:induction false} NoConnections(a: Assignment, c: nat, n: nat)
    requires n <= |a|
    ensures ConnectionsBelow([], a, c, n) == 0.0
  {
    if n > 0 {
      NoConnections(a, c, n - 1);
    }
  }

  lemma {:induction false} ConnectionsAreByNode(row: seq<Link>, a: Assignment, c: nat)
    requires LinksBelow(row, |a|)
    ensures Connections(row, a, c) == ConnectionsBelow(row, a, c, |a|)
  {
    if row == [] {
      NoConnections(a, c, |a|);
    } else {
      var k := |row| - 1;
      assert row == row[..k] + [row[k]];
      ConnectionsAreByNode(row[..k], a, c);
      ConnectionsBelowSnoc(row[..k], row[k], a, c, |a|);
    }
  }

  lemma {:induction false} GainStep(total: real, resolution: real, connections: real, k: real, degree: real, weight: real, kj: real)
    requires total > 0.0
    ensures Gain(total, resolution, connections + weight, k, degree + kj) ==
            Gain(total, resolution, connections, k, degree)
            + (Ratio(weight, total) - Ratio(Product(resolution, Product(k, kj)), Square(total)))
  {
    var x, y := Product(k, degree), Product(k, kj);
  }

  lemma {:induction false} PullIsGain(g: SparseGraph, resolution: real, a: Assignment, i: nat, c: nat, n: nat)
    requires Regular(g) && Fits(g, a) && i < |a| && n <= |a| && a[i] != c && g.totalWeight > 0.0
    ensures Pull(Terms(g, resolution), a, i, c, n) ==
            Gain(g.totalWeight, resolution, ConnectionsBelow(g.adjacency[i], a, c, n), g.nodeDegrees[i], DegreeOf(a, g.nodeDegrees, c, n))
  {
    if n == 0 {
      assert Product(g.nodeDegrees[i], 0.0) == 0.0 && Product(resolution, 0.0) == 0.0;
      assert Ratio(0.0, g.totalWeight) == 0.0 && Ratio(0.0, Square(g.totalWeight)) == 0.0;
    } else {
      PullIsGain(g, resolution, a, i, c, n - 1);
      if a[n - 1] == c {
        GainStep(g.totalWeight, resolution, ConnectionsBelow(g.adjacency[i], a, c, n - 1), g.nodeDegrees[i],
                 DegreeOf(a, g.nodeDegrees, c, n - 1), WeightTo(g.adjacency[i], n - 1), g.nodeDegrees[n - 1]);
      }
    }
  }

  /** The gain for a candidate community is exactly that community's attraction. */
  lemma {:induction false} GainIsAttraction(g: SparseGraph, resolution: real, a: Assignment, i: nat, c: nat)
    requires Regular(g) && Fits(g, a) && i < |a| && a[i] != c && g.totalWeight > 0.0
    ensures CandidateGain(g, resolution, a, i, c) == Attraction(g, resolution, a, i, c)
  {
    ConnectionsAreByNode(g.adjacency[i], a, c);
    PullIsGain(g, resolution, a, i, c, |a|);
  }

  function CandidateGain(g: SparseGraph, resolution: real, a: Assignment, i: nat, c: nat): real
    requires Fits(g, a) && i < |a| && LinksBelow(g.adjacency[i], |a|)
  {
    Gain(g.totalWeight, resolution, Connections(g.adjacency[i], a, c), g.nodeDegrees[i], DegreeOf(a, g.nodeDegrees, c, |a|))
  }

  predicate Alone(a: Assignment, i: nat)
    requires i < |a|
  {
    forall j :: 0 <= j < |a| && j != i ==> a[j] != a[i]
  }

  lemma {:induction false} AloneAttractsNothing(p: Pairwise, a: Assignment, i: nat, n: nat)
    requires i < |a| && n <= |a| && Alone(a, i)
    ensures Pull(p, a, i, a[i], n) == 0.0
  {
    if n > 0 {
      AloneAttractsNothing(p, a, i, n - 1);
    }
  }

  /**
   * Moving `i` to a community raises modularity exactly when the gain exceeds what its own
   * community attracts it with; for a node on its own, exactly when the gain is positive,
   * and then by twice the gain.
   */
  lemma {:induction false} GainDecidesMove(g: SparseGraph, resolution: real, a: Assignment, i: nat, c: nat)
    requires Regular(g) && Fits(g, a) && i < |a| && a[i] != c && g.totalWeight > 0.0
    ensures StandardModularity(g, resolution, a[i := c]) - StandardModularity(g, resolution, a) ==
            2.0 * (CandidateGain(g, resolution, a, i, c) - Attraction(g, resolution, a, i, a[i]))
    ensures StandardModularity(g, resolution, a[i := c]) > StandardModularity(g, resolution, a) <==>
            CandidateGain(g, resolution, a, i, c) > Attraction(g, resolution, a, i, a[i])
    ensures Alone(a, i) ==> Attraction(g, resolution, a, i, a[i]) == 0.0
  {
    MoveChangesModularity(g, resolution, a, i, c);
    GainIsAttraction(g, resolution, a, i, c);
    if Alone(a, i) {
      AloneAttractsNothing(Terms(g, resolution), a, i, |a|);
    }
  }

  predicate NonNegative(g: SparseGraph) {
    forall i, k :: 0 <= i < |g.adjacency| && 0 <= k < |g.adjacency[i]| ==> g.adjacency[i][k].weight >= 0.0
  }

  lemma {:induction false} ConnectionsAreBounded(row: seq<Link>, a: Assignment, c: nat)
    requires LinksBelow(row, |a|) && forall k :: 0 <= k < |row| ==> row[k].weight >= 0.0
    ensures 0.0 <= Connections(row, a, c) <= RowSum(row)
    ensures (forall k :: 0 <= k < |row| ==> a[row[k].node] == c) ==> Connections(row, a, c) == RowSum(row)
    ensures (forall k :: 0 <= k < |row| ==> a[row[k].node] != c) ==> Connections(row, a, c) == 0.0
  {
    if row != [] {
      ConnectionsAreBounded(row[..|row| - 1], a, c);
    }
  }

  lemma {:induction false} DegreesAreNonNegative(a: Assignment, degrees: seq<real>, c: nat, n: nat)
    requires n <= |a| && |degrees| == |a| && forall i :: 0 <= i < |degrees| ==> degrees[i] >= 0.0
    ensures DegreeOf(a, degrees, c, n) >= 0.0
  {
    if n > 0 {
      DegreesAreNonNegative(a, degrees, c, n - 1);
    }
  }

  predicate NeighborCommunity(g: SparseGraph, a: Assignment, node: nat, c: nat)
    requires Fits(g, a) && node < |a| && LinksBelow(g.adjacency[node], |a|)
  {
    exists k :: 0 <= k < |g.adjacency[node]| && a[g.adjacency[node][k].node] == c
  }

  /** What the search for the best community promises: its choice has the greatest positive gain among the neighbours'. */
  ghost predicate IsBest(g: SparseGraph, resolution: real, a: Assignment, node: nat, best: nat)
    requires Fits(g, a) && node < |a| && LinksBelow(g.adjacency[node], |a|)
  {
    if best == a[node] then
      forall c: nat :: NeighborCommunity(g, a, node, c) && c != a[node] ==> CandidateGain(g, resolution, a, node, c) <= 0.0
    else
      && NeighborCommunity(g, a, node, best)
      && CandidateGain(g, resolution, a, node, best) > 0.0
      && forall c: nat :: NeighborCommunity(g, a, node, c) && c != a[node] ==>
           CandidateGain(g, resolution, a, node, c) <= CandidateGain(g, resolution, a, node, best)
  }

  lemma {:induction false} ForeignGainIsNotPositive(g: SparseGraph, resolution: real, a: Assignment, i: nat, c: nat)
    requires Regular(g) && Fits(g, a) && NonNegative(g) && i < |a| && resolution >= 0.0
    requires !NeighborCommunity(g, a, i, c)
    ensures CandidateGain(g, resolution, a, i, c) <= 0.0
  {
    forall j | 0 <= j < |a| ensures g.nodeDegrees[j] >= 0.0 {
      ConnectionsAreBounded(g.adjacency[j], a, c);
    }
    ConnectionsAreBounded(g.adjacency[i], a, c);
    DegreesAreNonNegative(a, g.nodeDegrees, c, |a|);
    if g.totalWeight > 0.0 {
      var x := Product(resolution, Product(g.nodeDegrees[i], DegreeOf(a, g.nodeDegrees, c, |a|)));
      assert Ratio(0.0, g.totalWeight) == 0.0;
    }
  }

  /** For a node on its own the choice maximises modularity over all communities, and every move it makes raises it. */
  lemma {:induction false} BestFromSingleton(g: SparseGraph, resolution: real, a: Assignment, i: nat, best: nat, c: nat)
    requires Regular(g) && Fits(g, a) && NonNegative(g) && i < |a| && resolution >= 0.0 && g.totalWeight > 0.0
    requires Alone(a, i) && IsBest(g, resolution, a, i, best)
    ensures StandardModularity(g, resolution, a[i := c]) <= StandardModularity(g, resolution, a[i := best])
    ensures best != a[i] ==> StandardModularity(g, resolution, a) < StandardModularity(g, resolution, a[i := best])
  {
    assert a[i := a[i]] == a;
    if c != a[i] {
      GainDecidesMove(g, resolution, a, i, c);
      if !NeighborCommunity(g, a, i, c) {
        ForeignGainIsNotPositive(g, resolution, a, i, c);
      }
    }
    if best != a[i] {
      GainDecidesMove(g, resolution, a, i, best);
    }
  }

  // -------------------------------------------------- The convergence criterion

  /** The weight inside communities, counted once from each end, over the first `n` nodes. */
  function InternalWeight(g: SparseGraph, a: Assignment, n: nat): real
    requires Fits(g, a) && n <= |a| && forall i :: 0 <= i < |a| ==> LinksBelow(g.adjacency[i], |a|)
  {
    if n == 0 then 0.0 else InternalWeight(g, a, n - 1) + Connections(g.adjacency[n - 1], a, a[n - 1])
  }

  /** The penalty subtracted: the squares of the node degrees, whatever the partition. */
  function Penalty(g: SparseGraph, resolution: real, n: nat): real
    requires n <= |g.nodeDegrees| && g.totalWeight != 0.0
  {
    if n == 0 then 0.0
    else Penalty(g, resolution, n - 1) + Ratio(Product(resolution, Square(g.nodeDegrees[n - 1])), Square(g.totalWeight))
  }

  /** The modularity that the source checks convergence with. */
  function CheckedModularity(g: SparseGraph, resolution: real, a: Assignment): real
    requires Fits(g, a) && forall i :: 0 <= i < |a| ==> LinksBelow(g.adjacency[i], |a|)
  {
    if g.totalWeight == 0.0 then 0.0 else Ratio(InternalWeight(g, a, |a|), g.totalWeight) - Penalty(g, resolution, |a|)
  }

  lemma {:induction false} InternalIsBounded(g: SparseGraph, a: Assignment, n: nat)
    requires Regular(g) && Fits(g, a) && NonNegative(g) && n <= |a|
    ensures InternalWeight(g, a, n) <= Sum(g.nodeDegrees[..n])
    ensures (forall i, j :: 0 <= i < |a| && 0 <= j < |a| ==> a[i] == a[j]) ==> InternalWeight(g, a, n) == Sum(g.nodeDegrees[..n])
  {
    if n > 0 {
      InternalIsBounded(g, a, n - 1);
      ConnectionsAreBounded(g.adjacency[n - 1], a, a[n - 1]);
      assert g.nodeDegrees[..n][..n - 1] == g.nodeDegrees[..n - 1];
    }
  }

  lemma {:induction false} PenaltyIsNotNegative(g: SparseGraph, resolution: real, n: nat)
    requires n <= |g.nodeDegrees| && g.totalWeight > 0.0 && resolution >= 0.0
    requires forall i :: 0 <= i < |g.nodeDegrees| ==> g.nodeDegrees[i] >= 0.0
    ensures Penalty(g, resolution, n) >= 0.0
  {
    if n > 0 {
      PenaltyIsNotNegative(g, resolution, n - 1);
    }
  }

  lemma {:induction false} RatioGrows(x: real, y: real, d: real)
    requires x <= y && d > 0.0
    ensures Ratio(x, d) <= Ratio(y, d) && Ratio(d, d) == 1.0
  {
  }

  lemma {:induction false} TotalIsNotNegative(degrees: seq<real>)
    requires forall i :: 0 <= i < |degrees| ==> degrees[i] >= 0.0
    ensures Sum(degrees) >= 0.0
  {
    if degrees != [] {
      TotalIsNotNegative(degrees[..|degrees| - 1]);
    }
  }

  lemma {:induction false} DegreesAndTotalAreNotNegative(g: SparseGraph, a: Assignment)
    requires Regular(g) && Fits(g, a) && NonNegative(g)
    ensures forall i :: 0 <= i < |a| ==> g.nodeDegrees[i] >= 0.0
    ensures g.totalWeight >= 0.0
  {
    forall i | 0 <= i < |a| ensures g.nodeDegrees[i] >= 0.0 {
      ConnectionsAreBounded(g.adjacency[i], a, 0);
    }
    TotalIsNotNegative(g.nodeDegrees);
  }

  lemma {:induction false} CheckedModularityIsAtMostOne(g: SparseGraph, resolution: real, a: Assignment)
    requires Regular(g) && Fits(g, a) && NonNegative(g) && resolution >= 0.0
    ensures CheckedModularity(g, resolution, a) <= 1.0
  {
    DegreesAndTotalAreNotNegative(g, a);
    if g.totalWeight > 0.0 {
      InternalIsBounded(g, a, |a|);
      assert g.nodeDegrees[..|a|] == g.nodeDegrees;
      RatioGrows(InternalWeight(g, a, |a|), g.totalWeight, g.totalWeight);
      PenaltyIsNotNegative(g, resolution, |a|);
    }
  }

  /** As checked, no partition beats putting everything into one community. */
  lemma {:induction false} CheckedModularityPrefersOneCommunity(g: SparseGraph, resolution: real, a: Assignment, one: Assignment)
    requires Regular(g) && Fits(g, a) && Fits(g, one) && NonNegative(g)
    requires forall i, j :: 0 <= i < |one| && 0 <= j < |one| ==> one[i] == one[j]
    ensures CheckedModularity(g, resolution, a) <= CheckedModularity(g, resolution, one)
  {
    DegreesAndTotalAreNotNegative(g, a);
    if g.totalWeight > 0.0 {
      InternalIsBounded(g, a, |a|);
      InternalIsBounded(g, one, |one|);
      RatioGrows(InternalWeight(g, a, |a|), InternalWeight(g, one, |one|), g.totalWeight);
    }
  }

  // -------------------------------------------- When the check is on modularity

  /** What standard modularity subtracts beyond the check: the products of degrees of different nodes of a community. */
  function Cross(g: SparseGraph, a: Assignment, n: nat): real
    requires Fits(g, a) && n <= |a|
  {
    if n == 0 then 0.0
    else Cross(g, a, n - 1) + Product(g.nodeDegrees[n - 1], DegreeOf(a, g.nodeDegrees, a[n - 1], |a|) - g.nodeDegrees[n - 1])
  }

  lemma {:induction false} SharedIsGain(g: SparseGraph, resolution: real, a: Assignment, i: nat, n: nat)
    requires Regular(g) && Fits(g, a) && i < |a| && n <= |a| && g.totalWeight > 0.0
    ensures Shared(Terms(g, resolution), a, i, n) ==
            Gain(g.totalWeight, resolution, ConnectionsBelow(g.adjacency[i], a, a[i], n), g.nodeDegrees[i], DegreeOf(a, g.nodeDegrees, a[i], n))
  {
    if n == 0 {
      NoGain(g.totalWeight, resolution, g.nodeDegrees[i]);
    } else {
      SharedIsGain(g, resolution, a, i, n - 1);
      if a[n - 1] == a[i] {
        GainStep(g.totalWeight, resolution, ConnectionsBelow(g.adjacency[i], a, a[i], n - 1), g.nodeDegrees[i],
                 DegreeOf(a, g.nodeDegrees, a[i], n - 1), WeightTo(g.adjacency[i], n - 1), g.nodeDegrees[n - 1]);
      }
    }
  }

  lemma {:induction false} NoGain(total: real, resolution: real, degree: real)
    requires total > 0.0
    ensures Gain(total, resolution, 0.0, degree, 0.0) == 0.0
  {
    assert Product(degree, 0.0) == 0.0 && Product(resolution, 0.0) == 0.0;
    RatioAdds(0.0, 0.0, total);
    RatioAdds(0.0, 0.0, Square(total));
  }

  /** One row of the check against one row of the double sum. */
  lemma {:induction false} RowDifference(total: real, resolution: real, connections: real, k: real, degree: real)
    requires total > 0.0
    ensures Ratio(connections, total) - Ratio(Product(resolution, Square(k)), Square(total)) ==
            Gain(total, resolution, connections, k, degree) + Ratio(Product(resolution, Product(k, degree - k)), Square(total))
  {
    ProductSplits(k, k, degree - k);
    ProductSplits(resolution, Square(k), Product(k, degree - k));
    RatioAdds(Product(resolution, Square(k)), Product(resolution, Product(k, degree - k)), Square(total));
  }

  lemma {:induction false} ProductSplits(k: real, x: real, y: real)
    ensures Product(k, x + y) == Product(k, x) + Product(k, y)
  {
  }

  lemma {:induction false} DifferenceOfRow(g: SparseGraph, resolution: real, a: Assignment, i: nat)
    requires Regular(g) && Fits(g, a) && i < |a| && g.totalWeight > 0.0
    ensures var k, degree := g.nodeDegrees[i], DegreeOf(a, g.nodeDegrees, a[i], |a|);
            Ratio(Connections(g.adjacency[i], a, a[i]), g.totalWeight) - Ratio(Product(resolution, Square(k)), Square(g.totalWeight)) ==
            Shared(Terms(g, resolution), a, i, |a|) + Ratio(Product(resolution, Product(k, degree - k)), Square(g.totalWeight))
  {
    SharedIsGain(g, resolution, a, i, |a|);
    ConnectionsAreByNode(g.adjacency[i], a, a[i]);
    RowDifference(g.totalWeight, resolution, Connections(g.adjacency[i], a, a[i]), g.nodeDegrees[i], DegreeOf(a, g.nodeDegrees, a[i], |a|));
  }

  lemma {:induction false} DifferenceOfRows(g: SparseGraph, resolution: real, a: Assignment, n: nat)
    requires Regular(g) && Fits(g, a) && n <= |a| && g.totalWeight > 0.0
    ensures Ratio(InternalWeight(g, a, n), g.totalWeight) - Penalty(g, resolution, n) ==
            Rows(Terms(g, resolution), a, n) + Ratio(Product(resolution, Cross(g, a, n)), Square(g.totalWeight))
  {
    if n == 0 {
      assert Product(resolution, 0.0) == 0.0;
      RatioAdds(0.0, 0.0, g.totalWeight);
      RatioAdds(0.0, 0.0, Square(g.totalWeight));
    } else {
      var i := n - 1;
      var connections, more := Connections(g.adjacency[i], a, a[i]), Product(g.nodeDegrees[i], DegreeOf(a, g.nodeDegrees, a[i], |a|) - g.nodeDegrees[i]);
      DifferenceOfRows(g, resolution, a, i);
      DifferenceOfRow(g, resolution, a, i);
      RatioAdds(InternalWeight(g, a, i), connections, g.totalWeight);
      ProductSplits(resolution, Cross(g, a, i), more);
      RatioAdds(Product(resolution, Cross(g, a, i)), Product(resolution, more), Square(g.totalWeight));
    }
  }

  /** The checked quantity exceeds standard modularity by exactly the products it leaves out. */
  lemma {:induction false} CheckedIsStandardPlusCross(g: SparseGraph, resolution: real, a: Assignment)
    requires Regular(g) && Fits(g, a) && g.totalWeight > 0.0
    ensures CheckedModularity(g, resolution, a) - StandardModularity(g, resolution, a) ==
            Ratio(Product(resolution, Cross(g, a, |a|)), Square(g.totalWeight))
  {
    DifferenceOfRows(g, resolution, a, |a|);
  }

  predicate HasWeight(g: SparseGraph, i: nat) {
    i < |g.nodeDegrees| && g.nodeDegrees[i] > 0.0
  }

  /** No community holds two nodes that have relationships. */
  predicate Scattered(g: SparseGraph, a: Assignment) {
    forall i, j :: 0 <= i < j < |a| && HasWeight(g, i) && HasWeight(g, j) ==> a[i] != a[j]
  }

  lemma {:induction false} DegreeWithout(a: Assignment, degrees: seq<real>, i: nat, n: nat)
    requires i < |a| && n <= |a| && |degrees| == |a| && forall j :: 0 <= j < |degrees| ==> degrees[j] >= 0.0
    ensures DegreeOf(a, degrees, a[i], n) >= if i < n then degrees[i] else 0.0
    ensures DegreeOf(a, degrees, a[i], n) == (if i < n then degrees[i] else 0.0) <==>
            forall j :: 0 <= j < n && j != i && a[j] == a[i] ==> degrees[j] == 0.0
  {
    if n > 0 {
      DegreeWithout(a, degrees, i, n - 1);
    }
  }

  lemma {:induction false} CrossIsZero(g: SparseGraph, a: Assignment, n: nat)
    requires Fits(g, a) && n <= |a| && forall j :: 0 <= j < |a| ==> g.nodeDegrees[j] >= 0.0
    ensures Cross(g, a, n) >= 0.0
    ensures Cross(g, a, n) == 0.0 <==> forall i: nat :: i < n ==> Unaccompanied(g, a, i)
  {
    if n > 0 {
      CrossIsZero(g, a, n - 1);
      DegreeWithout(a, g.nodeDegrees, n - 1, |a|);
      assert Unaccompanied(g, a, n - 1) <==>
        Product(g.nodeDegrees[n - 1], DegreeOf(a, g.nodeDegrees, a[n - 1], |a|) - g.nodeDegrees[n - 1]) == 0.0;
    }
  }

  /** Node `i` has no relationships, or shares its community with no node that has any. */
  predicate Unaccompanied(g: SparseGraph, a: Assignment, i: nat)
    requires Fits(g, a) && i < |a|
  {
    g.nodeDegrees[i] == 0.0 || forall j :: 0 <= j < |a| && j != i && a[j] == a[i] ==> g.nodeDegrees[j] == 0.0
  }

  lemma {:induction false} ScatteredIsUnaccompanied(g: SparseGraph, a: Assignment)
    requires Fits(g, a) && forall j :: 0 <= j < |a| ==> g.nodeDegrees[j] >= 0.0
    ensures Scattered(g, a) <==> forall i: nat :: i < |a| ==> Unaccompanied(g, a, i)
  {
    if forall i: nat :: i < |a| ==> Unaccompanied(g, a, i) {
      forall i, j | 0 <= i < j < |a| && HasWeight(g, i) && HasWeight(g, j) ensures a[i] != a[j] {
        assert Unaccompanied(g, a, i);
      }
    }
    if Scattered(g, a) {
      forall i: nat | i < |a| ensures Unaccompanied(g, a, i) {
        forall j | 0 <= j < |a| && j != i && a[j] == a[i] && g.nodeDegrees[i] != 0.0 ensures g.nodeDegrees[j] == 0.0 {
          assert HasWeight(g, i) && (HasWeight(g, j) || g.nodeDegrees[j] == 0.0);
        }
      }
    }
  }

  lemma {:induction false} NoWeightNoDegrees(degrees: seq<real>)
    requires Sum(degrees) == 0.0 && forall j :: 0 <= j < |degrees| ==> degrees[j] >= 0.0
    ensures forall j :: 0 <= j < |degrees| ==> degrees[j] == 0.0
  {
    if degrees != [] {
      TotalIsNotNegative(degrees[..|degrees| - 1]);
      NoWeightNoDegrees(degrees[..|degrees| - 1]);
    }
  }

  lemma {:induction false} NoWeightRows(g: SparseGraph, resolution: real, a: Assignment, m: nat)
    requires Fits(g, a) && g.totalWeight == 0.0 && m <= |a|
    ensures Rows(Terms(g, resolution), a, m) == 0.0
  {
    if m > 0 {
      NoWeightRow(g, resolution, a, m - 1, |a|);
      NoWeightRows(g, resolution, a, m - 1);
    }
  }

  lemma {:induction false} NoWeightRow(g: SparseGraph, resolution: real, a: Assignment, i: nat, n: nat)
    requires Fits(g, a) && g.totalWeight == 0.0 && i < |a| && n <= |a|
    ensures Shared(Terms(g, resolution), a, i, n) == 0.0
  {
    if n > 0 {
      NoWeightRow(g, resolution, a, i, n - 1);
    }
  }

  /** The convergence check is on standard modularity if and only if no community holds two nodes with relationships, or the resolution is zero. */
  lemma {:induction false} CheckedIsStandardWhenScattered(g: SparseGraph, resolution: real, a: Assignment)
    requires Regular(g) && Fits(g, a) && NonNegative(g)
    ensures CheckedModularity(g, resolution, a) == StandardModularity(g, resolution, a) <==> resolution == 0.0 || Scattered(g, a)
    ensures resolution >= 0.0 ==> CheckedModularity(g, resolution, a) >= StandardModularity(g, resolution, a)
  {
    DegreesAndTotalAreNotNegative(g, a);
    ScatteredIsUnaccompanied(g, a);
    if g.totalWeight > 0.0 {
      CheckedIsStandardPlusCross(g, resolution, a);
      CrossIsZero(g, a, |a|);
      ZeroRatio(Product(resolution, Cross(g, a, |a|)), Square(g.totalWeight));
      if resolution >= 0.0 {
        RatioSign(Product(resolution, Cross(g, a, |a|)), Square(g.totalWeight));
      }
    } else {
      NoWeightNoDegrees(g.nodeDegrees);
      NoWeightRows(g, resolution, a, |a|);
    }
  }

  lemma {:induction false} ZeroRatio(x: real, d: real)
    requires d > 0.0
    ensures Ratio(x, d) == 0.0 <==> x == 0.0
  {
    var q := x / d;
    assert x == q * d;
  }
}
