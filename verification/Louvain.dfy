/** Louvain community detection: the nested move loops, and the grouping of their result. */
module Louvain {
  import opened Reals
  import opened Sorting
  import opened Strings
  import opened EntityModel
  import opened SparseGraphs
  import opened Modularity

  const MAX_LOCAL_PASSES := 10

  datatype Config = Config(resolution: real, maxIterations: nat, minModularityGain: real)

  // ---------------------------------------------------------------- Bookkeeping

  /** Sizes and degrees of the communities are what recomputing them from the assignment gives. */
  ghost predicate Consistent(g: SparseGraph, a: Assignment, sizes: seq<nat>, degrees: seq<real>) {
    && Fits(g, a) && |sizes| == |degrees| == |a|
    && (forall v :: 0 <= v < |a| ==> a[v] < |a|)
    && (forall c: nat :: c < |a| ==> sizes[c] == SizeOf(a, c, |a|) && degrees[c] == DegreeOf(a, g.nodeDegrees, c, |a|))
  }

  lemma {:induction false} MemberIsCounted(a: Assignment, v: nat, n: nat)
    requires v < n <= |a|
    ensures SizeOf(a, a[v], n) >= 1
  {
    if v < n - 1 {
      MemberIsCounted(a, v, n - 1);
    }
  }

  lemma {:induction false} MoveCounts(a: Assignment, degrees: seq<real>, i: nat, d: nat, c: nat, n: nat)
    requires i < |a| && n <= |a| && |degrees| == |a|
    ensures SizeOf(a[i := d], c, n) + (if i < n && c == a[i] then 1 else 0) == SizeOf(a, c, n) + (if i < n && c == d then 1 else 0)
    ensures DegreeOf(a[i := d], degrees, c, n) + (if i < n && c == a[i] then degrees[i] else 0.0) ==
            DegreeOf(a, degrees, c, n) + (if i < n && c == d then degrees[i] else 0.0)
  {
    if n > 0 {
      MoveCounts(a, degrees, i, d, c, n - 1);
    }
  }

  lemma {:induction false} SingletonsAreConsistent(degrees: seq<real>, c: nat, n: nat)
    requires n <= |degrees|
    ensures SizeOf(Singletons(|degrees|), c, n) == if c < n then 1 else 0
    ensures DegreeOf(Singletons(|degrees|), degrees, c, n) == if c < n then degrees[c] else 0.0
  {
    if n > 0 {
      SingletonsAreConsistent(degrees, c, n - 1);
    }
  }

  function Singletons(n: nat): (a: Assignment)
    ensures |a| == n && forall v :: 0 <= v < n ==> a[v] == v
  {
    seq(n, v => v)
  }

  // ---------------------------------------------------------------- Connectedness

  predicate Touch(g: SparseGraph, u: nat, v: nat) {
    LinksTo(g, u, v) || LinksTo(g, v, u)
  }

  predicate LinksTo(g: SparseGraph, u: nat, v: nat) {
    u < |g.adjacency| && exists k :: 0 <= k < |g.adjacency[u]| && g.adjacency[u][k].node == v
  }

  predicate IsPath(g: SparseGraph, path: seq<nat>) {
    path != [] && forall k :: 0 <= k < |path| - 1 ==> Touch(g, path[k], path[k + 1])
  }

  ghost predicate Connected(g: SparseGraph, u: nat, v: nat) {
    exists path :: IsPath(g, path) && path[0] == u && path[|path| - 1] == v
  }

  lemma {:induction false} ConnectedToSelf(g: SparseGraph, u: nat)
    ensures Connected(g, u, u)
  {
    assert IsPath(g, [u]);
  }

  lemma {:induction false} ConnectedAcross(g: SparseGraph, u: nat, v: nat, w: nat)
    requires Touch(g, u, v) && Connected(g, v, w)
    ensures Connected(g, u, w)
  {
    var path :| IsPath(g, path) && path[0] == v && path[|path| - 1] == w;
    var longer := [u] + path;
    forall k | 0 <= k < |longer| - 1 ensures Touch(g, longer[k], longer[k + 1]) {
      if k > 0 {
        assert longer[k] == path[k - 1] && longer[k + 1] == path[k];
      }
    }
    assert IsPath(g, longer);
  }

  lemma {:induction false} ConnectedJoins(g: SparseGraph, path: seq<nat>, w: nat)
    requires IsPath(g, path) && Connected(g, path[0], w)
    ensures Connected(g, path[|path| - 1], w)
  {
    if |path| > 1 {
      ConnectedAcross(g, path[1], path[0], w);
      assert forall k :: 0 <= k < |path[1..]| ==> path[1..][k] == path[k + 1];
      ConnectedJoins(g, path[1..], w);
    }
  }

  /** Every label is a node that the labelled node is connected to. */
  ghost predicate LabelsAreConnected(g: SparseGraph, a: Assignment) {
    forall v :: 0 <= v < |a| ==> Connected(g, v, a[v])
  }

  lemma {:induction false} SameLabelIsConnected(g: SparseGraph, a: Assignment, u: nat, v: nat)
    requires LabelsAreConnected(g, a) && u < |a| && v < |a| && a[u] == a[v]
    ensures Connected(g, u, v)
  {
    var path :| IsPath(g, path) && path[0] == v && path[|path| - 1] == a[v];
    ConnectedToSelf(g, v);
    ConnectedJoins(g, path, v);
    var path' :| IsPath(g, path') && path'[0] == u && path'[|path'| - 1] == a[u];
    ConnectedReversed(g, path', v);
  }

  lemma {:induction false} ConnectedReversed(g: SparseGraph, path: seq<nat>, w: nat)
    requires IsPath(g, path) && Connected(g, path[|path| - 1], w)
    ensures Connected(g, path[0], w)
  {
    if |path| > 1 {
      assert forall k :: 0 <= k < |path[1..]| ==> path[1..][k] == path[k + 1];
      ConnectedReversed(g, path[1..], w);
      ConnectedAcross(g, path[0], path[1], w);
    }
  }

  // ------------------------------------------------------------------ Algorithm

  method FindBestCommunity(g: SparseGraph, a: Assignment, degrees: seq<real>, node: nat, resolution: real) returns (best: nat)
    requires Regular(g) && Fits(g, a) && node < |a| && |degrees| == |a|
    requires forall v :: 0 <= v < |a| ==> a[v] < |a|
    requires forall c: nat :: c < |a| ==> degrees[c] == DegreeOf(a, g.nodeDegrees, c, |a|)
    ensures best < |a| && IsBest(g, resolution, a, node, best)
  {
    var row, current := g.adjacency[node], a[node];
    var connections: map<nat, real> := map[];
    for k := 0 to |row|
      invariant forall c: nat :: c in connections <==> exists k' :: 0 <= k' < k && a[row[k'].node] == c
      invariant forall c: nat :: Connections(row[..k], a, c) == if c in connections then connections[c] else 0.0
    {
      var c := a[row[k].node];
      assert row[..k + 1][..k] == row[..k];
      connections := connections[c := (if c in connections then connections[c] else 0.0) + row[k].weight];
    }
    assert row[..|row|] == row;
    assert forall c: nat :: c in connections <==> NeighborCommunity(g, a, node, c);
    best := current;
    var bestGain := 0.0;
    var rest := connections.Keys;
    while rest != {}
      invariant rest <= connections.Keys && best < |a|
      invariant best == current ==> bestGain == 0.0
      invariant best != current ==> best in connections && bestGain == CandidateGain(g, resolution, a, node, best) > 0.0
      invariant forall c :: c in connections && c !in rest && c != current ==> CandidateGain(g, resolution, a, node, c) <= bestGain
      decreases rest
    {
      var candidate :| candidate in rest;
      rest := rest - {candidate};
      if candidate == current {
        continue;
      }
      var k :| 0 <= k < |row| && a[row[k].node] == candidate;
      assert a[row[k].node] < |a|;
      var gain := Gain(g.totalWeight, resolution, connections[candidate], g.nodeDegrees[node], degrees[candidate]);
      if gain > bestGain {
        best, bestGain := candidate, gain;
      }
    }
  }

  // ---------------------------------------------------- What a run has to be like

  /** From `a` to `a'`, node `node` alone changes its label, to a best one given all the others. */
  ghost predicate IsTurn(g: SparseGraph, resolution: real, a: Assignment, node: nat, a': Assignment) {
    && Regular(g) && Fits(g, a) && node < |a|
    && exists best: nat :: IsBest(g, resolution, a, node, best) && a' == a[node := best]
  }

  /** The first `n` nodes take their turns in index order, each seeing the labels the earlier ones chose. */
  ghost predicate SweepsFirst(g: SparseGraph, resolution: real, a: Assignment, n: nat, a': Assignment)
    decreases n, 1
  {
    if n == 0 then a' == a else exists before :: SweepsVia(g, resolution, a, n, before, a')
  }

  ghost predicate SweepsVia(g: SparseGraph, resolution: real, a: Assignment, n: nat, before: Assignment, a': Assignment)
    requires n > 0
    decreases n, 0
  {
    SweepsFirst(g, resolution, a, n - 1, before) && IsTurn(g, resolution, before, n - 1, a')
  }

  ghost predicate IsSweep(g: SparseGraph, resolution: real, a: Assignment, a': Assignment) {
    SweepsFirst(g, resolution, a, |a|, a')
  }

  /** Whole sweeps one after the other: none follows a sweep that left the labels alone. */
  ghost predicate AreSweeps(g: SparseGraph, resolution: real, states: seq<Assignment>) {
    && states != []
    && (forall k :: 0 < k < |states| ==> IsSweep(g, resolution, states[k - 1], states[k]))
    && (forall k :: 0 < k < |states| - 1 ==> states[k - 1] != states[k])
  }

  /** Local moving: at least one sweep and at most ten, fewer only when the last one moved nothing. */
  ghost predicate IsLocalPhase(g: SparseGraph, resolution: real, a: Assignment, a': Assignment) {
    exists states ::
      && AreSweeps(g, resolution, states) && states[0] == a && states[|states| - 1] == a'
      && 1 <= |states| - 1 <= MAX_LOCAL_PASSES
      && (|states| - 1 < MAX_LOCAL_PASSES ==> states[|states| - 2] == a')
  }

  /** Whether the `k`-th outer iteration raised the checked modularity by more than the minimum gain; the first is compared with -1. */
  predicate Improves(g: SparseGraph, config: Config, history: seq<Assignment>, k: nat)
    requires 0 < k < |history| && forall h :: 0 <= h < |history| ==> Fits(g, history[h])
    requires forall i :: 0 <= i < |g.adjacency| ==> LinksBelow(g.adjacency[i], |g.adjacency|)
  {
    var best := if k == 1 then -1.0 else CheckedModularity(g, config.resolution, history[k - 1]);
    CheckedModularity(g, config.resolution, history[k]) > best + config.minModularityGain
  }

  /** Every outer iteration is a local phase, and all but possibly the last improved. */
  ghost predicate IsHistory(g: SparseGraph, config: Config, history: seq<Assignment>) {
    && Regular(g) && history != [] && history[0] == Singletons(|g.adjacency|)
    && (forall k :: 0 <= k < |history| ==> Fits(g, history[k]))
    && (forall k :: 0 < k < |history| ==> IsLocalPhase(g, config.resolution, history[k - 1], history[k]))
    && (forall k :: 0 < k < |history| - 1 ==> Improves(g, config, history, k))
  }

  /** A finished run: it stopped at the first iteration that did not improve, or at the limit. */
  ghost predicate IsRun(g: SparseGraph, config: Config, history: seq<Assignment>) {
    && IsHistory(g, config, history) && |history| - 1 <= config.maxIterations
    && (|history| - 1 == config.maxIterations || (|history| > 1 && !Improves(g, config, history, |history| - 1)))
  }

  /** Each node is looked at once a sweep, so a sweep that ends where it began kept every label. */
  lemma {:induction false} SweepTouchesOnce(g: SparseGraph, resolution: real, a: Assignment, n: nat, a': Assignment)
    requires SweepsFirst(g, resolution, a, n, a') && n <= |a|
    ensures |a'| == |a| && forall v :: n <= v < |a| ==> a'[v] == a[v]
  {
    if n > 0 {
      var before :| SweepsVia(g, resolution, a, n, before, a');
      SweepTouchesOnce(g, resolution, a, n - 1, before);
    }
  }

  lemma {:induction false} StillSweepKeepsAll(g: SparseGraph, resolution: real, a: Assignment, n: nat, a': Assignment)
    requires SweepsFirst(g, resolution, a, n, a') && n <= |a| == |a'| && forall v :: 0 <= v < n ==> a'[v] == a[v]
    ensures a' == a && forall v :: 0 <= v < n ==> Fits(g, a) && Regular(g) && IsBest(g, resolution, a, v, a[v])
  {
    SweepTouchesOnce(g, resolution, a, n, a');
    if n > 0 {
      var before :| SweepsVia(g, resolution, a, n, before, a');
      SweepTouchesOnce(g, resolution, a, n - 1, before);
      assert forall v :: 0 <= v < n - 1 ==> before[v] == a'[v];
      StillSweepKeepsAll(g, resolution, a, n - 1, before);
    }
  }

  /** Local moving that ends before the tenth sweep ends where no node has a candidate of positive gain. */
  lemma {:induction false} SettledIsStable(g: SparseGraph, resolution: real, a: Assignment, v: nat)
    requires Regular(g) && Fits(g, a) && v < |a| && IsSweep(g, resolution, a, a)
    ensures IsBest(g, resolution, a, v, a[v])
  {
    StillSweepKeepsAll(g, resolution, a, |a|, a);
  }

  // ---------------------------------------------------------------- The move loops

  /** One node changes its label; the bookkeeping is updated in place of recomputing it. */
  method Move(g: SparseGraph, a: Assignment, sizes: seq<nat>, degrees: seq<real>, node: nat, best: nat)
    returns (a': Assignment, sizes': seq<nat>, degrees': seq<real>)
    requires Consistent(g, a, sizes, degrees) && node < |a| && best < |a| && best != a[node]
    ensures a' == a[node := best] && Consistent(g, a', sizes', degrees')
  {
    var current := a[node];
    MemberIsCounted(a, node, |a|);
    sizes' := sizes[current := sizes[current] - 1];
    sizes' := sizes'[best := sizes'[best] + 1];
    var degree := g.nodeDegrees[node];
    degrees' := degrees[current := degrees[current] - degree];
    degrees' := degrees'[best := degrees'[best] + degree];
    a' := a[node := best];
    MoveIsConsistent(g, a, sizes, degrees, node, best, sizes', degrees');
  }

  /** One sweep over the nodes in index order. */
  method MoveNodes(g: SparseGraph, resolution: real, a: Assignment, sizes: seq<nat>, degrees: seq<real>)
    returns (a': Assignment, sizes': seq<nat>, degrees': seq<real>, movesMade: bool)
    requires Regular(g) && Consistent(g, a, sizes, degrees) && LabelsAreConnected(g, a)
    ensures Consistent(g, a', sizes', degrees') && LabelsAreConnected(g, a')
    ensures IsSweep(g, resolution, a, a')
    ensures movesMade <==> a' != a
  {
    a', sizes', degrees', movesMade := a, sizes, degrees, false;
    for node := 0 to |a|
      invariant Consistent(g, a', sizes', degrees') && |a'| == |a| && LabelsAreConnected(g, a')
      invariant SweepsFirst(g, resolution, a, node, a')
      invariant forall v :: node <= v < |a| ==> a'[v] == a[v]
      invariant movesMade <==> exists v :: 0 <= v < node && a'[v] != a[v]
    {
      ghost var turn := a';
      var current := a'[node];
      var best := FindBestCommunity(g, a', degrees', node, resolution);
      if best != current {
        LabelStaysConnected(g, a', node, best);
        a', sizes', degrees' := Move(g, a', sizes', degrees', node, best);
        movesMade := true;
      }
      assert a' == turn[node := best];
      assert IsTurn(g, resolution, turn, node, a');
      assert SweepsVia(g, resolution, a, node + 1, turn, a');
    }
  }

  lemma {:induction false} MoveIsConsistent(g: SparseGraph, a: Assignment, sizes: seq<nat>, degrees: seq<real>, node: nat, best: nat,
                         sizes': seq<nat>, degrees': seq<real>)
    requires Consistent(g, a, sizes, degrees) && node < |a| && best < |a| && best != a[node] && sizes[a[node]] >= 1
    requires sizes' == sizes[a[node] := sizes[a[node]] - 1][best := sizes[best] + 1]
    requires degrees' == degrees[a[node] := degrees[a[node]] - g.nodeDegrees[node]][best := degrees[best] + g.nodeDegrees[node]]
    ensures Consistent(g, a[node := best], sizes', degrees')
  {
    var moved := a[node := best];
    forall c: nat | c < |a| ensures sizes'[c] == SizeOf(moved, c, |a|) && degrees'[c] == DegreeOf(moved, g.nodeDegrees, c, |a|) {
      MoveCounts(a, g.nodeDegrees, node, best, c, |a|);
    }
  }

  /** A node only ever adopts the label of a neighbour. */
  lemma {:induction false} LabelStaysConnected(g: SparseGraph, a: Assignment, node: nat, best: nat)
    requires Regular(g) && Fits(g, a) && node < |a| && LabelsAreConnected(g, a) && NeighborCommunity(g, a, node, best)
    ensures LabelsAreConnected(g, a[node := best])
  {
    var k :| 0 <= k < |g.adjacency[node]| && a[g.adjacency[node][k].node] == best;
    var neighbor := g.adjacency[node][k].node;
    assert LinksTo(g, node, neighbor);
    ConnectedAcross(g, node, neighbor, a[neighbor]);
  }

  /** Improving iterations raise the checked modularity by more than the minimum gain each, from -1 towards at most 1. */
  method LouvainAssignment(g: SparseGraph, config: Config)
    returns (a: Assignment, iterations: nat, ghost improving: nat, ghost history: seq<Assignment>)
    requires Regular(g)
    ensures IsRun(g, config, history) && |history| == iterations + 1 && history[iterations] == a
    ensures Fits(g, a) && (forall v :: 0 <= v < |a| ==> a[v] < |a|) && LabelsAreConnected(g, a)
    ensures iterations <= config.maxIterations && iterations <= improving + 1
    ensures iterations == config.maxIterations || iterations == improving + 1
    ensures config.resolution >= 0.0 && config.minModularityGain > 0.0 && NonNegative(g) ==>
              Product(improving as real, config.minModularityGain) < 2.0
  {
    var n := |g.adjacency|;
    a := Singletons(n);
    var sizes: seq<nat> := seq(n, _ => 1);
    var degrees := g.nodeDegrees;
    SingletonsAreSound(g, sizes);
    iterations, improving, history := 0, 0, [a];
    var modularityImproved, bestModularity := true, -1.0;
    while modularityImproved && iterations < config.maxIterations
      invariant Consistent(g, a, sizes, degrees) && LabelsAreConnected(g, a)
      invariant iterations <= config.maxIterations && improving <= iterations
      invariant IsProgress(g, config, history, a, iterations, improving, bestModularity, modularityImproved)
      decreases config.maxIterations - iterations
    {
      modularityImproved := false;
      iterations := iterations + 1;
      ghost var before := history;
      a, sizes, degrees := LocalPasses(g, config.resolution, a, sizes, degrees);
      history := history + [a];
      var currentModularity := CalculateModularity(g, a, config.resolution);
      ProgressIsMade(g, config, before, a, iterations - 1, improving, bestModularity);
      if currentModularity > bestModularity + config.minModularityGain {
        bestModularity := currentModularity;
        modularityImproved := true;
        improving := improving + 1;
      }
      if !modularityImproved {
        break;
      }
    }
  }

  lemma {:induction false} SingletonsAreSound(g: SparseGraph, sizes: seq<nat>)
    requires Regular(g) && |sizes| == |g.adjacency| && forall v :: 0 <= v < |sizes| ==> sizes[v] == 1
    ensures var a := Singletons(|g.adjacency|); Consistent(g, a, sizes, g.nodeDegrees) && LabelsAreConnected(g, a)
  {
    var n := |g.adjacency|;
    forall c: nat | c < n
      ensures sizes[c] == SizeOf(Singletons(n), c, n) && g.nodeDegrees[c] == DegreeOf(Singletons(n), g.nodeDegrees, c, n)
    {
      SingletonsAreConsistent(g.nodeDegrees, c, n);
    }
    forall v | 0 <= v < n ensures Connected(g, v, Singletons(n)[v]) {
      ConnectedToSelf(g, v);
    }
  }

  /** Where the outer loop stands after some iterations. */
  ghost predicate IsProgress(g: SparseGraph, config: Config, history: seq<Assignment>, a: Assignment,
                             iterations: nat, improving: nat, best: real, improved: bool)
  {
    && IsHistory(g, config, history) && |history| == iterations + 1 && history[iterations] == a
    && iterations == improving + (if improved then 0 else 1)
    && Rises(g, config, best, improving)
    && (improved ==> best == if iterations == 0 then -1.0 else CheckedModularity(g, config.resolution, a))
    && (iterations > 0 ==> (improved <==> Improves(g, config, history, iterations)))
  }

  lemma {:induction false} ProgressIsMade(g: SparseGraph, config: Config, history: seq<Assignment>, a: Assignment,
                                          iterations: nat, improving: nat, best: real)
    requires history != [] && IsProgress(g, config, history, history[|history| - 1], iterations, improving, best, true)
    requires Fits(g, a) && IsLocalPhase(g, config.resolution, history[|history| - 1], a)
    ensures var current := CheckedModularity(g, config.resolution, a);
            if current > best + config.minModularityGain
            then IsProgress(g, config, history + [a], a, iterations + 1, improving + 1, current, true)
            else IsProgress(g, config, history + [a], a, iterations + 1, improving, best, false)
  {
    HistoryGrows(g, config, history, a);
    var longer := history + [a];
    assert longer[iterations + 1] == a && longer[iterations] == history[iterations];
    if CheckedModularity(g, config.resolution, a) > best + config.minModularityGain {
      RisesAgain(g, config, a, best, improving);
    }
  }

  lemma {:induction false} HistoryGrows(g: SparseGraph, config: Config, history: seq<Assignment>, a: Assignment)
    requires IsHistory(g, config, history) && Fits(g, a)
    requires IsLocalPhase(g, config.resolution, history[|history| - 1], a)
    requires |history| > 1 ==> Improves(g, config, history, |history| - 1)
    ensures IsHistory(g, config, history + [a])
  {
    var longer := history + [a];
    forall k | 0 < k < |longer| - 1 ensures Improves(g, config, longer, k) {
      assert Improves(g, config, history, k);
    }
    forall k | 0 < k < |longer| ensures IsLocalPhase(g, config.resolution, longer[k - 1], longer[k]) {
      assert k < |history| ==> longer[k] == history[k];
    }
  }

  /** Sweeps until one makes no move, ten at most. */
  method LocalPasses(g: SparseGraph, resolution: real, a: Assignment, sizes: seq<nat>, degrees: seq<real>)
    returns (a': Assignment, sizes': seq<nat>, degrees': seq<real>)
    requires Regular(g) && Consistent(g, a, sizes, degrees) && LabelsAreConnected(g, a)
    ensures Consistent(g, a', sizes', degrees') && LabelsAreConnected(g, a')
    ensures IsLocalPhase(g, resolution, a, a')
  {
    a', sizes', degrees' := a, sizes, degrees;
    var movesMade, localPass := true, 0;
    ghost var states := [a];
    while movesMade && localPass < MAX_LOCAL_PASSES
      invariant Consistent(g, a', sizes', degrees') && LabelsAreConnected(g, a')
      invariant localPass == |states| - 1 <= MAX_LOCAL_PASSES && (movesMade || localPass > 0)
      invariant AreSweeps(g, resolution, states) && states[0] == a && states[|states| - 1] == a'
      invariant localPass > 0 ==> (movesMade <==> states[localPass - 1] != a')
      decreases MAX_LOCAL_PASSES - localPass
    {
      localPass := localPass + 1;
      ghost var before := a';
      a', sizes', degrees', movesMade := MoveNodes(g, resolution, a', sizes', degrees');
      states := states + [a'];
    }
  }

  ghost predicate Rises(g: SparseGraph, config: Config, best: real, improving: nat) {
    config.resolution >= 0.0 && config.minModularityGain > 0.0 && NonNegative(g) ==>
      if improving == 0 then best == -1.0
      else best <= 1.0 && best > Product(improving as real, config.minModularityGain) - 1.0
  }

  lemma {:induction false} RisesAgain(g: SparseGraph, config: Config, a: Assignment, best: real, improving: nat)
    requires Regular(g) && Fits(g, a) && Rises(g, config, best, improving)
    requires CheckedModularity(g, config.resolution, a) > best + config.minModularityGain
    ensures Rises(g, config, CheckedModularity(g, config.resolution, a), improving + 1)
  {
    if config.resolution >= 0.0 && config.minModularityGain > 0.0 && NonNegative(g) {
      CheckedModularityIsAtMostOne(g, config.resolution, a);
      assert Product((improving + 1) as real, config.minModularityGain) == Product(config.minModularityGain, improving as real + 1.0);
      assert Product(config.minModularityGain, 1.0) == config.minModularityGain;
    }
  }

  method CalculateModularity(g: SparseGraph, a: Assignment, resolution: real) returns (modularity: real)
    requires Regular(g) && Fits(g, a)
    ensures modularity == CheckedModularity(g, resolution, a)
  {
    if g.totalWeight == 0.0 {
      return 0.0;
    }
    modularity := 0.0;
    ghost var sofar := 0.0;
    RatioAdds(0.0, 0.0, g.totalWeight);
    for node := 0 to |a|
      invariant modularity == Ratio(InternalWeight(g, a, node), g.totalWeight) - Penalty(g, resolution, node)
    {
      var row, internal := g.adjacency[node], 0.0;
      for k := 0 to |row|
        invariant internal == Connections(row[..k], a, a[node])
      {
        assert row[..k + 1][..k] == row[..k];
        if a[row[k].node] == a[node] {
          internal := internal + row[k].weight;
        }
      }
      assert row[..|row|] == row;
      RatioAdds(InternalWeight(g, a, node), internal, g.totalWeight);
      modularity := modularity + Ratio(internal, g.totalWeight);
      modularity := modularity - Ratio(Product(resolution, Square(g.nodeDegrees[node])), Square(g.totalWeight));
    }
  }

  // ------------------------------------------------------------------- Grouping

  /** The nodes below `n` labelled `c`, ascending. */
  function Members(a: Assignment, c: nat, n: nat): seq<nat>
    requires n <= |a|
  {
    if n == 0 then [] else Members(a, c, n - 1) + (if a[n - 1] == c then [n - 1] else [])
  }

  lemma {:induction false} MembersCount(a: Assignment, c: nat, n: nat, v: nat)
    requires n <= |a|
    ensures Occurrences(Members(a, c, n), v) == if v < n && a[v] == c then 1 else 0
    ensures v in Members(a, c, n) <==> v < n && a[v] == c
  {
    if n > 0 {
      MembersCount(a, c, n - 1, v);
      var before := Members(a, c, n - 1);
      assert (before + [n - 1])[..|before|] == before;
      assert Members(a, c, n) == if a[n - 1] == c then before + [n - 1] else before;
    }
  }

  /** One group for each label in use, in any order, holding all the nodes with that label. */
  ghost predicate AreGroups(a: Assignment, labels: seq<nat>, groups: seq<seq<nat>>) {
    && |labels| == |groups| && Distinct(labels)
    && (forall v :: 0 <= v < |a| ==> a[v] in labels)
    && (forall g :: 0 <= g < |groups| ==> groups[g] == Members(a, labels[g], |a|) && groups[g] != [])
  }

  lemma {:induction false} GroupsCount(a: Assignment, labels: seq<nat>, groups: seq<seq<nat>>, k: nat, v: nat)
    requires k <= |labels| == |groups| && Distinct(labels)
    requires forall g :: 0 <= g < |groups| ==> groups[g] == Members(a, labels[g], |a|)
    ensures Occurrences(Flatten(groups[..k]), v) == if v < |a| && a[v] in labels[..k] then 1 else 0
  {
    if k > 0 {
      assert groups[..k] == groups[..k - 1] + [groups[k - 1]] && labels[..k] == labels[..k - 1] + [labels[k - 1]];
      GroupsCount(a, labels, groups, k - 1, v);
      FlattenSnoc(groups[..k - 1], groups[k - 1]);
      OccurrencesConcat(Flatten(groups[..k - 1]), groups[k - 1], v);
      MembersCount(a, labels[k - 1], |a|, v);
    }
  }

  /** The groups partition the nodes: together they hold each node exactly once. */
  lemma {:induction false} GroupsPartition(a: Assignment, labels: seq<nat>, groups: seq<seq<nat>>)
    requires AreGroups(a, labels, groups)
    ensures forall v: nat :: Occurrences(Flatten(groups), v) == if v < |a| then 1 else 0
  {
    assert groups[..|groups|] == groups && labels[..|labels|] == labels;
    forall v: nat ensures Occurrences(Flatten(groups), v) == if v < |a| then 1 else 0 {
      GroupsCount(a, labels, groups, |groups|, v);
    }
  }

  ghost predicate AreMembers(communities: map<nat, seq<nat>>, a: Assignment, n: nat)
    requires n <= |a|
  {
    && (forall u :: 0 <= u < n ==> a[u] in communities)
    && (forall c :: c in communities ==> communities[c] == Members(a, c, n) && communities[c] != [])
    && (forall c: nat :: c !in communities ==> Members(a, c, n) == [])
  }

  /** The nodes pushed to the list of their label, in index order. */
  method ByLabel(a: Assignment) returns (communities: map<nat, seq<nat>>)
    ensures AreMembers(communities, a, |a|)
  {
    communities := map[];
    for v := 0 to |a|
      invariant AreMembers(communities, a, v)
    {
      var c := a[v];
      communities := communities[c := (if c in communities then communities[c] else []) + [v]];
    }
  }

  method GroupNodes(a: Assignment) returns (groups: seq<seq<nat>>, ghost labels: seq<nat>)
    ensures AreGroups(a, labels, groups)
    ensures forall v: nat :: Occurrences(Flatten(groups), v) == if v < |a| then 1 else 0
  {
    var communities := ByLabel(a);
    groups, labels := [], [];
    var rest := communities.Keys;
    while rest != {}
      invariant rest <= communities.Keys && |labels| == |groups| && Distinct(labels)
      invariant forall c :: c in labels <==> c in communities && c !in rest
      invariant forall g :: 0 <= g < |groups| ==> groups[g] == Members(a, labels[g], |a|) && groups[g] != []
      decreases rest
    {
      var c :| c in rest;
      groups, labels := groups + [communities[c]], labels + [c];
      rest := rest - {c};
    }
    GroupsPartition(a, labels, groups);
  }

  // ------------------------------------------------------------------ Detection

  function Name(entities: seq<EntityNode>, v: nat): string {
    if v < |entities| then entities[v].key.name else ""
  }

  function Names(entities: seq<EntityNode>, nodes: seq<nat>): seq<string> {
    if nodes == [] then [] else Names(entities, nodes[..|nodes| - 1]) + [Name(entities, nodes[|nodes| - 1])]
  }

  function AllNames(entities: seq<EntityNode>): seq<string> {
    seq(|entities|, v requires 0 <= v < |entities| => entities[v].key.name)
  }

  /** How often `name` is named by the nodes below `n` of a list. */
  function NamedBelow(entities: seq<EntityNode>, nodes: seq<nat>, name: string, n: nat): nat {
    if n == 0 then 0
    else NamedBelow(entities, nodes, name, n - 1) + (if Name(entities, n - 1) == name then Occurrences<nat>(nodes, n - 1) else 0)
  }

  lemma {:induction false} NamedBelowSnoc(entities: seq<EntityNode>, nodes: seq<nat>, v: nat, name: string, n: nat)
    ensures NamedBelow(entities, nodes + [v], name, n) ==
            NamedBelow(entities, nodes, name, n) + (if v < n && Name(entities, v) == name then 1 else 0)
  {
    if n > 0 {
      NamedBelowSnoc(entities, nodes, v, name, n - 1);
      assert (nodes + [v])[..|nodes|] == nodes;
    }
  }

  lemma {:induction false} NothingNamed(entities: seq<EntityNode>, name: string, n: nat)
    ensures NamedBelow(entities, [], name, n) == 0
  {
    if n > 0 {
      NothingNamed(entities, name, n - 1);
    }
  }

  lemma {:induction false} NamesAreCounted(entities: seq<EntityNode>, nodes: seq<nat>, name: string, n: nat)
    requires forall k :: 0 <= k < |nodes| ==> nodes[k] < n
    ensures Occurrences(Names(entities, nodes), name) == NamedBelow(entities, nodes, name, n)
  {
    if nodes == [] {
      NothingNamed(entities, name, n);
    } else {
      var k := |nodes| - 1;
      assert nodes == nodes[..k] + [nodes[k]];
      NamesAreCounted(entities, nodes[..k], name, n);
      NamedBelowSnoc(entities, nodes[..k], nodes[k], name, n);
      var before := Names(entities, nodes[..k]);
      assert (before + [Name(entities, nodes[k])])[..|before|] == before;
    }
  }

  lemma {:induction false} EachNodeOnceIsEachName(entities: seq<EntityNode>, nodes: seq<nat>, name: string, n: nat)
    requires n <= |entities| && forall v: nat :: v < |entities| ==> Occurrences(nodes, v) == 1
    ensures NamedBelow(entities, nodes, name, n) == Occurrences(AllNames(entities)[..n], name)
  {
    if n > 0 {
      EachNodeOnceIsEachName(entities, nodes, name, n - 1);
      var sofar := AllNames(entities)[..n];
      assert sofar[..|sofar| - 1] == AllNames(entities)[..n - 1] && sofar[|sofar| - 1] == Name(entities, n - 1);
    }
  }

  /** Listing every node once, in whatever order, names every entity as often as it occurs. */
  lemma {:induction false} EachNodeOnce(entities: seq<EntityNode>, nodes: seq<nat>)
    requires forall v: nat :: Occurrences(nodes, v) == if v < |entities| then 1 else 0
    ensures multiset(Names(entities, nodes)) == multiset(AllNames(entities))
  {
    forall k | 0 <= k < |nodes| ensures nodes[k] < |entities| {
      OccurrencesAreCounted(nodes, nodes[k]);
      assert nodes[k] in multiset(nodes);
    }
    forall name ensures Occurrences(Names(entities, nodes), name) == Occurrences(AllNames(entities), name) {
      NamesAreCounted(entities, nodes, name, |entities|);
      EachNodeOnceIsEachName(entities, nodes, name, |entities|);
      assert AllNames(entities)[..|entities|] == AllNames(entities);
    }
    SameOccurrencesSameBag(Names(entities, nodes), AllNames(entities));
  }

  ghost predicate RelatedThrough(index: map<string, nat>, edges: seq<EntityEdge>, path: seq<nat>) {
    path != [] && forall k :: 0 <= k < |path| - 1 ==> Related(index, edges, path[k], path[k + 1])
  }

  /** A chain of relationships leads from `u` to `v`. */
  ghost predicate ChainOfRelationships(index: map<string, nat>, edges: seq<EntityEdge>, u: nat, v: nat) {
    exists path :: RelatedThrough(index, edges, path) && path[0] == u && path[|path| - 1] == v
  }

  lemma {:induction false} ConnectedIsChained(g: SparseGraph, edges: seq<EntityEdge>, u: nat, v: nat)
    requires Accounts(g.nodeIndex, edges, g.adjacency, g.nodeDegrees, g.totalWeight) && Connected(g, u, v)
    ensures ChainOfRelationships(g.nodeIndex, edges, u, v)
  {
    var path :| IsPath(g, path) && path[0] == u && path[|path| - 1] == v;
    forall k | 0 <= k < |path| - 1 ensures Related(g.nodeIndex, edges, path[k], path[k + 1]) {
    }
    assert RelatedThrough(g.nodeIndex, edges, path);
  }

  /** The built graph has all that the optimiser needs. */
  lemma {:induction false} BuiltGraphIsRegular(g: SparseGraph, edges: seq<EntityEdge>)
    requires Accounts(g.nodeIndex, edges, g.adjacency, g.nodeDegrees, g.totalWeight)
    ensures Regular(g)
    ensures (forall e :: 0 <= e < |edges| ==> edges[e].weight >= 0.0) ==> NonNegative(g)
    ensures forall i, j :: 0 <= i < |g.adjacency| && 0 <= j < |g.adjacency| ==>
              WeightTo(g.adjacency[i], j) == EdgeWeight(g.nodeIndex, edges, i, j)
  {
    forall i: nat, j: nat | i < |g.adjacency| && j < |g.adjacency|
      ensures WeightTo(g.adjacency[i], j) == EdgeWeight(g.nodeIndex, edges, i, j) == WeightTo(g.adjacency[j], i)
    {
      assert RowAccounts(g.nodeIndex, edges, g.adjacency[i], i, |g.adjacency|);
      assert RowAccounts(g.nodeIndex, edges, g.adjacency[j], j, |g.adjacency|);
      EdgeWeightIsSymmetric(g.nodeIndex, edges, i, j);
    }
    forall i | 0 <= i < |g.adjacency| ensures LinksBelow(g.adjacency[i], |g.adjacency|) {
      assert RowAccounts(g.nodeIndex, edges, g.adjacency[i], i, |g.adjacency|);
    }
    if forall e :: 0 <= e < |edges| ==> edges[e].weight >= 0.0 {
      forall i, k | 0 <= i < |g.adjacency| && 0 <= k < |g.adjacency[i]| ensures g.adjacency[i][k].weight >= 0.0 {
        assert RowAccounts(g.nodeIndex, edges, g.adjacency[i], i, |g.adjacency|);
      }
    }
  }

  lemma {:induction false} NamesConcat(entities: seq<EntityNode>, a: seq<nat>, b: seq<nat>)
    ensures Names(entities, a + b) == Names(entities, a) + Names(entities, b)
  {
    if b == [] {
      assert a + b == a;
    } else {
      assert (a + b)[..|a + b| - 1] == a + b[..|b| - 1];
      NamesConcat(entities, a, b[..|b| - 1]);
    }
  }

  lemma {:induction false} CommunitiesNameGroups(entities: seq<EntityNode>, groups: seq<seq<nat>>, communities: seq<seq<string>>)
    requires |communities| == |groups| && forall g :: 0 <= g < |groups| ==> communities[g] == Names(entities, groups[g])
    ensures Flatten(communities) == Names(entities, Flatten(groups))
  {
    if groups != [] {
      CommunitiesNameGroups(entities, groups[1..], communities[1..]);
      NamesConcat(entities, groups[0], Flatten(groups[1..]));
    }
  }

  /** The groups hold each of `n` nodes once, and any two of a group are chained by relationships. */
  ghost predicate IsPartition(index: map<string, nat>, edges: seq<EntityEdge>, groups: seq<seq<nat>>, n: nat) {
    && (forall v: nat :: Occurrences(Flatten(groups), v) == if v < n then 1 else 0)
    && (forall g, u, v :: 0 <= g < |groups| && u in groups[g] && v in groups[g] ==> ChainOfRelationships(index, edges, u, v))
  }

  lemma {:induction false} LouvainPartitions(graph: SparseGraph, edges: seq<EntityEdge>, a: Assignment, labels: seq<nat>, groups: seq<seq<nat>>)
    requires Accounts(graph.nodeIndex, edges, graph.adjacency, graph.nodeDegrees, graph.totalWeight)
    requires LabelsAreConnected(graph, a) && AreGroups(a, labels, groups)
    ensures IsPartition(graph.nodeIndex, edges, groups, |a|)
  {
    GroupsPartition(a, labels, groups);
    forall g, u, v | 0 <= g < |groups| && u in groups[g] && v in groups[g]
      ensures ChainOfRelationships(graph.nodeIndex, edges, u, v)
    {
      MembersCount(a, labels[g], |a|, u);
      MembersCount(a, labels[g], |a|, v);
      SameLabelIsConnected(graph, a, u, v);
      ConnectedIsChained(graph, edges, u, v);
    }
  }

  ghost predicate EndsIn(history: seq<Assignment>, groups: seq<seq<nat>>)
    requires history != []
  {
    var last := history[|history| - 1];
    exists labels :: AreGroups(last, labels, groups)
  }

  /** The groups are those of the labels that a finished run on the graph of the relationships ends with. */
  ghost predicate IsDetection(entities: seq<EntityNode>, edges: seq<EntityEdge>, config: Config,
                              graph: SparseGraph, history: seq<Assignment>, groups: seq<seq<nat>>) {
    && |graph.adjacency| == |entities| && Indexes(graph.nodeIndex, entities)
    && Accounts(graph.nodeIndex, edges, graph.adjacency, graph.nodeDegrees, graph.totalWeight)
    && IsRun(graph, config, history)
    && EndsIn(history, groups)
  }

  /**
   * The communities of a document graph. Their members are the entities, each once; two
   * entities in one community are joined by a chain of relationships.
   */
  method DetectCommunities(entities: seq<EntityNode>, edges: seq<EntityEdge>, config: Config)
    returns (communities: seq<seq<string>>, ghost graph: SparseGraph, ghost history: seq<Assignment>, ghost groups: seq<seq<nat>>)
    ensures entities != [] ==> IsDetection(entities, edges, config, graph, history, groups)
    ensures IsPartition(graph.nodeIndex, edges, groups, |entities|)
    ensures |communities| == |groups| && forall g :: 0 <= g < |groups| ==> communities[g] == Names(entities, groups[g])
    ensures multiset(Flatten(communities)) == multiset(AllNames(entities))
  {
    communities := [];
    if entities == [] {
      graph, history, groups := SparseGraph([], map[], 0.0, []), [], [];
      return;
    }
    var built := BuildSparseGraph(entities, edges);
    graph := built;
    BuiltGraphIsRegular(graph, edges);
    var a, iterations, _, states := LouvainAssignment(built, config);
    history := states;
    var nodeGroups, labels := GroupNodes(a);
    groups := nodeGroups;
    LouvainPartitions(graph, edges, a, labels, groups);
    for g := 0 to |nodeGroups|
      invariant |communities| == g
      invariant forall h :: 0 <= h < g ==> communities[h] == Names(entities, groups[h])
    {
      communities := communities + [Names(entities, nodeGroups[g])];
    }
    CommunitiesNameGroups(entities, groups, communities);
    EachNodeOnce(entities, Flatten(groups));
  }
}
