/**
 * When local moving comes to rest. The search for the best community compares a candidate
 * with staying at gain zero; a turn pays when it gains more than the node leaves behind.
 */
module LouvainSettling {
  import opened Reals
  import opened Sorting
  import opened SparseGraphs
  import opened Modularity
  import opened Louvain

  // ----------------------------------------------------------- The turns of a sweep

  /** The labels after the first `n` turns of the sweep from `a` to `a'`. */
  function Between(a: Assignment, a': Assignment, n: nat): (b: Assignment)
    requires |a| == |a'| && n <= |a|
    ensures |b| == |a| && forall v :: 0 <= v < |a| ==> b[v] == if v < n then a'[v] else a[v]
  {
    a'[..n] + a[n..]
  }

  lemma {:induction false} SweepPassesThrough(g: SparseGraph, resolution: real, a: Assignment, m: nat, a': Assignment, n: nat)
    requires SweepsFirst(g, resolution, a, m, a') && n <= m <= |a|
    ensures |a'| == |a| && SweepsFirst(g, resolution, a, n, Between(a, a', n))
  {
    SweepTouchesOnce(g, resolution, a, m, a');
    if n == m {
      assert Between(a, a', n) == a';
    } else {
      var before :| SweepsVia(g, resolution, a, m, before, a');
      SweepPassesThrough(g, resolution, a, m - 1, before, n);
      assert Between(a, before, n) == Between(a, a', n);
    }
  }

  lemma {:induction false} TurnOfSweep(g: SparseGraph, resolution: real, a: Assignment, a': Assignment, n: nat)
    requires IsSweep(g, resolution, a, a') && n < |a|
    ensures |a'| == |a| && IsTurn(g, resolution, Between(a, a', n), n, Between(a, a', n + 1))
  {
    SweepPassesThrough(g, resolution, a, |a|, a', n + 1);
    var before :| SweepsVia(g, resolution, a, n + 1, before, Between(a, a', n + 1));
    SweepTouchesOnce(g, resolution, a, n, before);
    assert before == Between(a, a', n);
  }

  lemma {:induction false} SweepHasSameLength(g: SparseGraph, resolution: real, a: Assignment, a': Assignment)
    requires IsSweep(g, resolution, a, a')
    ensures |a'| == |a|
  {
    SweepTouchesOnce(g, resolution, a, |a|, a');
  }

  /** A node only adopts labels that are in use, so a label that has gone does not come back. */
  lemma {:induction false} LabelsAreInherited(g: SparseGraph, resolution: real, a: Assignment, a': Assignment, n: nat)
    requires IsSweep(g, resolution, a, a') && |a'| == |a| && n <= |a|
    ensures forall v :: 0 <= v < |a| ==> Between(a, a', n)[v] in a
  {
    if n > 0 {
      LabelsAreInherited(g, resolution, a, a', n - 1);
      TurnOfSweep(g, resolution, a, a', n - 1);
      var b := Between(a, a', n - 1);
      forall v | 0 <= v < |a| ensures Between(a, a', n)[v] in a {
        assert Between(a, a', n)[v] in b;
      }
    }
  }

  // ------------------------------------------------------------- Turns that pay

  /** Turn `n` keeps its label, or gains more in the community it joins than it leaves in its own. */
  predicate Pays(g: SparseGraph, resolution: real, a: Assignment, a': Assignment, n: nat)
    requires Fits(g, a) && |a'| == |a| && n < |a| && LinksBelow(g.adjacency[n], |a|)
  {
    var b := Between(a, a', n);
    a'[n] == a[n] || CandidateGain(g, resolution, b, n, a'[n]) > Attraction(g, resolution, b, n, a[n])
  }

  ghost predicate AllPay(g: SparseGraph, resolution: real, a: Assignment, a': Assignment) {
    Regular(g) && Fits(g, a) && |a'| == |a| && forall n :: 0 <= n < |a| ==> Pays(g, resolution, a, a', n)
  }

  lemma {:induction false} NoWeightNoMove(g: SparseGraph, resolution: real, a: Assignment, i: nat, a': Assignment)
    requires IsTurn(g, resolution, a, i, a') && g.totalWeight <= 0.0
    ensures a' == a
  {
  }

  lemma {:induction false} PayingTurnsRise(g: SparseGraph, resolution: real, a: Assignment, a': Assignment, n: nat)
    requires IsSweep(g, resolution, a, a') && AllPay(g, resolution, a, a') && n <= |a|
    ensures var b := Between(a, a', n);
            b == a || StandardModularity(g, resolution, b) > StandardModularity(g, resolution, a)
  {
    if n == 0 {
      assert Between(a, a', 0) == a;
    } else {
      PayingTurnsRise(g, resolution, a, a', n - 1);
      TurnOfSweep(g, resolution, a, a', n - 1);
      var b, next := Between(a, a', n - 1), Between(a, a', n);
      assert Pays(g, resolution, a, a', n - 1);
      if a'[n - 1] == a[n - 1] {
        assert next == b;
      } else {
        assert next == b[n - 1 := a'[n - 1]];
        if g.totalWeight <= 0.0 {
          NoWeightNoMove(g, resolution, b, n - 1, next);
        } else {
          GainDecidesMove(g, resolution, b, n - 1, a'[n - 1]);
        }
      }
    }
  }

  /** A sweep whose turns all pay strictly raises standard modularity, unless it moves nothing. */
  lemma {:induction false} PayingSweepRises(g: SparseGraph, resolution: real, a: Assignment, a': Assignment)
    requires IsSweep(g, resolution, a, a') && AllPay(g, resolution, a, a')
    ensures a' == a || StandardModularity(g, resolution, a') > StandardModularity(g, resolution, a)
  {
    PayingTurnsRise(g, resolution, a, a', |a|);
    assert Between(a, a', |a|) == a';
  }

  /** Sweeps one after the other, each changing some label. */
  ghost predicate KeepMoving(g: SparseGraph, resolution: real, states: seq<Assignment>) {
    forall k :: 0 < k < |states| ==> IsSweep(g, resolution, states[k - 1], states[k]) && states[k - 1] != states[k]
  }

  ghost predicate AlwaysPay(g: SparseGraph, resolution: real, states: seq<Assignment>) {
    forall k :: 0 < k < |states| ==> AllPay(g, resolution, states[k - 1], states[k])
  }

  lemma {:induction false} PayingSweepsRise(g: SparseGraph, resolution: real, states: seq<Assignment>, i: nat, j: nat)
    requires KeepMoving(g, resolution, states) && AlwaysPay(g, resolution, states) && i < j < |states|
    ensures StandardModularity(g, resolution, states[i]) < StandardModularity(g, resolution, states[j])
    decreases j
  {
    PayingSweepRises(g, resolution, states[j - 1], states[j]);
    if i < j - 1 {
      PayingSweepsRise(g, resolution, states, i, j - 1);
    }
  }

  /** Labels come back only by way of a turn that does not pay. */
  lemma {:induction false} OnlyLossesReturn(g: SparseGraph, resolution: real, states: seq<Assignment>, i: nat, j: nat)
    requires KeepMoving(g, resolution, states) && i < j < |states| && states[i] == states[j]
    ensures exists k :: i < k <= j && !AllPay(g, resolution, states[k - 1], states[k])
  {
    if forall k :: i < k <= j ==> AllPay(g, resolution, states[k - 1], states[k]) {
      var part := states[i..j + 1];
      forall k | 0 < k < |part|
        ensures IsSweep(g, resolution, part[k - 1], part[k]) && part[k - 1] != part[k] && AllPay(g, resolution, part[k - 1], part[k])
      {
        assert part[k] == states[i + k] && part[k - 1] == states[i + k - 1];
        assert i < i + k <= j;
      }
      PayingSweepsRise(g, resolution, part, 0, |part| - 1);
    }
  }

  // ------------------------------------------------------ Finitely many labellings

  predicate LabelsBelow(a: Assignment, n: nat) {
    forall v :: 0 <= v < |a| ==> a[v] < n
  }

  /** All ways to give each of `m` nodes a label below `n`. */
  function Labellings(m: nat, n: nat): set<Assignment> {
    if m == 0 then {[]} else set a, c | a in Labellings(m - 1, n) && 0 <= c < n :: a + [c]
  }

  lemma {:induction false} IsLabelling(a: Assignment, n: nat)
    requires LabelsBelow(a, n)
    ensures a in Labellings(|a|, n)
  {
    if a != [] {
      var k := |a| - 1;
      IsLabelling(a[..k], n);
      assert a == a[..k] + [a[k]] && a[k] < n;
    }
  }

  lemma {:induction false} DistinctAreFew(states: seq<Assignment>, all: set<Assignment>)
    requires Distinct(states) && forall k :: 0 <= k < |states| ==> states[k] in all
    ensures |states| <= |all|
  {
    if states != [] {
      var n := |states| - 1;
      DistinctAreFew(states[..n], all - {states[n]});
    }
  }

  lemma {:induction false} SweepKeepsLabelsBelow(g: SparseGraph, resolution: real, a: Assignment, a': Assignment, n: nat)
    requires IsSweep(g, resolution, a, a') && LabelsBelow(a, n)
    ensures |a'| == |a| && LabelsBelow(a', n)
  {
    SweepHasSameLength(g, resolution, a, a');
    LabelsAreInherited(g, resolution, a, a', |a|);
    forall v | 0 <= v < |a'| ensures a'[v] < n {
      assert Between(a, a', |a|)[v] in a;
    }
  }

  lemma {:induction false} StatesAreLabellings(g: SparseGraph, resolution: real, states: seq<Assignment>, n: nat, k: nat)
    requires KeepMoving(g, resolution, states) && k < |states| && LabelsBelow(states[0], n)
    ensures |states[k]| == |states[0]| && LabelsBelow(states[k], n)
  {
    if k > 0 {
      StatesAreLabellings(g, resolution, states, n, k - 1);
      SweepKeepsLabelsBelow(g, resolution, states[k - 1], states[k], n);
    }
  }

  /** With a search that takes only turns that pay, local moving passes through no labelling twice, and so comes to rest without any limit. */
  lemma {:induction false} PayingSweepsAreFew(g: SparseGraph, resolution: real, states: seq<Assignment>)
    requires KeepMoving(g, resolution, states) && AlwaysPay(g, resolution, states)
    requires states != [] && LabelsBelow(states[0], |states[0]|)
    ensures Distinct(states) && |states| <= |Labellings(|states[0]|, |states[0]|)|
  {
    var n := |states[0]|;
    forall i, j | 0 <= i < j < |states| ensures states[i] != states[j] {
      PayingSweepsRise(g, resolution, states, i, j);
    }
    forall k | 0 <= k < |states| ensures states[k] in Labellings(n, n) {
      StatesAreLabellings(g, resolution, states, n, k);
      IsLabelling(states[k], n);
    }
    DistinctAreFew(states, Labellings(n, n));
  }

  // ------------------------------------------------------------ Coming to rest

  /** From labels that a sweep can leave alone, no sweep moves anything. */
  lemma {:induction false} RestLasts(g: SparseGraph, resolution: real, a: Assignment, n: nat, b: Assignment)
    requires Regular(g) && Fits(g, a) && IsSweep(g, resolution, a, a) && n <= |a| && SweepsFirst(g, resolution, a, n, b)
    ensures b == a
  {
    if n > 0 {
      var before :| SweepsVia(g, resolution, a, n, before, b);
      RestLasts(g, resolution, a, n - 1, before);
      SettledIsStable(g, resolution, a, n - 1);
    }
  }

  /** Local moving without the limit of ten sweeps. */
  ghost predicate IsUnlimited(g: SparseGraph, resolution: real, run: nat -> Assignment) {
    && Regular(g) && Fits(g, run(0)) && LabelsBelow(run(0), |run(0)|)
    && forall k: nat :: IsSweep(g, resolution, run(k), run(k + 1))
  }

  ghost predicate RestsAt(run: nat -> Assignment, k: nat) {
    run(k + 1) == run(k)
  }

  ghost predicate PaysFrom(g: SparseGraph, resolution: real, run: nat -> Assignment, k: nat) {
    forall m: nat :: m >= k ==> AllPay(g, resolution, run(m), run(m + 1))
  }

  lemma {:induction false} RunStaysInRange(g: SparseGraph, resolution: real, run: nat -> Assignment, k: nat)
    requires IsUnlimited(g, resolution, run)
    ensures Fits(g, run(k)) && LabelsBelow(run(k), |run(k)|)
  {
    if k > 0 {
      RunStaysInRange(g, resolution, run, k - 1);
      assert IsSweep(g, resolution, run(k - 1), run(k - 1 + 1));
      SweepKeepsLabelsBelow(g, resolution, run(k - 1), run(k), |run(k - 1)|);
    }
  }

  lemma {:induction false} RestForever(g: SparseGraph, resolution: real, run: nat -> Assignment, k: nat, m: nat)
    requires IsUnlimited(g, resolution, run) && RestsAt(run, k) && m >= k
    ensures run(m) == run(k) && AllPay(g, resolution, run(m), run(m + 1))
    decreases m
  {
    RunStaysInRange(g, resolution, run, k);
    assert IsSweep(g, resolution, run(m), run(m + 1));
    if m > k {
      RestForever(g, resolution, run, k, m - 1);
      assert IsSweep(g, resolution, run(m - 1), run(m - 1 + 1));
      assert IsSweep(g, resolution, run(k), run(k + 1));
      RestLasts(g, resolution, run(k), |run(k)|, run(m));
    }
    RestLasts(g, resolution, run(k), |run(k)|, run(m + 1));
  }

  lemma {:induction false} PayingRunRests(g: SparseGraph, resolution: real, run: nat -> Assignment, k: nat)
    requires IsUnlimited(g, resolution, run) && PaysFrom(g, resolution, run, k)
    ensures exists m: nat :: m >= k && RestsAt(run, m)
  {
    if forall m: nat :: m >= k ==> !RestsAt(run, m) {
      RunStaysInRange(g, resolution, run, k);
      var n := |run(k)|;
      var states := seq(|Labellings(n, n)| + 1, i requires i >= 0 => run(k + i));
      forall i | 0 < i < |states|
        ensures IsSweep(g, resolution, states[i - 1], states[i]) && states[i - 1] != states[i] && AllPay(g, resolution, states[i - 1], states[i])
      {
        var m := k + i - 1;
        assert IsSweep(g, resolution, run(m), run(m + 1)) && !RestsAt(run, m);
      }
      PayingSweepsAreFew(g, resolution, states);
    }
  }

  /**
   * Without the limit of ten sweeps, local moving comes to rest if and only if from some
   * sweep on every turn pays. It can go on for ever only through turns, again and again,
   * that gain less in the community joined than they leave in their own.
   */
  lemma {:induction false} RestsExactlyWhenPaying(g: SparseGraph, resolution: real, run: nat -> Assignment)
    requires IsUnlimited(g, resolution, run)
    ensures (exists k: nat :: RestsAt(run, k)) <==> (exists k: nat :: PaysFrom(g, resolution, run, k))
  {
    if k: nat :| RestsAt(run, k) {
      forall m: nat | m >= k ensures AllPay(g, resolution, run(m), run(m + 1)) {
        RestForever(g, resolution, run, k, m);
      }
      assert PaysFrom(g, resolution, run, k);
    }
    if k: nat :| PaysFrom(g, resolution, run, k) {
      PayingRunRests(g, resolution, run, k);
    }
  }

  // ------------------------------------------------- Rest from the very beginning

  /** Labels are at rest exactly when every node's own is a best one. */
  lemma {:induction false} AtRestExactly(g: SparseGraph, resolution: real, a: Assignment)
    requires Regular(g) && Fits(g, a)
    ensures IsSweep(g, resolution, a, a) <==> forall v :: 0 <= v < |a| ==> IsBest(g, resolution, a, v, a[v])
  {
    if IsSweep(g, resolution, a, a) {
      forall v | 0 <= v < |a| ensures IsBest(g, resolution, a, v, a[v]) {
        SettledIsStable(g, resolution, a, v);
      }
    }
    if forall v :: 0 <= v < |a| ==> IsBest(g, resolution, a, v, a[v]) {
      AllStay(g, resolution, a, |a|);
    }
  }

  lemma {:induction false} AllStay(g: SparseGraph, resolution: real, a: Assignment, n: nat)
    requires Regular(g) && Fits(g, a) && n <= |a| && forall v :: 0 <= v < n ==> IsBest(g, resolution, a, v, a[v])
    ensures SweepsFirst(g, resolution, a, n, a)
  {
    if n > 0 {
      AllStay(g, resolution, a, n - 1);
      assert a == a[n - 1 := a[n - 1]];
      assert SweepsVia(g, resolution, a, n, a, a);
    }
  }

  /** No link is heavier than chance: w(i, j) * T <= resolution * k(i) * k(j). */
  predicate LinksAreWeak(g: SparseGraph, resolution: real)
    requires |g.nodeDegrees| == |g.adjacency| && forall i :: 0 <= i < |g.adjacency| ==> LinksBelow(g.adjacency[i], |g.adjacency|)
  {
    forall i :: 0 <= i < |g.adjacency| ==> RowIsWeak(g, resolution, i)
  }

  predicate RowIsWeak(g: SparseGraph, resolution: real, i: nat)
    requires i < |g.adjacency| == |g.nodeDegrees| && LinksBelow(g.adjacency[i], |g.adjacency|)
  {
    forall k :: 0 <= k < |g.adjacency[i]| ==> IsWeak(g, resolution, i, g.adjacency[i][k].node)
  }

  predicate IsWeak(g: SparseGraph, resolution: real, i: nat, j: nat)
    requires i < |g.adjacency| == |g.nodeDegrees| && j < |g.adjacency|
  {
    i == j || Product(WeightTo(g.adjacency[i], j), g.totalWeight) <= Product(resolution, Product(g.nodeDegrees[i], g.nodeDegrees[j]))
  }

  lemma {:induction false} ConnectionsOfSingleton(row: seq<Link>, size: nat, c: nat, n: nat)
    requires n <= size
    ensures ConnectionsBelow(row, Singletons(size), c, n) == if c < n then WeightTo(row, c) else 0.0
  {
    if n > 0 {
      ConnectionsOfSingleton(row, size, c, n - 1);
    }
  }

  lemma {:induction false} RatiosCompare(w: real, x: real, t: real)
    requires t > 0.0
    ensures Ratio(w, t) - Ratio(x, Square(t)) <= 0.0 <==> Product(w, t) <= x
  {
    var p, q := w / t, x / (t * t);
    assert w == p * t && x == (q * t) * t;
    assert w * t - x == ((p - q) * t) * t;
    if p > q {
      assert ((p - q) * t) * t > 0.0;
    } else {
      assert (q - p) * t >= 0.0;
      assert ((q - p) * t) * t >= 0.0;
      assert ((q - p) * t) * t == x - w * t;
    }
  }

  lemma {:induction false} GainFromSingleton(g: SparseGraph, resolution: real, i: nat, j: nat)
    requires Regular(g) && g.totalWeight > 0.0 && i < |g.adjacency| && j < |g.adjacency| && i != j
    ensures CandidateGain(g, resolution, Singletons(|g.adjacency|), i, j) <= 0.0 <==> IsWeak(g, resolution, i, j)
  {
    var n := |g.adjacency|;
    ConnectionsAreByNode(g.adjacency[i], Singletons(n), j);
    ConnectionsOfSingleton(g.adjacency[i], n, j, n);
    SingletonsAreConsistent(g.nodeDegrees, j, n);
    RatiosCompare(WeightTo(g.adjacency[i], j), Product(resolution, Product(g.nodeDegrees[i], g.nodeDegrees[j])), g.totalWeight);
  }

  /** The first sweep moves nothing if and only if no link is heavier than chance. */
  lemma {:induction false} FirstSweepIsStillExactly(g: SparseGraph, resolution: real)
    requires Regular(g) && g.totalWeight > 0.0
    ensures IsSweep(g, resolution, Singletons(|g.adjacency|), Singletons(|g.adjacency|)) <==> LinksAreWeak(g, resolution)
  {
    var a := Singletons(|g.adjacency|);
    AtRestExactly(g, resolution, a);
    forall v: nat | v < |a| ensures IsBest(g, resolution, a, v, v) <==> RowIsWeak(g, resolution, v) {
      RestOfSingleton(g, resolution, v);
    }
  }

  lemma {:induction false} RestOfSingleton(g: SparseGraph, resolution: real, v: nat)
    requires Regular(g) && g.totalWeight > 0.0 && v < |g.adjacency|
    ensures IsBest(g, resolution, Singletons(|g.adjacency|), v, v) <==> RowIsWeak(g, resolution, v)
  {
    var a, row := Singletons(|g.adjacency|), g.adjacency[v];
    forall k | 0 <= k < |row| && row[k].node != v
      ensures CandidateGain(g, resolution, a, v, row[k].node) <= 0.0 <==> IsWeak(g, resolution, v, row[k].node)
      ensures NeighborCommunity(g, a, v, row[k].node)
    {
      GainFromSingleton(g, resolution, v, row[k].node);
      assert a[row[k].node] == row[k].node;
    }
  }

  // ----------------------------------------------------- Runs that find nothing

  lemma {:induction false} MovingSweepDropsLabel(g: SparseGraph, resolution: real, n: nat, a': Assignment)
    requires IsSweep(g, resolution, Singletons(n), a') && a' != Singletons(n)
    ensures exists i :: 0 <= i < n && i !in a'
  {
    var a := Singletons(n);
    SweepHasSameLength(g, resolution, a, a');
    var i := FirstMoved(a, a', 0);
    var b := Between(a, a', i + 1);
    assert i !in b;
    LabelIsGone(g, resolution, a, a', i + 1, |a|, i);
    assert Between(a, a', |a|) == a';
  }

  function FirstMoved(a: Assignment, a': Assignment, from: nat): (i: nat)
    requires |a| == |a'| && exists v :: from <= v < |a| && a'[v] != a[v]
    requires forall v :: 0 <= v < from ==> a'[v] == a[v]
    ensures i < |a| && a'[i] != a[i] && forall v :: 0 <= v < i ==> a'[v] == a[v]
    decreases |a| - from
  {
    if a'[from] != a[from] then from else FirstMoved(a, a', from + 1)
  }

  lemma {:induction false} LabelIsGone(g: SparseGraph, resolution: real, a: Assignment, a': Assignment, m: nat, n: nat, c: nat)
    requires IsSweep(g, resolution, a, a') && |a'| == |a| && m <= n <= |a| && c !in Between(a, a', m)
    ensures c !in Between(a, a', n)
  {
    if m < n {
      LabelIsGone(g, resolution, a, a', m, n - 1, c);
      TurnOfSweep(g, resolution, a, a', n - 1);
    }
  }

  lemma {:induction false} LabelStaysGone(g: SparseGraph, resolution: real, states: seq<Assignment>, i: nat, j: nat, c: nat)
    requires AreSweeps(g, resolution, states) && i <= j < |states| && c !in states[i]
    ensures c !in states[j]
    decreases j
  {
    if i < j {
      LabelStaysGone(g, resolution, states, i, j - 1, c);
      var a, a' := states[j - 1], states[j];
      SweepHasSameLength(g, resolution, a, a');
      assert Between(a, a', 0) == a && Between(a, a', |a|) == a';
      LabelIsGone(g, resolution, a, a', 0, |a|, c);
    }
  }

  /** The labels after each sweep of a local phase. */
  lemma {:induction false} StatesOf(g: SparseGraph, resolution: real, a: Assignment, b: Assignment) returns (states: seq<Assignment>)
    requires IsLocalPhase(g, resolution, a, b)
    ensures AreSweeps(g, resolution, states) && states[0] == a && states[|states| - 1] == b
    ensures 1 <= |states| - 1 <= MAX_LOCAL_PASSES
    ensures |states| - 1 < MAX_LOCAL_PASSES ==> states[|states| - 2] == b
  {
    states :|
      && AreSweeps(g, resolution, states) && states[0] == a && states[|states| - 1] == b
      && 1 <= |states| - 1 <= MAX_LOCAL_PASSES
      && (|states| - 1 < MAX_LOCAL_PASSES ==> states[|states| - 2] == b);
  }

  lemma {:induction false} PhaseFromSingletons(g: SparseGraph, resolution: real, n: nat, b: Assignment)
    requires Regular(g) && n == |g.adjacency| && IsLocalPhase(g, resolution, Singletons(n), b)
    ensures if IsSweep(g, resolution, Singletons(n), Singletons(n)) then b == Singletons(n) else exists i :: 0 <= i < n && i !in b
  {
    var a := Singletons(n);
    var states := StatesOf(g, resolution, a, b);
    assert IsSweep(g, resolution, states[1 - 1], states[1]);
    if IsSweep(g, resolution, a, a) {
      RestLasts(g, resolution, a, |a|, states[1]);
      assert |states| == 2;
    } else {
      MovingSweepDropsLabel(g, resolution, n, states[1]);
      var i :| 0 <= i < n && i !in states[1];
      LabelStaysGone(g, resolution, states, 1, |states| - 1, i);
    }
  }

  lemma {:induction false} PhaseKeepsLabelGone(g: SparseGraph, resolution: real, a: Assignment, b: Assignment, c: nat)
    requires IsLocalPhase(g, resolution, a, b) && c !in a
    ensures c !in b
  {
    var states := StatesOf(g, resolution, a, b);
    LabelStaysGone(g, resolution, states, 0, |states| - 1, c);
  }

  lemma {:induction false} HistoryFromSingletons(g: SparseGraph, config: Config, history: seq<Assignment>, k: nat)
    requires IsHistory(g, config, history) && 0 < k < |history| && g.totalWeight > 0.0
    ensures if LinksAreWeak(g, config.resolution) then history[k] == Singletons(|g.adjacency|)
            else exists i :: 0 <= i < |g.adjacency| && i !in history[k]
  {
    var n := |g.adjacency|;
    FirstSweepIsStillExactly(g, config.resolution);
    assert IsLocalPhase(g, config.resolution, history[k - 1], history[k]);
    if k == 1 {
      PhaseFromSingletons(g, config.resolution, n, history[1]);
    } else {
      HistoryFromSingletons(g, config, history, k - 1);
      if LinksAreWeak(g, config.resolution) {
        PhaseFromSingletons(g, config.resolution, n, history[k]);
      } else {
        var i :| 0 <= i < n && i !in history[k - 1];
        PhaseKeepsLabelGone(g, config.resolution, history[k - 1], history[k], i);
      }
    }
  }

  /** A run leaves every node on its own if and only if no link is heavier than chance, which a caller can tell beforehand. */
  lemma {:induction false} RunFindsNothingExactly(g: SparseGraph, config: Config, history: seq<Assignment>)
    requires IsRun(g, config, history) && config.maxIterations > 0 && g.totalWeight > 0.0
    ensures history[|history| - 1] == Singletons(|g.adjacency|) <==> LinksAreWeak(g, config.resolution)
  {
    HistoryFromSingletons(g, config, history, |history| - 1);
    if !LinksAreWeak(g, config.resolution) {
      var i :| 0 <= i < |g.adjacency| && i !in history[|history| - 1];
      assert Singletons(|g.adjacency|)[i] == i;
    }
  }
}
