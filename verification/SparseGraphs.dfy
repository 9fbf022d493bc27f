/**
 * The undirected weighted graph that community detection works on: one node per entity,
 * and for each pair of nodes the summed weight of the relationships between them.
 */
module SparseGraphs {
  import opened Wrappers
  import opened EntityModel

  datatype Link = Link(node: nat, weight: real)

  datatype SparseGraph = SparseGraph(
    adjacency: seq<seq<Link>>,
    nodeIndex: map<string, nat>,
    totalWeight: real,
    nodeDegrees: seq<real>
  )

  /** The weight of `row` towards `j`. */
  function WeightTo(row: seq<Link>, j: nat): real {
    if row == [] then 0.0
    else WeightTo(row[..|row| - 1], j) + (if row[|row| - 1].node == j then row[|row| - 1].weight else 0.0)
  }

  function RowSum(row: seq<Link>): real {
    if row == [] then 0.0 else RowSum(row[..|row| - 1]) + row[|row| - 1].weight
  }

  function Sum(xs: seq<real>): real {
    if xs == [] then 0.0 else Sum(xs[..|xs| - 1]) + xs[|xs| - 1]
  }

  /** The sum of the weights of `row` towards the nodes below `n`. */
  function WeightBelow(row: seq<Link>, n: nat): real {
    if n == 0 then 0.0 else WeightBelow(row, n - 1) + WeightTo(row, n - 1)
  }

  predicate LinksBelow(row: seq<Link>, n: nat) {
    forall k :: 0 <= k < |row| ==> row[k].node < n
  }

  lemma {:induction false} WeightBelowSnoc(row: seq<Link>, link: Link, n: nat)
    ensures WeightBelow(row + [link], n) == WeightBelow(row, n) + (if link.node < n then link.weight else 0.0)
  {
    assert (row + [link])[..|row|] == row;
    if n > 0 {
      WeightBelowSnoc(row, link, n - 1);
    }
  }

  lemma {:induction false} RowSumIsWeightBelow(row: seq<Link>, n: nat)
    requires LinksBelow(row, n)
    ensures RowSum(row) == WeightBelow(row, n)
  {
    if row == [] {
      EmptyWeightBelow(n);
    } else {
      var k := |row| - 1;
      assert row == row[..k] + [row[k]];
      RowSumIsWeightBelow(row[..k], n);
      WeightBelowSnoc(row[..k], row[k], n);
    }
  }

  lemma {:induction false} EmptyWeightBelow(n: nat)
    ensures WeightBelow([], n) == 0.0
  {
    if n > 0 {
      EmptyWeightBelow(n - 1);
    }
  }

  lemma {:induction false} SameWeightBelow(row: seq<Link>, row': seq<Link>, n: nat)
    requires forall j: nat :: j < n ==> WeightTo(row, j) == WeightTo(row', j)
    ensures WeightBelow(row, n) == WeightBelow(row', n)
  {
    if n > 0 {
      SameWeightBelow(row, row', n - 1);
    }
  }

  lemma {:induction false} WeightToSnoc(row: seq<Link>, link: Link, j: nat)
    ensures WeightTo(row + [link], j) == WeightTo(row, j) + (if link.node == j then link.weight else 0.0)
    ensures RowSum(row + [link]) == RowSum(row) + link.weight
  {
    assert (row + [link])[..|row|] == row;
  }

  lemma {:induction false} SumUpdate(xs: seq<real>, i: nat, w: real)
    requires i < |xs|
    ensures Sum(xs[i := xs[i] + w]) == Sum(xs) + w
  {
    var n := |xs| - 1;
    var ys := xs[i := xs[i] + w];
    if i < n {
      SumUpdate(xs[..n], i, w);
      assert ys[..n] == xs[..n][i := xs[..n][i] + w];
    } else {
      assert ys[..n] == xs[..n];
    }
  }

  // ----------------------------------------------- The graph of the relationships

  /** The nodes an edge joins, when both names are known and differ. */
  function Ends(index: map<string, nat>, edge: EntityEdge): Option<(nat, nat)> {
    if edge.source.name in index && edge.target.name in index && index[edge.source.name] != index[edge.target.name]
    then Some((index[edge.source.name], index[edge.target.name]))
    else None
  }

  predicate Joins(index: map<string, nat>, edge: EntityEdge, i: nat, j: nat) {
    Ends(index, edge) == Some((i, j)) || Ends(index, edge) == Some((j, i))
  }

  /** What the weight between two nodes has to be. */
  function EdgeWeight(index: map<string, nat>, edges: seq<EntityEdge>, i: nat, j: nat): real {
    if edges == [] then 0.0
    else
      var last := edges[|edges| - 1];
      EdgeWeight(index, edges[..|edges| - 1], i, j) + (if Joins(index, last, i, j) then last.weight else 0.0)
  }

  ghost predicate Related(index: map<string, nat>, edges: seq<EntityEdge>, i: nat, j: nat) {
    exists e :: 0 <= e < |edges| && Joins(index, edges[e], i, j)
  }

  lemma {:induction false} EdgeWeightIsSymmetric(index: map<string, nat>, edges: seq<EntityEdge>, i: nat, j: nat)
    ensures EdgeWeight(index, edges, i, j) == EdgeWeight(index, edges, j, i)
    ensures i == j ==> EdgeWeight(index, edges, i, j) == 0.0
  {
    if edges != [] {
      EdgeWeightIsSymmetric(index, edges[..|edges| - 1], i, j);
    }
  }

  /** Adjacency, degrees and total agree with the relationships and with one another. */
  ghost predicate Accounts(index: map<string, nat>, edges: seq<EntityEdge>, adjacency: seq<seq<Link>>, degrees: seq<real>, total: real) {
    RowsAccount(index, edges, adjacency) && DegreesAccount(adjacency, degrees) && total == Sum(degrees)
  }

  ghost predicate RowsAccount(index: map<string, nat>, edges: seq<EntityEdge>, adjacency: seq<seq<Link>>) {
    forall i: nat :: i < |adjacency| ==> RowAccounts(index, edges, adjacency[i], i, |adjacency|)
  }

  predicate DegreesAccount(adjacency: seq<seq<Link>>, degrees: seq<real>) {
    |degrees| == |adjacency| && forall i :: 0 <= i < |adjacency| ==> degrees[i] == RowSum(adjacency[i])
  }

  ghost predicate RowAccounts(index: map<string, nat>, edges: seq<EntityEdge>, row: seq<Link>, i: nat, n: nat) {
    && LinksBelow(row, n)
    && (forall j: nat :: WeightTo(row, j) == EdgeWeight(index, edges, i, j))
    && (forall k :: 0 <= k < |row| ==> Related(index, edges, i, row[k].node))
    && ((forall e :: 0 <= e < |edges| ==> edges[e].weight >= 0.0) ==> forall k :: 0 <= k < |row| ==> row[k].weight >= 0.0)
  }

  method IndexNames(entities: seq<EntityNode>) returns (index: map<string, nat>)
    ensures Indexes(index, entities)
  {
    index := map[];
    for i := 0 to |entities|
      invariant forall name :: name in index ==> index[name] < i && entities[index[name]].key.name == name
      invariant forall k :: 0 <= k < i ==> entities[k].key.name in index && k <= index[entities[k].key.name]
    {
      index := index[entities[i].key.name := i];
    }
  }

  /** Rows with more than one link are aggregated; degrees and total still agree with them. */
  method AggregateRows(index: map<string, nat>, edges: seq<EntityEdge>, adjacency: seq<seq<Link>>, ghost degrees: seq<real>, ghost total: real)
    returns (merged: seq<seq<Link>>)
    requires Accounts(index, edges, adjacency, degrees, total)
    ensures |merged| == |adjacency| && Accounts(index, edges, merged, degrees, total)
    ensures forall i :: 0 <= i < |merged| ==> DistinctNodes(merged[i])
  {
    merged := adjacency;
    for i := 0 to |adjacency|
      invariant |merged| == |adjacency| && Accounts(index, edges, merged, degrees, total)
      invariant forall k :: 0 <= k < i ==> DistinctNodes(merged[k])
    {
      if |merged[i]| > 1 {
        var row := AggregateRow(merged[i]);
        AggregatedRowAccounts(index, edges, merged[i], row, i, |merged|);
        merged := merged[i := row];
      }
    }
  }

  method BuildSparseGraph(entities: seq<EntityNode>, edges: seq<EntityEdge>) returns (g: SparseGraph)
    ensures |g.adjacency| == |entities|
    ensures Indexes(g.nodeIndex, entities)
    ensures Accounts(g.nodeIndex, edges, g.adjacency, g.nodeDegrees, g.totalWeight)
    ensures forall i :: 0 <= i < |entities| ==> DistinctNodes(g.adjacency[i])
  {
    var n := |entities|;
    var index := IndexNames(entities);
    var adjacency: seq<seq<Link>>, degrees, total := seq(n, _ => []), seq(n, _ => 0.0), 0.0;
    ZeroSum(degrees);
    for e := 0 to |edges|
      invariant |adjacency| == n && Accounts(index, edges[..e], adjacency, degrees, total)
    {
      adjacency, degrees, total := AddEdge(index, edges, e, adjacency, degrees, total);
    }
    assert edges[..|edges|] == edges;
    adjacency := AggregateRows(index, edges, adjacency, degrees, total);
    g := SparseGraph(adjacency, index, total, degrees);
  }

  /** Each name of an entity leads to an entity of that name; among namesakes, to the last. */
  ghost predicate Indexes(index: map<string, nat>, entities: seq<EntityNode>) {
    && (forall name :: name in index ==> index[name] < |entities| && entities[index[name]].key.name == name)
    && (forall i :: 0 <= i < |entities| ==> entities[i].key.name in index && i <= index[entities[i].key.name])
  }

  /** The link is recorded at both ends, and the degrees and the total follow. */
  method AddEdge(index: map<string, nat>, edges: seq<EntityEdge>, e: nat, adjacency: seq<seq<Link>>, degrees: seq<real>, total: real)
    returns (adjacency': seq<seq<Link>>, degrees': seq<real>, total': real)
    requires e < |edges| && forall name :: name in index ==> index[name] < |adjacency|
    requires Accounts(index, edges[..e], adjacency, degrees, total)
    ensures |adjacency'| == |adjacency| && Accounts(index, edges[..e + 1], adjacency', degrees', total')
  {
    var edge := edges[e];
    var ends := Ends(index, edge);
    adjacency', degrees', total' := adjacency, degrees, total;
    if ends.Some? {
      var (source, target) := ends.value;
      adjacency' := adjacency'[source := adjacency'[source] + [Link(target, edge.weight)]];
      adjacency' := adjacency'[target := adjacency'[target] + [Link(source, edge.weight)]];
      degrees' := degrees'[source := degrees'[source] + edge.weight];
      degrees' := degrees'[target := degrees'[target] + edge.weight];
      total' := total' + 2.0 * edge.weight;
      assert degrees' == degrees[source := degrees[source] + edge.weight][target := degrees[target] + edge.weight];
      BothEndsCounted(degrees, source, target, edge.weight);
    }
    assert total' == Sum(degrees');
    StepRows(index, edges, e, adjacency, adjacency');
    StepDegrees(adjacency, degrees, ends, edge.weight, adjacency', degrees');
  }

  lemma {:induction false} StepRows(index: map<string, nat>, edges: seq<EntityEdge>, e: nat, adjacency: seq<seq<Link>>, adjacency': seq<seq<Link>>)
    requires e < |edges| && forall name :: name in index ==> index[name] < |adjacency|
    requires RowsAccount(index, edges[..e], adjacency) && |adjacency'| == |adjacency|
    requires forall i: nat :: i < |adjacency| ==> adjacency'[i] == RowAfter(adjacency[i], Ends(index, edges[e]), edges[e].weight, i)
    ensures RowsAccount(index, edges[..e + 1], adjacency')
  {
    forall i: nat | i < |adjacency'| ensures RowAccounts(index, edges[..e + 1], adjacency'[i], i, |adjacency'|) {
      RowStep(index, edges, e, adjacency[i], adjacency'[i], i, |adjacency|);
    }
  }

  lemma {:induction false} StepDegrees(adjacency: seq<seq<Link>>, degrees: seq<real>, ends: Option<(nat, nat)>, weight: real,
                                       adjacency': seq<seq<Link>>, degrees': seq<real>)
    requires DegreesAccount(adjacency, degrees) && |adjacency'| == |degrees'| == |adjacency|
    requires forall i: nat :: i < |adjacency| ==>
      && adjacency'[i] == RowAfter(adjacency[i], ends, weight, i)
      && degrees'[i] == degrees[i] + (if IsEnd(ends, i) then weight else 0.0)
    ensures DegreesAccount(adjacency', degrees')
  {
    forall i: nat | i < |adjacency| ensures degrees'[i] == RowSum(adjacency'[i]) {
      if IsEnd(ends, i) {
        var link := adjacency'[i][|adjacency[i]|];
        assert adjacency'[i] == adjacency[i] + [link];
        WeightToSnoc(adjacency[i], link, 0);
      }
    }
  }

  lemma {:induction false} BothEndsCounted(degrees: seq<real>, source: nat, target: nat, weight: real)
    requires source < |degrees| && target < |degrees| && source != target
    ensures var degrees' := degrees[source := degrees[source] + weight][target := degrees[target] + weight];
            Sum(degrees') == Sum(degrees) + 2.0 * weight
  {
    SumUpdate(degrees, source, weight);
    SumUpdate(degrees[source := degrees[source] + weight], target, weight);
  }

  lemma {:induction false} AggregatedRowAccounts(index: map<string, nat>, edges: seq<EntityEdge>, row: seq<Link>, merged: seq<Link>, i: nat, n: nat)
    requires RowAccounts(index, edges, row, i, n)
    requires forall j: nat :: WeightTo(merged, j) == WeightTo(row, j)
    requires forall k :: 0 <= k < |merged| ==> exists k' :: 0 <= k' < |row| && row[k'].node == merged[k].node
    requires (forall k :: 0 <= k < |row| ==> row[k].weight >= 0.0) ==> forall k :: 0 <= k < |merged| ==> merged[k].weight >= 0.0
    ensures RowAccounts(index, edges, merged, i, n) && RowSum(merged) == RowSum(row)
  {
    RowSumIsWeightBelow(row, n);
    RowSumIsWeightBelow(merged, n);
    SameWeightBelow(row, merged, n);
  }

  predicate DistinctNodes(row: seq<Link>) {
    forall k, k' :: 0 <= k < k' < |row| ==> row[k].node != row[k'].node
  }

  lemma {:induction false} ZeroSum(xs: seq<real>)
    requires forall i :: 0 <= i < |xs| ==> xs[i] == 0.0
    ensures Sum(xs) == 0.0
  {
    if xs != [] {
      ZeroSum(xs[..|xs| - 1]);
    }
  }

  predicate IsEnd(ends: Option<(nat, nat)>, i: nat) {
    ends.Some? && (i == ends.value.0 || i == ends.value.1)
  }

  function RowAfter(row: seq<Link>, ends: Option<(nat, nat)>, weight: real, i: nat): seq<Link> {
    if ends.Some? && i == ends.value.0 then row + [Link(ends.value.1, weight)]
    else if ends.Some? && i == ends.value.1 then row + [Link(ends.value.0, weight)]
    else row
  }

  /** One edge later, a row has gained exactly the link of that edge, if it is at one of its ends. */
  lemma {:induction false} RowStep(index: map<string, nat>, edges: seq<EntityEdge>, e: nat, before: seq<Link>, after: seq<Link>, i: nat, n: nat)
    requires e < |edges| && RowAccounts(index, edges[..e], before, i, n)
    requires after == RowAfter(before, Ends(index, edges[e]), edges[e].weight, i)
    requires var ends := Ends(index, edges[e]); ends.Some? ==> ends.value.0 < n && ends.value.1 < n
    ensures RowAccounts(index, edges[..e + 1], after, i, n)
  {
    var longer := edges[..e + 1];
    assert longer[..e] == edges[..e] && longer[e] == edges[e];
    if |after| > |before| {
      var link := after[|before|];
      forall j: nat ensures WeightTo(after, j) == EdgeWeight(index, longer, i, j) {
        WeightToSnoc(before, link, j);
      }
      assert Joins(index, longer[e], i, link.node);
    }
    forall k | 0 <= k < |before| ensures Related(index, longer, i, before[k].node) {
      var e' :| 0 <= e' < e && Joins(index, edges[..e][e'], i, before[k].node);
      assert longer[e'] == edges[..e][e'];
    }
    if forall e' :: 0 <= e' < |longer| ==> longer[e'].weight >= 0.0 {
      assert forall e' :: 0 <= e' < e ==> edges[..e][e'] == longer[e'];
    }
  }

  /** Parallel links are summed; the nodes come out in any order. */
  method AggregateRow(row: seq<Link>) returns (merged: seq<Link>)
    ensures DistinctNodes(merged)
    ensures forall j: nat :: WeightTo(merged, j) == WeightTo(row, j)
    ensures forall k :: 0 <= k < |merged| ==> exists k' :: 0 <= k' < |row| && row[k'].node == merged[k].node
    ensures (forall k :: 0 <= k < |row| ==> row[k].weight >= 0.0) ==> forall k :: 0 <= k < |merged| ==> merged[k].weight >= 0.0
  {
    var aggregated: map<nat, real> := map[];
    for k := 0 to |row|
      invariant forall j: nat :: WeightTo(row[..k], j) == if j in aggregated then aggregated[j] else 0.0
      invariant forall j :: j in aggregated ==> exists k' :: 0 <= k' < k && row[k'].node == j
      invariant (forall k :: 0 <= k < |row| ==> row[k].weight >= 0.0) ==> forall j :: j in aggregated ==> aggregated[j] >= 0.0
    {
      var link := row[k];
      assert row[..k + 1] == row[..k] + [link];
      forall j: nat ensures WeightTo(row[..k + 1], j) == WeightTo(row[..k], j) + (if link.node == j then link.weight else 0.0) {
        WeightToSnoc(row[..k], link, j);
      }
      aggregated := aggregated[link.node := (if link.node in aggregated then aggregated[link.node] else 0.0) + link.weight];
    }
    assert row[..|row|] == row;
    merged := [];
    var rest := aggregated.Keys;
    while rest != {}
      invariant rest <= aggregated.Keys
      invariant forall j: nat :: WeightTo(merged, j) == if j in aggregated && j !in rest then aggregated[j] else 0.0
      invariant forall k :: 0 <= k < |merged| ==>
        merged[k].node in aggregated && merged[k].node !in rest && merged[k].weight == aggregated[merged[k].node]
      invariant DistinctNodes(merged)
      decreases rest
    {
      var node :| node in rest;
      forall j: nat ensures WeightTo(merged + [Link(node, aggregated[node])], j) ==
                             WeightTo(merged, j) + (if node == j then aggregated[node] else 0.0)
      {
        WeightToSnoc(merged, Link(node, aggregated[node]), j);
      }
      merged := merged + [Link(node, aggregated[node])];
      rest := rest - {node};
    }
  }

  // ------------------------------------------------------------ The total weight

  /** The summed weight of the relationships between two different names among those known. */
  function LinkedWeight(names: set<string>, edges: seq<EntityEdge>): real {
    if edges == [] then 0.0
    else
      var last := edges[|edges| - 1];
      LinkedWeight(names, edges[..|edges| - 1])
      + (if last.source.name in names && last.target.name in names && last.source.name != last.target.name then last.weight else 0.0)
  }

  function NamesOf(entities: seq<EntityNode>): set<string> {
    set e | e in entities :: e.key.name
  }

  /** The weights from node `i` to the nodes below `n`. */
  function RowTotal(index: map<string, nat>, edges: seq<EntityEdge>, i: nat, n: nat): real {
    if n == 0 then 0.0 else RowTotal(index, edges, i, n - 1) + EdgeWeight(index, edges, i, n - 1)
  }

  /** The weights from the nodes below `m` to those below `n`. */
  function GrandTotal(index: map<string, nat>, edges: seq<EntityEdge>, m: nat, n: nat): real {
    if m == 0 then 0.0 else GrandTotal(index, edges, m - 1, n) + RowTotal(index, edges, m - 1, n)
  }

  lemma {:induction false} RowTotalOneMore(index: map<string, nat>, edges: seq<EntityEdge>, i: nat, n: nat)
    requires edges != []
    ensures var last := edges[|edges| - 1];
            RowTotal(index, edges, i, n) == RowTotal(index, edges[..|edges| - 1], i, n)
              + (if Ends(index, last).Some? && ((i == Ends(index, last).value.0 && Ends(index, last).value.1 < n)
                                                || (i == Ends(index, last).value.1 && Ends(index, last).value.0 < n))
                 then last.weight else 0.0)
  {
    if n > 0 {
      RowTotalOneMore(index, edges, i, n - 1);
    }
  }

  lemma {:induction false} GrandTotalOneMore(index: map<string, nat>, edges: seq<EntityEdge>, m: nat, n: nat)
    requires edges != [] && m <= n && (Ends(index, edges[|edges| - 1]).Some? ==>
      Ends(index, edges[|edges| - 1]).value.0 < n && Ends(index, edges[|edges| - 1]).value.1 < n)
    ensures var last := edges[|edges| - 1];
            GrandTotal(index, edges, m, n) == GrandTotal(index, edges[..|edges| - 1], m, n)
              + (if Ends(index, last).Some? && Ends(index, last).value.0 < m then last.weight else 0.0)
              + (if Ends(index, last).Some? && Ends(index, last).value.1 < m then last.weight else 0.0)
  {
    if m > 0 {
      GrandTotalOneMore(index, edges, m - 1, n);
      RowTotalOneMore(index, edges, m - 1, n);
    }
  }

  lemma {:induction false} NothingLinked(index: map<string, nat>, m: nat, n: nat)
    ensures GrandTotal(index, [], m, n) == 0.0 && RowTotal(index, [], m, n) == 0.0
  {
    if n > 0 {
      NothingLinked(index, m, n - 1);
    }
    if m > 0 {
      NothingLinked(index, m - 1, n);
    }
  }

  lemma {:induction false} KnownNames(index: map<string, nat>, entities: seq<EntityNode>, name: string)
    requires Indexes(index, entities)
    ensures name in index <==> name in NamesOf(entities)
    ensures name in index ==> index[name] < |entities| && entities[index[name]].key.name == name
  {
    if name in NamesOf(entities) {
      var e :| e in entities && e.key.name == name;
      var i :| 0 <= i < |entities| && entities[i] == e;
      assert entities[i].key.name in index;
    }
  }

  lemma {:induction false} LinksAreCounted(index: map<string, nat>, entities: seq<EntityNode>, edges: seq<EntityEdge>)
    requires Indexes(index, entities)
    ensures GrandTotal(index, edges, |entities|, |entities|) == 2.0 * LinkedWeight(NamesOf(entities), edges)
  {
    var n := |entities|;
    if edges == [] {
      NothingLinked(index, n, n);
    } else {
      var last := edges[|edges| - 1];
      LinksAreCounted(index, entities, edges[..|edges| - 1]);
      KnownNames(index, entities, last.source.name);
      KnownNames(index, entities, last.target.name);
      GrandTotalOneMore(index, edges, n, n);
    }
  }

  lemma {:induction false} DegreesAreTotals(index: map<string, nat>, edges: seq<EntityEdge>, adjacency: seq<seq<Link>>, degrees: seq<real>, m: nat)
    requires RowsAccount(index, edges, adjacency) && DegreesAccount(adjacency, degrees) && m <= |adjacency|
    ensures Sum(degrees[..m]) == GrandTotal(index, edges, m, |adjacency|)
  {
    if m > 0 {
      DegreesAreTotals(index, edges, adjacency, degrees, m - 1);
      assert degrees[..m][..m - 1] == degrees[..m - 1];
      assert RowAccounts(index, edges, adjacency[m - 1], m - 1, |adjacency|);
      RowSumIsWeightBelow(adjacency[m - 1], |adjacency|);
      RowIsTotal(index, edges, adjacency[m - 1], m - 1, |adjacency|);
    }
  }

  lemma {:induction false} RowIsTotal(index: map<string, nat>, edges: seq<EntityEdge>, row: seq<Link>, i: nat, n: nat)
    requires forall j: nat :: WeightTo(row, j) == EdgeWeight(index, edges, i, j)
    ensures WeightBelow(row, n) == RowTotal(index, edges, i, n)
  {
    if n > 0 {
      RowIsTotal(index, edges, row, i, n - 1);
    }
  }

  /** The total weight is twice that of all relationships between two different names of entities. */
  lemma {:induction false} TotalIsTwiceLinked(entities: seq<EntityNode>, edges: seq<EntityEdge>, g: SparseGraph)
    requires |g.adjacency| == |entities| && Indexes(g.nodeIndex, entities)
    requires Accounts(g.nodeIndex, edges, g.adjacency, g.nodeDegrees, g.totalWeight)
    ensures g.totalWeight == 2.0 * LinkedWeight(NamesOf(entities), edges)
  {
    DegreesAreTotals(g.nodeIndex, edges, g.adjacency, g.nodeDegrees, |entities|);
    assert g.nodeDegrees[..|entities|] == g.nodeDegrees;
    LinksAreCounted(g.nodeIndex, entities, edges);
  }
}
