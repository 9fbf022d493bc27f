/** Reciprocal rank fusion of ranked branches, and the max-merge of the two sparse ones. */
module Fusion {
  import opened Wrappers
  import opened Tables
  import opened Sorting
  import opened Strings

  datatype ScoredChunk = ScoredChunk(id: ChunkId, content: string, score: real)

  const DEFAULT_K: real := 60.0

  // --------------------------------------------------------------------- Ranking

  /** The ids of the `topK` best scores, best first; no omitted id beats a kept one. */
  ghost predicate IsTopK(ids: set<ChunkId>, score: ChunkId -> real, topK: nat, ranked: seq<ChunkId>) {
    && Distinct(ranked) && |ranked| == (if topK < |ids| then topK else |ids|)
    && (forall i :: 0 <= i < |ranked| ==> ranked[i] in ids)
    && (forall i, j :: 0 <= i < j < |ranked| ==> score(ranked[i]) >= score(ranked[j]))
    && (forall id, i :: id in ids && id !in ranked && 0 <= i < |ranked| ==> score(id) <= score(ranked[i]))
  }

  /** Sorting a map's entries by descending score and truncating; ties fall in any order. */
  method Rank(ids: set<ChunkId>, score: ChunkId -> real, topK: nat) returns (ranked: seq<ChunkId>)
    ensures IsTopK(ids, score, topK, ranked)
  {
    var all := Ascending(ids, (a: ChunkId, b: ChunkId) => score(a) >= score(b));
    if topK < |all| {
      ranked := all[..topK];
      assert forall j :: 0 <= j < topK ==> ranked[j] == all[j] && ranked[j] in ranked;
      forall id, i | id in ids && id !in ranked && 0 <= i < |ranked| ensures score(id) <= score(ranked[i]) {
        assert id in all;
        var j :| 0 <= j < |all| && all[j] == id;
        assert j >= topK;
      }
    } else {
      ranked := all;
    }
    assert forall i :: 0 <= i < |ranked| ==> ranked[i] == all[i] && all[i] in all;
  }

  // ---------------------------------------------------------------------- Scores

  function Divisor(k: real, rank: nat): (d: real)
    ensures k > -1.0 ==> d > 0.0
  {
    k + (rank + 1) as real
  }

  /** No rank of a branch divides by zero. */
  predicate HasShares(branches: seq<seq<ScoredChunk>>, k: real) {
    forall b, rank :: 0 <= b < |branches| && 0 <= rank < |branches[b]| ==> Divisor(k, rank) != 0.0
  }

  /** 1 / (k + rank), ranks counted from one. */
  function Share(k: real, rank: nat): (s: real)
    ensures s > 0.0 <==> Divisor(k, rank) > 0.0
  {
    if Divisor(k, rank) == 0.0 then 0.0 else 1.0 / Divisor(k, rank)
  }

  /** A share is the inverse of k plus the rank, ranks counted from one. */
  lemma {:induction false} ShareIsInverse(k: real, rank: nat)
    requires k + (rank + 1) as real != 0.0
    ensures Share(k, rank) * (k + (rank + 1) as real) == 1.0
  {
    var d := Divisor(k, rank);
    assert (1.0 / d) * d == 1.0;
  }

  /** One chunk more, one share more for its id, whether it was listed before or not. */
  lemma {:induction false} BranchScoreOneMore(branch: seq<ScoredChunk>, next: ScoredChunk, k: real, id: ChunkId)
    ensures BranchScore(branch + [next], k, id) == BranchScore(branch, k, id) + (if next.id == id then Share(k, |branch|) else 0.0)
    ensures BranchScore([], k, id) == 0.0
  {
    assert (branch + [next])[..|branch|] == branch;
  }

  /** What one branch gives a chunk: a share for every rank it occurs at. */
  function BranchScore(branch: seq<ScoredChunk>, k: real, id: ChunkId): (s: real)
    ensures k > -1.0 ==> s >= 0.0
  {
    if branch == [] then 0.0
    else
      var n := |branch| - 1;
      BranchScore(branch[..n], k, id) + (if branch[n].id == id then Share(k, n) else 0.0)
  }

  function FusedScore(branches: seq<seq<ScoredChunk>>, k: real, id: ChunkId): real
  {
    if branches == [] then 0.0
    else FusedScore(branches[..|branches| - 1], k, id) + BranchScore(branches[|branches| - 1], k, id)
  }

  function FirstOf(chunks: seq<ScoredChunk>, id: ChunkId): Option<ScoredChunk> {
    if chunks == [] then None else if chunks[0].id == id then Some(chunks[0]) else FirstOf(chunks[1..], id)
  }

  lemma {:induction false} FirstOfSnoc(chunks: seq<ScoredChunk>, next: ScoredChunk, id: ChunkId)
    ensures FirstOf(chunks + [next], id) ==
            if FirstOf(chunks, id).Some? then FirstOf(chunks, id) else if next.id == id then Some(next) else None
  {
    if chunks != [] {
      assert (chunks + [next])[1..] == chunks[1..] + [next];
      FirstOfSnoc(chunks[1..], next, id);
    }
  }

  function Ids(chunks: seq<ScoredChunk>): set<ChunkId> {
    set i | 0 <= i < |chunks| :: chunks[i].id
  }

  lemma {:induction false} IdsHaveFirst(chunks: seq<ScoredChunk>, id: ChunkId)
    ensures id in Ids(chunks) <==> FirstOf(chunks, id).Some?
    ensures FirstOf(chunks, id).Some? ==> FirstOf(chunks, id).value.id == id
  {
    if chunks != [] {
      IdsHaveFirst(chunks[1..], id);
      assert chunks == [chunks[0]] + chunks[1..];
      assert id in Ids(chunks) <==> id == chunks[0].id || id in Ids(chunks[1..]);
    }
  }

  function IdList(chunks: seq<ScoredChunk>): (ids: seq<ChunkId>)
    ensures |ids| == |chunks| && forall i :: 0 <= i < |chunks| ==> ids[i] == chunks[i].id
  {
    seq(|chunks|, i requires 0 <= i < |chunks| => chunks[i].id)
  }

  function Entries(data: map<ChunkId, ScoredChunk>, ranked: seq<ChunkId>): (chunks: seq<ScoredChunk>)
    requires forall i :: 0 <= i < |ranked| ==> ranked[i] in data
    ensures |chunks| == |ranked| && forall i :: 0 <= i < |ranked| ==> chunks[i] == data[ranked[i]]
  {
    seq(|ranked|, i requires 0 <= i < |ranked| => data[ranked[i]])
  }

  /** The fused list: top-k ids, each with its first occurrence's data and its fused score. */
  ghost predicate IsFusion(branches: seq<seq<ScoredChunk>>, k: real, topK: nat, fused: seq<ScoredChunk>)
  {
    && IsTopK(Ids(Flatten(branches)), (id: ChunkId) => FusedScore(branches, k, id), topK, IdList(fused))
    && forall i :: 0 <= i < |fused| ==>
         && FirstOf(Flatten(branches), fused[i].id).Some?
         && fused[i] == FirstOf(Flatten(branches), fused[i].id).value.(score := FusedScore(branches, k, fused[i].id))
  }

  /** The maps after some chunks: every id seen has its score so far and its first chunk. */
  ghost predicate Tallied(scores: map<ChunkId, real>, data: map<ChunkId, ScoredChunk>, seen: seq<ScoredChunk>, score: ChunkId -> real) {
    && (forall id :: id in data <==> FirstOf(seen, id).Some?)
    && (forall id :: id in data ==> data[id] == FirstOf(seen, id).value)
    && (forall id :: id in scores <==> id in data)
    && (forall id :: score(id) == if id in scores then scores[id] else 0.0)
  }

  method RrfWithK(branches: seq<seq<ScoredChunk>>, k: real, topK: nat) returns (fused: seq<ScoredChunk>)
    requires HasShares(branches, k)
    ensures IsFusion(branches, k, topK, fused)
  {
    var scores: map<ChunkId, real>, data: map<ChunkId, ScoredChunk> := map[], map[];
    for b := 0 to |branches|
      invariant Tallied(scores, data, Flatten(branches[..b]), (id: ChunkId) => FusedScore(branches[..b], k, id))
    {
      var branch := branches[b];
      ghost var seen := Flatten(branches[..b]);
      assert branches[..b + 1][..b] == branches[..b] && branches[..b + 1] == branches[..b] + [branch];
      assert seen + branch[..0] == seen;
      for rank := 0 to |branch|
        invariant Tallied(scores, data, seen + branch[..rank], (id: ChunkId) => FusedScore(branches[..b], k, id) + BranchScore(branch[..rank], k, id))
      {
        var chunk := branch[rank];
        TallyOneMore(scores, data, branches[..b], branch, rank, k, seen);
        scores := scores[chunk.id := (if chunk.id in scores then scores[chunk.id] else 0.0) + Share(k, rank)];
        data := if chunk.id in data then data else data[chunk.id := chunk];
      }
      assert branch[..|branch|] == branch;
      FlattenSnoc(branches[..b], branch);
    }
    assert branches[..|branches|] == branches;
    var ranked := Rank(data.Keys, (id: ChunkId) => if id in scores then scores[id] else 0.0, topK);
    var scored := map id | id in data :: data[id].(score := if id in scores then scores[id] else 0.0);
    fused := Entries(scored, ranked);
    FusionIsExact(branches, k, topK, scores, data, ranked, fused);
  }

  lemma {:induction false} TallyOneMore(scores: map<ChunkId, real>, data: map<ChunkId, ScoredChunk>, before: seq<seq<ScoredChunk>>,
                                        branch: seq<ScoredChunk>, rank: nat, k: real, seen: seq<ScoredChunk>)
    requires rank < |branch|
    requires Tallied(scores, data, seen + branch[..rank], (id: ChunkId) => FusedScore(before, k, id) + BranchScore(branch[..rank], k, id))
    ensures var chunk := branch[rank];
            var scores' := scores[chunk.id := (if chunk.id in scores then scores[chunk.id] else 0.0) + Share(k, rank)];
            var data' := if chunk.id in data then data else data[chunk.id := chunk];
            Tallied(scores', data', seen + branch[..rank + 1], (id: ChunkId) => FusedScore(before, k, id) + BranchScore(branch[..rank + 1], k, id))
  {
    var chunk := branch[rank];
    assert branch[..rank + 1][..rank] == branch[..rank];
    assert seen + branch[..rank + 1] == (seen + branch[..rank]) + [chunk];
    forall id
      ensures FirstOf(seen + branch[..rank + 1], id) ==
              if FirstOf(seen + branch[..rank], id).Some? then FirstOf(seen + branch[..rank], id) else if chunk.id == id then Some(chunk) else None
    {
      FirstOfSnoc(seen + branch[..rank], chunk, id);
    }
  }

  lemma {:induction false} FusionIsExact(branches: seq<seq<ScoredChunk>>, k: real, topK: nat, scores: map<ChunkId, real>,
                                         data: map<ChunkId, ScoredChunk>, ranked: seq<ChunkId>, fused: seq<ScoredChunk>)
    requires Tallied(scores, data, Flatten(branches), (id: ChunkId) => FusedScore(branches, k, id))
    requires IsTopK(data.Keys, (id: ChunkId) => if id in scores then scores[id] else 0.0, topK, ranked)
    requires |fused| == |ranked| && forall i :: 0 <= i < |ranked| ==> ranked[i] in data && fused[i] == data[ranked[i]].(score := scores[ranked[i]])
    ensures IsFusion(branches, k, topK, fused)
  {
    var flat := Flatten(branches);
    forall id ensures id in data.Keys <==> id in Ids(flat) {
      IdsHaveFirst(flat, id);
    }
    assert data.Keys == Ids(flat);
    forall i | 0 <= i < |fused| ensures fused[i].id == ranked[i] {
      IdsHaveFirst(flat, ranked[i]);
    }
    assert IdList(fused) == ranked;
  }

  method ReciprocalRankFusion(branches: seq<seq<ScoredChunk>>, topK: nat) returns (fused: seq<ScoredChunk>)
    ensures IsFusion(branches, DEFAULT_K, topK, fused)
  {
    fused := RrfWithK(branches, DEFAULT_K, topK);
  }

  // ---------------------------------------------------------- Laws of the scores

  lemma {:induction false} FusedScoreWithout(branches: seq<seq<ScoredChunk>>, i: nat, k: real, id: ChunkId)
    requires i < |branches|
    ensures FusedScore(branches, k, id) == FusedScore(branches[..i] + branches[i + 1..], k, id) + BranchScore(branches[i], k, id)
    decreases |branches|
  {
    var n := |branches| - 1;
    if i == n {
      assert branches[..i] + branches[i + 1..] == branches[..n];
    } else {
      FusedScoreWithout(branches[..n], i, k, id);
      var rest := branches[..i] + branches[i + 1..];
      assert rest[..|rest| - 1] == branches[..n][..i] + branches[..n][i + 1..];
    }
  }

  /** The order of the branches does not matter. */
  lemma {:induction false} BranchOrderIsIrrelevant(branches: seq<seq<ScoredChunk>>, others: seq<seq<ScoredChunk>>, k: real, id: ChunkId)
    requires multiset(branches) == multiset(others)
    ensures FusedScore(branches, k, id) == FusedScore(others, k, id)
    decreases |branches|
  {
    SameBagSameMembers(branches, others);
    if branches != [] {
      var n := |branches| - 1;
      assert branches[n] in branches;
      var i := RemoveOne(others, branches[n]);
      DropLast(branches);
      BranchOrderIsIrrelevant(branches[..n], others[..i] + others[i + 1..], k, id);
      FusedScoreWithout(others, i, k, id);
    }
  }

  predicate OnceEach(branch: seq<ScoredChunk>) {
    forall i, j :: 0 <= i < j < |branch| ==> branch[i].id != branch[j].id
  }

  /** Wherever `b` is listed, `a` is listed no lower. */
  predicate RanksAtLeast(branch: seq<ScoredChunk>, a: ChunkId, b: ChunkId) {
    forall j :: 0 <= j < |branch| && branch[j].id == b ==> exists i :: 0 <= i <= j && branch[i].id == a
  }

  lemma {:induction false} BranchScoreOnce(branch: seq<ScoredChunk>, k: real, id: ChunkId, i: nat)
    requires OnceEach(branch) && i < |branch| && branch[i].id == id
    ensures BranchScore(branch, k, id) == Share(k, i)
  {
    var n := |branch| - 1;
    if i < n {
      BranchScoreOnce(branch[..n], k, id, i);
    } else {
      BranchScoreAbsent(branch[..n], k, id);
    }
  }

  lemma {:induction false} BranchScoreAbsent(branch: seq<ScoredChunk>, k: real, id: ChunkId)
    requires forall i :: 0 <= i < |branch| ==> branch[i].id != id
    ensures BranchScore(branch, k, id) == 0.0
  {
    if branch != [] {
      BranchScoreAbsent(branch[..|branch| - 1], k, id);
    }
  }

  lemma {:induction false} InverseFalls(x: real, y: real)
    requires 0.0 < x <= y
    ensures 1.0 / x >= 1.0 / y
  {
    assert 1.0 / x == y / (x * y) && 1.0 / y == x / (x * y);
  }

  lemma {:induction false} SharesFall(k: real, i: nat, j: nat)
    requires k > -1.0 && i <= j
    ensures Share(k, i) >= Share(k, j)
  {
    InverseFalls(Divisor(k, i), Divisor(k, j));
  }

  ghost predicate SharesFallWithRank(k: real) {
    forall i: nat, j: nat :: i <= j ==> Share(k, i) >= Share(k, j)
  }

  /** A better rank gives no smaller share exactly when k is above -1; below, some rank without a positive share precedes one with. */
  lemma {:induction false} SharesFallExactly(k: real)
    requires forall rank: nat :: Divisor(k, rank) != 0.0
    ensures SharesFallWithRank(k) <==> k > -1.0
  {
    if k > -1.0 {
      forall i: nat, j: nat | i <= j ensures Share(k, i) >= Share(k, j) {
        SharesFall(k, i, j);
      }
    } else {
      var last: nat := (-k).Floor - 1;
      assert Divisor(k, last) <= 0.0 < Divisor(k, last + 1);
      assert Share(k, last) <= 0.0 < Share(k, last + 1);
    }
  }

  lemma {:induction false} BetterRankInBranch(branch: seq<ScoredChunk>, k: real, a: ChunkId, b: ChunkId)
    requires k > -1.0 && OnceEach(branch) && RanksAtLeast(branch, a, b)
    ensures BranchScore(branch, k, a) >= BranchScore(branch, k, b)
  {
    if j :| 0 <= j < |branch| && branch[j].id == b {
      var i :| 0 <= i <= j && branch[i].id == a;
      BranchScoreOnce(branch, k, a, i);
      BranchScoreOnce(branch, k, b, j);
      SharesFall(k, i, j);
    } else {
      BranchScoreAbsent(branch, k, b);
    }
  }

  /** A chunk ranked at least as well in every branch never scores lower. */
  lemma {:induction false} BetterRanksScoreNoLower(branches: seq<seq<ScoredChunk>>, k: real, a: ChunkId, b: ChunkId)
    requires k > -1.0
    requires forall i :: 0 <= i < |branches| ==> OnceEach(branches[i]) && RanksAtLeast(branches[i], a, b)
    ensures FusedScore(branches, k, a) >= FusedScore(branches, k, b)
  {
    if branches != [] {
      var n := |branches| - 1;
      BetterRanksScoreNoLower(branches[..n], k, a, b);
      BetterRankInBranch(branches[n], k, a, b);
    }
  }

  // ------------------------------------------------------------------- Max-merge

  /** The greatest score under which a list holds an id. */
  ghost predicate IsMaxScore(chunks: seq<ScoredChunk>, id: ChunkId, score: real) {
    && (exists i :: 0 <= i < |chunks| && chunks[i].id == id && chunks[i].score == score)
    && (forall i :: 0 <= i < |chunks| && chunks[i].id == id ==> chunks[i].score <= score)
  }

  /** The first chunk met with an id, at the greatest score met with it. */
  ghost predicate IsMerged(chunks: seq<ScoredChunk>, id: ChunkId, merged: ScoredChunk) {
    && FirstOf(chunks, id).Some? && merged == FirstOf(chunks, id).value.(score := merged.score)
    && IsMaxScore(chunks, id, merged.score)
  }

  /** One entry per id, raised to the greatest score met. */
  ghost predicate MergesAll(chunks: seq<ScoredChunk>, combined: map<ChunkId, ScoredChunk>) {
    && (forall id :: id in combined <==> FirstOf(chunks, id).Some?)
    && (forall id :: id in combined ==> IsMerged(chunks, id, combined[id]))
  }

  method MergeByMax(chunks: seq<ScoredChunk>) returns (combined: map<ChunkId, ScoredChunk>)
    ensures combined.Keys == Ids(chunks)
    ensures forall id :: id in combined ==> IsMerged(chunks, id, combined[id])
  {
    combined := map[];
    for i := 0 to |chunks|
      invariant MergesAll(chunks[..i], combined)
    {
      var chunk := chunks[i];
      MergesOneMore(chunks, i, combined);
      if chunk.id in combined {
        if chunk.score > combined[chunk.id].score {
          combined := combined[chunk.id := combined[chunk.id].(score := chunk.score)];
        }
      } else {
        combined := combined[chunk.id := chunk];
      }
    }
    assert chunks[..|chunks|] == chunks;
    forall id ensures id in combined <==> id in Ids(chunks) {
      IdsHaveFirst(chunks, id);
    }
  }

  lemma {:induction false} MergesOneMore(chunks: seq<ScoredChunk>, i: nat, combined: map<ChunkId, ScoredChunk>)
    requires i < |chunks| && MergesAll(chunks[..i], combined)
    ensures var chunk := chunks[i];
            MergesAll(chunks[..i + 1],
                      if chunk.id !in combined then combined[chunk.id := chunk]
                      else if chunk.score > combined[chunk.id].score then combined[chunk.id := combined[chunk.id].(score := chunk.score)]
                      else combined)
  {
    var chunk := chunks[i];
    assert chunks[..i + 1] == chunks[..i] + [chunk];
    forall id
      ensures FirstOf(chunks[..i + 1], id) ==
              if FirstOf(chunks[..i], id).Some? then FirstOf(chunks[..i], id) else if chunk.id == id then Some(chunk) else None
    {
      FirstOfSnoc(chunks[..i], chunk, id);
    }
    IdsHaveFirst(chunks[..i], chunk.id);
    forall id | id in combined
      ensures IsMaxScore(chunks[..i + 1], id, if chunk.id == id && chunk.score > combined[id].score then chunk.score else combined[id].score)
    {
      MaxOneMore(chunks, i, id, combined[id].score);
    }
    if chunk.id !in combined {
      assert forall j :: 0 <= j < i ==> chunks[..i][j].id in Ids(chunks[..i]);
      FirstIsMax(chunks, i);
    }
  }

  lemma {:induction false} FirstIsMax(chunks: seq<ScoredChunk>, i: nat)
    requires i < |chunks| && forall j :: 0 <= j < i ==> chunks[j].id != chunks[i].id
    ensures IsMaxScore(chunks[..i + 1], chunks[i].id, chunks[i].score)
  {
    assert chunks[..i + 1][i] == chunks[i];
  }

  /** Sparse search: both branches' chunks, each id once at its greatest score, the best `topK`. */
  method SearchSparse(fts: seq<ScoredChunk>, trigram: seq<ScoredChunk>, topK: nat) returns (results: seq<ScoredChunk>, ghost score: ChunkId -> real)
    ensures forall id :: id in Ids(fts + trigram) ==> IsMaxScore(fts + trigram, id, score(id))
    ensures IsTopK(Ids(fts + trigram), score, topK, IdList(results))
    ensures forall i :: 0 <= i < |results| ==> results[i].score == score(results[i].id)
    ensures forall i :: 0 <= i < |results| ==> IsMerged(fts + trigram, results[i].id, results[i])
    ensures |results| == if topK < |Ids(fts + trigram)| then topK else |Ids(fts + trigram)|
  {
    var combined := MergeByMax(fts + trigram);
    forall id | id in combined ensures combined[id].id == id {
      IdsHaveFirst(fts + trigram, id);
    }
    var scoreOf := (id: ChunkId) => if id in combined then combined[id].score else 0.0;
    score := scoreOf;
    var ranked := Rank(combined.Keys, scoreOf, topK);
    results := Entries(combined, ranked);
    assert IdList(results) == ranked;
  }

  lemma {:induction false} MaxOneMore(chunks: seq<ScoredChunk>, i: nat, id: ChunkId, score: real)
    requires i < |chunks| && IsMaxScore(chunks[..i], id, score)
    ensures IsMaxScore(chunks[..i + 1], id, if chunks[i].id == id && chunks[i].score > score then chunks[i].score else score)
  {
    var longer := chunks[..i + 1];
    var j :| 0 <= j < i && chunks[..i][j].id == id && chunks[..i][j].score == score;
    assert longer[j] == chunks[..i][j] && longer[i] == chunks[i];
    assert forall h :: 0 <= h < i ==> longer[h] == chunks[..i][h];
  }
}
