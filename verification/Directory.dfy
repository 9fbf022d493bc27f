/**
 * Directory ingestion: results come in as tasks complete, in any order, and are put back
 * into discovery order before they are counted; orphaned documents are deleted last.
 */
module Directory {
  import opened Wrappers
  import opened Sorting

  datatype Status = Created | Updated | Unchanged

  datatype Outcome = Ingested(status: Status) | Failed(error: string)

  /** What the join of one task yields; a panic does not say which task it was. */
  datatype Completion = Finished(index: nat, path: string, outcome: Outcome) | Panicked

  datatype DocumentStatus = DocumentStatus(path: string, status: string)

  datatype Output = Output(added: nat, updated: nat, untouched: nat, deleted: nat, failed: nat, documents: seq<DocumentStatus>)

  function StatusText(outcome: Outcome): string {
    match outcome
    case Ingested(Created) => "created"
    case Ingested(Updated) => "updated"
    case Ingested(Unchanged) => "unchanged"
    case Failed(error) => "error: " + error
  }

  function Counted(output: Output, outcome: Outcome): Output {
    match outcome
    case Ingested(Created) => output.(added := output.added + 1)
    case Ingested(Updated) => output.(updated := output.updated + 1)
    case Ingested(Unchanged) => output.(untouched := output.untouched + 1)
    case Failed(_) => output.(failed := output.failed + 1)
  }

  function PushIngestStatus(output: Output, path: string, outcome: Outcome): Output {
    Counted(output, outcome).(documents := output.documents + [DocumentStatus(path, StatusText(outcome))])
  }

  // ------------------------------------------------------- Sequential processing

  /** What the tasks do: task `i` ingests file `i`, or panics. */
  type Tasks = seq<Option<Outcome>>

  /** The files one after the other, in discovery order. */
  function Sequential(globFailures: nat, files: seq<string>, tasks: Tasks): Output
    requires |files| == |tasks|
  {
    if tasks == [] then Output(0, 0, 0, 0, globFailures, [])
    else
      var n := |tasks| - 1;
      var before := Sequential(globFailures, files[..n], tasks[..n]);
      match tasks[n]
      case None => before.(failed := before.failed + 1)
      case Some(outcome) => PushIngestStatus(before, files[n], outcome)
  }

  /** The completions of the tasks, in the order of their files. */
  function Completions(files: seq<string>, tasks: Tasks): seq<Completion>
    requires |files| == |tasks|
  {
    if tasks == [] then []
    else
      var n := |tasks| - 1;
      Completions(files[..n], tasks[..n]) + [if tasks[n].None? then Panicked else Finished(n, files[n], tasks[n].value)]
  }

  // ------------------------------------------------------------ Concurrent tally

  function Finishes(completions: seq<Completion>): seq<Completion> {
    if completions == [] then []
    else
      var n := |completions| - 1;
      Finishes(completions[..n]) + (if completions[n].Finished? then [completions[n]] else [])
  }

  function Tally(start: Output, finishes: seq<Completion>): Output {
    if finishes == [] then start
    else
      var n := |finishes| - 1;
      var before := Tally(start, finishes[..n]);
      if finishes[n].Finished? then PushIngestStatus(before, finishes[n].path, finishes[n].outcome) else before
  }

  predicate IndexLe(a: Completion, b: Completion) {
    a.Panicked? || (b.Finished? && a.index <= b.index)
  }

  /** Whatever the order of completion, the result is that of sequential processing. */
  method AggregateResults(globFailures: nat, completions: seq<Completion>, ghost files: seq<string>, ghost tasks: Tasks) returns (output: Output)
    requires |files| == |tasks| && multiset(completions) == multiset(Completions(files, tasks))
    ensures output == Sequential(globFailures, files, tasks)
  {
    var indexed, failures := Collect(globFailures, completions);
    var sorted := SortByIndex(indexed);
    OrderIsRestored(completions, files, tasks, sorted);
    output := TallyAll(Started(failures), sorted);
    OrderedTally(globFailures, files, tasks, failures, sorted);
  }

  method SortByIndex(indexed: seq<Completion>) returns (sorted: seq<Completion>)
    ensures multiset(sorted) == multiset(indexed) && SortedBy(sorted, IndexLe)
  {
    sorted := Sort(multiset(indexed), IndexLe);
  }

  /** The join loop: results are kept, panics only counted. */
  method Collect(globFailures: nat, completions: seq<Completion>) returns (indexed: seq<Completion>, failures: nat)
    ensures indexed == Finishes(completions) && failures == globFailures + Occurrences(completions, Panicked)
  {
    indexed, failures := [], globFailures;
    for i := 0 to |completions|
      invariant indexed == Finishes(completions[..i]) && failures == globFailures + Occurrences(completions[..i], Panicked)
    {
      assert completions[..i + 1][..i] == completions[..i];
      match completions[i] {
        case Finished(_, _, _) => indexed := indexed + [completions[i]];
        case Panicked => failures := failures + 1;
      }
    }
    assert completions[..|completions|] == completions;
  }

  method TallyAll(start: Output, sorted: seq<Completion>) returns (output: Output)
    ensures output == Tally(start, sorted)
  {
    output := start;
    for i := 0 to |sorted|
      invariant output == Tally(start, sorted[..i])
    {
      assert sorted[..i + 1][..i] == sorted[..i];
      match sorted[i] {
        case Finished(_, path, outcome) => output := PushIngestStatus(output, path, outcome);
        case Panicked =>
      }
    }
    assert sorted[..|sorted|] == sorted;
  }

  lemma {:induction false} FinishesCount(completions: seq<Completion>, x: Completion)
    ensures Occurrences(Finishes(completions), x) == if x.Finished? then Occurrences(completions, x) else 0
  {
    if completions != [] {
      var n := |completions| - 1;
      FinishesCount(completions[..n], x);
      OccurrencesConcat(Finishes(completions[..n]), if completions[n].Finished? then [completions[n]] else [], x);
      assert [completions[n]][..0] == [];
    }
  }

  predicate IsResultOf(files: seq<string>, tasks: Tasks, c: Completion)
    requires |files| == |tasks|
  {
    c.Finished? && c.index < |tasks| && c.path == files[c.index] && tasks[c.index] == Some(c.outcome)
  }

  lemma {:induction false} CompletionsAreOrdered(files: seq<string>, tasks: Tasks)
    requires |files| == |tasks|
    ensures var f := Finishes(Completions(files, tasks));
            SortedBy(f, IndexLe) && forall i :: 0 <= i < |f| ==> IsResultOf(files, tasks, f[i])
  {
    if tasks != [] {
      var n := |tasks| - 1;
      var before := Completions(files[..n], tasks[..n]);
      var c := if tasks[n].None? then Panicked else Finished(n, files[n], tasks[n].value);
      CompletionsAreOrdered(files[..n], tasks[..n]);
      assert Completions(files, tasks) == before + [c] && (before + [c])[..|before|] == before;
      var f := Finishes(before);
      assert Finishes(before + [c]) == f + (if c.Finished? then [c] else []);
      forall i | 0 <= i < |f| ensures IsResultOf(files, tasks, f[i]) && (c.Finished? ==> IndexLe(f[i], c)) {
        assert IsResultOf(files[..n], tasks[..n], f[i]);
      }
    }
  }

  /** What finished, and how much panicked, does not depend on the order. */
  lemma {:induction false} SameFinishes(completions: seq<Completion>, expected: seq<Completion>)
    requires multiset(completions) == multiset(expected)
    ensures multiset(Finishes(completions)) == multiset(Finishes(expected))
    ensures Occurrences(completions, Panicked) == Occurrences(expected, Panicked)
  {
    forall x: Completion ensures Occurrences(completions, x) == Occurrences(expected, x) {
      OccurrencesAreCounted(completions, x);
      OccurrencesAreCounted(expected, x);
    }
    forall x: Completion ensures Occurrences(Finishes(completions), x) == Occurrences(Finishes(expected), x) {
      FinishesCount(completions, x);
      FinishesCount(expected, x);
    }
    SameOccurrencesSameBag(Finishes(completions), Finishes(expected));
  }

  /** Sorting by index yields the finished tasks in discovery order, and no panic is lost or invented. */
  lemma {:induction false} OrderIsRestored(completions: seq<Completion>, files: seq<string>, tasks: Tasks, sorted: seq<Completion>)
    requires |files| == |tasks| && multiset(completions) == multiset(Completions(files, tasks))
    requires multiset(sorted) == multiset(Finishes(completions)) && SortedBy(sorted, IndexLe)
    ensures sorted == Finishes(Completions(files, tasks))
    ensures Occurrences(completions, Panicked) == Occurrences(Completions(files, tasks), Panicked)
  {
    var expected := Completions(files, tasks);
    SameFinishes(completions, expected);
    CompletionsAreOrdered(files, tasks);
    SameBagSameMembers(sorted, Finishes(expected));
    forall a, b | a in sorted && b in sorted && IndexLe(a, b) && IndexLe(b, a) ensures a == b {
    }
    SortedIsUnique(sorted, Finishes(expected), IndexLe);
  }

  lemma {:induction false} TallyCarriesFailures(start: Output, finishes: seq<Completion>, more: nat)
    ensures var o := Tally(start, finishes); Tally(start.(failed := start.failed + more), finishes) == o.(failed := o.failed + more)
  {
    if finishes != [] {
      TallyCarriesFailures(start, finishes[..|finishes| - 1], more);
    }
  }

  lemma {:induction false} OneMoreCompletion(start: Output, before: seq<Completion>, c: Completion)
    ensures Occurrences(before + [c], Panicked) == Occurrences(before, Panicked) + (if c.Panicked? then 1 else 0)
    ensures Tally(start, Finishes(before + [c])) ==
            if c.Finished? then PushIngestStatus(Tally(start, Finishes(before)), c.path, c.outcome) else Tally(start, Finishes(before))
  {
    assert (before + [c])[..|before|] == before;
    var f := Finishes(before);
    if c.Finished? {
      assert Finishes(before + [c]) == f + [c];
      assert (f + [c])[..|f|] == f;
    } else {
      assert Finishes(before + [c]) == f;
    }
  }

  /** The output that the tally starts from: nothing but the failures known before. */
  function Started(failures: nat): Output {
    Output(0, 0, 0, 0, failures, [])
  }

  lemma {:induction false} TallyStep(globFailures: nat, before: seq<Completion>, c: Completion, sofar: Output)
    requires Tally(Started(globFailures + Occurrences(before, Panicked)), Finishes(before)) == sofar
    ensures Tally(Started(globFailures + Occurrences(before + [c], Panicked)), Finishes(before + [c])) ==
            if c.Panicked? then sofar.(failed := sofar.failed + 1) else PushIngestStatus(sofar, c.path, c.outcome)
  {
    var failures := globFailures + Occurrences(before, Panicked);
    assert (before + [c])[..|before|] == before;
    assert Occurrences(before + [c], Panicked) == Occurrences(before, Panicked) + (if c.Panicked? then 1 else 0);
    if c.Panicked? {
      OneMoreCompletion(Started(failures + 1), before, c);
      TallyCarriesFailures(Started(failures), Finishes(before), 1);
    } else {
      OneMoreCompletion(Started(failures), before, c);
    }
  }

  lemma {:induction false} TallyIsSequential(globFailures: nat, files: seq<string>, tasks: Tasks)
    requires |files| == |tasks|
    ensures var all := Completions(files, tasks);
            Tally(Started(globFailures + Occurrences(all, Panicked)), Finishes(all)) == Sequential(globFailures, files, tasks)
  {
    if tasks != [] {
      var n := |tasks| - 1;
      var before := Completions(files[..n], tasks[..n]);
      var c := if tasks[n].None? then Panicked else Finished(n, files[n], tasks[n].value);
      TallyIsSequential(globFailures, files[..n], tasks[..n]);
      assert Completions(files, tasks) == before + [c];
      TallyStep(globFailures, before, c, Sequential(globFailures, files[..n], tasks[..n]));
    }
  }

  lemma {:induction false} OrderedTally(globFailures: nat, files: seq<string>, tasks: Tasks, failures: nat, finishes: seq<Completion>)
    requires |files| == |tasks| && finishes == Finishes(Completions(files, tasks))
    requires failures == globFailures + Occurrences(Completions(files, tasks), Panicked)
    ensures Tally(Started(failures), finishes) == Sequential(globFailures, files, tasks)
  {
    TallyIsSequential(globFailures, files, tasks);
  }

  // -------------------------------------------------------------------- Orphans

  datatype Deletion = Deleted | Missing | DeletionFailed(error: string)

  function ForwardSlashes(path: string): string {
    seq(|path|, i requires 0 <= i < |path| => if path[i] == '\\' then '/' else path[i])
  }

  function NormalizeDirPrefix(directory: string): string {
    var normalized := ForwardSlashes(directory);
    if normalized != [] && normalized[|normalized| - 1] == '/' then normalized else normalized + "/"
  }

  /** Stored under the directory, and not among the files discovered. */
  predicate IsOrphan(directory: string, discovered: seq<string>, path: string) {
    && NormalizeDirPrefix(directory) <= ForwardSlashes(path)
    && forall i :: 0 <= i < |discovered| ==> ForwardSlashes(discovered[i]) != ForwardSlashes(path)
  }

  /** The output after the orphans among `existing` met what `delete` says. */
  function WithoutOrphans(directory: string, discovered: seq<string>, existing: seq<string>, delete: string -> Deletion, output: Output): Output {
    if existing == [] then output
    else
      var n := |existing| - 1;
      var before := WithoutOrphans(directory, discovered, existing[..n], delete, output);
      if !IsOrphan(directory, discovered, existing[n]) then before
      else
        match delete(existing[n])
        case Deleted => before.(deleted := before.deleted + 1, documents := before.documents + [DocumentStatus(existing[n], "deleted")])
        case Missing => before
        case DeletionFailed(error) =>
          before.(failed := before.failed + 1, documents := before.documents + [DocumentStatus(existing[n], "error: " + error)])
  }

  function DeletionText(deletion: Deletion): string {
    match deletion
    case Deleted => "deleted"
    case Missing => ""
    case DeletionFailed(error) => "error: " + error
  }

  /** `reported` are, in order, the places of the orphans that were there to delete, and `documents` say what became of each. */
  ghost predicate AreReported(directory: string, discovered: seq<string>, existing: seq<string>, delete: string -> Deletion,
                              reported: seq<nat>, documents: seq<DocumentStatus>) {
    && (forall i :: 0 <= i < |reported| ==> reported[i] < |existing|)
    && (forall i, j :: 0 <= i < j < |reported| ==> reported[i] < reported[j])
    && (forall k: nat :: k in reported <==> k < |existing| && IsOrphan(directory, discovered, existing[k]) && !delete(existing[k]).Missing?)
    && |documents| == |reported|
    && forall i :: 0 <= i < |reported| ==> documents[i] == DocumentStatus(existing[reported[i]], DeletionText(delete(existing[reported[i]])))
  }

  /** How many of the reported deletions succeeded. */
  function Successes(existing: seq<string>, delete: string -> Deletion, reported: seq<nat>): nat
    requires forall i :: 0 <= i < |reported| ==> reported[i] < |existing|
  {
    |set k | k in reported && delete(existing[k]).Deleted?|
  }

  lemma {:induction false} NoSuccesses(existing: seq<string>, delete: string -> Deletion)
    ensures Successes(existing, delete, []) == 0
  {
    var none: seq<nat> := [];
    assert forall k :: k !in none;
  }

  lemma {:induction false} OneMoreReported(existing: seq<string>, delete: string -> Deletion, reported: seq<nat>, n: nat)
    requires n < |existing| && n !in reported && forall i :: 0 <= i < |reported| ==> reported[i] < |existing|
    ensures forall i :: 0 <= i < |reported + [n]| ==> (reported + [n])[i] < |existing|
    ensures Successes(existing, delete, reported + [n]) == Successes(existing, delete, reported) + (if delete(existing[n]).Deleted? then 1 else 0)
  {
    var before, after := set k | k in reported && delete(existing[k]).Deleted?, set k | k in reported + [n] && delete(existing[k]).Deleted?;
    assert after == if delete(existing[n]).Deleted? then before + {n} else before;
  }

  lemma {:induction false} FewerExisting(existing: seq<string>, delete: string -> Deletion, reported: seq<nat>)
    requires existing != [] && forall i :: 0 <= i < |reported| ==> reported[i] < |existing| - 1
    ensures Successes(existing[..|existing| - 1], delete, reported) == Successes(existing, delete, reported)
  {
    var shorter := existing[..|existing| - 1];
    assert (set k | k in reported && delete(shorter[k]).Deleted?) == set k | k in reported && delete(existing[k]).Deleted?;
  }

  lemma {:induction false} NothingReported(directory: string, discovered: seq<string>, existing: seq<string>, delete: string -> Deletion,
                                           reported: seq<nat>, documents: seq<DocumentStatus>)
    requires existing != [] && AreReported(directory, discovered, existing[..|existing| - 1], delete, reported, documents)
    requires !IsOrphan(directory, discovered, existing[|existing| - 1]) || delete(existing[|existing| - 1]).Missing?
    ensures AreReported(directory, discovered, existing, delete, reported, documents)
  {
    assert forall k :: 0 <= k < |existing| - 1 ==> existing[..|existing| - 1][k] == existing[k];
  }

  lemma {:induction false} LastIsReported(directory: string, discovered: seq<string>, existing: seq<string>, delete: string -> Deletion,
                                          reported: seq<nat>, documents: seq<DocumentStatus>)
    requires existing != [] && AreReported(directory, discovered, existing[..|existing| - 1], delete, reported, documents)
    requires IsOrphan(directory, discovered, existing[|existing| - 1]) && !delete(existing[|existing| - 1]).Missing?
    ensures var last := existing[|existing| - 1];
            AreReported(directory, discovered, existing, delete, reported + [|existing| - 1],
                        documents + [DocumentStatus(last, DeletionText(delete(last)))])
  {
    assert forall k :: 0 <= k < |existing| - 1 ==> existing[..|existing| - 1][k] == existing[k];
  }

  /** The places of the orphans that are there to delete. */
  function Reported(directory: string, discovered: seq<string>, existing: seq<string>, delete: string -> Deletion): (reported: seq<nat>)
    ensures forall i :: 0 <= i < |reported| ==> reported[i] < |existing|
  {
    if existing == [] then []
    else
      var n := |existing| - 1;
      Reported(directory, discovered, existing[..n], delete)
      + (if IsOrphan(directory, discovered, existing[n]) && !delete(existing[n]).Missing? then [n] else [])
  }

  /** The statuses appended are those of the orphans that were there to delete, each once, in the order they are listed. */
  lemma {:induction false} OrphansAreReported(directory: string, discovered: seq<string>, existing: seq<string>, delete: string -> Deletion, output: Output)
    ensures var o := WithoutOrphans(directory, discovered, existing, delete, output);
            && output.documents <= o.documents
            && AreReported(directory, discovered, existing, delete, Reported(directory, discovered, existing, delete), o.documents[|output.documents|..])
  {
    if existing != [] {
      var n := |existing| - 1;
      OrphansAreReported(directory, discovered, existing[..n], delete, output);
      var before := Reported(directory, discovered, existing[..n], delete);
      var documents := WithoutOrphans(directory, discovered, existing[..n], delete, output).documents;
      if IsOrphan(directory, discovered, existing[n]) && !delete(existing[n]).Missing? {
        LastIsReported(directory, discovered, existing, delete, before, documents[|output.documents|..]);
        var status := DocumentStatus(existing[n], DeletionText(delete(existing[n])));
        assert (documents + [status])[|output.documents|..] == documents[|output.documents|..] + [status];
      } else {
        NothingReported(directory, discovered, existing, delete, before, documents[|output.documents|..]);
      }
    }
  }

  /** The reported deletions that succeeded are counted as deleted, the others as failed, and the other counters stay. */
  lemma {:induction false} OrphansAreCounted(directory: string, discovered: seq<string>, existing: seq<string>, delete: string -> Deletion, output: Output)
    ensures var o, reported := WithoutOrphans(directory, discovered, existing, delete, output), Reported(directory, discovered, existing, delete);
            && o.deleted == output.deleted + Successes(existing, delete, reported)
            && o.failed == output.failed + |reported| - Successes(existing, delete, reported)
            && o.added == output.added && o.updated == output.updated && o.untouched == output.untouched
  {
    if existing == [] {
      NoSuccesses(existing, delete);
    } else {
      var n := |existing| - 1;
      var before := Reported(directory, discovered, existing[..n], delete);
      OrphansAreCounted(directory, discovered, existing[..n], delete, output);
      FewerExisting(existing, delete, before);
      var reported := Reported(directory, discovered, existing, delete);
      if IsOrphan(directory, discovered, existing[n]) && !delete(existing[n]).Missing? {
        assert reported == before + [n];
        OneMoreReported(existing, delete, before, n);
      } else {
        assert reported == before;
      }
    }
  }

  /** The caller stores the count of deletions once the loop is done. */
  method DeleteOrphanedDocuments(directory: string, discovered: seq<string>, existing: seq<string>, delete: string -> Deletion, output: Output)
    returns (output': Output, deletedCount: nat, ghost reported: seq<nat>)
    requires output.deleted == 0
    ensures output'.(deleted := deletedCount) == WithoutOrphans(directory, discovered, existing, delete, output)
    ensures output.documents <= output'.documents
    ensures AreReported(directory, discovered, existing, delete, reported, output'.documents[|output.documents|..])
    ensures deletedCount == Successes(existing, delete, reported) && output'.failed == output.failed + |reported| - deletedCount
  {
    output', deletedCount := output, 0;
    for i := 0 to |existing|
      invariant output'.(deleted := deletedCount) == WithoutOrphans(directory, discovered, existing[..i], delete, output)
    {
      assert existing[..i + 1][..i] == existing[..i];
      var path := existing[i];
      if IsOrphan(directory, discovered, path) {
        match delete(path) {
          case Deleted =>
            deletedCount := deletedCount + 1;
            output' := output'.(documents := output'.documents + [DocumentStatus(path, "deleted")]);
          case Missing =>
          case DeletionFailed(error) =>
            output' := output'.(failed := output'.failed + 1, documents := output'.documents + [DocumentStatus(path, "error: " + error)]);
        }
      }
    }
    assert existing[..|existing|] == existing;
    reported := Reported(directory, discovered, existing, delete);
    OrphansAreReported(directory, discovered, existing, delete, output);
    OrphansAreCounted(directory, discovered, existing, delete, output);
  }

  // --------------------------------------------------------------- Conservation

  function Total(output: Output): nat {
    output.added + output.updated + output.untouched + output.deleted + output.failed
  }

  lemma {:induction false} SequentialAddsUp(globFailures: nat, files: seq<string>, tasks: Tasks)
    requires |files| == |tasks|
    ensures var o := Sequential(globFailures, files, tasks);
            && Total(o) == |o.documents| + globFailures + Occurrences(tasks, None)
            && o.deleted == 0 && |o.documents| + Occurrences(tasks, None) == |files|
  {
    if tasks != [] {
      SequentialAddsUp(globFailures, files[..|tasks| - 1], tasks[..|tasks| - 1]);
    }
  }

  predicate IsStatusOf(outcome: Outcome, text: string) {
    match outcome
    case Ingested(Created) => text == "created"
    case Ingested(Updated) => text == "updated"
    case Ingested(Unchanged) => text == "unchanged"
    case Failed(error) => text == "error: " + error
  }

  /** `listed` are, in order, the files whose ingestion did not panic, and `documents` say how each went. */
  ghost predicate AreListed(files: seq<string>, tasks: Tasks, listed: seq<nat>, documents: seq<DocumentStatus>)
    requires |files| == |tasks|
  {
    && (forall i, j :: 0 <= i < j < |listed| ==> listed[i] < listed[j])
    && (forall k: nat :: k in listed <==> k < |tasks| && tasks[k].Some?)
    && |documents| == |listed|
    && forall i :: 0 <= i < |listed| ==>
         && listed[i] < |tasks| && tasks[listed[i]].Some?
         && documents[i].path == files[listed[i]] && IsStatusOf(tasks[listed[i]].value, documents[i].status)
  }

  /** Each counter is the number of files with that outcome; what neither created, updated nor left alone counts as failed, and so do the earlier failures. */
  lemma {:induction false} SequentialCounts(globFailures: nat, files: seq<string>, tasks: Tasks)
    requires |files| == |tasks|
    ensures var o := Sequential(globFailures, files, tasks);
            && o.added == Occurrences(tasks, Some(Ingested(Created)))
            && o.updated == Occurrences(tasks, Some(Ingested(Updated)))
            && o.untouched == Occurrences(tasks, Some(Ingested(Unchanged)))
            && o.failed == globFailures + |tasks| - o.added - o.updated - o.untouched && o.deleted == 0
  {
    if tasks != [] {
      SequentialCounts(globFailures, files[..|tasks| - 1], tasks[..|tasks| - 1]);
    }
  }

  /** Every file whose ingestion did not panic is listed with its status, in discovery order. */
  lemma {:induction false} SequentialLists(globFailures: nat, files: seq<string>, tasks: Tasks) returns (listed: seq<nat>)
    requires |files| == |tasks|
    ensures AreListed(files, tasks, listed, Sequential(globFailures, files, tasks).documents)
  {
    listed := [];
    if tasks != [] {
      var n := |tasks| - 1;
      var before := SequentialLists(globFailures, files[..n], tasks[..n]);
      listed := if tasks[n].Some? then before + [n] else before;
      ListedOneMore(files, tasks, before, Sequential(globFailures, files[..n], tasks[..n]).documents);
    }
  }

  lemma {:induction false} ListedOneMore(files: seq<string>, tasks: Tasks, listed: seq<nat>, documents: seq<DocumentStatus>)
    requires |files| == |tasks| > 0 && AreListed(files[..|tasks| - 1], tasks[..|tasks| - 1], listed, documents)
    ensures var n := |tasks| - 1;
            match tasks[n]
            case None => AreListed(files, tasks, listed, documents)
            case Some(outcome) => AreListed(files, tasks, listed + [n], documents + [DocumentStatus(files[n], StatusText(outcome))])
  {
    var n := |tasks| - 1;
    assert forall k :: 0 <= k < n ==> tasks[..n][k] == tasks[k] && files[..n][k] == files[k];
  }

  /** The directory with backslashes turned and one slash at the end, if there is one, taken away. */
  function DirectoryPath(directory: string): (path: string)
    ensures |path| == |directory| || |path| == |directory| - 1
  {
    var turned := seq(|directory|, i requires 0 <= i < |directory| => if directory[i] == '\\' then '/' else directory[i]);
    if turned != [] && turned[|turned| - 1] == '/' then turned[..|turned| - 1] else turned
  }

  /** `path` is `turned` with backslashes turned into slashes. */
  predicate IsTurned(path: string, turned: string) {
    |turned| == |path| && forall i :: 0 <= i < |path| ==> turned[i] == if path[i] == '\\' then '/' else path[i]
  }

  /** An orphan lies under the directory, whole components deep, and is none of the files found, whichever way the slashes lean. */
  lemma {:induction false} OrphanLiesUnder(directory: string, discovered: seq<string>, path: string)
    ensures IsOrphan(directory, discovered, path) <==>
            && (exists rest: string :: IsTurned(path, DirectoryPath(directory) + "/" + rest))
            && forall i, turned :: 0 <= i < |discovered| && IsTurned(path, turned) ==> !IsTurned(discovered[i], turned)
  {
    var prefix, turned := DirectoryPath(directory) + "/", ForwardSlashes(path);
    var normalized := ForwardSlashes(directory);
    assert normalized != [] && normalized[|normalized| - 1] == '/' ==> normalized == normalized[..|normalized| - 1] + "/";
    assert prefix == NormalizeDirPrefix(directory);
    forall t ensures IsTurned(path, t) <==> t == turned {
    }
    if prefix <= turned {
      assert turned == prefix + turned[|prefix|..];
    }
    forall i | 0 <= i < |discovered| ensures IsTurned(discovered[i], turned) <==> ForwardSlashes(discovered[i]) == turned {
    }
  }

  lemma {:induction false} OrphansAddUp(directory: string, discovered: seq<string>, existing: seq<string>, delete: string -> Deletion, output: Output)
    ensures var o := WithoutOrphans(directory, discovered, existing, delete, output);
            Total(o) + |output.documents| == Total(output) + |o.documents|
  {
    if existing != [] {
      OrphansAddUp(directory, discovered, existing[..|existing| - 1], delete, output);
    }
  }

  /**
   * For every schedule, the output is that of sequential ingestion followed by the orphan
   * deletions, and its counters add up to the listed documents and the failures that list none.
   */
  method IngestDirectory(directory: string, files: seq<string>, globFailures: nat, completions: seq<Completion>, ghost tasks: Tasks,
                         deleteRemoved: bool, existing: seq<string>, delete: string -> Deletion)
    returns (output: Output)
    requires |files| == |tasks| && multiset(completions) == multiset(Completions(files, tasks))
    ensures var sequential := Sequential(globFailures, files, tasks);
            output == if deleteRemoved then WithoutOrphans(directory, files, existing, delete, sequential) else sequential
    ensures Total(output) == |output.documents| + globFailures + Occurrences(tasks, None)
  {
    output := AggregateResults(globFailures, completions, files, tasks);
    SequentialAddsUp(globFailures, files, tasks);
    if deleteRemoved {
      OrphansAddUp(directory, files, existing, delete, output);
      var deleted;
      ghost var reported;
      output, deleted, reported := DeleteOrphanedDocuments(directory, files, existing, delete, output);
      output := output.(deleted := deleted);
    }
  }
}
