/**
 * Semantic chunking: sentence splitting, breakpoints from similarities and forced at
 * intervals, bounded groups, and overlapping windows for what is still too long.
 */
module Semantic {
  import opened Wrappers
  import opened Sorting
  import opened Strings

  const TEXT_WINDOW_OVERLAP: nat := 200
  const SENTENCE_GROUP_SIZE: nat := 3

  // ----------------------------------------------------------- Sentence splitting

  const ABBREVIATIONS: seq<string> := [
    "mr.", "mrs.", "ms.", "dr.", "prof.", "sr.", "jr.", "e.g.", "i.e.", "vs.", "etc.",
    "approx.", "dept.", "est.", "inc.", "ltd.", "no.", "vol.", "fig."
  ]

  predicate EndsWith(s: string, suffix: string) {
    |suffix| <= |s| && s[|s| - |suffix|..] == suffix
  }

  /** `lower` stands for Unicode lower-casing. */
  predicate IsAbbreviation(lower: string -> string, text: string) {
    exists i :: 0 <= i < |ABBREVIATIONS| && EndsWith(lower(text), ABBREVIATIONS[i])
  }

  predicate IsTerminator(c: char) {
    c == '.' || c == '!' || c == '?'
  }

  /** `isUpper` stands for `char::is_uppercase`. */
  predicate NextIsBoundary(isUpper: char -> bool, text: string, i: nat)
    requires i < |text|
  {
    i + 1 < |text| ==> IsWhitespace(text[i + 1]) && (i + 2 >= |text| || isUpper(text[i + 2]) || text[i + 2] == '"')
  }

  /** Whether the sentence `current`, which ends with character `i`, is complete. */
  predicate CutsAt(lower: string -> string, isUpper: char -> bool, text: string, i: nat, current: string)
    requires i < |text|
  {
    IsTerminator(text[i]) && !IsAbbreviation(lower, current) && NextIsBoundary(isUpper, text, i)
  }

  function AfterCut(text: string, i: nat): (next: nat)
    requires i < |text|
    ensures i < next <= |text|
  {
    if i + 1 < |text| && IsWhitespace(text[i + 1]) then i + 2 else i + 1
  }

  function Trimmed(current: string): seq<string> {
    if Trim(current) == [] then [] else [Trim(current)]
  }

  /** The sentences still to come after `current` has been read up to character `i`. */
  function SentencesFrom(lower: string -> string, isUpper: char -> bool, text: string, i: nat, current: string): seq<string>
    requires i <= |text|
    decreases |text| - i
  {
    if i == |text| then Trimmed(current)
    else
      var more := current + [text[i]];
      if CutsAt(lower, isUpper, text, i, more) then Trimmed(more) + SentencesFrom(lower, isUpper, text, AfterCut(text, i), "")
      else SentencesFrom(lower, isUpper, text, i + 1, more)
  }

  function Sentences(lower: string -> string, isUpper: char -> bool, text: string): seq<string> {
    SentencesFrom(lower, isUpper, text, 0, "")
  }

  method SplitSentences(lower: string -> string, isUpper: char -> bool, text: string) returns (sentences: seq<string>)
    ensures sentences == Sentences(lower, isUpper, text)
  {
    sentences := [];
    var current, len, i := "", |text|, 0;
    assert sentences + Sentences(lower, isUpper, text) == Sentences(lower, isUpper, text);
    while i < len
      invariant 0 <= i <= len
      invariant sentences + SentencesFrom(lower, isUpper, text, i, current) == Sentences(lower, isUpper, text)
    {
      current := current + [text[i]];
      if IsTerminator(text[i]) {
        if IsAbbreviation(lower, current) {
          i := i + 1;
          continue;
        }
        if NextIsBoundary(isUpper, text, i) {
          PushAssociates(sentences, Trimmed(current), SentencesFrom(lower, isUpper, text, AfterCut(text, i), ""));
          var trimmed := Trim(current);
          if trimmed != [] {
            sentences := sentences + [trimmed];
          }
          current := "";
          if i + 1 < len && IsWhitespace(text[i + 1]) {
            i := i + 1;
          }
        }
      }
      i := i + 1;
    }
    var trimmed := Trim(current);
    if trimmed != [] {
      sentences := sentences + [trimmed];
    }
    SentencesKeepText(lower, isUpper, text, 0, "");
    TrimKeepsVisible(text);
    assert text[0..] == text;
    if |sentences| == 0 && Trim(text) != [] {
      assert false;
    }
  }

  lemma {:induction false} PushAssociates(sentences: seq<string>, pushed: seq<string>, rest: seq<string>)
    ensures sentences + (pushed + rest) == (sentences + pushed) + rest
    ensures pushed == [] ==> sentences + (pushed + rest) == sentences + rest
  {
    if pushed == [] {
      assert pushed + rest == rest;
    }
  }

  predicate EndsSentence(s: string) {
    s != [] && IsTerminator(s[|s| - 1])
  }

  lemma {:induction false} TrimStartKeepsLast(s: string)
    requires s != [] && !IsWhitespace(s[|s| - 1])
    ensures TrimStart(s) != [] && TrimStart(s)[|TrimStart(s)| - 1] == s[|s| - 1]
  {
    if IsWhitespace(s[0]) {
      TrimStartKeepsLast(s[1..]);
    }
  }

  lemma {:induction false} ReadingOn(current: string, text: string, i: nat)
    requires i < |text|
    ensures Visible(current + [text[i]]) + Visible(text[i + 1..]) == Visible(current) + Visible(text[i..])
    ensures Visible(text[AfterCut(text, i)..]) == Visible(text[i + 1..])
  {
    VisibleConcat(current, [text[i]]);
  }

  /** Splitting loses and reorders nothing but white space. */
  lemma {:induction false} SentencesKeepText(lower: string -> string, isUpper: char -> bool, text: string, i: nat, current: string)
    requires i <= |text|
    ensures Visible(Flatten(SentencesFrom(lower, isUpper, text, i, current))) == Visible(current) + Visible(text[i..])
    decreases |text| - i
  {
    if i == |text| {
      TrimmedKeepsText(current, []);
      assert Trimmed(current) + [] == Trimmed(current);
    } else {
      var more := current + [text[i]];
      ReadingOn(current, text, i);
      if CutsAt(lower, isUpper, text, i, more) {
        var rest := SentencesFrom(lower, isUpper, text, AfterCut(text, i), "");
        SentencesKeepText(lower, isUpper, text, AfterCut(text, i), "");
        assert SentencesFrom(lower, isUpper, text, i, current) == Trimmed(more) + rest;
        TrimmedKeepsText(more, rest);
      } else {
        SentencesKeepText(lower, isUpper, text, i + 1, more);
      }
    }
  }

  lemma {:induction false} TrimKeepsLast(s: string)
    requires s != [] && !IsWhitespace(s[|s| - 1])
    ensures Trim(s) != [] && Trim(s)[|Trim(s)| - 1] == s[|s| - 1]
  {
    TrimStartKeepsLast(s);
  }

  ghost predicate EndWell(sentences: seq<string>) {
    && (forall k :: 0 <= k < |sentences| ==> Trim(sentences[k]) != [])
    && (forall k :: 0 <= k < |sentences| - 1 ==> EndsSentence(sentences[k]))
  }

  lemma {:induction false} TrimmedIsNotBlank(s: string)
    ensures Trim(s) != [] ==> Trim(Trim(s)) != []
  {
    TrimKeepsVisible(s);
    TrimKeepsVisible(Trim(s));
  }

  lemma {:induction false} EndWellCons(first: string, rest: seq<string>)
    requires Trim(first) != [] && EndsSentence(first) && EndWell(rest)
    ensures EndWell([first] + rest)
  {
    assert forall k :: 1 <= k < |[first] + rest| ==> ([first] + rest)[k] == rest[k - 1];
  }

  /** No sentence is blank, and every one but the last ends with a terminator. */
  lemma {:induction false} SentencesEndWell(lower: string -> string, isUpper: char -> bool, text: string, i: nat, current: string)
    requires i <= |text|
    ensures EndWell(SentencesFrom(lower, isUpper, text, i, current))
    decreases |text| - i
  {
    TrimmedIsNotBlank(current);
    if i < |text| {
      var more := current + [text[i]];
      if CutsAt(lower, isUpper, text, i, more) {
        var rest := SentencesFrom(lower, isUpper, text, AfterCut(text, i), "");
        SentencesEndWell(lower, isUpper, text, AfterCut(text, i), "");
        TrimKeepsLast(more);
        TrimmedIsNotBlank(more);
        EndWellCons(Trim(more), rest);
        assert SentencesFrom(lower, isUpper, text, i, current) == [Trim(more)] + rest;
      } else {
        SentencesEndWell(lower, isUpper, text, i + 1, more);
        assert SentencesFrom(lower, isUpper, text, i, current) == SentencesFrom(lower, isUpper, text, i + 1, more);
      }
    }
  }

  // ---------------------------------------------------- Where sentences end, and only there

  /** `s` ends in one of the abbreviations. */
  ghost predicate EndsInAbbreviation(s: string) {
    exists n, x: string :: 0 <= n < |ABBREVIATIONS| && s == x + ABBREVIATIONS[n]
  }

  /**
   * A sentence that starts at `start` is over at character `i`: a terminator, not after an
   * abbreviation, followed by nothing or by white space and then nothing, an upper-case
   * letter or a quotation mark.
   */
  ghost predicate EndsAt(lower: string -> string, isUpper: char -> bool, text: string, start: nat, i: nat) {
    && start <= i < |text| && text[i] in {'.', '!', '?'} && !EndsInAbbreviation(lower(text[start..i + 1]))
    && (i + 1 < |text| ==> IsWhitespace(text[i + 1]) && (i + 2 < |text| ==> isUpper(text[i + 2]) || text[i + 2] == '"'))
  }

  lemma {:induction false} AbbreviationIsSuffix(lower: string -> string, s: string)
    ensures IsAbbreviation(lower, s) <==> EndsInAbbreviation(lower(s))
  {
    var t := lower(s);
    forall n | 0 <= n < |ABBREVIATIONS| ensures EndsWith(t, ABBREVIATIONS[n]) <==> exists x: string :: t == x + ABBREVIATIONS[n] {
      var a := ABBREVIATIONS[n];
      if EndsWith(t, a) {
        assert t == t[..|t| - |a|] + a;
      }
    }
    if EndsInAbbreviation(t) {
      var n, x: string :| 0 <= n < |ABBREVIATIONS| && t == x + ABBREVIATIONS[n];
      assert EndsWith(t, ABBREVIATIONS[n]);
    }
  }

  lemma {:induction false} CutsWhereItEnds(lower: string -> string, isUpper: char -> bool, text: string, start: nat, i: nat)
    requires start <= i < |text|
    ensures CutsAt(lower, isUpper, text, i, text[start..i] + [text[i]]) <==> EndsAt(lower, isUpper, text, start, i)
  {
    assert text[start..i] + [text[i]] == text[start..i + 1];
    AbbreviationIsSuffix(lower, text[start..i + 1]);
  }

  /** Up to the first place where it is over, a sentence is read on. */
  lemma {:induction false} ReadsOnTo(lower: string -> string, isUpper: char -> bool, text: string, start: nat, i: nat, j: nat)
    requires start <= i <= j <= |text| && forall k :: i <= k < j ==> !EndsAt(lower, isUpper, text, start, k)
    ensures SentencesFrom(lower, isUpper, text, i, text[start..i]) == SentencesFrom(lower, isUpper, text, j, text[start..j])
    decreases j - i
  {
    if i < j {
      CutsWhereItEnds(lower, isUpper, text, start, i);
      assert text[start..i] + [text[i]] == text[start..i + 1];
      ReadsOnTo(lower, isUpper, text, start, i + 1, j);
    }
  }

  /** The sentence that starts at `start` is cut at the first place where it is over, and the next starts after the white space there. */
  lemma {:induction false} NextSentence(lower: string -> string, isUpper: char -> bool, text: string, start: nat, i: nat)
    requires EndsAt(lower, isUpper, text, start, i) && forall k :: start <= k < i ==> !EndsAt(lower, isUpper, text, start, k)
    ensures SentencesFrom(lower, isUpper, text, start, "") ==
            [Trim(text[start..i + 1])] + SentencesFrom(lower, isUpper, text, if i + 1 < |text| then i + 2 else i + 1, "")
  {
    ReadsOnTo(lower, isUpper, text, start, start, i);
    CutsWhereItEnds(lower, isUpper, text, start, i);
    assert text[start..start] == "" && text[start..i] + [text[i]] == text[start..i + 1];
    TrimKeepsLast(text[start..i + 1]);
  }

  /** The text after which no sentence is over is the last one, unless it is blank. */
  lemma {:induction false} LastSentence(lower: string -> string, isUpper: char -> bool, text: string, start: nat)
    requires start <= |text| && forall k :: !EndsAt(lower, isUpper, text, start, k)
    ensures SentencesFrom(lower, isUpper, text, start, "") == if Trim(text[start..]) == [] then [] else [Trim(text[start..])]
  {
    ReadsOnTo(lower, isUpper, text, start, start, |text|);
    assert text[start..start] == "" && text[start..|text|] == text[start..];
  }

  lemma {:induction false} SameAhead(isUpper: char -> bool, before: string, text: string, i: nat)
    requires i < |text|
    ensures var whole, n := before + text, |before|;
            whole[n + i] == text[i] && NextIsBoundary(isUpper, whole, n + i) == NextIsBoundary(isUpper, text, i) && AfterCut(whole, n + i) == n + AfterCut(text, i)
  {
    var whole, n := before + text, |before|;
    assert i + 1 < |text| ==> whole[n + i + 1] == text[i + 1];
    assert i + 2 < |text| ==> whole[n + i + 2] == text[i + 2];
  }

  /** What is read from some place on depends on nothing before it. */
  lemma {:induction false} SentencesOfRest(lower: string -> string, isUpper: char -> bool, before: string, text: string, i: nat, current: string)
    requires i <= |text|
    ensures SentencesFrom(lower, isUpper, before + text, |before| + i, current) == SentencesFrom(lower, isUpper, text, i, current)
    decreases |text| - i
  {
    if i < |text| {
      SameAhead(isUpper, before, text, i);
      var more := current + [text[i]];
      if CutsAt(lower, isUpper, text, i, more) {
        SentencesOfRest(lower, isUpper, before, text, AfterCut(text, i), "");
      } else {
        SentencesOfRest(lower, isUpper, before, text, i + 1, more);
      }
    }
  }

  /** `a` ends in a terminator, and no end of it reads as an abbreviation. */
  ghost predicate IsClosed(lower: string -> string, a: string) {
    && a != [] && a[|a| - 1] in {'.', '!', '?'}
    && forall k :: 0 <= k < |a| ==> !EndsInAbbreviation(lower(a[k..]))
  }

  lemma {:induction false} SentencesUpTo(lower: string -> string, isUpper: char -> bool, a: string, b: string, i: nat, start: nat)
    requires IsClosed(lower, a) && b != [] && (isUpper(b[0]) || b[0] == '"') && start <= i < |a|
    ensures SentencesFrom(lower, isUpper, a + " " + b, i, a[start..i]) ==
            SentencesFrom(lower, isUpper, a, i, a[start..i]) + Sentences(lower, isUpper, b)
    decreases |a| - i
  {
    var whole, n := a + " " + b, |a|;
    var more := a[start..i] + [a[i]];
    assert whole[i] == a[i] && more == a[start..i + 1];
    if i == n - 1 {
      LastCut(lower, isUpper, a, b, start);
    } else {
      assert whole[i + 1] == a[i + 1] && (i + 2 < n ==> whole[i + 2] == a[i + 2]);
      assert i + 2 == n ==> !IsWhitespace(a[i + 1]);
      assert NextIsBoundary(isUpper, whole, i) == NextIsBoundary(isUpper, a, i);
      if CutsAt(lower, isUpper, a, i, more) {
        var next := AfterCut(a, i);
        assert a[next..next] == "";
        SentencesUpTo(lower, isUpper, a, b, next, next);
        PushAssociates(Trimmed(more), SentencesFrom(lower, isUpper, a, next, ""), Sentences(lower, isUpper, b));
      } else {
        SentencesUpTo(lower, isUpper, a, b, i + 1, start);
      }
    }
  }

  lemma {:induction false} LastCut(lower: string -> string, isUpper: char -> bool, a: string, b: string, start: nat)
    requires IsClosed(lower, a) && b != [] && (isUpper(b[0]) || b[0] == '"') && start < |a|
    ensures var i := |a| - 1;
            SentencesFrom(lower, isUpper, a + " " + b, i, a[start..i]) ==
            SentencesFrom(lower, isUpper, a, i, a[start..i]) + Sentences(lower, isUpper, b)
  {
    var i := |a| - 1;
    BothAreCut(lower, isUpper, a, b, start);
    CutAtEnd(lower, isUpper, a, i, a[start..i]);
    CutBefore(lower, isUpper, a + " " + b, i, a[start..i]);
    RestOfBoth(lower, isUpper, a, b);
  }

  lemma {:induction false} BothAreCut(lower: string -> string, isUpper: char -> bool, a: string, b: string, start: nat)
    requires IsClosed(lower, a) && b != [] && (isUpper(b[0]) || b[0] == '"') && start < |a|
    ensures var i, whole := |a| - 1, a + " " + b;
            && whole[i] == a[i] && CutsAt(lower, isUpper, a, i, a[start..i] + [a[i]]) && CutsAt(lower, isUpper, whole, i, a[start..i] + [a[i]])
  {
    var whole, n, i := a + " " + b, |a|, |a| - 1;
    assert a[start..i] + [a[i]] == a[start..];
    AbbreviationIsSuffix(lower, a[start..]);
    assert whole[i] == a[i] && whole[n] == ' ' && whole[n + 1] == b[0];
  }

  lemma {:induction false} RestOfBoth(lower: string -> string, isUpper: char -> bool, a: string, b: string)
    ensures SentencesFrom(lower, isUpper, a + " " + b, |a| + 1, "") == Sentences(lower, isUpper, b)
  {
    assert a + " " + b == (a + " ") + b;
    SentencesOfRest(lower, isUpper, a + " ", b, 0, "");
  }

  /** A cut at the last character leaves nothing to come. */
  lemma {:induction false} CutAtEnd(lower: string -> string, isUpper: char -> bool, a: string, i: nat, current: string)
    requires i + 1 == |a| && CutsAt(lower, isUpper, a, i, current + [a[i]])
    ensures SentencesFrom(lower, isUpper, a, i, current) == Trimmed(current + [a[i]])
  {
    assert SentencesFrom(lower, isUpper, a, |a|, "") == [];
    assert Trimmed(current + [a[i]]) + [] == Trimmed(current + [a[i]]);
  }

  lemma {:induction false} CutBefore(lower: string -> string, isUpper: char -> bool, text: string, i: nat, current: string)
    requires i + 1 < |text| && CutsAt(lower, isUpper, text, i, current + [text[i]])
    ensures SentencesFrom(lower, isUpper, text, i, current) == Trimmed(current + [text[i]]) + SentencesFrom(lower, isUpper, text, i + 2, "")
  {
  }

  /** Between a text that ends a sentence and one that begins another, a space ends the sentence. */
  lemma {:induction false} SentencesOfBoth(lower: string -> string, isUpper: char -> bool, a: string, b: string)
    requires IsClosed(lower, a) && b != [] && (isUpper(b[0]) || b[0] == '"')
    ensures Sentences(lower, isUpper, a + " " + b) == Sentences(lower, isUpper, a) + Sentences(lower, isUpper, b)
  {
    assert a[0..0] == "";
    SentencesUpTo(lower, isUpper, a, b, 0, 0);
  }

  /** Every sentence but the last ends at a place of the text where it is over. */
  lemma {:induction false} SentencesEndThere(lower: string -> string, isUpper: char -> bool, text: string, from: nat, k: nat) returns (start: nat, i: nat)
    requires from <= |text| && k + 1 < |SentencesFrom(lower, isUpper, text, from, "")|
    ensures EndsAt(lower, isUpper, text, start, i) && SentencesFrom(lower, isUpper, text, from, "")[k] == Trim(text[start..i + 1])
    decreases |text| - from
  {
    i := FirstEnd(lower, isUpper, text, from, from);
    if i == |text| {
      LastSentence(lower, isUpper, text, from);
      assert false;
    } else {
      NextSentence(lower, isUpper, text, from, i);
      start := from;
      if k > 0 {
        start, i := SentencesEndThere(lower, isUpper, text, if i + 1 < |text| then i + 2 else i + 1, k - 1);
      }
    }
  }

  /** The first place from `i` on where the sentence is over, or the length of the text. */
  lemma {:induction false} FirstEnd(lower: string -> string, isUpper: char -> bool, text: string, start: nat, i: nat) returns (end: nat)
    requires start <= i <= |text| && forall k :: start <= k < i ==> !EndsAt(lower, isUpper, text, start, k)
    ensures start <= end <= |text| && (end < |text| ==> EndsAt(lower, isUpper, text, start, end))
    ensures forall k :: start <= k < end ==> !EndsAt(lower, isUpper, text, start, k)
    decreases |text| - i
  {
    if i == |text| || EndsAt(lower, isUpper, text, start, i) {
      end := i;
    } else {
      end := FirstEnd(lower, isUpper, text, start, i + 1);
    }
  }

  lemma {:induction false} TrimmedKeepsText(current: string, rest: seq<string>)
    ensures Visible(Flatten(Trimmed(current) + rest)) == Visible(current) + Visible(Flatten(rest))
  {
    TrimKeepsVisible(current);
    if Trim(current) == [] {
      assert Trimmed(current) + rest == rest;
    } else {
      assert (Trimmed(current) + rest)[1..] == rest;
      VisibleConcat(Trim(current), Flatten(rest));
    }
  }

  // ------------------------------------------------------------------ Breakpoints

  function Ceil(x: real): int {
    -((-x).Floor)
  }

  function Min(a: nat, b: nat): nat {
    if a < b then a else b
  }

  /** The index of the percentile; a negative one saturates at zero. */
  function PercentileIndex(n: nat, percentile: real): nat {
    var c := Ceil(n as real * percentile);
    if c < 0 then 0 else c
  }

  /** The index is the least that is no less than n times the percentile. */
  lemma {:induction false} PercentileIndexExactly(n: nat, percentile: real, m: nat)
    ensures PercentileIndex(n, percentile) <= m <==> n as real * percentile <= m as real
  {
  }

  predicate Near(a: nat, b: nat) {
    (if a < b then b - a else a - b) < SENTENCE_GROUP_SIZE
  }

  predicate StrictlyIncreasing(s: seq<nat>) {
    forall i, j :: 0 <= i < j < |s| ==> s[i] < s[j]
  }

  function ForcedInterval(maxSentences: nat): nat {
    if maxSentences < SENTENCE_GROUP_SIZE then 0 else maxSentences - SENTENCE_GROUP_SIZE
  }

  /** Every multiple of the interval below `n` has a breakpoint within distance two. */
  ghost predicate Covers(breakpoints: seq<nat>, interval: nat, n: nat) {
    forall k: nat :: k > 0 && k * interval < n ==> exists b :: b in breakpoints && Near(b, k * interval)
  }

  predicate RealLe(a: real, b: real) {
    a <= b
  }

  /** `t` is at place `i` when `xs` is sorted ascending. */
  ghost predicate IsOrderStatistic(xs: seq<real>, i: nat, t: real) {
    exists s :: SortedBy(s, RealLe) && multiset(s) == multiset(xs) && i < |s| && s[i] == t
  }

  /** The positions whose similarity does not exceed the threshold. */
  function AtMost(similarities: seq<real>, threshold: real): seq<nat> {
    if similarities == [] then []
    else
      var n := |similarities| - 1;
      AtMost(similarities[..n], threshold) + (if similarities[n] <= threshold then [n] else [])
  }

  /** A forced breakpoint is added unless one is near already. */
  function Force(points: seq<nat>, forced: nat): seq<nat> {
    if exists b :: b in points && Near(b, forced) then points else points + [forced]
  }

  /** From `forced` on, a breakpoint at every step of the interval that has none nearby yet. */
  function WithForced(points: seq<nat>, interval: nat, n: nat, forced: nat): seq<nat>
    requires interval > 0
    decreases n - forced
  {
    if forced >= n then points
    else WithForced(Force(points, forced), interval, n, forced + interval)
  }

  function CandidatePoints(similarities: seq<real>, threshold: real, maxSentences: nat): seq<nat> {
    var interval := ForcedInterval(maxSentences);
    var semantic := AtMost(similarities, threshold);
    if interval > 0 then WithForced(semantic, interval, |similarities|, interval) else semantic
  }

  /** The semantic and the forced breakpoints, ascending, each once. */
  ghost predicate AreBreakpoints(similarities: seq<real>, percentile: real, maxSentences: nat, breakpoints: seq<nat>) {
    && StrictlyIncreasing(breakpoints)
    && if similarities == [] then breakpoints == []
       else exists t ::
         && IsOrderStatistic(similarities, Min(PercentileIndex(|similarities|, percentile), |similarities| - 1), t)
         && forall b :: b in breakpoints <==> b in CandidatePoints(similarities, t, maxSentences)
  }

  /** The similarity at the percentile, once sorted. */
  method Threshold(similarities: seq<real>, percentile: real) returns (threshold: real)
    requires similarities != []
    ensures IsOrderStatistic(similarities, Min(PercentileIndex(|similarities|, percentile), |similarities| - 1), threshold)
  {
    var n := |similarities|;
    var sorted := Sort(multiset(similarities), RealLe);
    SameBagSameMembers(sorted, similarities);
    threshold := sorted[Min(PercentileIndex(n, percentile), n - 1)];
  }

  method AddForced(points: seq<nat>, interval: nat, n: nat) returns (more: seq<nat>)
    requires interval > 0
    ensures more == WithForced(points, interval, n, interval)
  {
    more := points;
    var forced := interval;
    while forced < n
      invariant WithForced(more, interval, n, forced) == WithForced(points, interval, n, interval)
      decreases n - forced
    {
      if !exists b :: b in more && Near(b, forced) {
        more := more + [forced];
      }
      forced := forced + interval;
    }
  }

  method FindBreakpoints(similarities: seq<real>, percentile: real, maxSentences: nat) returns (breakpoints: seq<nat>)
    ensures AreBreakpoints(similarities, percentile, maxSentences, breakpoints)
  {
    if similarities == [] {
      return [];
    }
    var threshold := Threshold(similarities, percentile);
    var points: seq<nat> := [];
    for i := 0 to |similarities|
      invariant points == AtMost(similarities[..i], threshold)
    {
      assert similarities[..i + 1][..i] == similarities[..i];
      if similarities[i] <= threshold {
        points := points + [i];
      }
    }
    assert similarities[..|similarities|] == similarities;
    if ForcedInterval(maxSentences) > 0 {
      points := AddForced(points, ForcedInterval(maxSentences), |similarities|);
    }
    breakpoints := Deduplicated(points);
    assert points == CandidatePoints(similarities, threshold, maxSentences);
    assert forall b :: b in breakpoints <==> b in CandidatePoints(similarities, threshold, maxSentences);
  }

  /** `sort_unstable` followed by `dedup`. */
  method Deduplicated(points: seq<nat>) returns (r: seq<nat>)
    ensures StrictlyIncreasing(r) && forall b :: b in r <==> b in points
  {
    var bag := set b | b in points;
    r := Ascending(bag, (a: nat, b: nat) => a <= b);
  }

  lemma {:induction false} AtMostMembers(similarities: seq<real>, threshold: real)
    ensures forall b: nat :: b in AtMost(similarities, threshold) <==> b < |similarities| && similarities[b] <= threshold
  {
    if similarities != [] {
      AtMostMembers(similarities[..|similarities| - 1], threshold);
    }
  }

  predicate IsMultiple(b: nat, interval: nat) {
    exists k: nat :: k <= b && k * interval == b
  }

  predicate FarFromAll(b: nat, semantic: seq<nat>) {
    forall s :: s in semantic ==> !Near(s, b)
  }

  lemma {:induction false} MultiplesGrow(i: nat, j: nat, interval: nat)
    ensures i <= j ==> i * interval <= j * interval
  {
  }

  lemma {:induction false} CoversNext(before: seq<nat>, after: seq<nat>, interval: nat, k: nat)
    requires k > 0 && interval > 0 && Covers(before, interval, k * interval)
    requires forall b :: b in before ==> b in after
    requires exists b :: b in after && Near(b, k * interval)
    ensures Covers(after, interval, (k + 1) * interval)
  {
    forall j: nat | j > 0 && j * interval < (k + 1) * interval
      ensures exists b :: b in after && Near(b, j * interval)
    {
      if j < k {
        MultiplesGrow(j + 1, k, interval);
        assert (j + 1) * interval == j * interval + interval;
        var b :| b in before && Near(b, j * interval);
      } else {
        MultiplesGrow(k + 1, j, interval);
      }
    }
  }

  /**
   * Forcing keeps the points there are, covers every multiple of the interval, and adds
   * only multiples that no earlier point is near to.
   */
  lemma {:induction false} WithForcedCovers(points: seq<nat>, interval: nat, n: nat, k: nat)
    requires interval > 0 && k > 0 && Covers(points, interval, k * interval) && forall b :: b in points ==> b < n
    ensures var r := WithForced(points, interval, n, k * interval);
            && (forall b :: b in points ==> b in r) && (forall b :: b in r ==> b < n)
            && (forall b :: b in r && b !in points ==> IsMultiple(b, interval) && FarFromAll(b, points))
            && Covers(r, interval, n)
    decreases n - k * interval
  {
    if k * interval < n {
      ForceCovers(points, interval, k);
      WithForcedCovers(Force(points, k * interval), interval, n, k + 1);
    }
  }

  lemma {:induction false} ForceCovers(points: seq<nat>, interval: nat, k: nat)
    requires interval > 0 && k > 0 && Covers(points, interval, k * interval)
    ensures var more := Force(points, k * interval);
            && (forall b :: b in points ==> b in more)
            && (forall b :: b in more && b !in points ==> b == k * interval && IsMultiple(b, interval) && FarFromAll(b, points))
            && Covers(more, interval, (k + 1) * interval) && (k + 1) * interval == k * interval + interval
  {
    var forced := k * interval;
    MultiplesGrow(1, interval, k);
    assert IsMultiple(forced, interval);
    assert forced in points + [forced] && Near(forced, forced);
    CoversNext(points, Force(points, forced), interval, k);
  }

  lemma {:induction false} SomethingIsAtMost(similarities: seq<real>, place: nat, t: real)
    requires IsOrderStatistic(similarities, place, t)
    ensures AtMost(similarities, t) != []
  {
    var sorted :| SortedBy(sorted, RealLe) && multiset(sorted) == multiset(similarities) && place < |sorted| && sorted[place] == t;
    SameBagSameMembers(sorted, similarities);
    assert t in similarities;
    var i: nat :| i < |similarities| && similarities[i] == t;
    AtMostMembers(similarities, t);
    assert i in AtMost(similarities, t);
  }

  lemma {:induction false} CandidatesCover(similarities: seq<real>, threshold: real, maxSentences: nat)
    ensures var r := CandidatePoints(similarities, threshold, maxSentences);
            && (forall b :: b in AtMost(similarities, threshold) ==> b in r)
            && (forall b :: b in r ==> b < |similarities|)
            && (ForcedInterval(maxSentences) > 0 ==> Covers(r, ForcedInterval(maxSentences), |similarities|))
  {
    AtMostMembers(similarities, threshold);
    var interval := ForcedInterval(maxSentences);
    if interval > 0 {
      WithForcedCovers(AtMost(similarities, threshold), interval, |similarities|, 1);
    }
  }

  /** What the breakpoints are good for: there is one, all are in range, and the forced intervals are covered. */
  lemma {:induction false} BreakpointsCover(similarities: seq<real>, percentile: real, maxSentences: nat, breakpoints: seq<nat>)
    requires similarities != [] && AreBreakpoints(similarities, percentile, maxSentences, breakpoints)
    ensures breakpoints != [] && forall b :: b in breakpoints ==> b < |similarities|
    ensures ForcedInterval(maxSentences) > 0 ==> Covers(breakpoints, ForcedInterval(maxSentences), |similarities|)
  {
    var place := Min(PercentileIndex(|similarities|, percentile), |similarities| - 1);
    var t :| IsOrderStatistic(similarities, place, t) && forall b :: b in breakpoints <==> b in CandidatePoints(similarities, t, maxSentences);
    SomethingIsAtMost(similarities, place, t);
    CandidatesCover(similarities, t, maxSentences);
    assert AtMost(similarities, t)[0] in breakpoints;
  }

  // --------------------------------------------------------------------- Spacing

  /** Between any two far-apart positions lies a positive multiple of the interval. */
  lemma {:induction false} MultipleBetween(low: nat, interval: nat) returns (k: nat)
    requires interval > 0 && low > 0
    ensures k > 0 && low <= k * interval < low + interval
  {
    k := (low + interval - 1) / interval;
    assert k * interval <= low + interval - 1 < (k + 1) * interval;
    assert (k + 1) * interval == k * interval + interval;
  }

  /**
   * Covered intervals bound every stretch: for n = len + 3 sentences, neighbouring
   * breakpoints are at most one more than the maximum apart, the first group has at most
   * one sentence more, and what follows the last breakpoint has at most the maximum.
   */
  lemma {:induction false} BreakpointSpacing(breakpoints: seq<nat>, len: nat, maxSentences: nat)
    requires maxSentences >= 4 && StrictlyIncreasing(breakpoints) && breakpoints != []
    requires forall b :: b in breakpoints ==> b < len
    requires Covers(breakpoints, ForcedInterval(maxSentences), len)
    ensures forall i :: 0 <= i < |breakpoints| - 1 ==> breakpoints[i + 1] - breakpoints[i] <= maxSentences + 1
    ensures breakpoints[0] + 2 <= maxSentences + 1
    ensures (len + 3) - (breakpoints[|breakpoints| - 1] + 2) <= maxSentences
  {
    var interval, last := ForcedInterval(maxSentences), |breakpoints| - 1;
    forall i | 0 <= i < last ensures breakpoints[i + 1] - breakpoints[i] <= maxSentences + 1 {
      assert breakpoints[i + 1] in breakpoints;
      GapIsCovered(breakpoints, interval, len, i);
    }
    HeadIsCovered(breakpoints, len, maxSentences);
    TailIsCovered(breakpoints, len, maxSentences);
  }

  lemma {:induction false} HeadIsCovered(breakpoints: seq<nat>, len: nat, maxSentences: nat)
    requires maxSentences >= 4 && StrictlyIncreasing(breakpoints) && breakpoints != []
    requires forall b :: b in breakpoints ==> b < len
    requires Covers(breakpoints, ForcedInterval(maxSentences), len)
    ensures breakpoints[0] + 2 <= maxSentences + 1
  {
    var interval := ForcedInterval(maxSentences);
    assert breakpoints[0] in breakpoints;
    if 1 * interval < len {
      var b :| b in breakpoints && Near(b, 1 * interval);
    }
  }

  lemma {:induction false} TailIsCovered(breakpoints: seq<nat>, len: nat, maxSentences: nat)
    requires maxSentences >= 4 && StrictlyIncreasing(breakpoints) && breakpoints != []
    requires forall b :: b in breakpoints ==> b < len
    requires Covers(breakpoints, ForcedInterval(maxSentences), len)
    ensures (len + 3) - (breakpoints[|breakpoints| - 1] + 2) <= maxSentences
  {
    var interval := ForcedInterval(maxSentences);
    if len > interval {
      var k := MultipleBetween(len - interval, interval);
      var b :| b in breakpoints && Near(b, k * interval);
    }
  }

  lemma {:induction false} HeadIsMember(s: seq<nat>)
    requires s != []
    ensures s[0] in s
  {
  }

  lemma {:induction false} IncreasingIsUnique(a: seq<nat>, b: seq<nat>)
    requires StrictlyIncreasing(a) && StrictlyIncreasing(b) && forall x :: x in a <==> x in b
    ensures a == b
    decreases |a|
  {
    if a == [] {
      if b != [] {
        HeadIsMember(b);
        assert false;
      }
    } else {
      var m, n := |a| - 1, |b| - 1;
      assert a[m] in b && b != [];
      assert b[n] in a;
      assert a[m] == b[n];
      forall x ensures x in a[..m] <==> x in b[..n] {
        assert x in a[..m] <==> x in a && x != a[m];
        assert x in b[..n] <==> x in b && x != b[n];
      }
      IncreasingIsUnique(a[..m], b[..n]);
    }
  }

  /**
   * For n sentences and the n - 3 similarities of their windows, with a maximum of at
   * least 4: the stretches between breaks exceed the maximum by one sentence at most, and
   * the last one does not exceed it.
   */
  lemma {:induction false} StretchesAlmostFit(similarities: seq<real>, percentile: real, maxSentences: nat, breakpoints: seq<nat>, breaks: seq<nat>)
    requires maxSentences >= 4 && similarities != [] && AreBreakpoints(similarities, percentile, maxSentences, breakpoints)
    requires AreBreaks(breaks, breakpoints, |similarities| + 3)
    ensures breaks != [] && breaks[0] <= maxSentences + 1
    ensures forall i :: 0 <= i < |breaks| - 1 ==> breaks[i + 1] - breaks[i] <= maxSentences + 1
    ensures (|similarities| + 3) - breaks[|breaks| - 1] <= maxSentences
  {
    BreakpointsCover(similarities, percentile, maxSentences, breakpoints);
    BreakpointSpacing(breakpoints, |similarities|, maxSentences);
    BreaksAreShifted(breaks, breakpoints, |similarities| + 3);
  }

  lemma {:induction false} BreaksAreShifted(breaks: seq<nat>, breakpoints: seq<nat>, n: nat)
    requires StrictlyIncreasing(breakpoints) && AreBreaks(breaks, breakpoints, n) && forall b :: b in breakpoints ==> b + 2 <= n
    ensures |breaks| == |breakpoints| && forall i :: 0 <= i < |breaks| ==> breaks[i] == breakpoints[i] + 2
  {
    var shifted: seq<nat> := seq(|breakpoints|, i requires 0 <= i < |breakpoints| => breakpoints[i] + 2);
    forall b ensures b in breaks <==> b in shifted {
      if b in breaks {
        var p :| p in breakpoints && b == BreakSentence(p, n);
        var i :| 0 <= i < |breakpoints| && breakpoints[i] == p;
        assert shifted[i] == b;
      }
      if b in shifted {
        var i :| 0 <= i < |shifted| && shifted[i] == b;
        assert breakpoints[i] in breakpoints && b == BreakSentence(breakpoints[i], n);
      }
    }
    IncreasingIsUnique(breaks, shifted);
  }

  lemma {:induction false} GapIsCovered(breakpoints: seq<nat>, interval: nat, len: nat, i: nat)
    requires interval > 0 && StrictlyIncreasing(breakpoints) && i + 1 < |breakpoints| && breakpoints[i + 1] < len
    requires Covers(breakpoints, interval, len)
    ensures breakpoints[i + 1] - breakpoints[i] <= interval + 4
  {
    var k := MultipleBetween(breakpoints[i] + 3, interval);
    if k * interval < len {
      var b :| b in breakpoints && Near(b, k * interval);
      var j :| 0 <= j < |breakpoints| && breakpoints[j] == b;
      assert b > breakpoints[i];
      assert j > i;
    }
  }

  // --------------------------------------------------------------------- Grouping

  /** A stretch of sentences, `maxSentences` at a time. */
  function Bounded(sentences: seq<string>, maxSentences: nat): seq<seq<string>>
    requires maxSentences >= 1
  {
    if sentences == [] then []
    else if |sentences| <= maxSentences then [sentences]
    else [sentences[..maxSentences]] + Bounded(sentences[maxSentences..], maxSentences)
  }

  /** The stretches between `start`, the breaks that lie beyond it, and the end, each bounded. */
  function GroupsAt(sentences: seq<string>, breaks: seq<nat>, start: nat, maxSentences: nat): seq<seq<string>>
    requires maxSentences >= 1 && start <= |sentences|
    decreases |breaks|
  {
    if breaks == [] then Bounded(sentences[start..], maxSentences)
    else if start < breaks[0] <= |sentences| then
      Bounded(sentences[start..breaks[0]], maxSentences) + GroupsAt(sentences, breaks[1..], breaks[0], maxSentences)
    else GroupsAt(sentences, breaks[1..], start, maxSentences)
  }

  /** Consecutive non-empty groups of at most `maxSentences` sentences that make up `sentences`. */
  predicate AreGroupsOf(groups: seq<seq<string>>, sentences: seq<string>, maxSentences: nat) {
    Flatten(groups) == sentences && forall g :: 0 <= g < |groups| ==> 0 < |groups[g]| <= maxSentences
  }

  lemma {:induction false} BoundedGroups(sentences: seq<string>, maxSentences: nat)
    requires maxSentences >= 1
    ensures AreGroupsOf(Bounded(sentences, maxSentences), sentences, maxSentences)
    decreases |sentences|
  {
    if |sentences| > maxSentences {
      BoundedGroups(sentences[maxSentences..], maxSentences);
      assert sentences == sentences[..maxSentences] + sentences[maxSentences..];
    } else if sentences != [] {
      assert [sentences][1..] == [] && sentences + [] == sentences;
    }
  }

  /** Whatever the breaks, the groups are the sentences in order, none too large and none empty. */
  lemma {:induction false} GroupsKeepSentences(sentences: seq<string>, breaks: seq<nat>, start: nat, maxSentences: nat)
    requires maxSentences >= 1 && start <= |sentences|
    ensures AreGroupsOf(GroupsAt(sentences, breaks, start, maxSentences), sentences[start..], maxSentences)
    decreases |breaks|
  {
    if breaks == [] {
      BoundedGroups(sentences[start..], maxSentences);
    } else if start < breaks[0] <= |sentences| {
      BoundedGroups(sentences[start..breaks[0]], maxSentences);
      GroupsKeepSentences(sentences, breaks[1..], breaks[0], maxSentences);
      FlattenConcat(Bounded(sentences[start..breaks[0]], maxSentences), GroupsAt(sentences, breaks[1..], breaks[0], maxSentences));
      assert sentences[start..] == sentences[start..breaks[0]] + sentences[breaks[0]..];
    } else {
      GroupsKeepSentences(sentences, breaks[1..], start, maxSentences);
    }
  }

  /** There is a boundary between groups at every break. */
  lemma {:induction false} GroupsBreakAt(sentences: seq<string>, breaks: seq<nat>, start: nat, maxSentences: nat, b: nat) returns (g: nat)
    requires maxSentences >= 1 && StrictlyIncreasing(breaks) && b in breaks && start < b <= |sentences|
    ensures var groups := GroupsAt(sentences, breaks, start, maxSentences); g <= |groups| && Flatten(groups[..g]) == sentences[start..b]
    decreases |breaks|
  {
    if start < breaks[0] <= |sentences| {
      var first, rest := Bounded(sentences[start..breaks[0]], maxSentences), GroupsAt(sentences, breaks[1..], breaks[0], maxSentences);
      BoundedGroups(sentences[start..breaks[0]], maxSentences);
      if b == breaks[0] {
        g := |first|;
        assert (first + rest)[..g] == first;
      } else {
        var g' := GroupsBreakAt(sentences, breaks[1..], breaks[0], maxSentences, b);
        g := |first| + g';
        assert (first + rest)[..g] == first + rest[..g'];
        FlattenConcat(first, rest[..g']);
        assert sentences[start..b] == sentences[start..breaks[0]] + sentences[breaks[0]..b];
      }
    } else {
      g := GroupsBreakAt(sentences, breaks[1..], start, maxSentences, b);
    }
  }

  lemma {:induction false} BoundedAreFull(sentences: seq<string>, maxSentences: nat, g: nat)
    requires maxSentences >= 1 && g < |Bounded(sentences, maxSentences)|
    ensures |Bounded(sentences, maxSentences)[g]| == maxSentences || g == |Bounded(sentences, maxSentences)| - 1
    decreases |sentences|
  {
    if |sentences| > maxSentences && g > 0 {
      BoundedAreFull(sentences[maxSentences..], maxSentences, g - 1);
    }
  }

  /** A group that is not full ends at a break, or at the end. */
  lemma {:induction false} GroupsEndAtBreaks(sentences: seq<string>, breaks: seq<nat>, start: nat, maxSentences: nat, g: nat)
    requires maxSentences >= 1 && start <= |sentences| && g < |GroupsAt(sentences, breaks, start, maxSentences)|
    ensures var groups := GroupsAt(sentences, breaks, start, maxSentences);
            var end := start + |Flatten(groups[..g + 1])|;
            |groups[g]| == maxSentences || end == |sentences| || end in breaks
    decreases |breaks|
  {
    var groups := GroupsAt(sentences, breaks, start, maxSentences);
    if breaks == [] {
      StretchEnds(sentences[start..], maxSentences, g);
    } else if start < breaks[0] <= |sentences| {
      var stretch := sentences[start..breaks[0]];
      var first, rest := Bounded(stretch, maxSentences), GroupsAt(sentences, breaks[1..], breaks[0], maxSentences);
      if g < |first| {
        StretchEnds(stretch, maxSentences, g);
        assert groups[..g + 1] == first[..g + 1];
      } else {
        var h := g - |first|;
        GroupsEndAtBreaks(sentences, breaks[1..], breaks[0], maxSentences, h);
        BoundedGroups(stretch, maxSentences);
        assert groups[..g + 1] == first + rest[..h + 1];
        FlattenConcat(first, rest[..h + 1]);
      }
    } else {
      GroupsEndAtBreaks(sentences, breaks[1..], start, maxSentences, g);
    }
  }

  lemma {:induction false} StretchEnds(stretch: seq<string>, maxSentences: nat, g: nat)
    requires maxSentences >= 1 && g < |Bounded(stretch, maxSentences)|
    ensures var groups := Bounded(stretch, maxSentences); |groups[g]| == maxSentences || |Flatten(groups[..g + 1])| == |stretch|
  {
    BoundedAreFull(stretch, maxSentences, g);
    BoundedGroups(stretch, maxSentences);
    var groups := Bounded(stretch, maxSentences);
    assert groups[..|groups|] == groups;
  }

  /** Takes `maxSentences` at a time. A maximum of zero would never advance. */
  method PushBounded(groups: seq<seq<string>>, sentences: seq<string>, maxSentences: nat) returns (pushed: seq<seq<string>>)
    requires maxSentences >= 1
    ensures pushed == groups + Bounded(sentences, maxSentences)
  {
    pushed := groups;
    var pos: nat := 0;
    assert sentences[0..] == sentences;
    while pos < |sentences|
      invariant pos <= |sentences|
      invariant pushed + Bounded(sentences[pos..], maxSentences) == groups + Bounded(sentences, maxSentences)
    {
      var end := Min(pos + maxSentences, |sentences|);
      var rest := sentences[pos..];
      assert sentences[pos..end] == rest[..end - pos] && sentences[end..] == rest[end - pos..];
      assert end == |sentences| ==> sentences[pos..end] == rest && [rest] + [] == [rest];
      assert Bounded(rest, maxSentences) == [sentences[pos..end]] + Bounded(sentences[end..], maxSentences);
      assert pushed + Bounded(rest, maxSentences) == (pushed + [sentences[pos..end]]) + Bounded(sentences[end..], maxSentences);
      pushed := pushed + [sentences[pos..end]];
      pos := end;
    }
    assert pushed + [] == pushed;
  }

  /** An empty list comes back as one empty group. */
  method SplitIntoMaxSentences(sentences: seq<string>, maxSentences: nat) returns (groups: seq<seq<string>>)
    requires maxSentences >= 1
    ensures groups == if sentences == [] then [[]] else Bounded(sentences, maxSentences)
  {
    if |sentences| <= maxSentences {
      return [sentences];
    }
    groups := PushBounded([], sentences, maxSentences);
  }

  /** Sentences follow a breakpoint's window from two further on. */
  function BreakSentence(breakpoint: nat, n: nat): (b: nat)
    ensures b <= n && b <= breakpoint + 2 && (b == n || b == breakpoint + 2)
  {
    Min(breakpoint + SENTENCE_GROUP_SIZE / 2 + 1, n)
  }

  ghost predicate AreBreaks(breaks: seq<nat>, breakpoints: seq<nat>, n: nat) {
    StrictlyIncreasing(breaks) && forall b :: b in breaks <==> exists p :: p in breakpoints && b == BreakSentence(p, n)
  }

  method GroupSentencesAtBreaks(sentences: seq<string>, breakpoints: seq<nat>, windowCount: nat, maxSentences: nat)
    returns (groups: seq<seq<string>>, ghost breaks: seq<nat>)
    requires maxSentences >= 1
    ensures if windowCount == 0 then breaks == [] else AreBreaks(breaks, breakpoints, |sentences|)
    ensures groups == if sentences == [] && (breakpoints == [] || windowCount == 0) then [[]] else GroupsAt(sentences, breaks, 0, maxSentences)
    ensures sentences != [] ==> AreGroupsOf(groups, sentences, maxSentences)
  {
    if breakpoints == [] || windowCount == 0 {
      assert sentences[0..] == sentences;
      breaks := [];
      groups := SplitIntoMaxSentences(sentences, maxSentences);
      BoundedGroups(sentences, maxSentences);
      return;
    }
    var indices := BreakIndices(breakpoints, |sentences|);
    breaks := indices;
    groups := GroupsBetween(sentences, indices, maxSentences);
    GroupsKeepSentences(sentences, indices, 0, maxSentences);
    assert sentences[0..] == sentences;
  }

  /** The groups between the breaks, and from the last of them to the end. */
  method GroupsBetween(sentences: seq<string>, indices: seq<nat>, maxSentences: nat) returns (groups: seq<seq<string>>)
    requires maxSentences >= 1
    ensures groups == GroupsAt(sentences, indices, 0, maxSentences)
  {
    groups := [];
    var start: nat := 0;
    assert indices[0..] == indices && [] + GroupsAt(sentences, indices, 0, maxSentences) == GroupsAt(sentences, indices, 0, maxSentences);
    for i := 0 to |indices|
      invariant start <= |sentences|
      invariant groups + GroupsAt(sentences, indices[i..], start, maxSentences) == GroupsAt(sentences, indices, 0, maxSentences)
    {
      var brk := indices[i];
      assert indices[i..][0] == brk && indices[i..][1..] == indices[i + 1..];
      if brk > start && brk <= |sentences| {
        var stretch := sentences[start..brk];
        ghost var rest := GroupsAt(sentences, indices[i + 1..], brk, maxSentences);
        assert groups + (Bounded(stretch, maxSentences) + rest) == (groups + Bounded(stretch, maxSentences)) + rest;
        if brk - start > maxSentences {
          groups := PushBounded(groups, stretch, maxSentences);
        } else {
          groups := groups + [stretch];
        }
        start := brk;
      }
    }
    assert indices[|indices|..] == [];
    if start < |sentences| {
      var remaining := SplitIntoMaxSentences(sentences[start..], maxSentences);
      groups := groups + remaining;
    } else {
      assert sentences[start..] == [] && groups + [] == groups;
    }
  }

  method BreakIndices(breakpoints: seq<nat>, n: nat) returns (indices: seq<nat>)
    ensures AreBreaks(indices, breakpoints, n)
  {
    var mapped := seq(|breakpoints|, i requires 0 <= i < |breakpoints| => BreakSentence(breakpoints[i], n));
    indices := Deduplicated(mapped);
    forall b ensures b in mapped <==> exists p :: p in breakpoints && b == BreakSentence(p, n) {
      if b in mapped {
        var i :| 0 <= i < |mapped| && mapped[i] == b;
        assert breakpoints[i] in breakpoints;
      }
      if p :| p in breakpoints && b == BreakSentence(p, n) {
        var i :| 0 <= i < |breakpoints| && breakpoints[i] == p;
        assert mapped[i] == b;
      }
    }
  }

  // ---------------------------------------------------------- Overlapping windows

  function Windows(text: string, window: nat, step: nat, pos: nat): seq<string>
    requires step >= 1
    decreases |text| - pos
  {
    if pos >= |text| then []
    else
      var end := Min(pos + window, |text|);
      [text[pos..end]] + (if end == |text| then [] else Windows(text, window, step, pos + step))
  }

  function Step(window: nat, overlap: nat): (step: nat)
    ensures step >= 1
  {
    if window > overlap then window - overlap else 1
  }

  /** The windows that are not blank. */
  function DropBlank(windows: seq<string>): seq<string> {
    if windows == [] then [] else DropBlank(windows[..|windows| - 1]) + Unblank(windows[|windows| - 1])
  }

  function Unblank(window: string): seq<string> {
    if Trim(window) == [] then [] else [window]
  }

  lemma {:induction false} DropBlankSnoc(windows: seq<string>, window: string)
    ensures DropBlank(windows + [window]) == DropBlank(windows) + Unblank(window)
  {
    assert (windows + [window])[..|windows|] == windows;
  }

  lemma {:induction false} DropBlankCons(window: string, windows: seq<string>)
    ensures DropBlank([window] + windows) == Unblank(window) + DropBlank(windows)
  {
    if windows == [] {
      DropBlankSnoc([], window);
      assert [] + [window] == [window] + windows;
    } else {
      var n := |windows| - 1;
      assert windows == windows[..n] + [windows[n]];
      DropBlankCons(window, windows[..n]);
      DropBlankConsSnoc(window, windows[..n], windows[n]);
    }
  }

  lemma {:induction false} DropBlankConsSnoc(window: string, rest: seq<string>, last: string)
    requires DropBlank([window] + rest) == Unblank(window) + DropBlank(rest)
    ensures DropBlank([window] + (rest + [last])) == Unblank(window) + DropBlank(rest + [last])
  {
    DropBlankSnoc([window] + rest, last);
    DropBlankSnoc(rest, last);
    PushAssociates([window], rest, [last]);
    PushAssociates(Unblank(window), DropBlank(rest), Unblank(last));
  }

  /** The windows from `pos` on that are not blank. */
  function WindowsKept(text: string, window: nat, step: nat, pos: nat): seq<string>
    requires step >= 1
  {
    DropBlank(Windows(text, window, step, pos))
  }

  /** What the loop does with one window. */
  function Pushed(result: seq<string>, chunk: string): seq<string> {
    if Trim(chunk) == [] then result else result + [chunk]
  }

  /** The windows from `pos` on are what is missing. */
  predicate Remains(text: string, window: nat, step: nat, pos: nat, result: seq<string>, whole: seq<string>)
    requires step >= 1
  {
    result + WindowsKept(text, window, step, pos) == whole
  }

  lemma {:induction false} NothingRemains(text: string, window: nat, step: nat, pos: nat, result: seq<string>, whole: seq<string>)
    requires step >= 1 && pos >= |text| && Remains(text, window, step, pos, result, whole)
    ensures result == whole
  {
  }

  lemma {:induction false} NextWindow(text: string, window: nat, step: nat, pos: nat, result: seq<string>, whole: seq<string>)
    requires step >= 1 && pos < |text| && Remains(text, window, step, pos, result, whole)
    ensures var end := Min(pos + window, |text|);
            if end == |text| then Pushed(result, text[pos..end]) == whole
            else Remains(text, window, step, pos + step, Pushed(result, text[pos..end]), whole)
  {
    var end := Min(pos + window, |text|);
    var rest := if end == |text| then [] else Windows(text, window, step, pos + step);
    assert Windows(text, window, step, pos) == [text[pos..end]] + rest;
    DropBlankCons(text[pos..end], rest);
    PushAssociates(result, Unblank(text[pos..end]), DropBlank(rest));
  }

  method SplitWithOverlap(text: string, window: nat, overlap: nat) returns (result: seq<string>)
    ensures result == WindowsKept(text, window, Step(window, overlap), 0)
  {
    var step := Step(window, overlap);
    result := [];
    var pos: nat := 0;
    ghost var whole := WindowsKept(text, window, step, 0);
    while pos < |text|
      invariant Remains(text, window, step, pos, result, whole)
      decreases |text| - pos
    {
      var end := Min(pos + window, |text|);
      var chunk := text[pos..end];
      NextWindow(text, window, step, pos, result, whole);
      if Trim(chunk) != [] {
        result := result + [chunk];
      }
      if end == |text| {
        return;
      }
      pos := pos + step;
    }
    NothingRemains(text, window, step, pos, result, whole);
  }

  /** A full window, whose last `window - step` characters open the next one. */
  predicate Meets(a: string, b: string, window: nat, step: nat)
    requires step <= window
  {
    |a| == window && |b| > window - step && a[step..] == b[..window - step]
  }

  predicate AllMeet(windows: seq<string>, window: nat, step: nat)
    requires step <= window
  {
    |windows| <= 1 || (Meets(windows[0], windows[1], window, step) && AllMeet(windows[1..], window, step))
  }

  /** The windows without the characters that each shares with its predecessor. */
  function Unshared(windows: seq<string>, shared: nat): string {
    if windows == [] then []
    else (if |windows[0]| >= shared then windows[0][shared..] else []) + Unshared(windows[1..], shared)
  }

  /** q is x / d rounded up. */
  predicate IsCeiling(q: int, x: int, d: int) {
    (q - 1) * d < x <= q * d
  }

  lemma {:induction false} WindowsMeet(text: string, window: nat, step: nat, pos: nat, next: string, tail: string)
    requires 1 <= step <= window && pos + window < |text|
    requires next == text[pos + step..Min(pos + step + window, |text|)] && next + tail == text[pos + step..]
    ensures Meets(text[pos..pos + window], next, window, step)
    ensures text[pos..pos + window] + (next[window - step..] + tail) == text[pos..]
  {
    OverlapIsShared(text, window, step, pos, next);
    var tailed := next + tail;
    assert tailed[window - step..] == next[window - step..] + tail;
    assert text[pos..] == text[pos..pos + window] + text[pos + window..];
  }

  lemma {:induction false} OverlapIsShared(text: string, window: nat, step: nat, pos: nat, next: string)
    requires 1 <= step <= window && pos + window < |text|
    requires next == text[pos + step..Min(pos + step + window, |text|)]
    ensures Meets(text[pos..pos + window], next, window, step)
  {
    var a, shared := text[pos..pos + window], window - step;
    assert |next| > shared;
    forall i | 0 <= i < shared ensures a[step..][i] == next[..shared][i] {
    }
    assert a[step..] == next[..shared];
  }

  /**
   * The windows from `pos` on: none is longer than `window`, each meets the next, and
   * dropping what is shared gives the text back.
   */
  lemma {:induction false} WindowsReconstruct(text: string, window: nat, step: nat, pos: nat)
    requires 1 <= step <= window && pos < |text|
    ensures var ws := Windows(text, window, step, pos);
            && ws != [] && AllMeet(ws, window, step)
            && (forall i :: 0 <= i < |ws| ==> 0 < |ws[i]| <= window)
            && ws[0] == text[pos..Min(pos + window, |text|)]
            && ws[0] + Unshared(ws[1..], window - step) == text[pos..]
    decreases |text| - pos
  {
    var ws, shared := Windows(text, window, step, pos), window - step;
    var end := Min(pos + window, |text|);
    if end == |text| {
      assert text[pos..end] == text[pos..];
      assert ws == [text[pos..]] && ws[1..] == [];
    } else {
      var rest := Windows(text, window, step, pos + step);
      WindowsReconstruct(text, window, step, pos + step);
      assert ws == [text[pos..end]] + rest && ws[1..] == rest;
      WindowsMeet(text, window, step, pos, rest[0], Unshared(rest[1..], shared));
    }
  }

  lemma {:induction false} WindowCount(text: string, window: nat, step: nat, pos: nat)
    requires 1 <= step <= window && pos < |text|
    ensures var count := |Windows(text, window, step, pos)|;
            if |text| - pos <= window then count == 1 else IsCeiling(count - 1, |text| - pos - window, step)
    decreases |text| - pos
  {
    if |text| - pos > window {
      WindowCount(text, window, step, pos + step);
      var count := |Windows(text, window, step, pos)|;
      assert count == 1 + |Windows(text, window, step, pos + step)|;
      assert (count - 1) * step == (count - 2) * step + step;
      assert (count - 2) * step == (count - 3) * step + step;
    }
  }

  /** For any text, any window of at least one and any overlap, before blank windows are dropped. */
  lemma {:induction false} OverlappingWindows(text: string, window: nat, overlap: nat)
    requires window >= 1 && text != []
    ensures var ws, step := Windows(text, window, Step(window, overlap), 0), Step(window, overlap);
            && AllMeet(ws, window, step)
            && (forall i :: 0 <= i < |ws| ==> |ws[i]| <= window)
            && ws != [] && ws[0] + Unshared(ws[1..], window - step) == text
            && (if |text| <= window then |ws| == 1 else IsCeiling(|ws| - 1, |text| - window, step))
    ensures window > overlap ==> window - Step(window, overlap) == overlap
  {
    WindowsReconstruct(text, window, Step(window, overlap), 0);
    WindowCount(text, window, Step(window, overlap), 0);
    assert text[0..] == text;
  }

  lemma {:induction false} DropBlankKeeps(windows: seq<string>)
    ensures forall i :: 0 <= i < |DropBlank(windows)| ==> DropBlank(windows)[i] in windows && Trim(DropBlank(windows)[i]) != []
    ensures forall w :: w in windows && w !in DropBlank(windows) ==> Visible(w) == []
  {
    if windows != [] {
      var n := |windows| - 1;
      DropBlankKeeps(windows[..n]);
      TrimKeepsVisible(windows[n]);
      assert windows == windows[..n] + [windows[n]];
    }
  }

  lemma {:induction false} ChunksFit(text: string, window: nat, overlap: nat)
    requires window >= 1
    ensures forall i :: 0 <= i < |DropBlank(Windows(text, window, Step(window, overlap), 0))| ==>
              |DropBlank(Windows(text, window, Step(window, overlap), 0))[i]| <= window
  {
    DropBlankKeeps(Windows(text, window, Step(window, overlap), 0));
    if text != [] {
      OverlappingWindows(text, window, overlap);
    }
  }

  // ----------------------------------------------------------------- Semantic split

  /** The foreign parts: lower-casing, upper-case test, the boilerplate filter, embedding and similarity. */
  datatype Services = Services(
    lower: string -> string,
    isUpper: char -> bool,
    keep: string -> bool,
    embed: seq<string> -> Option<seq<seq<real>>>,
    similarity: (seq<real>, seq<real>) -> real
  )

  datatype Settings = Settings(maxChunkChars: nat, percentile: real, maxSentences: nat, filterGarbage: bool)

  function Keep(keep: string -> bool, sentences: seq<string>): seq<string> {
    if sentences == [] then []
    else Keep(keep, sentences[..|sentences| - 1]) + (if keep(sentences[|sentences| - 1]) then [sentences[|sentences| - 1]] else [])
  }

  /** Filtering keeps exactly the sentences that pass, in order. */
  lemma {:induction false} KeepOneMore(keep: string -> bool, sentences: seq<string>, next: string)
    ensures Keep(keep, sentences + [next]) == if keep(next) then Keep(keep, sentences) + [next] else Keep(keep, sentences)
    ensures Keep(keep, []) == []
  {
    assert (sentences + [next])[..|sentences|] == sentences;
  }

  function SentenceWindows(sentences: seq<string>, size: nat): seq<seq<string>>
    requires size >= 1
  {
    if |sentences| <= size then [sentences]
    else seq(|sentences| - size + 1, i requires 0 <= i < |sentences| - size + 1 => sentences[i..i + size])
  }

  /** What one group of sentences becomes. */
  function ChunksOfGroup(group: seq<string>, maxChunkChars: nat): seq<string> {
    var joined := Join(group, " ");
    if ByteLen(joined) > maxChunkChars then DropBlank(Windows(joined, maxChunkChars, Step(maxChunkChars, TEXT_WINDOW_OVERLAP), 0))
    else if Trim(joined) == [] then []
    else [joined]
  }

  function ChunksOf(groups: seq<seq<string>>, maxChunkChars: nat): seq<string> {
    if groups == [] then []
    else ChunksOf(groups[..|groups| - 1], maxChunkChars) + ChunksOfGroup(groups[|groups| - 1], maxChunkChars)
  }

  lemma {:induction false} JoinKeepsVisible(parts: seq<string>)
    ensures Visible(Join(parts, " ")) == Visible(Flatten(parts))
  {
    if |parts| == 1 {
      assert Flatten(parts[1..]) == [] && parts[0] + [] == parts[0];
    } else if |parts| > 1 {
      JoinKeepsVisible(parts[1..]);
      VisibleConcat(parts[0] + " ", Join(parts[1..], " "));
      VisibleConcat(parts[0], " ");
      assert " "[1..] == [];
      VisibleConcat(parts[0], Flatten(parts[1..]));
    }
  }

  lemma {:induction false} GroupKeepsText(before: seq<string>, group: seq<string>, maxChunkChars: nat)
    requires ByteLen(Join(group, " ")) <= maxChunkChars
    ensures Visible(Flatten(before + ChunksOfGroup(group, maxChunkChars))) == Visible(Flatten(before)) + Visible(Flatten(group))
  {
    var joined := Join(group, " ");
    JoinKeepsVisible(group);
    TrimKeepsVisible(joined);
    if Trim(joined) == [] {
      assert before + [] == before;
    } else {
      FlattenSnoc(before, joined);
      VisibleConcat(Flatten(before), joined);
    }
  }

  /** While no group is too long, the chunks hold the groups' text, but for white space. */
  lemma {:induction false} ChunksKeepText(groups: seq<seq<string>>, maxChunkChars: nat)
    requires forall g :: 0 <= g < |groups| ==> ByteLen(Join(groups[g], " ")) <= maxChunkChars
    ensures Visible(Flatten(ChunksOf(groups, maxChunkChars))) == Visible(Flatten(Flatten(groups)))
  {
    if groups != [] {
      var n := |groups| - 1;
      ChunksKeepText(groups[..n], maxChunkChars);
      GroupKeepsText(ChunksOf(groups[..n], maxChunkChars), groups[n], maxChunkChars);
      assert groups == groups[..n] + [groups[n]];
      FlattenSnoc(groups[..n], groups[n]);
      FlattenConcat(Flatten(groups[..n]), groups[n]);
      VisibleConcat(Flatten(Flatten(groups[..n])), Flatten(groups[n]));
    }
  }

  lemma {:induction false} ChunksFitLimit(groups: seq<seq<string>>, maxChunkChars: nat)
    requires maxChunkChars >= 1
    ensures forall i :: 0 <= i < |ChunksOf(groups, maxChunkChars)| ==> |ChunksOf(groups, maxChunkChars)[i]| <= maxChunkChars
  {
    if groups != [] {
      ChunksFitLimit(groups[..|groups| - 1], maxChunkChars);
      ChunksFit(Join(groups[|groups| - 1], " "), maxChunkChars, TEXT_WINDOW_OVERLAP);
    }
  }

  /** The sentences that are chunked: all of them, or those that are kept. */
  function Kept(services: Services, settings: Settings, text: string): seq<string> {
    var sentences := Sentences(services.lower, services.isUpper, text);
    if settings.filterGarbage && |sentences| > 1 then Keep(services.keep, sentences) else sentences
  }

  function Similarities(services: Services, embeddings: seq<seq<real>>): (similarities: seq<real>)
    requires |embeddings| >= 1
    ensures |similarities| == |embeddings| - 1
    ensures forall i :: 0 <= i < |similarities| ==> similarities[i] == services.similarity(embeddings[i], embeddings[i + 1])
  {
    seq(|embeddings| - 1, i requires 0 <= i < |embeddings| - 1 => services.similarity(embeddings[i], embeddings[i + 1]))
  }

  /** The splitter returns, or fails, before it looks for breakpoints. */
  predicate EndsEarly(services: Services, settings: Settings, text: string) {
    var kept := Kept(services, settings, text);
    || |Sentences(services.lower, services.isUpper, text)| <= 1 || |kept| <= SENTENCE_GROUP_SIZE
    || services.embed(WindowTexts(kept)).None? || |services.embed(WindowTexts(kept)).value| < 2
  }

  /** What an early return makes one chunk of: the text, or the kept sentences joined. */
  function EarlyText(services: Services, settings: Settings, text: string): string {
    var kept := Kept(services, settings, text);
    if |Sentences(services.lower, services.isUpper, text)| <= 1 || kept == [] then text else Join(kept, " ")
  }

  /** A limit of zero sentences is met only by returning early; past that the source does not end. */
  predicate CanSplit(services: Services, settings: Settings, text: string) {
    settings.maxSentences >= 1 || EndsEarly(services, settings, text)
  }

  /**
   * The early returns give one chunk, of any size: the text of at most one sentence or of
   * none kept, and the sentences joined when they make a single window or too few vectors
   * came back. Otherwise the groups follow the breakpoints and the chunks follow the groups.
   */
  ghost predicate IsSplit(services: Services, settings: Settings, text: string, chunks: seq<string>)
    requires CanSplit(services, settings, text)
  {
    var kept := Kept(services, settings, text);
    if |Sentences(services.lower, services.isUpper, text)| <= 1 || kept == [] then chunks == [text]
    else if |kept| <= SENTENCE_GROUP_SIZE then chunks == [Join(kept, " ")]
    else
      match services.embed(WindowTexts(kept))
      case None => false
      case Some(embeddings) =>
        if |embeddings| < 2 then chunks == [Join(kept, " ")]
        else
          exists breakpoints, breaks ::
            && AreBreakpoints(Similarities(services, embeddings), settings.percentile, settings.maxSentences, breakpoints)
            && AreBreaks(breaks, breakpoints, |kept|)
            && chunks == ChunksOf(GroupsAt(kept, breaks, 0, settings.maxSentences), settings.maxChunkChars)
  }

  function WindowTexts(sentences: seq<string>): seq<string> {
    var windows := SentenceWindows(sentences, SENTENCE_GROUP_SIZE);
    seq(|windows|, i requires 0 <= i < |windows| => Join(windows[i], " "))
  }

  /** From more than three sentences, a text for each three neighbours. */
  lemma {:induction false} WindowsSlide(sentences: seq<string>, i: nat)
    requires |sentences| > 3 && i + 3 <= |sentences|
    ensures |WindowTexts(sentences)| == |sentences| - 2
    ensures WindowTexts(sentences)[i] == sentences[i] + " " + (sentences[i + 1] + " " + sentences[i + 2])
  {
    var w := sentences[i..i + 3];
    assert SentenceWindows(sentences, SENTENCE_GROUP_SIZE)[i] == w && WindowTexts(sentences)[i] == Join(w, " ");
    assert w[1..][1..] == [sentences[i + 2]] && Join(w[1..][1..], " ") == sentences[i + 2];
    assert Join(w[1..], " ") == sentences[i + 1] + " " + sentences[i + 2];
  }

  method SemanticSplit(services: Services, settings: Settings, text: string) returns (r: Option<seq<string>>)
    requires CanSplit(services, settings, text)
    ensures r.Some? ==> IsSplit(services, settings, text, r.value)
    ensures r.None? ==> services.embed(WindowTexts(Kept(services, settings, text))).None?
  {
    var sentences := SplitSentences(services.lower, services.isUpper, text);
    if |sentences| <= 1 {
      return Some([text]);
    }
    if settings.filterGarbage {
      sentences := Keep(services.keep, sentences);
    }
    if sentences == [] {
      return Some([text]);
    }
    var windows := SentenceWindows(sentences, SENTENCE_GROUP_SIZE);
    if |windows| <= 1 {
      return Some([Join(sentences, " ")]);
    }
    var answer := services.embed(WindowTexts(sentences));
    if answer.None? {
      return None;
    }
    var embeddings := answer.value;
    if |embeddings| < 2 {
      return Some([Join(sentences, " ")]);
    }
    var breakpoints := FindBreakpoints(Similarities(services, embeddings), settings.percentile, settings.maxSentences);
    var groups, breaks := GroupSentencesAtBreaks(sentences, breakpoints, |windows|, settings.maxSentences);
    var chunks := ChunkGroups(groups, settings.maxChunkChars);
    assert AreBreakpoints(Similarities(services, embeddings), settings.percentile, settings.maxSentences, breakpoints);
    r := Some(chunks);
  }

  method ChunkGroups(groups: seq<seq<string>>, maxChunkChars: nat) returns (result: seq<string>)
    ensures result == ChunksOf(groups, maxChunkChars)
  {
    result := [];
    for g := 0 to |groups|
      invariant result == ChunksOf(groups[..g], maxChunkChars)
    {
      assert groups[..g + 1][..g] == groups[..g];
      var joined := Join(groups[g], " ");
      if ByteLen(joined) <= maxChunkChars {
        if Trim(joined) != [] {
          result := result + [joined];
        }
      } else {
        var pieces := SplitWithOverlap(joined, maxChunkChars, TEXT_WINDOW_OVERLAP);
        result := result + pieces;
      }
    }
    assert groups[..|groups|] == groups;
  }

  /**
   * Past the early returns every chunk fits the limit, in characters; and when nothing is
   * filtered and no group is too long, the chunks hold the text, but for white space.
   */
  lemma {:induction false} SplitKeepsText(services: Services, settings: Settings, text: string, breaks: seq<nat>)
    requires settings.maxSentences >= 1 && settings.maxChunkChars >= 1
    ensures var kept := Kept(services, settings, text);
            var groups := GroupsAt(kept, breaks, 0, settings.maxSentences);
            var chunks := ChunksOf(groups, settings.maxChunkChars);
            && AreGroupsOf(groups, kept, settings.maxSentences)
            && (forall i :: 0 <= i < |chunks| ==> |chunks[i]| <= settings.maxChunkChars)
            && (!settings.filterGarbage ==> Visible(Flatten(Flatten(groups))) == Visible(text))
            && (!settings.filterGarbage && (forall g :: 0 <= g < |groups| ==> ByteLen(Join(groups[g], " ")) <= settings.maxChunkChars) ==>
                  Visible(Flatten(chunks)) == Visible(text))
  {
    var kept := Kept(services, settings, text);
    var groups := GroupsAt(kept, breaks, 0, settings.maxSentences);
    GroupsKeepSentences(kept, breaks, 0, settings.maxSentences);
    assert kept[0..] == kept && text[0..] == text;
    ChunksFitLimit(groups, settings.maxChunkChars);
    SentencesKeepText(services.lower, services.isUpper, text, 0, "");
    if forall g :: 0 <= g < |groups| ==> ByteLen(Join(groups[g], " ")) <= settings.maxChunkChars {
      ChunksKeepText(groups, settings.maxChunkChars);
    }
  }

  /**
   * The size limit, in characters, holds for all chunks if and only if the splitter does
   * not return early, or the text that it then returns whole is within the limit.
   */
  lemma {:induction false} SplitFitsExactly(services: Services, settings: Settings, text: string, chunks: seq<string>)
    requires CanSplit(services, settings, text) && settings.maxChunkChars >= 1 && IsSplit(services, settings, text, chunks)
    ensures (forall i :: 0 <= i < |chunks| ==> |chunks[i]| <= settings.maxChunkChars) <==>
            (EndsEarly(services, settings, text) ==> |EarlyText(services, settings, text)| <= settings.maxChunkChars)
  {
    if EndsEarly(services, settings, text) {
      assert chunks == [EarlyText(services, settings, text)];
      assert chunks[0] == EarlyText(services, settings, text);
    } else {
      var breaks := BreaksOfSplit(services, settings, text, chunks);
      ChunksFitLimit(GroupsAt(Kept(services, settings, text), breaks, 0, settings.maxSentences), settings.maxChunkChars);
    }
  }

  lemma {:induction false} BreaksOfSplit(services: Services, settings: Settings, text: string, chunks: seq<string>) returns (breaks: seq<nat>)
    requires settings.maxSentences >= 1 && IsSplit(services, settings, text, chunks) && !EndsEarly(services, settings, text)
    ensures chunks == ChunksOf(GroupsAt(Kept(services, settings, text), breaks, 0, settings.maxSentences), settings.maxChunkChars)
  {
    var kept := Kept(services, settings, text);
    var embeddings := services.embed(WindowTexts(kept)).value;
    var breakpoints;
    breakpoints, breaks :|
      && AreBreakpoints(Similarities(services, embeddings), settings.percentile, settings.maxSentences, breakpoints)
      && AreBreaks(breaks, breakpoints, |kept|)
      && chunks == ChunksOf(GroupsAt(kept, breaks, 0, settings.maxSentences), settings.maxChunkChars);
  }

  /** A text without a full stop, question mark, exclamation mark or any other terminator. */
  predicate Unbroken(text: string) {
    forall i :: 0 <= i < |text| ==> !IsTerminator(text[i])
  }

  lemma {:induction false} UnbrokenIsOneSentence(lower: string -> string, isUpper: char -> bool, text: string, i: nat, current: string)
    requires Unbroken(text) && i <= |text|
    ensures |SentencesFrom(lower, isUpper, text, i, current)| <= 1
    decreases |text| - i
  {
    if i < |text| {
      UnbrokenIsOneSentence(lower, isUpper, text, i + 1, current + [text[i]]);
    }
  }

  // ------------------------------------------------------ What splitting may not lose

  lemma {:induction false} DropBlankShowsAll(windows: seq<string>)
    ensures Visible(Flatten(DropBlank(windows))) == Visible(Flatten(windows))
  {
    if windows != [] {
      var n := |windows| - 1;
      var before := DropBlank(windows[..n]);
      DropBlankShowsAll(windows[..n]);
      TrimKeepsVisible(windows[n]);
      assert windows == windows[..n] + [windows[n]];
      FlattenSnoc(windows[..n], windows[n]);
      VisibleConcat(Flatten(windows[..n]), windows[n]);
      if Trim(windows[n]) != [] {
        FlattenSnoc(before, windows[n]);
        VisibleConcat(Flatten(before), windows[n]);
      } else {
        assert DropBlank(windows) == before;
      }
    }
  }

  lemma {:induction false} UnsharedIsShown(windows: seq<string>, shared: nat)
    ensures IsSubsequence(Visible(Unshared(windows, shared)), Visible(Flatten(windows)))
  {
    if windows != [] {
      var w := windows[0];
      var own := if |w| >= shared then w[shared..] else [];
      UnsharedIsShown(windows[1..], shared);
      VisibleConcat(own, Unshared(windows[1..], shared));
      VisibleConcat(w, Flatten(windows[1..]));
      SuffixIsShown(w, if |w| >= shared then shared else |w|);
      SubsequenceConcat(Visible(own), Visible(w), Visible(Unshared(windows[1..], shared)), Visible(Flatten(windows[1..])));
    }
  }

  lemma {:induction false} SuffixIsShown(w: string, from: nat)
    requires from <= |w|
    ensures IsSubsequence(Visible(w[from..]), Visible(w))
  {
    assert w == w[..from] + w[from..];
    VisibleConcat(w[..from], w[from..]);
    SubsequenceOfSelf(Visible(w[from..]));
    SubsequenceAfter(Visible(w[from..]), Visible(w[..from]), Visible(w[from..]));
  }

  /** The kept windows of a text show all of it, in order; what they share they show twice. */
  lemma {:induction false} WindowsShowText(text: string, window: nat, overlap: nat)
    requires window >= 1
    ensures IsSubsequence(Visible(text), Visible(Flatten(WindowsKept(text, window, Step(window, overlap), 0))))
  {
    if text != [] {
      OverlappingWindows(text, window, overlap);
      var ws, shared := Windows(text, window, Step(window, overlap), 0), window - Step(window, overlap);
      DropBlankShowsAll(ws);
      UnsharedIsShown(ws[1..], shared);
      VisibleConcat(ws[0], Unshared(ws[1..], shared));
      VisibleConcat(ws[0], Flatten(ws[1..]));
      SubsequenceOfSelf(Visible(ws[0]));
      SubsequenceConcat(Visible(ws[0]), Visible(ws[0]), Visible(Unshared(ws[1..], shared)), Visible(Flatten(ws[1..])));
    }
  }

  /** The visible text of `parts` is a subsequence of that of `chunks`. */
  predicate Shows(chunks: seq<string>, parts: seq<string>) {
    IsSubsequence(Visible(Flatten(parts)), Visible(Flatten(chunks)))
  }

  lemma {:induction false} GroupIsShown(group: seq<string>, maxChunkChars: nat)
    requires maxChunkChars >= 1
    ensures Shows(ChunksOfGroup(group, maxChunkChars), group)
  {
    var joined := Join(group, " ");
    JoinKeepsVisible(group);
    if ByteLen(joined) > maxChunkChars {
      WindowsShowText(joined, maxChunkChars, TEXT_WINDOW_OVERLAP);
    } else {
      TrimKeepsVisible(joined);
      if Trim(joined) != [] {
        FlattenOne(joined);
        SubsequenceOfSelf(Visible(joined));
      }
    }
  }

  lemma {:induction false} GroupsAreShown(groups: seq<seq<string>>, maxChunkChars: nat)
    requires maxChunkChars >= 1
    ensures Shows(ChunksOf(groups, maxChunkChars), Flatten(groups))
  {
    if groups != [] {
      var n := |groups| - 1;
      GroupsAreShown(groups[..n], maxChunkChars);
      GroupIsShown(groups[n], maxChunkChars);
      assert groups == groups[..n] + [groups[n]];
      FlattenSnoc(groups[..n], groups[n]);
      ShownOneAfterTheOther(Flatten(groups[..n]), ChunksOf(groups[..n], maxChunkChars), groups[n], ChunksOfGroup(groups[n], maxChunkChars));
    } else {
      assert Flatten(groups) == [];
    }
  }

  lemma {:induction false} ShownOneAfterTheOther(a: seq<string>, b: seq<string>, c: seq<string>, d: seq<string>)
    requires Shows(b, a) && Shows(d, c)
    ensures Shows(b + d, a + c)
  {
    FlattenConcat(a, c);
    FlattenConcat(b, d);
    VisibleConcat(Flatten(a), Flatten(c));
    VisibleConcat(Flatten(b), Flatten(d));
    SubsequenceConcat(Visible(Flatten(a)), Visible(Flatten(b)), Visible(Flatten(c)), Visible(Flatten(d)));
  }

  /** Whichever way the semantic splitter takes, its chunks show every sentence that is kept, in order. */
  lemma {:induction false} SplitShowsKept(services: Services, settings: Settings, text: string, chunks: seq<string>)
    requires CanSplit(services, settings, text) && settings.maxChunkChars >= 1 && IsSplit(services, settings, text, chunks)
    ensures IsSubsequence(Visible(Flatten(Kept(services, settings, text))), Visible(Flatten(chunks)))
    ensures !settings.filterGarbage ==> Visible(Flatten(Kept(services, settings, text))) == Visible(text)
  {
    var kept := Kept(services, settings, text);
    SentencesKeepText(services.lower, services.isUpper, text, 0, "");
    assert text[0..] == text;
    if EndsEarly(services, settings, text) {
      EarlyTextShowsKept(services, settings, text);
      FlattenOne(EarlyText(services, settings, text));
      assert chunks == [EarlyText(services, settings, text)];
    } else {
      var breaks := BreaksOfSplit(services, settings, text, chunks);
      GroupsKeepSentences(kept, breaks, 0, settings.maxSentences);
      assert kept[0..] == kept;
      GroupsAreShown(GroupsAt(kept, breaks, 0, settings.maxSentences), settings.maxChunkChars);
    }
  }

  lemma {:induction false} EarlyTextShowsKept(services: Services, settings: Settings, text: string)
    ensures IsSubsequence(Visible(Flatten(Kept(services, settings, text))), Visible(EarlyText(services, settings, text)))
  {
    var kept := Kept(services, settings, text);
    SentencesKeepText(services.lower, services.isUpper, text, 0, "");
    assert text[0..] == text;
    var sentences := Sentences(services.lower, services.isUpper, text);
    SubsequenceOfSelf(Visible(Flatten(kept)));
    if |sentences| <= 1 {
      assert Visible(Flatten(sentences)) == Visible(text);
    } else if kept == [] {
      assert Flatten(kept) == [] && Visible([]) == [];
    } else {
      JoinKeepsVisible(kept);
    }
  }

  lemma {:induction false} KeepIsPart(keep: string -> bool, sentences: seq<string>)
    ensures forall k :: 0 <= k < |Keep(keep, sentences)| ==> Keep(keep, sentences)[k] in sentences
  {
    if sentences != [] {
      KeepIsPart(keep, sentences[..|sentences| - 1]);
    }
  }

  lemma {:induction false} ChunksAreNotBlank(groups: seq<seq<string>>, maxChunkChars: nat)
    ensures forall k :: 0 <= k < |ChunksOf(groups, maxChunkChars)| ==> Trim(ChunksOf(groups, maxChunkChars)[k]) != []
  {
    if groups != [] {
      ChunksAreNotBlank(groups[..|groups| - 1], maxChunkChars);
      DropBlankKeeps(Windows(Join(groups[|groups| - 1], " "), maxChunkChars, Step(maxChunkChars, TEXT_WINDOW_OVERLAP), 0));
    }
  }

  lemma {:induction false} JoinIsNotBlank(kept: seq<string>)
    requires kept != [] && Trim(kept[0]) != []
    ensures Trim(Join(kept, " ")) != []
  {
    TrimKeepsVisible(kept[0]);
    TrimKeepsVisible(Join(kept, " "));
    JoinKeepsVisible(kept);
    VisibleConcat(kept[0], Flatten(kept[1..]));
  }

  /** No chunk of a text that is not blank is blank. */
  lemma {:induction false} SplitIsNotBlank(services: Services, settings: Settings, text: string, chunks: seq<string>)
    requires CanSplit(services, settings, text) && IsSplit(services, settings, text, chunks) && Trim(text) != []
    ensures forall k :: 0 <= k < |chunks| ==> Trim(chunks[k]) != []
  {
    var sentences, kept := Sentences(services.lower, services.isUpper, text), Kept(services, settings, text);
    if |sentences| > 1 && kept != [] {
      SentencesEndWell(services.lower, services.isUpper, text, 0, "");
      KeepIsPart(services.keep, sentences);
      assert kept[0] in sentences;
      JoinIsNotBlank(kept);
      if !EndsEarly(services, settings, text) {
        var breaks := BreaksOfSplit(services, settings, text, chunks);
        ChunksAreNotBlank(GroupsAt(kept, breaks, 0, settings.maxSentences), settings.maxChunkChars);
      }
    }
  }
}
