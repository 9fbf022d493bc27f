/** Fuzzy matching of strings by the trigrams that they share, counted with multiplicity. */
module Trigrams {

  function TrigramsOf(s: string): (t: seq<string>)
    ensures |t| == if |s| < 3 then 0 else |s| - 2
  {
    if |s| < 3 then [] else seq(|s| - 2, i requires 0 <= i < |s| - 2 => s[i..i + 3])
  }

  function Bag(s: string): (b: multiset<string>)
    ensures |b| == if |s| < 3 then 0 else |s| - 2
  {
    multiset(TrigramsOf(s))
  }

  predicate HasSubstring(s: string, q: string) {
    exists i :: 0 <= i <= |s| && StartsAt(s, q, i)
  }

  predicate StartsAt(s: string, q: string, i: nat) {
    i + |q| <= |s| && s[i..i + |q|] == q
  }

  function Dice(left: multiset<string>, right: multiset<string>): real
    requires |left| + |right| > 0
  {
    Coefficient(|left * right|, |left| + |right|)
  }

  function Coefficient(shared: nat, total: nat): real
    requires total > 0
  {
    2.0 * shared as real / total as real
  }

  /** The similarity of two strings that are already in lower case. */
  function Similarity(left: string, right: string): real {
    if left == [] || right == [] then 0.0
    else if left == right then 1.0
    else if |left| < 3 || |right| < 3 then (if HasSubstring(left, right) || HasSubstring(right, left) then 1.0 else 0.0)
    else Dice(Bag(left), Bag(right))
  }

  // ------------------------------------------------------------------ Algorithm

  /** The counts of a map are those of a bag. */
  ghost predicate Counts(counts: map<string, nat>, bag: multiset<string>) {
    && (forall t :: t in counts <==> t in bag)
    && (forall t :: t in counts ==> counts[t] == bag[t])
  }

  method BuildTrigramMultiset(value: string) returns (counts: map<string, nat>)
    ensures Counts(counts, Bag(value))
  {
    counts := map[];
    var windows := TrigramsOf(value);
    for i := 0 to |windows|
      invariant Counts(counts, multiset(windows[..i]))
    {
      var trigram := windows[i];
      assert windows[..i + 1] == windows[..i] + [trigram];
      assert multiset(windows[..i + 1]) == multiset(windows[..i])[trigram := multiset(windows[..i])[trigram] + 1];
      counts := counts[trigram := (if trigram in counts then counts[trigram] else 0) + 1];
    }
    assert windows[..|windows|] == windows;
  }

  /** The sum of a map's values, whichever order it is iterated in. */
  method SumOfCounts(counts: map<string, nat>, ghost bag: multiset<string>) returns (total: nat)
    requires Counts(counts, bag)
    ensures total == |bag|
  {
    total := 0;
    ghost var seen: multiset<string> := multiset{};
    var rest := counts.Keys;
    while rest != {}
      invariant rest <= counts.Keys && total == |seen|
      invariant forall t :: seen[t] == if t in counts && t !in rest then counts[t] else 0
      decreases rest
    {
      var trigram :| trigram in rest;
      rest := rest - {trigram};
      seen := seen[trigram := counts[trigram]];
      total := total + counts[trigram];
    }
    assert seen == bag;
  }

  /** The shared count, whichever order the left map is iterated in. */
  method SharedCount(left: map<string, nat>, right: map<string, nat>, ghost leftBag: multiset<string>, ghost rightBag: multiset<string>)
    returns (intersection: nat)
    requires Counts(left, leftBag) && Counts(right, rightBag)
    ensures intersection == |leftBag * rightBag|
  {
    intersection := 0;
    ghost var seen: multiset<string> := multiset{};
    var rest := left.Keys;
    while rest != {}
      invariant rest <= left.Keys && intersection == |seen|
      invariant forall t :: seen[t] == if t in left && t !in rest then (leftBag * rightBag)[t] else 0
      decreases rest
    {
      var trigram :| trigram in rest;
      rest := rest - {trigram};
      var other := if trigram in right then right[trigram] else 0;
      var shared := if left[trigram] < other then left[trigram] else other;
      seen := seen[trigram := shared];
      intersection := intersection + shared;
    }
    assert seen == leftBag * rightBag;
  }

  /** The scoring of two strings that both have trigrams. */
  method DiceOf(left: string, right: string) returns (similarity: real)
    requires |left| >= 3 && |right| >= 3
    ensures similarity == Dice(Bag(left), Bag(right))
  {
    var leftTrigrams := BuildTrigramMultiset(left);
    var rightTrigrams := BuildTrigramMultiset(right);
    var intersection := SharedCount(leftTrigrams, rightTrigrams, Bag(left), Bag(right));
    var leftTotal := SumOfCounts(leftTrigrams, Bag(left));
    var rightTotal := SumOfCounts(rightTrigrams, Bag(right));
    similarity := Coefficient(intersection, leftTotal + rightTotal);
  }

  /** `lower` stands for Unicode lower-casing. */
  method TrigramSimilarity(lower: string -> string, left: string, right: string) returns (similarity: real)
    ensures similarity == Similarity(lower(left), lower(right))
  {
    var l, r := lower(left), lower(right);
    if l == [] || r == [] {
      return 0.0;
    }
    if l == r {
      return 1.0;
    }
    if |l| < 3 || |r| < 3 {
      return if HasSubstring(l, r) || HasSubstring(r, l) then 1.0 else 0.0;
    }
    similarity := DiceOf(l, r);
  }

  // ----------------------------------------------------------- Laws of the score

  lemma {:induction false} SharedIsPart(left: multiset<string>, right: multiset<string>)
    ensures |left * right| <= |left| && |left * right| <= |right|
    ensures |left * right| == |left| == |right| <==> left == right
    ensures left * right == right * left
  {
    var both := left * right;
    assert left == both + (left - both) && right == both + (right - both);
  }

  lemma {:induction false} DiceLaws(left: multiset<string>, right: multiset<string>)
    requires |left| > 0 && |right| > 0
    ensures 0.0 <= Dice(left, right) <= 1.0 && Dice(left, right) == Dice(right, left)
    ensures Dice(left, right) == 1.0 <==> left == right
    ensures Dice(left, right) == 0.0 <==> left !! right
  {
    SharedIsPart(left, right);
    var shared, total := 2.0 * |left * right| as real, (|left| + |right|) as real;
    QuotientLaws(shared, total);
    if left !! right {
      assert left * right == multiset{};
    } else {
      var t :| t in left && t in right;
      assert t in left * right;
    }
  }

  lemma {:induction false} QuotientLaws(x: real, y: real)
    requires 0.0 <= x <= y && y > 0.0
    ensures 0.0 <= x / y <= 1.0
    ensures x / y == 1.0 <==> x == y
    ensures x / y == 0.0 <==> x == 0.0
  {
    var q := x / y;
    assert q * y == x;
  }

  /**
   * The score lies between 0 and 1 and does not depend on which string comes first. For
   * strings of at least three characters it is 1 exactly when they have the same trigrams
   * as often each, and 0 exactly when they share none.
   */
  lemma {:induction false} SimilarityLaws(left: string, right: string)
    ensures 0.0 <= Similarity(left, right) <= 1.0
    ensures Similarity(left, right) == Similarity(right, left)
    ensures |left| >= 3 && |right| >= 3 ==>
              && (Similarity(left, right) == 1.0 <==> Bag(left) == Bag(right))
              && (Similarity(left, right) == 0.0 <==> Bag(left) !! Bag(right))
  {
    if |left| >= 3 && |right| >= 3 {
      DiceLaws(Bag(left), Bag(right));
      if left == right {
        assert TrigramsOf(left)[0] in Bag(left);
      }
    }
  }

  /** The bag holds each string of three characters as often as the string shows it, and no other. */
  lemma {:induction false} BagCounts(s: string, t: string)
    ensures Bag(s)[t] == if |t| == 3 then |set i: nat | i < |s| && StartsAt(s, t, i)| else 0
  {
    var windows := TrigramsOf(s);
    Multiplicity(windows, t);
    var places := set i: nat | i < |windows| && windows[i] == t;
    if |t| == 3 {
      assert places == set i: nat | i < |s| && StartsAt(s, t, i);
    } else {
      assert places == {};
    }
  }

  lemma {:induction false} Multiplicity(windows: seq<string>, t: string)
    ensures multiset(windows)[t] == |set i: nat | i < |windows| && windows[i] == t|
  {
    if windows != [] {
      var n := |windows| - 1;
      Multiplicity(windows[..n], t);
      assert windows == windows[..n] + [windows[n]];
      var before, after := set i: nat | i < n && windows[..n][i] == t, set i: nat | i < |windows| && windows[i] == t;
      assert after == if windows[n] == t then before + {n} else before;
    }
  }

  /** The score times the number of all trigrams is twice the number of shared ones. */
  predicate IsTwiceShared(score: real, shared: nat, total: nat) {
    score * total as real == 2.0 * shared as real
  }

  lemma {:induction false} CoefficientExactly(shared: nat, total: nat)
    requires total > 0
    ensures IsTwiceShared(Coefficient(shared, total), shared, total)
  {
  }

  lemma {:induction false} FullScore(n: nat)
    ensures IsTwiceShared(1.0, n, n + n)
  {
  }

  lemma {:induction false} DiceIsTwiceShared(left: string, right: string)
    requires |left| >= 3 && |right| >= 3
    ensures IsTwiceShared(Similarity(left, right), |Bag(left) * Bag(right)|, |Bag(left)| + |Bag(right)|)
  {
    var l, r := Bag(left), Bag(right);
    if left == right {
      SharedIsPart(l, r);
      FullScore(|l|);
    } else {
      CoefficientExactly(|l * r|, |l| + |r|);
    }
  }

  ghost predicate IsInside(s: string, q: string) {
    exists before: string, after: string :: s == before + q + after
  }

  /** Without trigrams of its own, a string scores 1 with one that it is inside of or that is inside of it, and 0 with any other; an empty one scores 0 with all. */
  lemma {:induction false} ShortStringsMatchInside(left: string, right: string)
    requires |left| < 3 || |right| < 3
    ensures Similarity(left, right) == if left != [] && right != [] && (IsInside(left, right) || IsInside(right, left)) then 1.0 else 0.0
  {
    InsideIsSubstring(left, right);
    InsideIsSubstring(right, left);
    if left == right {
      assert left == "" + right + "";
    }
  }

  lemma {:induction false} InsideIsSubstring(s: string, q: string)
    ensures HasSubstring(s, q) <==> IsInside(s, q)
  {
    if i :| 0 <= i <= |s| && StartsAt(s, q, i) {
      assert s == s[..i] + q + s[i + |q|..];
    }
    if before: string, after: string :| s == before + q + after {
      assert StartsAt(s, q, |before|);
    }
  }

  lemma {:induction false} SwappedEnds(x: seq<string>, middle: string, y: seq<string>)
    ensures multiset(x + [middle] + y) == multiset(y + [middle] + x)
  {
  }

  lemma {:induction false} TrigramAt(s: string, i: nat, a: char, b: char, c: char)
    requires i + 3 <= |s| && s[i] == a && s[i + 1] == b && s[i + 2] == c
    ensures TrigramsOf(s)[i] == [a, b, c]
  {
  }

  /** A score of 1 does not mean the same string: the order of the trigrams is not looked at. */
  lemma {:induction false} FullScoreDoesNotMeanEqual()
    ensures Similarity("aabaaacaa", "aacaaabaa") == 1.0 && "aabaaacaa" != "aacaaabaa"
  {
    var s, t := "aabaaacaa", "aacaaabaa";
    var x, y := ["aab", "aba", "baa"], ["aac", "aca", "caa"];
    forall i | 0 <= i < 7 ensures TrigramsOf(s)[i] == (x + ["aaa"] + y)[i] && TrigramsOf(t)[i] == (y + ["aaa"] + x)[i] {
      TrigramAt(s, i, s[i], s[i + 1], s[i + 2]);
      TrigramAt(t, i, t[i], t[i + 1], t[i + 2]);
    }
    assert TrigramsOf(s) == x + ["aaa"] + y && TrigramsOf(t) == y + ["aaa"] + x;
    SwappedEnds(x, "aaa", y);
    SimilarityLaws(s, t);
  }
}
