/** Escaping of LIKE patterns, and what an escaped pattern matches. */
module LikePatterns {

  const ESCAPE: char := '\\'

  /** `str::replace` of one character by a string. */
  function Replace(s: string, c: char, with: string): string {
    if s == [] then [] else (if s[0] == c then with else [s[0]]) + Replace(s[1..], c, with)
  }

  /** The three replacements in the order in which they are made. */
  function EscapeLikePattern(value: string): string {
    Replace(Replace(Replace(value, ESCAPE, "\\\\"), '%', "\\%"), '_', "\\_")
  }

  predicate IsSpecial(c: char) {
    c == ESCAPE || c == '%' || c == '_'
  }

  /** Each special character escaped once. */
  function EscapeEach(value: string): string {
    if value == [] then []
    else (if IsSpecial(value[0]) then [ESCAPE, value[0]] else [value[0]]) + EscapeEach(value[1..])
  }

  lemma {:induction false} ReplaceConcat(a: string, b: string, c: char, with: string)
    ensures Replace(a + b, c, with) == Replace(a, c, with) + Replace(b, c, with)
  {
    if a == [] {
      assert a + b == b;
    } else {
      assert (a + b)[1..] == a[1..] + b;
      ReplaceConcat(a[1..], b, c, with);
    }
  }

  lemma {:induction false} ReplaceInChar(x: char, c: char, with: string)
    ensures Replace([x], c, with) == if x == c then with else [x]
  {
    assert [x][1..] == [];
  }

  lemma {:induction false} ReplaceInPair(x: char, y: char, c: char, with: string)
    requires x != c
    ensures Replace([x, y], c, with) == [x] + (if y == c then with else [y])
  {
    assert [x, y] == [x] + [y];
    ReplaceConcat([x], [y], c, with);
    ReplaceInChar(x, c, with);
    ReplaceInChar(y, c, with);
  }

  lemma {:induction false} EscapeOneChar(x: char)
    ensures EscapeLikePattern([x]) == if IsSpecial(x) then [ESCAPE, x] else [x]
  {
    ReplaceInChar(x, ESCAPE, "\\\\");
    ReplaceInChar(x, '%', "\\%");
    ReplaceInChar(x, '_', "\\_");
    ReplaceInPair(ESCAPE, ESCAPE, '%', "\\%");
    ReplaceInPair(ESCAPE, ESCAPE, '_', "\\_");
    ReplaceInPair(ESCAPE, '%', '_', "\\_");
  }

  /** Escaping the escape character first makes the three passes one pass. */
  lemma {:induction false} ThreePassesAreOne(value: string)
    ensures EscapeLikePattern(value) == EscapeEach(value)
  {
    if value != [] {
      var x, rest := [value[0]], value[1..];
      assert value == x + rest;
      ReplaceConcat(x, rest, ESCAPE, "\\\\");
      var x1, rest1 := Replace(x, ESCAPE, "\\\\"), Replace(rest, ESCAPE, "\\\\");
      ReplaceConcat(x1, rest1, '%', "\\%");
      ReplaceConcat(Replace(x1, '%', "\\%"), Replace(rest1, '%', "\\%"), '_', "\\_");
      EscapeOneChar(value[0]);
      ThreePassesAreOne(rest);
    }
  }

  // -------------------------------------------------------------------- Matching

  /** LIKE with an escape character; `fold` stands for the case folding of the comparison. */
  predicate Matches(fold: char -> char, pattern: string, s: string)
    decreases |pattern|
  {
    if pattern == [] then s == []
    else if pattern[0] == ESCAPE then
      |pattern| >= 2 && s != [] && fold(pattern[1]) == fold(s[0]) && Matches(fold, pattern[2..], s[1..])
    else if pattern[0] == '%' then
      exists k :: 0 <= k <= |s| && Matches(fold, pattern[1..], s[k..])
    else if pattern[0] == '_' then
      s != [] && Matches(fold, pattern[1..], s[1..])
    else
      s != [] && fold(pattern[0]) == fold(s[0]) && Matches(fold, pattern[1..], s[1..])
  }

  predicate SameFolded(fold: char -> char, a: string, b: string) {
    |a| == |b| && forall i :: 0 <= i < |a| ==> fold(a[i]) == fold(b[i])
  }

  predicate StartsWith(fold: char -> char, s: string, q: string) {
    |q| <= |s| && SameFolded(fold, q, s[..|q|])
  }

  predicate Contains(fold: char -> char, s: string, q: string) {
    exists k :: 0 <= k <= |s| && StartsWith(fold, s[k..], q)
  }

  /** An escaped query matches itself and nothing else, and then the rest of the pattern goes on. */
  lemma {:induction false} EscapedMatchesLiterally(fold: char -> char, q: string, rest: string, s: string)
    ensures Matches(fold, EscapeEach(q) + rest, s) <==> StartsWith(fold, s, q) && Matches(fold, rest, s[|q|..])
    decreases |q|
  {
    if q == [] {
      assert EscapeEach(q) + rest == rest && s[0..] == s;
    } else {
      var pattern, tail := EscapeEach(q) + rest, EscapeEach(q[1..]) + rest;
      if IsSpecial(q[0]) {
        assert pattern == [ESCAPE, q[0]] + tail;
        assert pattern[0] == ESCAPE && pattern[1] == q[0] && pattern[2..] == tail;
      } else {
        assert pattern == [q[0]] + tail;
        assert pattern[0] == q[0] && pattern[1..] == tail;
      }
      if s != [] {
        EscapedMatchesLiterally(fold, q[1..], rest, s[1..]);
        if |q| <= |s| {
          assert s[1..][|q| - 1..] == s[|q|..];
        }
      }
    }
  }

  lemma {:induction false} PercentMatchesAnything(fold: char -> char, s: string)
    ensures Matches(fold, "%", s)
  {
    assert "%"[1..] == [] && s[|s|..] == [];
    assert Matches(fold, "%"[1..], s[|s|..]);
  }

  /** The pattern of the candidate query matches exactly the strings that contain the query. */
  lemma {:induction false} PatternMeansContains(fold: char -> char, q: string, s: string)
    ensures Matches(fold, "%" + EscapeLikePattern(q) + "%", s) <==> Contains(fold, s, q)
  {
    ThreePassesAreOne(q);
    var pattern, tail := "%" + EscapeLikePattern(q) + "%", EscapeEach(q) + "%";
    assert pattern[0] == '%' && pattern[1..] == tail;
    forall k | 0 <= k <= |s| ensures Matches(fold, tail, s[k..]) <==> StartsWith(fold, s[k..], q) {
      EscapedMatchesLiterally(fold, q, "%", s[k..]);
      if StartsWith(fold, s[k..], q) {
        PercentMatchesAnything(fold, s[k..][|q|..]);
      }
    }
  }
}
