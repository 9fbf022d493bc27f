/** What the standard library's sorts and ordered collections promise, for any order. */
module Sorting {

  ghost predicate TotalPreorder<T(!new)>(le: (T, T) -> bool) {
    && (forall a, b :: le(a, b) || le(b, a))
    && (forall a, b, c :: le(a, b) && le(b, c) ==> le(a, c))
  }

  ghost predicate TotalOrder<T(!new)>(le: (T, T) -> bool) {
    TotalPreorder(le) && forall a, b :: le(a, b) && le(b, a) ==> a == b
  }

  ghost predicate SortedBy<T>(s: seq<T>, le: (T, T) -> bool) {
    forall i, j :: 0 <= i < j < |s| ==> le(s[i], s[j])
  }

  predicate Distinct<T(==)>(s: seq<T>) {
    forall i, j :: 0 <= i < j < |s| ==> s[i] != s[j]
  }

  /** `x` placed before the first element that it does not exceed. */
  method Insert<T(!new, ==)>(s: seq<T>, x: T, le: (T, T) -> bool) returns (r: seq<T>)
    requires TotalPreorder(le) && SortedBy(s, le)
    ensures SortedBy(r, le) && multiset(r) == multiset(s) + multiset{x}
  {
    var i := 0;
    while i < |s| && !le(x, s[i])
      invariant i <= |s| && forall k :: 0 <= k < i ==> le(s[k], x)
    {
      i := i + 1;
    }
    r := s[..i] + [x] + s[i..];
    assert s == s[..i] + s[i..];
  }

  /** The elements of `bag` in ascending order; elements that tie come in any order. */
  method Sort<T(!new, ==)>(bag: multiset<T>, le: (T, T) -> bool) returns (r: seq<T>)
    requires TotalPreorder(le)
    ensures SortedBy(r, le) && multiset(r) == bag
  {
    var rest := bag;
    r := [];
    while |rest| > 0
      invariant multiset(r) + rest == bag && SortedBy(r, le)
      decreases |rest|
    {
      var x :| x in rest;
      r := Insert(r, x, le);
      rest := rest - multiset{x};
    }
  }

  /** The elements of a set as an ordered collection lists them: each once, ascending. */
  method Ascending<T(!new, ==)>(s: set<T>, le: (T, T) -> bool) returns (r: seq<T>)
    requires TotalPreorder(le)
    ensures SortedBy(r, le) && Distinct(r) && |r| == |s|
    ensures forall x :: x in r <==> x in s
  {
    r := Sort(multiset(s), le);
    DistinctBag(r, s);
  }

  lemma {:induction false} DistinctBag<T>(r: seq<T>, s: set<T>)
    requires multiset(r) == multiset(s)
    ensures Distinct(r) && |r| == |s| && forall x :: x in r <==> x in s
  {
    assert |r| == |multiset(r)| == |s|;
    forall x ensures x in r <==> x in s {
      assert x in r <==> x in multiset(r);
    }
    forall i, j | 0 <= i < j < |r| ensures r[i] != r[j] {
      assert r == r[..j] + r[j..];
      assert r[..j][i] in multiset(r[..j]) && r[j..][0] in multiset(r[j..]);
      assert multiset(r)[r[i]] == 1;
    }
  }

  lemma {:induction false} HeadsAgree<T(!new)>(r: seq<T>, s: seq<T>, le: (T, T) -> bool)
    requires SortedBy(r, le) && SortedBy(s, le) && multiset(r) == multiset(s) && r != []
    requires forall a, b :: a in r && b in r && le(a, b) && le(b, a) ==> a == b
    ensures s != [] && r[0] == s[0]
  {
    assert r[0] in multiset(s);
    var i :| 0 <= i < |s| && s[i] == r[0];
    assert s[0] in multiset(r);
    var j :| 0 <= j < |r| && r[j] == s[0];
    if i > 0 && j > 0 {
      assert le(s[0], s[i]) && le(r[0], r[j]);
    }
  }

  lemma {:induction false} TailBag<T>(r: seq<T>)
    requires r != []
    ensures multiset(r[1..]) == multiset(r) - multiset{r[0]} && r == [r[0]] + r[1..]
  {
    assert r == [r[0]] + r[1..];
  }

  /** Two ascending lists of the same elements are the same list, where no elements tie. */
  lemma {:induction false} SortedIsUnique<T(!new)>(r: seq<T>, s: seq<T>, le: (T, T) -> bool)
    requires SortedBy(r, le) && SortedBy(s, le) && multiset(r) == multiset(s)
    requires forall a, b :: a in r && b in r && le(a, b) && le(b, a) ==> a == b
    ensures r == s
    decreases |r|
  {
    if r == [] {
      assert |multiset(s)| == 0;
    } else {
      HeadsAgree(r, s, le);
      TailBag(r);
      TailBag(s);
      SortedIsUnique(r[1..], s[1..], le);
    }
  }

  function Occurrences<T(==)>(s: seq<T>, x: T): nat {
    if s == [] then 0 else Occurrences(s[..|s| - 1], x) + (if s[|s| - 1] == x then 1 else 0)
  }

  lemma {:induction false} OccurrencesConcat<T>(s: seq<T>, t: seq<T>, x: T)
    ensures Occurrences(s + t, x) == Occurrences(s, x) + Occurrences(t, x)
  {
    if t == [] {
      assert s + t == s;
    } else {
      assert (s + t)[..|s + t| - 1] == s + t[..|t| - 1];
      OccurrencesConcat(s, t[..|t| - 1], x);
    }
  }

  lemma {:induction false} OccurrencesAreCounted<T>(s: seq<T>, x: T)
    ensures multiset(s)[x] == Occurrences(s, x)
  {
    if s != [] {
      var n := |s| - 1;
      assert s == s[..n] + [s[n]];
      OccurrencesAreCounted(s[..n], x);
    }
  }

  lemma {:induction false} SameOccurrencesSameBag<T(!new)>(s: seq<T>, t: seq<T>)
    requires forall x :: Occurrences(s, x) == Occurrences(t, x)
    ensures multiset(s) == multiset(t)
  {
    forall x ensures multiset(s)[x] == multiset(t)[x] {
      OccurrencesAreCounted(s, x);
      OccurrencesAreCounted(t, x);
    }
  }

  lemma {:induction false} RemoveOne<T>(s: seq<T>, x: T) returns (i: nat)
    requires x in s
    ensures i < |s| && s[i] == x && multiset(s[..i] + s[i + 1..]) == multiset(s) - multiset{x}
  {
    i :| 0 <= i < |s| && s[i] == x;
    assert s == s[..i] + [s[i]] + s[i + 1..];
  }

  lemma {:induction false} DropLast<T>(s: seq<T>)
    requires s != []
    ensures multiset(s[..|s| - 1]) == multiset(s) - multiset{s[|s| - 1]}
  {
    assert s == s[..|s| - 1] + [s[|s| - 1]];
  }

  lemma {:induction false} SameBagSameMembers<T>(s: seq<T>, t: seq<T>)
    requires multiset(s) == multiset(t)
    ensures |s| == |t| && forall x :: x in s <==> x in t
  {
    assert |multiset(s)| == |s| && |multiset(t)| == |t|;
    forall x ensures x in s <==> x in t {
      assert x in s <==> x in multiset(s);
      assert x in t <==> x in multiset(t);
    }
  }
}
