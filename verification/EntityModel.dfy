/** Extraction input and document-graph output, and the normalisation of their texts. */
module EntityModel {
  import opened Wrappers
  import opened Strings
  import opened Tables

  datatype ExtractedEntity = ExtractedEntity(name: string, kind: string, description: Option<string>)

  datatype ExtractedRelationship = ExtractedRelationship(
    sourceName: string,
    sourceKind: string,
    targetName: string,
    targetKind: string,
    kind: string,
    description: Option<string>,
    weight: real
  )

  datatype Extraction = Extraction(
    chunkIndex: int,
    entities: seq<ExtractedEntity>,
    relationships: seq<ExtractedRelationship>
  )

  datatype EntityNode = EntityNode(key: Key, name: string, description: Option<string>, embedding: seq<real>)

  datatype EntityMention = EntityMention(chunkIndex: int, key: Key)

  datatype EntityEdge = EntityEdge(
    source: Key,
    target: Key,
    kind: string,
    description: Option<string>,
    weight: real,
    evidence: int
  )

  datatype DocumentGraph = DocumentGraph(
    entities: seq<EntityNode>,
    mentions: seq<EntityMention>,
    relationships: seq<EntityEdge>
  ) {
    predicate IsEmpty() {
      entities == [] && mentions == [] && relationships == []
    }
  }

  const DEFAULT_ENTITY_TYPE: string := "CONCEPT"

  /** The maximal runs of characters that are not white space. */
  function Words(s: string): seq<string>
    decreases |s|
  {
    var t := TrimStart(s);
    if t == [] then []
    else
      TrimStartIsShorter(s);
      var n := WordLength(t);
      [t[..n]] + Words(t[n..])
  }

  function WordLength(s: string): (n: nat)
    ensures n <= |s|
    ensures s != [] && !IsWhitespace(s[0]) ==> n > 0
  {
    if s == [] || IsWhitespace(s[0]) then 0 else 1 + WordLength(s[1..])
  }

  lemma {:induction false} TrimStartIsShorter(s: string)
    ensures |TrimStart(s)| <= |s|
    ensures TrimStart(s) != [] ==> !IsWhitespace(TrimStart(s)[0])
  {
    if s != [] && IsWhitespace(s[0]) {
      TrimStartIsShorter(s[1..]);
    }
  }

  // ------------------------------------------------------------ What words are

  lemma {:induction false} TrimStartSkips(blank: string, s: string)
    requires IsBlank(blank)
    ensures TrimStart(blank + s) == TrimStart(s)
  {
    if blank == [] {
      assert blank + s == s;
    } else {
      assert (blank + s)[0] == blank[0] && (blank + s)[1..] == blank[1..] + s;
      TrimStartSkips(blank[1..], s);
    }
  }

  lemma {:induction false} WordLengthExactly(s: string, n: nat)
    requires n <= |s| && (forall i :: 0 <= i < n ==> !IsWhitespace(s[i])) && (n < |s| ==> IsWhitespace(s[n]))
    ensures WordLength(s) == n
  {
    if n > 0 {
      WordLengthExactly(s[1..], n - 1);
    }
  }

  lemma {:induction false} WordLengthStops(s: string)
    ensures var n := WordLength(s); (forall i :: 0 <= i < n ==> !IsWhitespace(s[i])) && (n < |s| ==> IsWhitespace(s[n]))
  {
    if s != [] && !IsWhitespace(s[0]) {
      WordLengthStops(s[1..]);
      assert forall i :: 1 <= i < WordLength(s) ==> s[i] == s[1..][i - 1];
    }
  }

  /** A string that is nothing but white space has no words. */
  lemma {:induction false} BlankHasNoWords(s: string)
    requires IsBlank(s)
    ensures Words(s) == []
  {
    TrimStartSkips(s, "");
    assert s + "" == s;
  }

  predicate IsWord(w: string) {
    w != [] && forall i :: 0 <= i < |w| ==> !IsWhitespace(w[i])
  }

  /** A string without white space is its own only word. */
  lemma {:induction false} WordIsItself(w: string)
    requires IsWord(w)
    ensures Words(w) == [w]
  {
    WordLengthExactly(w, |w|);
    FirstWord(w, |w|);
    assert w[..|w|] == w && w[|w|..] == "" && Words("") == [];
  }

  lemma {:induction false} FirstWord(s: string, n: nat)
    requires s != [] && !IsWhitespace(s[0]) && n == WordLength(s)
    ensures n <= |s| && Words(s) == [s[..n]] + Words(s[n..])
  {
    assert TrimStart(s) == s;
  }

  lemma {:induction false} WordsOfTrimmed(before: string, s: string)
    requires IsBlank(before)
    ensures Words(before + s) == Words(s)
  {
    TrimStartSkips(before, s);
  }

  /** White space separates words, however much of it there is. */
  lemma {:induction false} SpaceSeparatesWords(a: string, blank: string, b: string)
    requires blank != [] && IsBlank(blank)
    ensures Words(a + blank + b) == Words(a) + Words(b)
  {
    assert a + blank + b == a + (blank + b);
    WordsBeforeSpace(a, blank + b);
    WordsOfTrimmed(blank, b);
  }

  lemma {:induction false} WordsBeforeSpace(a: string, rest: string)
    requires rest != [] && IsWhitespace(rest[0])
    ensures Words(a + rest) == Words(a) + Words(rest)
    decreases |a|
  {
    var before := TrimStartExactly(a);
    var t := TrimStart(a);
    WordsOfTrimmed(before, t);
    WordsOfTrimmed(before, t + rest);
    assert a + rest == before + (t + rest);
    if t == [] {
      assert t + rest == rest;
      BlankHasNoWords("");
    } else {
      var n := FirstWordThenSpace(t, rest);
      WordsBeforeSpace(t[n..], rest);
      Associates([t[..n]], Words(t[n..]), Words(rest));
    }
  }

  lemma {:induction false} FirstWordThenSpace(t: string, rest: string) returns (n: nat)
    requires t != [] && !IsWhitespace(t[0]) && rest != [] && IsWhitespace(rest[0])
    ensures 0 < n <= |t| && Words(t) == [t[..n]] + Words(t[n..]) && Words(t + rest) == [t[..n]] + Words(t[n..] + rest)
  {
    n := WordLength(t);
    WordLengthStops(t);
    WordLengthExactly(t + rest, n);
    FirstWord(t, n);
    FirstWord(t + rest, n);
    assert (t + rest)[..n] == t[..n] && (t + rest)[n..] == t[n..] + rest;
  }

  lemma {:induction false} Associates(a: seq<string>, b: seq<string>, c: seq<string>)
    ensures a + (b + c) == (a + b) + c
  {
  }

  predicate AreWords(words: seq<string>) {
    forall i :: 0 <= i < |words| ==> IsWord(words[i])
  }

  lemma {:induction false} WordsAreWords(s: string)
    ensures AreWords(Words(s))
    decreases |s|
  {
    var t := TrimStart(s);
    if t != [] {
      TrimStartIsShorter(s);
      WordLengthStops(t);
      WordsAreWords(t[WordLength(t)..]);
    }
  }

  lemma {:induction false} JoinedWords(words: seq<string>)
    requires AreWords(words)
    ensures Words(Join(words, " ")) == words
  {
    if |words| == 1 {
      WordIsItself(words[0]);
    } else if words != [] {
      JoinedWords(words[1..]);
      WordIsItself(words[0]);
      SpaceSeparatesWords(words[0], " ", Join(words[1..], " "));
    }
  }

  /** `lower` stands for Unicode lower-casing. */
  function NormalizeName(lower: string -> string, value: string): string {
    lower(Join(Words(value), " "))
  }

  function NormalizeKind(value: string): string {
    var t := Trim(value);
    if t == [] then DEFAULT_ENTITY_TYPE else seq(|t|, i requires 0 <= i < |t| => KindChar(t[i]))
  }

  function KindChar(c: char): char {
    if 'a' <= c <= 'z' then ((c as int) - ('a' as int) + ('A' as int)) as char
    else if 'A' <= c <= 'Z' || '0' <= c <= '9' then c
    else '_'
  }

  /**
   * Normalising is lower-casing the words, joined by single spaces; before lower-casing two
   * names agree exactly when they have the same words, and blank names come out empty.
   */
  lemma {:induction false} NamesAgreeExactly(lower: string -> string, a: string, b: string)
    ensures NormalizeName(lower, a) == lower(NormalizeName((s: string) => s, a))
    ensures NormalizeName((s: string) => s, a) == NormalizeName((s: string) => s, b) <==> Words(a) == Words(b)
    ensures NormalizeName((s: string) => s, a) == [] <==> IsBlank(a)
  {
    WordsAreWords(a);
    WordsAreWords(b);
    JoinedWords(Words(a));
    JoinedWords(Words(b));
    if IsBlank(a) {
      BlankHasNoWords(a);
    } else {
      var before := TrimStartExactly(a);
      assert TrimStart(a) == [] ==> a == before;
      assert Words(a) != [] && Words("") == [];
    }
  }

  predicate IsKindChar(c: char) {
    'A' <= c <= 'Z' || '0' <= c <= '9' || c == '_'
  }

  /** A blank type is the default; of any other the trimmed letters become capitals, digits stay, and the rest become underscores. */
  lemma {:induction false} KindIsNormal(value: string)
    ensures var r, t := NormalizeKind(value), Trim(value);
            if t == [] then r == "CONCEPT"
            else
              && |r| == |t| && forall i :: 0 <= i < |t| ==>
                   && IsKindChar(r[i])
                   && (IsKindChar(t[i]) ==> r[i] == t[i])
                   && ('a' <= t[i] <= 'z' ==> r[i] as int - 'A' as int == t[i] as int - 'a' as int)
                   && (!IsKindChar(t[i]) && !('a' <= t[i] <= 'z') ==> r[i] == '_')
    ensures NormalizeKind(NormalizeKind(value)) == NormalizeKind(value)
  {
    var r := NormalizeKind(value);
    assert forall i :: 0 <= i < |r| ==> IsKindChar(r[i]) && !IsWhitespace(r[i]);
    assert r != [] && Trim(r) == r;
    assert forall i :: 0 <= i < |r| ==> KindChar(r[i]) == r[i];
  }

  function CleanRequired(value: string): Option<string> {
    var t := Trim(value);
    if t == [] then None else Some(t)
  }

  function CleanOptional(value: Option<string>): Option<string> {
    match value
    case None => None
    case Some(text) => CleanRequired(text)
  }

  predicate KeyLe(a: Key, b: Key) {
    if a.name == b.name then StringLe(a.kind, b.kind) else StringLe(a.name, b.name)
  }

  predicate MentionLe(a: EntityMention, b: EntityMention) {
    a.chunkIndex < b.chunkIndex || (a.chunkIndex == b.chunkIndex && KeyLe(a.key, b.key))
  }

  lemma {:induction false} KeyLeIsTransitive(a: Key, b: Key, c: Key)
    requires KeyLe(a, b) && KeyLe(b, c)
    ensures KeyLe(a, c)
  {
    if a.name == b.name == c.name {
      StringLeIsTransitive(a.kind, b.kind, c.kind);
    } else if a.name != b.name && b.name != c.name {
      StringLeIsTransitive(a.name, b.name, c.name);
      StringLeIsTotal(a.name, b.name);
    }
  }

  lemma {:induction false} KeyLeIsTotal(a: Key, b: Key)
    ensures KeyLe(a, b) || KeyLe(b, a)
    ensures KeyLe(a, b) && KeyLe(b, a) ==> a == b
  {
    StringLeIsTotal(a.name, b.name);
    StringLeIsTotal(a.kind, b.kind);
  }
}
