/**
 * What the document graph holds, said of the extractions themselves: which entities with
 * which texts, which mentions, and which relationships.
 */
module GraphOutcomes {
  import opened Wrappers
  import opened Strings
  import opened Tables
  import opened EntityModel
  import opened GraphBuild

  /** A name and a type lead to `key`: the name has a normal form, and key and type are normal forms. */
  predicate LeadsToKey(lower: string -> string, name: string, kind: string, key: Key) {
    key == Key(NormalizeName(lower, name), NormalizeKind(kind)) && key.name != []
  }

  lemma {:induction false} KeysAreNormalForms(lower: string -> string, name: string, kind: string, key: Key)
    ensures KeyOf(lower, name, kind) == Some(key) <==> LeadsToKey(lower, name, kind, key)
  {
  }

  /** The text after trimming, if there is any. */
  predicate IsCleaned(text: Option<string>, cleaned: Option<string>) {
    match cleaned
    case Some(t) => text.Some? && t == Trim(text.value) && t != []
    case None => text.None? || Trim(text.value) == []
  }

  // --------------------------------------------------------------- Relationships

  /** The edge that an extracted relationship yields: between two different keys, with its normal type, cleaned description and clamped weight. */
  predicate Yields(lower: string -> string, chunkIndex: int, r: ExtractedRelationship, edge: EntityEdge) {
    && LeadsToKey(lower, r.sourceName, r.sourceKind, edge.source) && LeadsToKey(lower, r.targetName, r.targetKind, edge.target)
    && edge.source != edge.target && edge.kind == NormalizeKind(r.kind) && IsCleaned(r.description, edge.description)
    && edge.weight >= 0.1 && edge.weight >= r.weight && (edge.weight == 0.1 || edge.weight == r.weight) && edge.evidence == chunkIndex
  }

  lemma {:induction false} EdgeIsYielded(lower: string -> string, chunkIndex: int, r: ExtractedRelationship, edge: EntityEdge)
    ensures EdgeOf(lower, chunkIndex, r) == Some(edge) <==> Yields(lower, chunkIndex, r, edge)
  {
  }

  /** One relationship more, one edge more at the end if it yields one. */
  lemma {:induction false} EdgesOneMore(lower: string -> string, chunkIndex: int, rs: seq<ExtractedRelationship>, r: ExtractedRelationship)
    ensures forall edge :: Yields(lower, chunkIndex, r, edge) ==> EdgesOf(lower, chunkIndex, rs + [r]) == EdgesOf(lower, chunkIndex, rs) + [edge]
    ensures (forall edge :: !Yields(lower, chunkIndex, r, edge)) ==> EdgesOf(lower, chunkIndex, rs + [r]) == EdgesOf(lower, chunkIndex, rs)
  {
    assert (rs + [r])[..|rs|] == rs;
    forall edge ensures EdgeOf(lower, chunkIndex, r) == Some(edge) <==> Yields(lower, chunkIndex, r, edge) {
      EdgeIsYielded(lower, chunkIndex, r, edge);
    }
    var last := EdgeOf(lower, chunkIndex, r);
    if last.Some? {
      assert Yields(lower, chunkIndex, r, last.value);
    }
  }

  predicate SomeYields(lower: string -> string, chunkIndex: int, rs: seq<ExtractedRelationship>, edge: EntityEdge) {
    exists j :: 0 <= j < |rs| && Yields(lower, chunkIndex, rs[j], edge)
  }

  lemma {:induction false} SomeYieldsOneMore(lower: string -> string, chunkIndex: int, rs: seq<ExtractedRelationship>, edge: EntityEdge)
    requires rs != []
    ensures var n := |rs| - 1;
            SomeYields(lower, chunkIndex, rs, edge) <==> SomeYields(lower, chunkIndex, rs[..n], edge) || Yields(lower, chunkIndex, rs[n], edge)
  {
    assert forall j :: 0 <= j < |rs| - 1 ==> rs[..|rs| - 1][j] == rs[j];
  }

  predicate ChunkYields(lower: string -> string, e: Extraction, edge: EntityEdge) {
    SomeYields(lower, e.chunkIndex, e.relationships, edge)
  }

  predicate AnyYields(lower: string -> string, extractions: seq<Extraction>, edge: EntityEdge) {
    exists n :: 0 <= n < |extractions| && ChunkYields(lower, extractions[n], edge)
  }

  lemma {:induction false} AnyYieldsOneMore(lower: string -> string, extractions: seq<Extraction>, edge: EntityEdge)
    requires extractions != []
    ensures var n := |extractions| - 1;
            AnyYields(lower, extractions, edge) <==> AnyYields(lower, extractions[..n], edge) || ChunkYields(lower, extractions[n], edge)
  {
    assert forall n :: 0 <= n < |extractions| - 1 ==> extractions[..|extractions| - 1][n] == extractions[n];
  }

  lemma {:induction false} EdgesOfChunk(lower: string -> string, chunkIndex: int, rs: seq<ExtractedRelationship>, edge: EntityEdge)
    ensures edge in EdgesOf(lower, chunkIndex, rs) <==> SomeYields(lower, chunkIndex, rs, edge)
  {
    if rs != [] {
      var n := |rs| - 1;
      EdgesOfChunk(lower, chunkIndex, rs[..n], edge);
      EdgeIsYielded(lower, chunkIndex, rs[n], edge);
      SomeYieldsOneMore(lower, chunkIndex, rs, edge);
    }
  }

  /** The relationships of the graph are exactly the edges that some chunk's relationships yield. */
  lemma {:induction false} EdgesAreExtracted(lower: string -> string, extractions: seq<Extraction>, edge: EntityEdge)
    ensures edge in Edges(lower, extractions) <==> AnyYields(lower, extractions, edge)
  {
    if extractions != [] {
      var n := |extractions| - 1;
      EdgesAreExtracted(lower, extractions[..n], edge);
      EdgesOfChunk(lower, extractions[n].chunkIndex, extractions[n].relationships, edge);
      AnyYieldsOneMore(lower, extractions, edge);
    }
  }

  // -------------------------------------------------------------------- Mentions

  /** The chunk names the key as an entity, or as an end of an edge that it yields. */
  ghost predicate ChunkMentions(lower: string -> string, e: Extraction, key: Key) {
    || (exists i :: 0 <= i < |e.entities| && LeadsToKey(lower, e.entities[i].name, e.entities[i].kind, key))
    || (exists edge :: ChunkYields(lower, e, edge) && IsEndOf(edge, key))
  }

  predicate IsEndOf(edge: EntityEdge, key: Key) {
    edge.source == key || edge.target == key
  }

  lemma {:induction false} EndsAreYielded(lower: string -> string, e: Extraction, key: Key)
    ensures var edges := EdgesOf(lower, e.chunkIndex, e.relationships);
            (exists j :: 0 <= j < |edges| && (edges[j].source == key || edges[j].target == key)) <==>
            exists edge :: ChunkYields(lower, e, edge) && IsEndOf(edge, key)
  {
    var edges := EdgesOf(lower, e.chunkIndex, e.relationships);
    if edge :| ChunkYields(lower, e, edge) && IsEndOf(edge, key) {
      EdgesOfChunk(lower, e.chunkIndex, e.relationships, edge);
      var j :| 0 <= j < |edges| && edges[j] == edge;
    }
    if j :| 0 <= j < |edges| && (edges[j].source == key || edges[j].target == key) {
      EdgesOfChunk(lower, e.chunkIndex, e.relationships, edges[j]);
      assert IsEndOf(edges[j], key);
    }
  }

  lemma {:induction false} NamedIsMentioned(lower: string -> string, e: Extraction, key: Key)
    ensures NamedBy(lower, e.entities, EdgesOf(lower, e.chunkIndex, e.relationships), key) <==> ChunkMentions(lower, e, key)
  {
    EndsAreYielded(lower, e, key);
  }

  /** The mentions of the graph are exactly those of the chunks, each once. */
  lemma {:induction false} MentionsAreExtracted(lower: string -> string, extractions: seq<Extraction>, m: EntityMention)
    ensures Mentioned(lower, extractions, m) <==>
            exists n :: 0 <= n < |extractions| && extractions[n].chunkIndex == m.chunkIndex && ChunkMentions(lower, extractions[n], m.key)
  {
    forall n | 0 <= n < |extractions|
      ensures MentionedIn(lower, extractions[n], m) <==> extractions[n].chunkIndex == m.chunkIndex && ChunkMentions(lower, extractions[n], m.key)
    {
      NamedIsMentioned(lower, extractions[n], m.key);
    }
  }

  // -------------------------------------------------------------------- Entities

  /** The chunk describes the entity with that key by `text`. */
  ghost predicate ChunkDescribes(lower: string -> string, e: Extraction, key: Key, text: string) {
    exists i :: 0 <= i < |e.entities| && LeadsToKey(lower, e.entities[i].name, e.entities[i].kind, key) && IsCleaned(e.entities[i].description, Some(text))
  }

  /** The chunk calls the entity with that key `name`: as an entity, or as an end of a relationship with a named source. */
  ghost predicate ChunkCalls(lower: string -> string, e: Extraction, key: Key, name: string) {
    || (exists i :: 0 <= i < |e.entities| && LeadsToKey(lower, e.entities[i].name, e.entities[i].kind, key) && Trim(e.entities[i].name) == name)
    || (exists j :: 0 <= j < |e.relationships| && EndIsCalled(lower, e.relationships[j], key, name))
  }

  predicate EndIsCalled(lower: string -> string, r: ExtractedRelationship, key: Key, name: string) {
    || (LeadsToKey(lower, r.sourceName, r.sourceKind, key) && Trim(r.sourceName) == name)
    || (NormalizeName(lower, r.sourceName) != [] && LeadsToKey(lower, r.targetName, r.targetKind, key) && Trim(r.targetName) == name)
  }

  ghost predicate AnyDescribes(lower: string -> string, extractions: seq<Extraction>, key: Key, text: string) {
    exists n :: 0 <= n < |extractions| && ChunkDescribes(lower, extractions[n], key, text)
  }

  ghost predicate AnyCalls(lower: string -> string, extractions: seq<Extraction>, key: Key, name: string) {
    exists n :: 0 <= n < |extractions| && ChunkCalls(lower, extractions[n], key, name)
  }

  predicate CallsKey(lower: string -> string, s: Supply, key: Key, name: string) {
    SupplyKey(lower, s) == Some(key) && DisplayName(s.name) == name
  }

  predicate SomeCalls(lower: string -> string, supplies: seq<Supply>, key: Key, name: string) {
    exists s :: s in supplies && CallsKey(lower, s, key, name)
  }

  lemma {:induction false} NamesAreSupplied(lower: string -> string, supplies: seq<Supply>, key: Key, name: string)
    ensures name in NamesFor(lower, supplies, key) <==> SomeCalls(lower, supplies, key, name)
  {
    if supplies != [] {
      var n := |supplies| - 1;
      NamesAreSupplied(lower, supplies[..n], key, name);
      assert supplies == supplies[..n] + [supplies[n]];
      assert SomeCalls(lower, supplies, key, name) <==> SomeCalls(lower, supplies[..n], key, name) || CallsKey(lower, supplies[n], key, name);
    }
  }

  predicate DescribesKey(lower: string -> string, s: Supply, key: Key, text: string) {
    SupplyKey(lower, s) == Some(key) && CleanOptional(s.description) == Some(text)
  }

  predicate SomeDescribes(lower: string -> string, supplies: seq<Supply>, key: Key, text: string) {
    exists s :: s in supplies && DescribesKey(lower, s, key, text)
  }

  lemma {:induction false} DescriptionsAreSupplied(lower: string -> string, supplies: seq<Supply>, key: Key, text: string)
    ensures text in DescriptionsFor(lower, supplies, key) <==> SomeDescribes(lower, supplies, key, text)
  {
    if supplies != [] {
      var n := |supplies| - 1;
      DescriptionsAreSupplied(lower, supplies[..n], key, text);
      assert supplies == supplies[..n] + [supplies[n]];
      assert SomeDescribes(lower, supplies, key, text) <==>
        SomeDescribes(lower, supplies[..n], key, text) || DescribesKey(lower, supplies[n], key, text);
    }
  }

  /** The ends of relationships come without descriptions. */
  lemma {:induction false} EndsAreBare(lower: string -> string, rs: seq<ExtractedRelationship>, s: Supply)
    requires s in RelationshipsSupplies(lower, rs)
    ensures s.description.None?
  {
    var j := RelationshipSupplyNames(lower, rs, s);
  }

  lemma {:induction false} ChunkDescriptions(lower: string -> string, e: Extraction, key: Key, text: string)
    ensures (exists s :: s in ChunkSupplies(lower, e) && DescribesKey(lower, s, key, text)) <==> ChunkDescribes(lower, e, key, text)
  {
    if s :| s in ChunkSupplies(lower, e) && DescribesKey(lower, s, key, text) {
      assert s in EntitySupplies(e.entities) by {
        if s in RelationshipsSupplies(lower, e.relationships) {
          EndsAreBare(lower, e.relationships, s);
        }
      }
      var i := EntitySupplyNames(e.entities, s);
      assert IsCleaned(e.entities[i].description, Some(text));
    }
    if ChunkDescribes(lower, e, key, text) {
      var i :| 0 <= i < |e.entities| && LeadsToKey(lower, e.entities[i].name, e.entities[i].kind, key) && IsCleaned(e.entities[i].description, Some(text));
      EntityIsSupplied(e.entities, i);
      assert DescribesKey(lower, EntitySupply(e.entities[i]), key, text);
    }
  }

  /** The descriptions supplied for a key are those that some chunk gives an entity with it. */
  lemma {:induction false} DescriptionsAreExtracted(lower: string -> string, extractions: seq<Extraction>, key: Key, text: string)
    ensures text in DescriptionsFor(lower, Supplies(lower, extractions), key) <==>
            AnyDescribes(lower, extractions, key, text)
  {
    DescriptionsAreSupplied(lower, Supplies(lower, extractions), key, text);
    if s :| s in Supplies(lower, extractions) && DescribesKey(lower, s, key, text) {
      var n := SupplyHasChunk(lower, extractions, s);
      ChunkDescriptions(lower, extractions[n], key, text);
    }
    if n :| 0 <= n < |extractions| && ChunkDescribes(lower, extractions[n], key, text) {
      ChunkDescriptions(lower, extractions[n], key, text);
      var s :| s in ChunkSupplies(lower, extractions[n]) && DescribesKey(lower, s, key, text);
      ChunkHasSupply(lower, extractions, n, s);
    }
  }

  lemma {:induction false} DisplayIsTrimmed(name: string)
    ensures DisplayName(name) == Trim(name)
  {
  }

  lemma {:induction false} EndIsSupplied(lower: string -> string, rs: seq<ExtractedRelationship>, j: nat, s: Supply)
    requires j < |rs| && s in RelationshipSupplies(lower, rs[j])
    ensures s in RelationshipsSupplies(lower, rs)
  {
    if j < |rs| - 1 {
      EndIsSupplied(lower, rs[..|rs| - 1], j, s);
    }
  }

  lemma {:induction false} EndNames(lower: string -> string, r: ExtractedRelationship, key: Key, name: string)
    ensures (exists s :: s in RelationshipSupplies(lower, r) && CallsKey(lower, s, key, name)) <==> EndIsCalled(lower, r, key, name)
  {
    DisplayIsTrimmed(r.sourceName);
    DisplayIsTrimmed(r.targetName);
    var supplies := RelationshipSupplies(lower, r);
    assert supplies[0] in supplies;
    if |supplies| == 2 {
      assert supplies[1] in supplies;
    }
  }

  lemma {:induction false} ChunkNames(lower: string -> string, e: Extraction, key: Key, name: string)
    ensures (exists s :: s in ChunkSupplies(lower, e) && CallsKey(lower, s, key, name)) <==> ChunkCalls(lower, e, key, name)
  {
    if s :| s in ChunkSupplies(lower, e) && CallsKey(lower, s, key, name) {
      if s in EntitySupplies(e.entities) {
        var i := EntitySupplyNames(e.entities, s);
        DisplayIsTrimmed(e.entities[i].name);
      } else {
        var j := RelationshipSupplyNames(lower, e.relationships, s);
        EndNames(lower, e.relationships[j], key, name);
      }
    }
    if i :| 0 <= i < |e.entities| && LeadsToKey(lower, e.entities[i].name, e.entities[i].kind, key) && Trim(e.entities[i].name) == name {
      EntityIsSupplied(e.entities, i);
      DisplayIsTrimmed(e.entities[i].name);
      assert CallsKey(lower, EntitySupply(e.entities[i]), key, name);
    }
    if j :| 0 <= j < |e.relationships| && EndIsCalled(lower, e.relationships[j], key, name) {
      EndNames(lower, e.relationships[j], key, name);
      var s :| s in RelationshipSupplies(lower, e.relationships[j]) && CallsKey(lower, s, key, name);
      EndIsSupplied(lower, e.relationships, j, s);
      assert s in ChunkSupplies(lower, e);
    }
  }

  /** The names supplied for a key are what some chunk calls it. */
  lemma {:induction false} NamesAreExtracted(lower: string -> string, extractions: seq<Extraction>, key: Key, name: string)
    ensures name in NamesFor(lower, Supplies(lower, extractions), key) <==>
            AnyCalls(lower, extractions, key, name)
  {
    NamesAreSupplied(lower, Supplies(lower, extractions), key, name);
    if s :| s in Supplies(lower, extractions) && CallsKey(lower, s, key, name) {
      var n := SupplyHasChunk(lower, extractions, s);
      ChunkNames(lower, extractions[n], key, name);
    }
    if n :| 0 <= n < |extractions| && ChunkCalls(lower, extractions[n], key, name) {
      ChunkNames(lower, extractions[n], key, name);
      var s :| s in ChunkSupplies(lower, extractions[n]) && CallsKey(lower, s, key, name);
      ChunkHasSupply(lower, extractions, n, s);
    }
  }

  /** Of all that the chunks call a key, the name is one of the longest, in bytes. */
  ghost predicate IsLongestName(lower: string -> string, extractions: seq<Extraction>, key: Key, name: string) {
    AnyCalls(lower, extractions, key, name) && forall other :: AnyCalls(lower, extractions, key, other) ==> ByteLen(other) <= ByteLen(name)
  }

  /** Of all descriptions that the chunks give a key, one of the longest; none only if there is none. */
  ghost predicate IsLongestDescription(lower: string -> string, extractions: seq<Extraction>, key: Key, description: Option<string>) {
    match description
    case None => forall text :: !AnyDescribes(lower, extractions, key, text)
    case Some(text) =>
      && AnyDescribes(lower, extractions, key, text)
      && forall other :: AnyDescribes(lower, extractions, key, other) ==> ByteLen(other) <= ByteLen(text)
  }

  /**
   * An entity is called by one of the longest names that the chunks give it, described by
   * one of their longest descriptions, if there is any, and has its own vector.
   */
  lemma {:induction false} EntitiesAreExtracted(lower: string -> string, extractions: seq<Extraction>, vectors: seq<seq<real>>, g: DocumentGraph, i: nat)
    requires IsGraphOf(lower, extractions, vectors, g) && i < |g.entities|
    ensures IsLongestName(lower, extractions, g.entities[i].key, g.entities[i].name)
    ensures IsLongestDescription(lower, extractions, g.entities[i].key, g.entities[i].description)
    ensures g.entities[i].embedding == vectors[i]
  {
    BuiltEntitiesAreBest(lower, extractions, vectors, g, i);
    NameIsLongest(lower, extractions, g.entities[i].key, g.entities[i].name);
    DescriptionIsLongest(lower, extractions, g.entities[i].key, g.entities[i].description);
  }

  lemma {:induction false} NameIsLongest(lower: string -> string, extractions: seq<Extraction>, key: Key, name: string)
    requires EarliestLongest(NamesFor(lower, Supplies(lower, extractions), key), Some(name))
    ensures IsLongestName(lower, extractions, key, name)
  {
    NamesAreExtracted(lower, extractions, key, name);
    forall other | AnyCalls(lower, extractions, key, other) ensures ByteLen(other) <= ByteLen(name) {
      NamesAreExtracted(lower, extractions, key, other);
    }
  }

  lemma {:induction false} DescriptionIsLongest(lower: string -> string, extractions: seq<Extraction>, key: Key, description: Option<string>)
    requires EarliestLongest(DescriptionsFor(lower, Supplies(lower, extractions), key), description)
    ensures IsLongestDescription(lower, extractions, key, description)
  {
    forall text ensures text in DescriptionsFor(lower, Supplies(lower, extractions), key) <==> AnyDescribes(lower, extractions, key, text) {
      DescriptionsAreExtracted(lower, extractions, key, text);
    }
  }

  /** There is an entity for exactly the keys that some chunk calls by a name. */
  lemma {:induction false} KeysAreExtracted(lower: string -> string, extractions: seq<Extraction>, vectors: seq<seq<real>>, g: DocumentGraph, key: Key)
    requires IsGraphOf(lower, extractions, vectors, g)
    ensures HasEntity(g, key) <==> exists name :: AnyCalls(lower, extractions, key, name)
  {
    AggregateKeepsKeys(lower, Supplies(lower, extractions));
    SuppliedIsCalled(lower, extractions, key);
  }

  lemma {:induction false} SuppliedIsCalled(lower: string -> string, extractions: seq<Extraction>, key: Key)
    ensures (exists s :: s in Supplies(lower, extractions) && SupplyKey(lower, s) == Some(key)) <==> exists name :: AnyCalls(lower, extractions, key, name)
  {
    var supplies := Supplies(lower, extractions);
    forall name ensures SomeCalls(lower, supplies, key, name) <==> AnyCalls(lower, extractions, key, name) {
      NamesAreSupplied(lower, supplies, key, name);
      NamesAreExtracted(lower, extractions, key, name);
    }
    forall s | s in supplies && SupplyKey(lower, s) == Some(key) ensures SomeCalls(lower, supplies, key, DisplayName(s.name)) {
      assert CallsKey(lower, s, key, DisplayName(s.name));
    }
  }
}
