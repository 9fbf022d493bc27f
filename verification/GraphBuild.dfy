/**
 * Aggregation of per-chunk extractions into one document graph: entities are merged
 * by normalised key, and only relationships between two named, different entities count.
 */
module GraphBuild {
  import opened Wrappers
  import opened Strings
  import opened Sorting
  import opened Tables
  import opened EntityModel

  datatype Aggregated = Aggregated(key: Key, name: string, description: Option<string>)

  /** One call of the upsert: an entity as some chunk names it. */
  datatype Supply = Supply(name: string, kind: string, description: Option<string>)

  function KeyOf(lower: string -> string, name: string, kind: string): Option<Key> {
    var normalized := NormalizeName(lower, name);
    if normalized == [] then None else Some(Key(normalized, NormalizeKind(kind)))
  }

  function SupplyKey(lower: string -> string, s: Supply): Option<Key> {
    KeyOf(lower, s.name, s.kind)
  }

  predicate ShouldReplaceDescription(current: Option<string>, candidate: Option<string>) {
    match (current, candidate)
    case (None, Some(_)) => true
    case (Some(old'), Some(new')) => ByteLen(new') > ByteLen(old')
    case _ => false
  }

  function DisplayName(name: string): string {
    match CleanRequired(name)
    case Some(text) => text
    case None => Trim(name)
  }

  method UpsertAggregatedEntity(lower: string -> string, byKey: map<Key, Aggregated>, supply: Supply)
    returns (byKey': map<Key, Aggregated>, key: Option<Key>)
    ensures key == SupplyKey(lower, supply)
    ensures byKey' == Merge(lower, byKey, supply)
    ensures key.None? ==> byKey' == byKey
    ensures key.Some? ==> key.value in byKey' && byKey' - {key.value} == byKey - {key.value}
    ensures key.Some? ==> forall names, descriptions :: KeptBest(byKey, key.value, names, descriptions) ==>
              KeptBest(byKey', key.value, names + [DisplayName(supply.name)], descriptions + Described(supply))
  {
    byKey' := byKey;
    var description := CleanOptional(supply.description);
    key := KeyOf(lower, supply.name, supply.kind);
    if key.Some? {
      var name := DisplayName(supply.name);
      if key.value in byKey' {
        var entity := byKey'[key.value];
        if ByteLen(entity.name) < ByteLen(name) {
          entity := entity.(name := name);
        }
        if ShouldReplaceDescription(entity.description, description) {
          entity := entity.(description := description);
        }
        byKey' := byKey'[key.value := entity];
      } else {
        byKey' := byKey'[key.value := Aggregated(key.value, name, description)];
      }
      forall names, descriptions | KeptBest(byKey, key.value, names, descriptions)
        ensures KeptBest(byKey', key.value, names + [DisplayName(supply.name)], descriptions + Described(supply))
      {
        MergeKeepsBest(lower, byKey, supply, key.value, names, descriptions);
      }
    }
  }

  // -------------------------------------------------------------- Specification

  function Merge(lower: string -> string, byKey: map<Key, Aggregated>, s: Supply): map<Key, Aggregated> {
    match SupplyKey(lower, s)
    case None => byKey
    case Some(key) =>
      var candidate := Aggregated(key, DisplayName(s.name), CleanOptional(s.description));
      if key !in byKey then byKey[key := candidate]
      else byKey[key := Aggregated(byKey[key].key,
                                   if ByteLen(byKey[key].name) < ByteLen(candidate.name) then candidate.name else byKey[key].name,
                                   if ShouldReplaceDescription(byKey[key].description, candidate.description)
                                   then candidate.description else byKey[key].description)]
  }

  function Aggregate(lower: string -> string, supplies: seq<Supply>): map<Key, Aggregated> {
    if supplies == [] then map[]
    else Merge(lower, Aggregate(lower, supplies[..|supplies| - 1]), supplies[|supplies| - 1])
  }

  /** The display names, and the cleaned descriptions, supplied for a key, in order. */
  function NamesFor(lower: string -> string, supplies: seq<Supply>, key: Key): seq<string> {
    if supplies == [] then []
    else
      var s := supplies[|supplies| - 1];
      NamesFor(lower, supplies[..|supplies| - 1], key) + (if SupplyKey(lower, s) == Some(key) then [DisplayName(s.name)] else [])
  }

  function DescriptionsFor(lower: string -> string, supplies: seq<Supply>, key: Key): seq<string> {
    if supplies == [] then []
    else
      var s := supplies[|supplies| - 1];
      var text := CleanOptional(s.description);
      DescriptionsFor(lower, supplies[..|supplies| - 1], key) +
      (if SupplyKey(lower, s) == Some(key) && text.Some? then [text.value] else [])
  }

  function SourceSupply(r: ExtractedRelationship): Supply {
    Supply(r.sourceName, r.sourceKind, None)
  }

  function TargetSupply(r: ExtractedRelationship): Supply {
    Supply(r.targetName, r.targetKind, None)
  }

  /** A relationship without a source name stops before its target is looked at. */
  function RelationshipSupplies(lower: string -> string, r: ExtractedRelationship): seq<Supply> {
    if SupplyKey(lower, SourceSupply(r)).None? then [SourceSupply(r)] else [SourceSupply(r), TargetSupply(r)]
  }

  function EntitySupply(e: ExtractedEntity): Supply {
    Supply(e.name, e.kind, e.description)
  }

  function EntitySupplies(entities: seq<ExtractedEntity>): seq<Supply> {
    if entities == [] then []
    else EntitySupplies(entities[..|entities| - 1]) + [EntitySupply(entities[|entities| - 1])]
  }

  function RelationshipsSupplies(lower: string -> string, rs: seq<ExtractedRelationship>): seq<Supply> {
    if rs == [] then []
    else RelationshipsSupplies(lower, rs[..|rs| - 1]) + RelationshipSupplies(lower, rs[|rs| - 1])
  }

  function Supplies(lower: string -> string, extractions: seq<Extraction>): seq<Supply> {
    if extractions == [] then []
    else
      var e := extractions[|extractions| - 1];
      Supplies(lower, extractions[..|extractions| - 1]) + EntitySupplies(e.entities) + RelationshipsSupplies(lower, e.relationships)
  }

  /** The edge a relationship becomes, when both ends are named and differ. */
  function EdgeOf(lower: string -> string, chunkIndex: int, r: ExtractedRelationship): Option<EntityEdge> {
    match (SupplyKey(lower, SourceSupply(r)), SupplyKey(lower, TargetSupply(r)))
    case (Some(source), Some(target)) =>
      if source == target then None
      else Some(EntityEdge(source, target, NormalizeKind(r.kind), CleanOptional(r.description),
                           if r.weight < MIN_WEIGHT then MIN_WEIGHT else r.weight, chunkIndex))
    case _ => None
  }

  function EdgesOf(lower: string -> string, chunkIndex: int, rs: seq<ExtractedRelationship>): seq<EntityEdge> {
    if rs == [] then []
    else
      var edge := EdgeOf(lower, chunkIndex, rs[|rs| - 1]);
      EdgesOf(lower, chunkIndex, rs[..|rs| - 1]) + (if edge.Some? then [edge.value] else [])
  }

  function Edges(lower: string -> string, extractions: seq<Extraction>): seq<EntityEdge> {
    if extractions == [] then []
    else
      var e := extractions[|extractions| - 1];
      Edges(lower, extractions[..|extractions| - 1]) + EdgesOf(lower, e.chunkIndex, e.relationships)
  }

  /** `key` is named by one of the entities, or by an end of one of the edges. */
  ghost predicate NamedBy(lower: string -> string, entities: seq<ExtractedEntity>, edges: seq<EntityEdge>, key: Key) {
    || (exists i :: 0 <= i < |entities| && KeyOf(lower, entities[i].name, entities[i].kind) == Some(key))
    || (exists j :: 0 <= j < |edges| && (edges[j].source == key || edges[j].target == key))
  }

  ghost predicate MentionedIn(lower: string -> string, e: Extraction, mention: EntityMention) {
    mention.chunkIndex == e.chunkIndex && NamedBy(lower, e.entities, EdgesOf(lower, e.chunkIndex, e.relationships), mention.key)
  }

  ghost predicate Mentioned(lower: string -> string, extractions: seq<Extraction>, mention: EntityMention) {
    exists n :: 0 <= n < |extractions| && MentionedIn(lower, extractions[n], mention)
  }

  // ------------------------------------------------------------------ Algorithm

  /** The cleaned description of a supply, if it has one. */
  function Described(s: Supply): seq<string> {
    var text := CleanOptional(s.description);
    if text.Some? then [text.value] else []
  }

  datatype BuildError = Embedding | EmbeddingCountMismatch(expected: nat, actual: nat)

  function EmbeddingText(entity: Aggregated): (text: string)
    ensures text == entity.name + " [" + entity.key.kind + "]" + (if entity.description.Some? then "\n" + entity.description.value else "")
  {
    match entity.description
    case Some(description) => entity.name + " [" + entity.key.kind + "]\n" + description
    case None => entity.name + " [" + entity.key.kind + "]"
  }

  /** Another supply, seen by the specification at the end of the list so far. */
  lemma {:induction false} AggregateSnoc(lower: string -> string, supplies: seq<Supply>, s: Supply)
    ensures Aggregate(lower, supplies + [s]) == Merge(lower, Aggregate(lower, supplies), s)
  {
    assert (supplies + [s])[..|supplies|] == supplies;
  }

  /** A relationship without a source name stops before its target is upserted. */
  function MergeEnds(lower: string -> string, byKey: map<Key, Aggregated>, r: ExtractedRelationship): map<Key, Aggregated> {
    var withSource := Merge(lower, byKey, SourceSupply(r));
    if SupplyKey(lower, SourceSupply(r)).None? then withSource else Merge(lower, withSource, TargetSupply(r))
  }

  lemma {:induction false} EntityStep(lower: string -> string, before: seq<Supply>, entities: seq<ExtractedEntity>, i: nat)
    requires i < |entities|
    ensures Aggregate(lower, before + EntitySupplies(entities[..i + 1])) ==
            Merge(lower, Aggregate(lower, before + EntitySupplies(entities[..i])), EntitySupply(entities[i]))
  {
    var supplies := before + EntitySupplies(entities[..i]);
    assert entities[..i + 1][..i] == entities[..i];
    assert before + EntitySupplies(entities[..i + 1]) == supplies + [EntitySupply(entities[i])];
    AggregateSnoc(lower, supplies, EntitySupply(entities[i]));
  }

  lemma {:induction false} RelationshipStep(lower: string -> string, before: seq<Supply>, rs: seq<ExtractedRelationship>, j: nat)
    requires j < |rs|
    ensures Aggregate(lower, before + RelationshipsSupplies(lower, rs[..j + 1])) ==
            MergeEnds(lower, Aggregate(lower, before + RelationshipsSupplies(lower, rs[..j])), rs[j])
  {
    var supplies := before + RelationshipsSupplies(lower, rs[..j]);
    assert rs[..j + 1][..j] == rs[..j];
    var one := supplies + [SourceSupply(rs[j])];
    AggregateSnoc(lower, supplies, SourceSupply(rs[j]));
    AggregateSnoc(lower, one, TargetSupply(rs[j]));
    if SupplyKey(lower, SourceSupply(rs[j])).None? {
      assert before + RelationshipsSupplies(lower, rs[..j + 1]) == one;
    } else {
      assert before + RelationshipsSupplies(lower, rs[..j + 1]) == one + [TargetSupply(rs[j])];
    }
  }

  lemma {:induction false} EdgeStep(lower: string -> string, chunkIndex: int, rs: seq<ExtractedRelationship>, j: nat)
    requires j < |rs|
    ensures var edge := EdgeOf(lower, chunkIndex, rs[j]);
            EdgesOf(lower, chunkIndex, rs[..j + 1]) == EdgesOf(lower, chunkIndex, rs[..j]) + (if edge.Some? then [edge.value] else [])
  {
    assert rs[..j + 1][..j] == rs[..j];
  }

  /** The keys are exactly those that the entities and the edges name. */
  ghost predicate Marks(lower: string -> string, entities: seq<ExtractedEntity>, edges: seq<EntityEdge>, keys: set<Key>) {
    forall key :: key in keys <==> NamedBy(lower, entities, edges, key)
  }

  /** The entity loop of one chunk. */
  method AddEntities(lower: string -> string, byKey: map<Key, Aggregated>, entities: seq<ExtractedEntity>, ghost before: seq<Supply>)
    returns (byKey': map<Key, Aggregated>, mentionedKeys: set<Key>)
    requires byKey == Aggregate(lower, before)
    ensures byKey' == Aggregate(lower, before + EntitySupplies(entities))
    ensures Marks(lower, entities, [], mentionedKeys)
  {
    byKey', mentionedKeys := byKey, {};
    assert before + EntitySupplies([]) == before;
    for i := 0 to |entities|
      invariant byKey' == Aggregate(lower, before + EntitySupplies(entities[..i]))
      invariant Marks(lower, entities[..i], [], mentionedKeys)
    {
      var entity := entities[i];
      var key;
      byKey', key := UpsertAggregatedEntity(lower, byKey', EntitySupply(entity));
      EntityStep(lower, before, entities, i);
      if key.Some? {
        mentionedKeys := mentionedKeys + {key.value};
      }
      NamedByOneMore(lower, entities, i);
    }
    assert entities[..|entities|] == entities;
  }

  function OneKey(key: Option<Key>): set<Key> {
    if key.Some? then {key.value} else {}
  }

  /** One relationship: both ends are upserted, and it counts when they are named and differ. */
  method AddRelationship(lower: string -> string, byKey: map<Key, Aggregated>, chunkIndex: int, relationship: ExtractedRelationship)
    returns (byKey': map<Key, Aggregated>, edge: Option<EntityEdge>)
    ensures byKey' == MergeEnds(lower, byKey, relationship)
    ensures edge == EdgeOf(lower, chunkIndex, relationship)
    ensures var (source, target) := (SupplyKey(lower, SourceSupply(relationship)), SupplyKey(lower, TargetSupply(relationship)));
            && (edge.Some? <==> source.Some? && target.Some? && source != target)
            && (edge.Some? ==> Some(edge.value.source) == source && Some(edge.value.target) == target && edge.value.evidence == chunkIndex)
            && byKey'.Keys == byKey.Keys + OneKey(source) + (if source.Some? then OneKey(target) else {})
    ensures edge.Some? ==> edge.value.weight >= MIN_WEIGHT && edge.value.weight >= relationship.weight
    ensures edge.Some? && relationship.weight >= MIN_WEIGHT ==> edge.value.weight == relationship.weight
  {
    var source, target;
    byKey', source := UpsertAggregatedEntity(lower, byKey, SourceSupply(relationship));
    if source.None? {
      return byKey', None;
    }
    byKey', target := UpsertAggregatedEntity(lower, byKey', TargetSupply(relationship));
    if target.None? || source == target {
      return byKey', None;
    }
    edge := Some(EntityEdge(source.value, target.value, NormalizeKind(relationship.kind), CleanOptional(relationship.description),
                            if relationship.weight < MIN_WEIGHT then MIN_WEIGHT else relationship.weight, chunkIndex));
  }

  /** The relationship loop of one chunk. */
  method AddRelationships(lower: string -> string, byKey: map<Key, Aggregated>, extraction: Extraction, mentionedKeys: set<Key>,
                          ghost before: seq<Supply>)
    returns (byKey': map<Key, Aggregated>, mentionedKeys': set<Key>, edges: seq<EntityEdge>)
    requires byKey == Aggregate(lower, before)
    requires Marks(lower, extraction.entities, [], mentionedKeys)
    ensures byKey' == Aggregate(lower, before + RelationshipsSupplies(lower, extraction.relationships))
    ensures edges == EdgesOf(lower, extraction.chunkIndex, extraction.relationships)
    ensures Marks(lower, extraction.entities, edges, mentionedKeys')
  {
    var rs := extraction.relationships;
    byKey', mentionedKeys', edges := byKey, mentionedKeys, [];
    assert before + RelationshipsSupplies(lower, []) == before;
    for j := 0 to |rs|
      invariant byKey' == Aggregate(lower, before + RelationshipsSupplies(lower, rs[..j]))
      invariant edges == EdgesOf(lower, extraction.chunkIndex, rs[..j])
      invariant Marks(lower, extraction.entities, edges, mentionedKeys')
    {
      var relationship := rs[j];
      RelationshipStep(lower, before, rs, j);
      EdgeStep(lower, extraction.chunkIndex, rs, j);
      var edge;
      byKey', edge := AddRelationship(lower, byKey', extraction.chunkIndex, relationship);
      if edge.Some? {
        NamedByEdge(lower, extraction.entities, edges, edge.value, mentionedKeys');
        mentionedKeys' := mentionedKeys' + {edge.value.source} + {edge.value.target};
        edges := edges + [edge.value];
      }
    }
    assert rs[..|rs|] == rs;
  }

  /** The aggregation loop over the chunks, before any embedding is requested. */
  method AggregateExtractions(lower: string -> string, extractions: seq<Extraction>)
    returns (byKey: map<Key, Aggregated>, mentions: set<EntityMention>, relationships: seq<EntityEdge>)
    ensures byKey == Aggregate(lower, Supplies(lower, extractions))
    ensures forall m :: m in mentions <==> Mentioned(lower, extractions, m)
    ensures relationships == Edges(lower, extractions)
  {
    byKey, mentions, relationships := map[], {}, [];
    for n := 0 to |extractions|
      invariant byKey == Aggregate(lower, Supplies(lower, extractions[..n]))
      invariant forall m :: m in mentions <==> Mentioned(lower, extractions[..n], m)
      invariant relationships == Edges(lower, extractions[..n])
    {
      var extraction := extractions[n];
      assert extractions[..n + 1][..n] == extractions[..n];
      ghost var supplies := Supplies(lower, extractions[..n]);
      var mentionedKeys, edges;
      byKey, mentionedKeys := AddEntities(lower, byKey, extraction.entities, supplies);
      byKey, mentionedKeys, edges := AddRelationships(lower, byKey, extraction, mentionedKeys, supplies + EntitySupplies(extraction.entities));
      relationships := relationships + edges;
      mentions := mentions + set key | key in mentionedKeys :: EntityMention(extraction.chunkIndex, key);
      MentionedOneMore(lower, extractions, n);
    }
    assert extractions[..|extractions|] == extractions;
  }

  lemma {:induction false} NamedByOneMore(lower: string -> string, entities: seq<ExtractedEntity>, i: nat)
    requires i < |entities|
    ensures forall key :: NamedBy(lower, entities[..i + 1], [], key) <==>
              NamedBy(lower, entities[..i], [], key) || KeyOf(lower, entities[i].name, entities[i].kind) == Some(key)
  {
    var longer := entities[..i + 1];
    forall key ensures NamedBy(lower, longer, [], key) <==>
              NamedBy(lower, entities[..i], [], key) || KeyOf(lower, entities[i].name, entities[i].kind) == Some(key)
    {
      assert longer[i] == entities[i];
      assert forall k :: 0 <= k < i ==> longer[k] == entities[..i][k];
    }
  }

  lemma {:induction false} NamedByEdge(lower: string -> string, entities: seq<ExtractedEntity>, edges: seq<EntityEdge>, edge: EntityEdge, keys: set<Key>)
    requires Marks(lower, entities, edges, keys)
    ensures Marks(lower, entities, edges + [edge], keys + {edge.source} + {edge.target})
  {
    var longer := edges + [edge];
    forall key ensures NamedBy(lower, entities, longer, key) <==>
              NamedBy(lower, entities, edges, key) || key == edge.source || key == edge.target
    {
      assert longer[|edges|] == edge;
      assert forall k :: 0 <= k < |edges| ==> longer[k] == edges[k];
    }
  }

  lemma {:induction false} MentionedOneMore(lower: string -> string, extractions: seq<Extraction>, n: nat)
    requires n < |extractions|
    ensures forall m :: Mentioned(lower, extractions[..n + 1], m) <==>
              Mentioned(lower, extractions[..n], m) || MentionedIn(lower, extractions[n], m)
  {
    var longer := extractions[..n + 1];
    forall m ensures Mentioned(lower, longer, m) <==>
              Mentioned(lower, extractions[..n], m) || MentionedIn(lower, extractions[n], m)
    {
      assert longer[n] == extractions[n];
      assert forall k :: 0 <= k < n ==> longer[k] == extractions[..n][k];
    }
  }

  /** One text per aggregated entity, in ascending order of the keys. */
  ghost predicate AreEmbeddingTexts(byKey: map<Key, Aggregated>, texts: seq<string>) {
    exists keys :: AreTextsInOrder(byKey, keys, texts)
  }

  ghost predicate AreKeysInOrder(byKey: map<Key, Aggregated>, keys: seq<Key>) {
    && SortedBy(keys, KeyLe) && Distinct(keys) && |keys| == |byKey| && (forall key :: key in keys <==> key in byKey)
    && forall i :: 0 <= i < |keys| ==> keys[i] in byKey
  }

  ghost predicate AreTextsInOrder(byKey: map<Key, Aggregated>, keys: seq<Key>, texts: seq<string>) {
    AreKeysInOrder(byKey, keys) && |texts| == |keys| && forall i :: 0 <= i < |keys| ==> texts[i] == EmbeddingText(byKey[keys[i]])
  }

  /** What a successful build returns; `vectors` are the embeddings received for its entities. */
  ghost predicate IsGraphOf(lower: string -> string, extractions: seq<Extraction>, vectors: seq<seq<real>>, g: DocumentGraph) {
    var byKey := Aggregate(lower, Supplies(lower, extractions));
    && |g.entities| == |vectors|
    && (forall i, j :: 0 <= i < j < |g.entities| ==> g.entities[i].key != g.entities[j].key && KeyLe(g.entities[i].key, g.entities[j].key))
    && (forall key :: key in byKey <==> HasEntity(g, key))
    && (forall i :: 0 <= i < |g.entities| ==>
          g.entities[i].key in byKey &&
          g.entities[i] == EntityNode(g.entities[i].key, byKey[g.entities[i].key].name, byKey[g.entities[i].key].description, vectors[i]))
    && SortedBy(g.mentions, MentionLe) && Distinct(g.mentions)
    && (forall m :: m in g.mentions <==> Mentioned(lower, extractions, m))
    && g.relationships == Edges(lower, extractions)
  }

  ghost predicate HasEntity(g: DocumentGraph, key: Key) {
    exists i :: 0 <= i < |g.entities| && g.entities[i].key == key
  }

  method OrderedKeys(byKey: map<Key, Aggregated>) returns (keys: seq<Key>)
    ensures AreKeysInOrder(byKey, keys)
  {
    KeysAreOrdered();
    keys := Ascending(byKey.Keys, KeyLe);
    assert |keys| == |byKey|;
    assert forall i :: 0 <= i < |keys| ==> keys[i] in keys;
  }

  /** The texts to embed, one per aggregated entity. */
  method RenderEntities(byKey: map<Key, Aggregated>, keys: seq<Key>) returns (texts: seq<string>)
    requires AreKeysInOrder(byKey, keys)
    ensures AreTextsInOrder(byKey, keys, texts)
  {
    texts := seq(|keys|, i requires 0 <= i < |keys| => EmbeddingText(byKey[keys[i]]));
  }

  /** The entities, each with its own vector. */
  method ZipEntities(byKey: map<Key, Aggregated>, keys: seq<Key>, vectors: seq<seq<real>>) returns (entities: seq<EntityNode>)
    requires AreKeysInOrder(byKey, keys) && |vectors| == |keys|
    ensures AreEntities(byKey, keys, vectors, entities)
  {
    entities := seq(|keys|, i requires 0 <= i < |keys| =>
      EntityNode(byKey[keys[i]].key, byKey[keys[i]].name, byKey[keys[i]].description, vectors[i]));
  }

  ghost predicate AreEntities(byKey: map<Key, Aggregated>, keys: seq<Key>, vectors: seq<seq<real>>, entities: seq<EntityNode>) {
    && AreKeysInOrder(byKey, keys) && |keys| == |vectors| == |entities|
    && forall i :: 0 <= i < |keys| ==>
         entities[i] == EntityNode(byKey[keys[i]].key, byKey[keys[i]].name, byKey[keys[i]].description, vectors[i])
  }

  /** `embed` stands for the embedding provider; it fails, or answers with some vectors. */
  method BuildDocumentEntityGraph(lower: string -> string, extractions: seq<Extraction>, embed: seq<string> -> Option<seq<seq<real>>>)
    returns (r: Result<DocumentGraph, BuildError>, ghost texts: seq<string>)
    ensures Aggregate(lower, Supplies(lower, extractions)) == map[] ==> r == Ok(DocumentGraph([], [], []))
    ensures Aggregate(lower, Supplies(lower, extractions)) != map[] ==> AreEmbeddingTexts(Aggregate(lower, Supplies(lower, extractions)), texts)
    ensures Aggregate(lower, Supplies(lower, extractions)) != map[] ==>
              match embed(texts)
              case None => r == Err(Embedding)
              case Some(vectors) =>
                if |vectors| == |Aggregate(lower, Supplies(lower, extractions))|
                then r.Ok? && IsGraphOf(lower, extractions, vectors, r.value)
                else r == Err(EmbeddingCountMismatch(|Aggregate(lower, Supplies(lower, extractions))|, |vectors|))
  {
    var byKey, mentionSet, relationships := AggregateExtractions(lower, extractions);
    texts := [];
    if byKey == map[] {
      return Ok(DocumentGraph([], [], [])), texts;
    }
    var keys := OrderedKeys(byKey);
    var rendered := RenderEntities(byKey, keys);
    texts := rendered;
    var answer := embed(rendered);
    if answer.None? {
      return Err(Embedding), texts;
    }
    var vectors := answer.value;
    if |vectors| != |byKey| {
      return Err(EmbeddingCountMismatch(|byKey|, |vectors|)), texts;
    }
    var entities := ZipEntities(byKey, keys, vectors);
    MentionsAreOrdered();
    var mentions := Ascending(mentionSet, MentionLe);
    GraphIsAssembled(lower, extractions, byKey, keys, vectors, DocumentGraph(entities, mentions, relationships));
    r := Ok(DocumentGraph(entities, mentions, relationships));
  }

  lemma {:induction false} GraphIsAssembled(lower: string -> string, extractions: seq<Extraction>, byKey: map<Key, Aggregated>, keys: seq<Key>,
                         vectors: seq<seq<real>>, g: DocumentGraph)
    requires byKey == Aggregate(lower, Supplies(lower, extractions))
    requires AreEntities(byKey, keys, vectors, g.entities)
    requires SortedBy(g.mentions, MentionLe) && Distinct(g.mentions) && forall m :: m in g.mentions <==> Mentioned(lower, extractions, m)
    requires g.relationships == Edges(lower, extractions)
    ensures IsGraphOf(lower, extractions, vectors, g)
  {
    AggregateKeepsKeys(lower, Supplies(lower, extractions));
    EntitiesHaveKeys(byKey, keys, vectors, g);
  }

  lemma {:induction false} EntitiesHaveKeys(byKey: map<Key, Aggregated>, keys: seq<Key>, vectors: seq<seq<real>>, g: DocumentGraph)
    requires AreEntities(byKey, keys, vectors, g.entities) && forall key :: key in byKey ==> byKey[key].key == key
    ensures forall i :: 0 <= i < |keys| ==> g.entities[i].key == keys[i]
    ensures forall key :: key in byKey <==> HasEntity(g, key)
    ensures forall i, j :: 0 <= i < j < |keys| ==> g.entities[i].key != g.entities[j].key && KeyLe(g.entities[i].key, g.entities[j].key)
  {
    assert forall i :: 0 <= i < |keys| ==> keys[i] in byKey && g.entities[i].key == keys[i];
    forall key ensures key in byKey <==> HasEntity(g, key) {
      if key in byKey {
        var i :| 0 <= i < |keys| && keys[i] == key;
        assert g.entities[i].key == key;
      }
    }
  }

  lemma {:induction false} KeysAreOrdered()
    ensures TotalOrder(KeyLe)
  {
    forall a, b ensures KeyLe(a, b) || KeyLe(b, a) ensures KeyLe(a, b) && KeyLe(b, a) ==> a == b {
      KeyLeIsTotal(a, b);
    }
    forall a, b, c | KeyLe(a, b) && KeyLe(b, c) ensures KeyLe(a, c) {
      KeyLeIsTransitive(a, b, c);
    }
  }

  lemma {:induction false} MentionsAreOrdered()
    ensures TotalOrder(MentionLe)
  {
    KeysAreOrdered();
    forall a, b, c | MentionLe(a, b) && MentionLe(b, c) ensures MentionLe(a, c) {
      if a.chunkIndex == b.chunkIndex == c.chunkIndex {
        KeyLeIsTransitive(a.key, b.key, c.key);
      }
    }
    forall a, b ensures MentionLe(a, b) || MentionLe(b, a) ensures MentionLe(a, b) && MentionLe(b, a) ==> a == b {
      KeyLeIsTotal(a.key, b.key);
    }
  }

  // --------------------------------------------------------- Canonical and closed

  lemma {:induction false} AggregateKeepsKeys(lower: string -> string, supplies: seq<Supply>)
    ensures forall key :: key in Aggregate(lower, supplies) ==> Aggregate(lower, supplies)[key].key == key
    ensures forall key :: key in Aggregate(lower, supplies) <==> exists s :: s in supplies && SupplyKey(lower, s) == Some(key)
  {
    if supplies != [] {
      var n := |supplies| - 1;
      AggregateKeepsKeys(lower, supplies[..n]);
      assert supplies == supplies[..n] + [supplies[n]];
    }
  }

  /** The description kept is the first of the longest ones supplied; the same rule picks the name. */
  ghost predicate EarliestLongest(texts: seq<string>, text: Option<string>) {
    match text
    case None => texts == []
    case Some(t) =>
      exists i :: 0 <= i < |texts| && texts[i] == t
        && (forall j :: 0 <= j < |texts| ==> ByteLen(texts[j]) <= ByteLen(t))
        && (forall j :: 0 <= j < i ==> ByteLen(texts[j]) < ByteLen(t))
  }

  lemma {:induction false} EarliestLongestStep(texts: seq<string>, text: Option<string>, next: string)
    requires EarliestLongest(texts, text)
    ensures EarliestLongest(texts + [next], if ShouldReplaceDescription(text, Some(next)) then Some(next) else text)
  {
    var longer := texts + [next];
    assert longer[|texts|] == next;
    if text.Some? {
      var i :| 0 <= i < |texts| && texts[i] == text.value
        && (forall j :: 0 <= j < |texts| ==> ByteLen(texts[j]) <= ByteLen(text.value))
        && (forall j :: 0 <= j < i ==> ByteLen(texts[j]) < ByteLen(text.value));
      assert longer[i] == text.value;
      assert forall j :: 0 <= j < |texts| ==> longer[j] == texts[j];
    }
  }

  /** What is known of one key after aggregating supplies that gave it these names and descriptions. */
  ghost predicate KeptBest(byKey: map<Key, Aggregated>, key: Key, names: seq<string>, descriptions: seq<string>) {
    if key in byKey
    then EarliestLongest(names, Some(byKey[key].name)) && EarliestLongest(descriptions, byKey[key].description)
    else names == [] && descriptions == []
  }

  lemma {:induction false} MergeKeepsBest(lower: string -> string, byKey: map<Key, Aggregated>, s: Supply, key: Key, names: seq<string>, descriptions: seq<string>)
    requires KeptBest(byKey, key, names, descriptions) && SupplyKey(lower, s) == Some(key)
    ensures KeptBest(Merge(lower, byKey, s), key, names + [DisplayName(s.name)], descriptions + Described(s))
  {
    var text := CleanOptional(s.description);
    if key in byKey {
      EarliestLongestStep(names, Some(byKey[key].name), DisplayName(s.name));
      if text.Some? {
        EarliestLongestStep(descriptions, byKey[key].description, text.value);
      } else {
        assert descriptions + [] == descriptions;
      }
    } else {
      assert (names + [DisplayName(s.name)])[0] == DisplayName(s.name);
      assert text.Some? ==> (descriptions + [text.value])[0] == text.value;
    }
  }

  lemma {:induction false} AggregateKeepsBest(lower: string -> string, supplies: seq<Supply>, key: Key)
    ensures KeptBest(Aggregate(lower, supplies), key, NamesFor(lower, supplies, key), DescriptionsFor(lower, supplies, key))
  {
    if supplies != [] {
      var n := |supplies| - 1;
      AggregateKeepsBest(lower, supplies[..n], key);
      if SupplyKey(lower, supplies[n]) == Some(key) {
        MergeKeepsBest(lower, Aggregate(lower, supplies[..n]), supplies[n], key,
                       NamesFor(lower, supplies[..n], key), DescriptionsFor(lower, supplies[..n], key));
      } else {
        assert NamesFor(lower, supplies, key) == NamesFor(lower, supplies[..n], key);
        assert DescriptionsFor(lower, supplies, key) == DescriptionsFor(lower, supplies[..n], key);
      }
    }
  }

  /** An edge both of whose ends are mentioned by its evidence chunk, as the store relies on. */
  ghost predicate Grounded(g: DocumentGraph, edge: EntityEdge) {
    && edge.source != edge.target
    && edge.weight >= MIN_WEIGHT
    && EntityMention(edge.evidence, edge.source) in g.mentions
    && EntityMention(edge.evidence, edge.target) in g.mentions
  }

  ghost predicate Canonical(g: DocumentGraph) {
    && (forall i, j :: 0 <= i < j < |g.entities| ==> g.entities[i].key != g.entities[j].key)
    && (forall m :: m in g.mentions ==> HasEntity(g, m.key))
    && (forall edge :: edge in g.relationships ==> Grounded(g, edge))
  }

  lemma {:induction false} EdgeComesFromChunk(lower: string -> string, chunkIndex: int, rs: seq<ExtractedRelationship>, edge: EntityEdge)
    requires edge in EdgesOf(lower, chunkIndex, rs)
    ensures edge.evidence == chunkIndex && edge.source != edge.target && edge.weight >= MIN_WEIGHT
    ensures exists s :: s in RelationshipsSupplies(lower, rs) && SupplyKey(lower, s) == Some(edge.source)
    ensures exists s :: s in RelationshipsSupplies(lower, rs) && SupplyKey(lower, s) == Some(edge.target)
  {
    var n := |rs| - 1;
    if edge in EdgesOf(lower, chunkIndex, rs[..n]) {
      EdgeComesFromChunk(lower, chunkIndex, rs[..n], edge);
    } else {
      var added := RelationshipSupplies(lower, rs[n]);
      assert added[0] in added && added[1] in added;
      assert SupplyKey(lower, added[0]) == Some(edge.source) && SupplyKey(lower, added[1]) == Some(edge.target);
    }
  }

  lemma {:induction false} EntityIsSupplied(entities: seq<ExtractedEntity>, i: nat)
    requires i < |entities|
    ensures EntitySupply(entities[i]) in EntitySupplies(entities)
  {
    if i < |entities| - 1 {
      EntityIsSupplied(entities[..|entities| - 1], i);
    }
  }

  lemma {:induction false} NamedIsSupplied(lower: string -> string, e: Extraction, key: Key)
    requires NamedBy(lower, e.entities, EdgesOf(lower, e.chunkIndex, e.relationships), key)
    ensures exists s :: s in ChunkSupplies(lower, e) && SupplyKey(lower, s) == Some(key)
  {
    var edges := EdgesOf(lower, e.chunkIndex, e.relationships);
    if i :| 0 <= i < |e.entities| && KeyOf(lower, e.entities[i].name, e.entities[i].kind) == Some(key) {
      EntityIsSupplied(e.entities, i);
      assert SupplyKey(lower, EntitySupply(e.entities[i])) == Some(key);
    } else {
      var j :| 0 <= j < |edges| && (edges[j].source == key || edges[j].target == key);
      EdgeComesFromChunk(lower, e.chunkIndex, e.relationships, edges[j]);
    }
  }

  /** What one chunk supplies. */
  function ChunkSupplies(lower: string -> string, e: Extraction): seq<Supply> {
    EntitySupplies(e.entities) + RelationshipsSupplies(lower, e.relationships)
  }

  lemma {:induction false} LastSupplies(lower: string -> string, extractions: seq<Extraction>, s: Supply)
    requires extractions != []
    ensures var last := |extractions| - 1;
            s in Supplies(lower, extractions) <==> s in Supplies(lower, extractions[..last]) || s in ChunkSupplies(lower, extractions[last])
  {
    var e := extractions[|extractions| - 1];
    var before, entities, rs := Supplies(lower, extractions[..|extractions| - 1]), EntitySupplies(e.entities), RelationshipsSupplies(lower, e.relationships);
    assert Supplies(lower, extractions) == before + entities + rs;
  }

  /** All supplies are those of the chunks. */
  lemma {:induction false} SupplyHasChunk(lower: string -> string, extractions: seq<Extraction>, s: Supply) returns (n: nat)
    requires s in Supplies(lower, extractions)
    ensures n < |extractions| && s in ChunkSupplies(lower, extractions[n])
  {
    var last := |extractions| - 1;
    LastSupplies(lower, extractions, s);
    if s in Supplies(lower, extractions[..last]) {
      n := SupplyHasChunk(lower, extractions[..last], s);
    } else {
      n := last;
    }
  }

  lemma {:induction false} ChunkHasSupply(lower: string -> string, extractions: seq<Extraction>, n: nat, s: Supply)
    requires n < |extractions| && s in ChunkSupplies(lower, extractions[n])
    ensures s in Supplies(lower, extractions)
  {
    LastSupplies(lower, extractions, s);
    if n < |extractions| - 1 {
      ChunkHasSupply(lower, extractions[..|extractions| - 1], n, s);
    }
  }

  lemma {:induction false} MentionedIsSupplied(lower: string -> string, extractions: seq<Extraction>, m: EntityMention)
    requires Mentioned(lower, extractions, m)
    ensures exists s :: s in Supplies(lower, extractions) && SupplyKey(lower, s) == Some(m.key)
  {
    var n :| 0 <= n < |extractions| && MentionedIn(lower, extractions[n], m);
    NamedIsSupplied(lower, extractions[n], m.key);
    var s :| s in ChunkSupplies(lower, extractions[n]) && SupplyKey(lower, s) == Some(m.key);
    ChunkHasSupply(lower, extractions, n, s);
  }

  lemma {:induction false} EdgeIsMentioned(lower: string -> string, extractions: seq<Extraction>, edge: EntityEdge)
    requires edge in Edges(lower, extractions)
    ensures edge.source != edge.target && edge.weight >= MIN_WEIGHT
    ensures Mentioned(lower, extractions, EntityMention(edge.evidence, edge.source))
    ensures Mentioned(lower, extractions, EntityMention(edge.evidence, edge.target))
  {
    var last := |extractions| - 1;
    var prefix, e := extractions[..last], extractions[last];
    MentionedOneMore(lower, extractions, last);
    assert extractions[..last + 1] == extractions;
    if edge in Edges(lower, prefix) {
      EdgeIsMentioned(lower, prefix, edge);
    } else {
      var edges := EdgesOf(lower, e.chunkIndex, e.relationships);
      EdgeComesFromChunk(lower, e.chunkIndex, e.relationships, edge);
      var j :| 0 <= j < |edges| && edges[j] == edge;
      assert MentionedIn(lower, e, EntityMention(edge.evidence, edge.source));
      assert MentionedIn(lower, e, EntityMention(edge.evidence, edge.target));
    }
  }

  /** Whatever the extractor returned, the graph built from it is closed and canonical. */
  lemma {:induction false} BuiltGraphIsCanonical(lower: string -> string, extractions: seq<Extraction>, vectors: seq<seq<real>>, g: DocumentGraph)
    requires IsGraphOf(lower, extractions, vectors, g)
    ensures Canonical(g)
  {
    var supplies := Supplies(lower, extractions);
    AggregateKeepsKeys(lower, supplies);
    forall m | m in g.mentions ensures HasEntity(g, m.key) {
      MentionedIsSupplied(lower, extractions, m);
    }
    forall edge | edge in g.relationships ensures Grounded(g, edge) {
      EdgeIsMentioned(lower, extractions, edge);
    }
  }

  /** Every entity of the graph carries the first longest name and description of its key. */
  lemma {:induction false} BuiltEntitiesAreBest(lower: string -> string, extractions: seq<Extraction>, vectors: seq<seq<real>>, g: DocumentGraph, i: nat)
    requires IsGraphOf(lower, extractions, vectors, g) && i < |g.entities|
    ensures EarliestLongest(DescriptionsFor(lower, Supplies(lower, extractions), g.entities[i].key), g.entities[i].description)
    ensures EarliestLongest(NamesFor(lower, Supplies(lower, extractions), g.entities[i].key), Some(g.entities[i].name))
  {
    AggregateKeepsBest(lower, Supplies(lower, extractions), g.entities[i].key);
  }

  // -------------------------------------------------- When every entity is mentioned

  /** Some chunk mentions `key`: it names it as an entity, or as an end of a relationship that counts. */
  ghost predicate MentionedSomewhere(lower: string -> string, extractions: seq<Extraction>, key: Key) {
    exists n :: 0 <= n < |extractions| && NamesKey(lower, extractions[n], key)
  }

  ghost predicate NamesKey(lower: string -> string, e: Extraction, key: Key) {
    NamedBy(lower, e.entities, EdgesOf(lower, e.chunkIndex, e.relationships), key)
  }

  /** The mentions say the same. */
  lemma {:induction false} SomewhereIsMentioned(lower: string -> string, extractions: seq<Extraction>, key: Key)
    ensures MentionedSomewhere(lower, extractions, key) <==> exists chunkIndex :: Mentioned(lower, extractions, EntityMention(chunkIndex, key))
  {
    if n :| 0 <= n < |extractions| && NamesKey(lower, extractions[n], key) {
      assert MentionedIn(lower, extractions[n], EntityMention(extractions[n].chunkIndex, key));
      assert Mentioned(lower, extractions, EntityMention(extractions[n].chunkIndex, key));
    }
    if chunkIndex :| Mentioned(lower, extractions, EntityMention(chunkIndex, key)) {
      var n :| 0 <= n < |extractions| && MentionedIn(lower, extractions[n], EntityMention(chunkIndex, key));
      assert NamesKey(lower, extractions[n], key);
    }
  }

  /** A relationship that is dropped although its source has a name: its target has none, or is its source. */
  predicate Dangles(lower: string -> string, r: ExtractedRelationship) {
    var source := SupplyKey(lower, SourceSupply(r));
    var target := SupplyKey(lower, TargetSupply(r));
    source.Some? && (target.None? || target == source)
  }

  /** Every dropped relationship's source is mentioned elsewhere. */
  ghost predicate DanglingSourcesAreMentioned(lower: string -> string, extractions: seq<Extraction>) {
    forall n, j :: 0 <= n < |extractions| && 0 <= j < |extractions[n].relationships| && Dangles(lower, extractions[n].relationships[j]) ==>
      MentionedSomewhere(lower, extractions, SupplyKey(lower, SourceSupply(extractions[n].relationships[j])).value)
  }

  lemma {:induction false} EntitySupplyNames(entities: seq<ExtractedEntity>, s: Supply) returns (i: nat)
    requires s in EntitySupplies(entities)
    ensures i < |entities| && s == EntitySupply(entities[i])
  {
    var n := |entities| - 1;
    if s == EntitySupply(entities[n]) {
      i := n;
    } else {
      i := EntitySupplyNames(entities[..n], s);
    }
  }

  lemma {:induction false} RelationshipSupplyNames(lower: string -> string, rs: seq<ExtractedRelationship>, s: Supply) returns (j: nat)
    requires s in RelationshipsSupplies(lower, rs)
    ensures j < |rs| && s in RelationshipSupplies(lower, rs[j])
  {
    var n := |rs| - 1;
    if s in RelationshipSupplies(lower, rs[n]) {
      j := n;
    } else {
      j := RelationshipSupplyNames(lower, rs[..n], s);
    }
  }

  lemma {:induction false} RelationshipIsSupplied(lower: string -> string, rs: seq<ExtractedRelationship>, j: nat)
    requires j < |rs|
    ensures SourceSupply(rs[j]) in RelationshipsSupplies(lower, rs)
  {
    var n := |rs| - 1;
    if j < n {
      RelationshipIsSupplied(lower, rs[..n], j);
    } else {
      assert RelationshipSupplies(lower, rs[n])[0] == SourceSupply(rs[n]);
    }
  }

  lemma {:induction false} EdgeIsListed(lower: string -> string, chunkIndex: int, rs: seq<ExtractedRelationship>, j: nat)
    requires j < |rs| && EdgeOf(lower, chunkIndex, rs[j]).Some?
    ensures EdgeOf(lower, chunkIndex, rs[j]).value in EdgesOf(lower, chunkIndex, rs)
  {
    if j < |rs| - 1 {
      EdgeIsListed(lower, chunkIndex, rs[..|rs| - 1], j);
    }
  }

  /** What one chunk supplies it also mentions, but for the sources of the relationships it drops. */
  lemma {:induction false} SuppliedIsNamedOrDangles(lower: string -> string, e: Extraction, s: Supply)
    requires s in ChunkSupplies(lower, e) && SupplyKey(lower, s).Some?
    ensures NamesKey(lower, e, SupplyKey(lower, s).value) ||
            exists j :: 0 <= j < |e.relationships| && Dangles(lower, e.relationships[j]) &&
              SupplyKey(lower, SourceSupply(e.relationships[j])) == SupplyKey(lower, s)
  {
    if s in EntitySupplies(e.entities) {
      var i := EntitySupplyNames(e.entities, s);
      assert KeyOf(lower, e.entities[i].name, e.entities[i].kind) == SupplyKey(lower, s);
    } else {
      var j := RelationshipSupplyNames(lower, e.relationships, s);
      if !Dangles(lower, e.relationships[j]) {
        EndsAreNamed(lower, e, j, s);
      }
    }
  }

  lemma {:induction false} EndsAreNamed(lower: string -> string, e: Extraction, j: nat, s: Supply)
    requires j < |e.relationships| && s in RelationshipSupplies(lower, e.relationships[j])
    requires SupplyKey(lower, s).Some? && !Dangles(lower, e.relationships[j])
    ensures NamesKey(lower, e, SupplyKey(lower, s).value)
  {
    EdgeIsListed(lower, e.chunkIndex, e.relationships, j);
    var edges := EdgesOf(lower, e.chunkIndex, e.relationships);
    var k :| 0 <= k < |edges| && edges[k] == EdgeOf(lower, e.chunkIndex, e.relationships[j]).value;
    assert edges[k].source == SupplyKey(lower, s).value || edges[k].target == SupplyKey(lower, s).value;
  }

  /**
   * Every aggregated entity is mentioned by some chunk if and only if every relationship
   * that is dropped for its target, being unnamed or its own source, has its source
   * mentioned elsewhere.
   */
  lemma {:induction false} AllEntitiesAreMentioned(lower: string -> string, extractions: seq<Extraction>)
    ensures (forall key :: key in Aggregate(lower, Supplies(lower, extractions)) ==> MentionedSomewhere(lower, extractions, key)) <==>
            DanglingSourcesAreMentioned(lower, extractions)
  {
    var supplies := Supplies(lower, extractions);
    AggregateKeepsKeys(lower, supplies);
    if DanglingSourcesAreMentioned(lower, extractions) {
      forall key | key in Aggregate(lower, supplies) ensures MentionedSomewhere(lower, extractions, key) {
        var s :| s in supplies && SupplyKey(lower, s) == Some(key);
        var n := SupplyHasChunk(lower, extractions, s);
        SuppliedIsNamedOrDangles(lower, extractions[n], s);
      }
    }
    forall n, j | 0 <= n < |extractions| && 0 <= j < |extractions[n].relationships| && Dangles(lower, extractions[n].relationships[j])
      ensures SupplyKey(lower, SourceSupply(extractions[n].relationships[j])).value in Aggregate(lower, supplies)
    {
      RelationshipIsSupplied(lower, extractions[n].relationships, j);
      ChunkHasSupply(lower, extractions, n, SourceSupply(extractions[n].relationships[j]));
    }
  }

  /** Both ways of dangling leave an entity behind, unmentioned: no target name, and a relationship of "a" to itself. */
  lemma {:induction false} SourceCanBeUnmentioned(target: string)
    requires target == "" || target == "a"
    ensures var lower := (s: string) => s;
            var extractions := [Extraction(0, [], [ExtractedRelationship("a", "", target, "", "", None, 1.0)])];
            && Key("a", DEFAULT_ENTITY_TYPE) in Aggregate(lower, Supplies(lower, extractions))
            && !MentionedSomewhere(lower, extractions, Key("a", DEFAULT_ENTITY_TYPE))
  {
    var lower := (s: string) => s;
    var r := ExtractedRelationship("a", "", target, "", "", None, 1.0);
    var extractions := [Extraction(0, [], [r])];
    assert "a"[..1] == "a" && "a"[1..] == "";
    assert Words("") == [] && Words("a") == ["a"];
    assert SupplyKey(lower, SourceSupply(r)) == Some(Key("a", DEFAULT_ENTITY_TYPE));
    assert Dangles(lower, r);
    assert EdgeOf(lower, 0, r) == None;
    assert [r][..0] == [];
    assert EdgesOf(lower, 0, [r]) == [];
    RelationshipIsSupplied(lower, [r], 0);
    ChunkHasSupply(lower, extractions, 0, SourceSupply(r));
    AggregateKeepsKeys(lower, Supplies(lower, extractions));
  }
}
