/** The rows of the entity-graph schema, and the keys that tie them together. */
module Tables {
  import opened Wrappers

  type DocumentId = nat
  type ChunkId = nat
  type EntityId = nat
  type RelationshipId = nat

  /** The deduplication key of an entity: its normalised name and its type. */
  datatype Key = Key(name: string, kind: string)

  datatype Document = Document(path: string, contentHash: string)

  datatype Chunk = Chunk(document: DocumentId, index: int, content: string, title: Option<string>)

  datatype Entity = Entity(
    key: Key,
    name: string,
    description: Option<string>,
    embedding: Option<seq<real>>,
    mentionCount: nat
  )

  datatype Relationship = Relationship(
    source: EntityId,
    target: EntityId,
    kind: string,
    description: Option<string>,
    weight: real,
    evidence: Option<ChunkId>
  )

  /** Relationship weights are clamped from below, on the way in and on the way out. */
  const MIN_WEIGHT: real := 0.1
}
