/** The records exchanged between extraction, the generator and the graph store:
    entities, relationships and the property values a relationship carries. */
module Models {

  datatype Option<T> = None | Some(value: T)

  /** Identifier the graph store gives a node (Neo4j's elementId; always a non-empty, truthy string there). */
  type NodeId = nat

  /** A property value as the store keeps it. `Null` is Cypher's null, which `SET r += m` treats as "remove this key". */
  datatype AttrValue =
    | Null
    | BoolVal(b: bool)
    | IntVal(i: int)
    | StrVal(s: string)
    | ListVal(items: seq<AttrValue>)

  /** A relationship's `attributes` as extraction delivers it: normally a dictionary, but any other value is possible. */
  datatype Attributes =
    | Dict(entries: map<string, AttrValue>)
    | NonDict(raw: AttrValue)

  /** The value of an extracted entity: its identifying name, free-text description and category labels. */
  datatype EntityData = EntityData(name: string, description: string, category: seq<string>)

  /** The value of an extracted relationship: a typed, directed link between two entity names. */
  datatype RelationshipData = RelationshipData(
    source: string, target: string, relationType: string, attributes: Attributes)

  /** An extracted entity object. The generator renames it and records its node id in place. */
  class Entity {
    var name: string
    const description: string
    const category: seq<string>
    var id: Option<NodeId>

    function Data(): EntityData
      reads this
    {
      EntityData(name, description, category)
    }

    constructor (data: EntityData)
      ensures Data() == data && id == None
    {
      name := data.name;
      description := data.description;
      category := data.category;
      id := None;
    }
  }

  /** An extracted relationship object. The store overwrites its attributes in place when they are not a dictionary. */
  class Relationship {
    const source: string
    const target: string
    const relationType: string
    var attributes: Attributes

    function Data(): RelationshipData
      reads this
    {
      RelationshipData(source, target, relationType, attributes)
    }

    constructor (data: RelationshipData)
      ensures Data() == data
    {
      source := data.source;
      target := data.target;
      relationType := data.relationType;
      attributes := data.attributes;
    }
  }
}
