/** The graph store's upsert protocol: name-keyed node upsert with label accumulation and
    (source, target, type)-keyed relationship merge with key-wise attribute overlay.
    The store is modelled by the state its Cypher statements read and write. */
module Neo4j {
  import opened Models

  /** A stored node: its id, its label set and its description. Its name is the key it is stored under. */
  datatype Node = Node(id: NodeId, labels: set<string>, description: string)

  /** What identifies a stored relationship: `MERGE (source)-[r:type]->(target)` reuses an edge with the same three. */
  datatype EdgeKey = EdgeKey(source: string, target: string, relType: string)

  type Properties = map<string, AttrValue>

  /** The whole store: nodes by name, relationship properties by edge key, and the next unused node id. */
  datatype Graph = Graph(nodes: map<string, Node>, edges: map<EdgeKey, Properties>, nextId: NodeId)

  /** A call made on the client, as the caller issued it (whether or not the store accepted it). */
  datatype Call =
    | CreateNodeCall(entity: EntityData)
    | CreateRelationshipCall(relationship: RelationshipData)

  /** Node ids are distinct and below the next fresh id; every edge joins two stored nodes. */
  ghost predicate Invariant(g: Graph)
  {
    && (forall a, b :: a in g.nodes && b in g.nodes && a != b ==> g.nodes[a].id != g.nodes[b].id)
    && (forall a :: a in g.nodes ==> g.nodes[a].id < g.nextId)
    && (forall k :: k in g.edges ==> k.source in g.nodes && k.target in g.nodes)
  }

  // ---------------------------------------------------------------------------
  // Label fragment

  function Quote(name: string): string
  {
    "`" + name + "`"
  }

  /** The label part of the node queries: every category in backticks, joined by ':'. */
  function LabelFragment(categories: seq<string>): (fragment: string)
    ensures fragment == "" <==> categories == []
  {
    if categories == [] then ""
    else if |categories| == 1 then Quote(categories[0])
    else Quote(categories[0]) + ":" + LabelFragment(categories[1..])
  }

  /** Position of the first `ch` in `s`, or |s| when there is none. */
  function IndexOf(s: string, ch: char): (k: nat)
    ensures k <= |s|
    ensures k < |s| ==> s[k] == ch
    ensures forall j :: 0 <= j < k ==> s[j] != ch
  {
    if s == [] then 0
    else if s[0] == ch then 0
    else 1 + IndexOf(s[1..], ch)
  }

  /** Reads a label fragment back into the labels it names: a ':'-separated chain of backtick-quoted names. */
  function ParseLabels(s: string): Option<seq<string>>
    decreases |s|
  {
    if s == [] then Some([])
    else if s[0] != '`' then None
    else
      var close := 1 + IndexOf(s[1..], '`');
      if close >= |s| then None
      else
        var first := s[1..close];
        var rest := s[close + 1..];
        if rest == [] then Some([first])
        else if rest[0] != ':' then None
        else
          match ParseLabels(rest[1..])
          case None => None
          case Some(labels) => if labels == [] then None else Some([first] + labels)
  }

  /** The label set a node receives from a category list. */
  function LabelSet(categories: seq<string>): (labels: set<string>)
    ensures forall c :: c in labels <==> c in categories
  {
    set c | c in categories
  }

  /** The generated `SET n:<fragment>` / `CREATE (n:<fragment> {...})` is not valid Cypher when the fragment is empty. */
  predicate RejectedLabelClause(fragment: string)
  {
    fragment == ""
  }

  // ---------------------------------------------------------------------------
  // Relation type sanitisation

  /** The characters stripped from a relation type before it is spliced into the query. */
  const Forbidden: set<char> := {'`', '"', '\''}

  /** `s.replace(c, "")`. */
  function RemoveChar(s: string, c: char): (r: string)
    ensures |r| <= |s|
    ensures forall ch :: ch in r ==> ch in s && ch != c
  {
    if s == [] then []
    else (if s[0] == c then [] else [s[0]]) + RemoveChar(s[1..], c)
  }

  /** The relation type with backticks, double quotes and single quotes removed, in that order. */
  function SanitiseRelType(relationType: string): (r: string)
    ensures forall ch :: ch in r ==> ch in relationType && ch !in Forbidden
  {
    RemoveChar(RemoveChar(RemoveChar(relationType, '`'), '"'), '\'')
  }

  /** Reference definition of sanitising: one pass that keeps, in order, every character not in `bad`. */
  function Keep(s: string, bad: set<char>): string
  {
    if s == [] then []
    else (if s[0] in bad then [] else [s[0]]) + Keep(s[1..], bad)
  }

  // ---------------------------------------------------------------------------
  // Attribute normalisation and overlay

  const StoredDataKey: string := "stored_data"

  /** The attribute map actually stored: a dictionary as it is, anything else under the single key "stored_data". */
  function WrapAttributes(a: Attributes): (m: Properties)
    ensures a.Dict? ==> m == a.entries
    ensures a.NonDict? ==> m.Keys == {StoredDataKey} && m[StoredDataKey] == a.raw
  {
    match a
    case Dict(entries) => entries
    case NonDict(raw) => map[StoredDataKey := raw]
  }

  /** `SET r += update`: non-null entries of `update` are written, null entries remove their key,
      and keys the update does not mention keep their value. */
  function Overlay(props: Properties, update: Properties): (r: Properties)
    ensures forall k :: k in r <==> (k in update && update[k] != Null) || (k !in update && k in props)
    ensures forall k :: k in update && update[k] != Null ==> r[k] == update[k]
    ensures forall k :: k in props && k !in update ==> r[k] == props[k]
  {
    map k | k in props.Keys + update.Keys && (k in update ==> update[k] != Null)
      :: if k in update then update[k] else props[k]
  }

  /** The range of a stored integer property: Neo4j integers are signed 64-bit, and the driver refuses wider ones. */
  const MinInteger: int := -0x8000_0000_0000_0000
  const MaxInteger: int := 0x7FFF_FFFF_FFFF_FFFF

  /** A value Neo4j can store on its own: a boolean, a 64-bit integer or a string. */
  predicate StorableScalar(v: AttrValue)
  {
    v.BoolVal? || (v.IntVal? && MinInteger <= v.i <= MaxInteger) || v.StrVal?
  }

  predicate SameKind(a: AttrValue, b: AttrValue)
  {
    a.BoolVal? == b.BoolVal? && a.IntVal? == b.IntVal? && a.StrVal? == b.StrVal?
  }

  /** A property value `SET r += m` accepts: null (which removes the key), a storable scalar, or a list of storable
      scalars that are all of one kind (no null, no nested list, no mixed types). */
  predicate StorableValue(v: AttrValue)
  {
    match v
    case Null => true
    case ListVal(items) =>
      && (forall k :: 0 <= k < |items| ==> StorableScalar(items[k]))
      && (forall k :: 0 <= k < |items| ==> SameKind(items[0], items[k]))
    case _ => StorableScalar(v)
  }

  /** Every value of the update can be stored; otherwise the statement raises and the transaction rolls back. */
  predicate StorableProperties(m: Properties)
  {
    forall k :: k in m ==> StorableValue(m[k])
  }

  // ---------------------------------------------------------------------------
  // The two write transactions, as functions of the store

  datatype NodeOutcome = NodeOutcome(graph: Graph, id: Option<NodeId>)

  /** create_node: fail (None, nothing written) when the driver raises or the query is invalid; otherwise add the
      categories to the labels of the node with that name and return its id, or create the node with a fresh id. */
  function CreateNodeEffect(g: Graph, e: EntityData, fault: bool): (r: NodeOutcome)
    ensures g.nextId <= r.graph.nextId <= g.nextId + 1
  {
    var fragment := LabelFragment(e.category);
    if fault || RejectedLabelClause(fragment) then
      NodeOutcome(g, None)
    else if e.name in g.nodes then
      var n := g.nodes[e.name];
      NodeOutcome(g.(nodes := g.nodes[e.name := n.(labels := n.labels + LabelSet(e.category))]), Some(n.id))
    else
      var created := Node(g.nextId, LabelSet(e.category), e.description);
      NodeOutcome(Graph(g.nodes[e.name := created], g.edges, g.nextId + 1), Some(g.nextId))
  }

  /** create_node keeps node ids distinct and below the next fresh id, and creates no edge. */
  lemma CreateNodePreservesInvariant(g: Graph, e: EntityData, fault: bool)
    requires Invariant(g)
    ensures Invariant(CreateNodeEffect(g, e, fault).graph)
  {
  }

  /** create_node touches only the node named by the entity: no edge, no other node, and no existing id changes. */
  lemma CreateNodeFrame(g: Graph, e: EntityData, fault: bool)
    ensures var r := CreateNodeEffect(g, e, fault);
      && r.graph.edges == g.edges
      && g.nodes.Keys <= r.graph.nodes.Keys <= g.nodes.Keys + {e.name}
      && (forall m :: m in g.nodes && m != e.name ==> r.graph.nodes[m] == g.nodes[m])
      && (forall m :: m in g.nodes ==> r.graph.nodes[m].id == g.nodes[m].id)
  {
  }

  /** create_node returns an id exactly when the driver does not raise and the entity has a category, and the id
      returned is the id of the node then stored under the entity's name. */
  lemma CreateNodeResult(g: Graph, e: EntityData, fault: bool)
    ensures var r := CreateNodeEffect(g, e, fault);
      && (r.id.Some? <==> !fault && e.category != [])
      && (r.id.Some? ==> e.name in r.graph.nodes && r.id == Some(r.graph.nodes[e.name].id))
  {
  }

  /** create_relationship: when both endpoint names match a node and every normalised attribute can be stored,
      merge the one edge keyed by (source, target, sanitised type) and overlay the attributes on it; otherwise
      (no match, a value Neo4j refuses, or a driver error) the transaction writes nothing. */
  function CreateRelationshipEffect(g: Graph, rel: RelationshipData, fault: bool): (r: Graph)
    ensures r.nodes == g.nodes && r.nextId == g.nextId
  {
    if fault || rel.source !in g.nodes || rel.target !in g.nodes || !StorableProperties(WrapAttributes(rel.attributes))
    then g
    else
      var key := EdgeKey(rel.source, rel.target, SanitiseRelType(rel.relationType));
      var current := if key in g.edges then g.edges[key] else map[];
      g.(edges := g.edges[key := Overlay(current, WrapAttributes(rel.attributes))])
  }

  /** create_relationship only ever joins two stored nodes. */
  lemma CreateRelationshipPreservesInvariant(g: Graph, rel: RelationshipData, fault: bool)
    requires Invariant(g)
    ensures Invariant(CreateRelationshipEffect(g, rel, fault))
  {
  }

  /** create_relationship changes no node and removes no edge. */
  lemma CreateRelationshipFrame(g: Graph, rel: RelationshipData, fault: bool)
    ensures var r := CreateRelationshipEffect(g, rel, fault);
      && r.nodes == g.nodes && r.nextId == g.nextId
      && g.edges.Keys <= r.edges.Keys
      && (forall k :: k in g.edges && k != EdgeKey(rel.source, rel.target, SanitiseRelType(rel.relationType))
            ==> r.edges[k] == g.edges[k])
  {
  }

  // ---------------------------------------------------------------------------
  // The client

  /** The store as the client sees it. `calls` is a ghost record of every create call issued, in order. */
  class Neo4jClient {
    var nodes: map<string, Node>
    var edges: map<EdgeKey, Properties>
    var nextId: NodeId
    ghost var calls: seq<Call>

    function State(): Graph
      reads this
    {
      Graph(nodes, edges, nextId)
    }

    ghost predicate Valid()
      reads this
    {
      Invariant(State())
    }

    /** An empty store. */
    constructor ()
      ensures Valid() && State() == Graph(map[], map[], 0) && calls == []
    {
      nodes, edges, nextId := map[], map[], 0;
      calls := [];
    }

    /** Upserts the node named `entity.name`; `fault` says whether the driver raises during the write transaction. */
    method CreateNode(entity: Entity, fault: bool) returns (nodeId: Option<NodeId>)
      requires Valid()
      modifies this
      ensures Valid()
      ensures NodeOutcome(State(), nodeId) == CreateNodeEffect(old(State()), entity.Data(), fault)
      ensures calls == old(calls) + [CreateNodeCall(entity.Data())]
    {
      CreateNodePreservesInvariant(State(), entity.Data(), fault);
      calls := calls + [CreateNodeCall(entity.Data())];
      var categoryLabels := LabelFragment(entity.category);
      if fault {
        return None;
      }
      if entity.name in nodes {
        var existing := nodes[entity.name];
        if RejectedLabelClause(categoryLabels) {
          return None;
        }
        nodes := nodes[entity.name := existing.(labels := existing.labels + LabelSet(entity.category))];
        nodeId := Some(existing.id);
      } else {
        if RejectedLabelClause(categoryLabels) {
          return None;
        }
        nodes := nodes[entity.name := Node(nextId, LabelSet(entity.category), entity.description)];
        nodeId := Some(nextId);
        nextId := nextId + 1;
      }
    }

    /** Merges the relationship; non-dictionary attributes are first replaced, in the caller's object, by their
        wrapped form. `fault` says whether the driver raises when the query runs. */
    method CreateRelationship(relationship: Relationship, fault: bool)
      requires Valid()
      modifies this, relationship
      ensures Valid()
      ensures State() == CreateRelationshipEffect(old(State()), old(relationship.Data()), fault)
      ensures calls == old(calls) + [CreateRelationshipCall(old(relationship.Data()))]
      ensures relationship.attributes == Dict(WrapAttributes(old(relationship.attributes)))
    {
      ghost var expected := CreateRelationshipEffect(State(), relationship.Data(), fault);
      ghost var wrapped := WrapAttributes(relationship.attributes);
      CreateRelationshipPreservesInvariant(State(), relationship.Data(), fault);
      calls := calls + [CreateRelationshipCall(relationship.Data())];
      if !relationship.attributes.Dict? {
        relationship.attributes := Dict(WrapAttributes(relationship.attributes));
      }
      assert relationship.attributes == Dict(wrapped);
      var relType := SanitiseRelType(relationship.relationType);
      if fault {
        assert State() == expected;
        return;
      }
      if relationship.source in nodes && relationship.target in nodes && StorableProperties(relationship.attributes.entries) {
        var key := EdgeKey(relationship.source, relationship.target, relType);
        var current := if key in edges then edges[key] else map[];
        edges := edges[key := Overlay(current, relationship.attributes.entries)];
      }
      assert State() == expected;
    }
  }
}
