/** What the upsert protocol promises: labels accumulate on one node per name, relation types are sanitised,
    relationships merge into one edge per key with key-wise overlay, and dangling endpoints change nothing. */
module Neo4jProperties {
  import opened Models
  import opened Neo4j

  // ---------------------------------------------------------------------------
  // Label fragment

  /** Reading one quoted label back: the closing backtick is the first one after the opening backtick. */
  lemma ParseQuotedLabel(c: string, tail: string)
    requires '`' !in c
    ensures var s := "`" + c + "`" + tail;
      && s != [] && s[0] == '`'
      && 1 + IndexOf(s[1..], '`') == |c| + 1 < |s|
      && s[1..|c| + 1] == c
      && s[|c| + 2..] == tail
  {
    var s := "`" + c + "`" + tail;
    assert s[1..] == c + "`" + tail;
    assert s[1..][|c|] == '`';
  }

  /** The label fragment names exactly the categories, in order, as long as no category contains a backtick. */
  lemma {:induction false} LabelFragmentRoundTrip(categories: seq<string>)
    requires forall k :: 0 <= k < |categories| ==> '`' !in categories[k]
    ensures ParseLabels(LabelFragment(categories)) == Some(categories)
  {
    if categories != [] {
      var c := categories[0];
      var tail := if |categories| == 1 then "" else ":" + LabelFragment(categories[1..]);
      assert LabelFragment(categories) == "`" + c + "`" + tail;
      ParseQuotedLabel(c, tail);
      if |categories| > 1 {
        LabelFragmentRoundTrip(categories[1..]);
        var s := LabelFragment(categories);
        assert s[|c| + 2..] == tail;
        assert tail != [] && tail[0] == ':' && tail[1..] == LabelFragment(categories[1..]);
        assert ParseLabels(tail[1..]) == Some(categories[1..]) && categories[1..] != [];
        assert ParseLabels(s) == Some([c] + categories[1..]);
        assert categories == [c] + categories[1..];
      } else {
        var s := LabelFragment(categories);
        assert s[|c| + 2..] == [];
        assert ParseLabels(s) == Some([c]);
        assert categories == [c];
      }
    }
  }

  /** For categories without a backtick, the label set a node receives is exactly the set of labels the spliced
      fragment names. */
  lemma LabelSetIsFragmentLabels(categories: seq<string>)
    requires forall k :: 0 <= k < |categories| ==> '`' !in categories[k]
    ensures ParseLabels(LabelFragment(categories)).Some?
    ensures forall c :: c in LabelSet(categories) <==> c in ParseLabels(LabelFragment(categories)).value
  {
    LabelFragmentRoundTrip(categories);
  }

  /** A category that joins two names with "`:`" is spelt exactly like the two names as separate categories. */
  lemma JoinedCategoryFragment(a: string, b: string)
    ensures LabelFragment([a + "`:`" + b]) == LabelFragment([a, b])
  {
    assert [a, b][1..] == [b];
    assert LabelFragment([a, b]) == Quote(a) + ":" + Quote(b);
    assert Quote(a + "`:`" + b) == Quote(a) + ":" + Quote(b);
  }

  /** Without escaping, one category holding backticks yields the same fragment as two separate categories: for
      "City`:`Admin" the statement sets the two labels "City" and "Admin", where the model's label set holds the
      one category. */
  lemma BacktickCategoryForgesLabels(a: string, b: string)
    requires '`' !in a && '`' !in b
    ensures LabelFragment([a + "`:`" + b]) == LabelFragment([a, b])
    ensures ParseLabels(LabelFragment([a + "`:`" + b])) == Some([a, b])
    ensures LabelSet([a + "`:`" + b]) == {a + "`:`" + b} && a !in LabelSet([a + "`:`" + b])
  {
    var forged := a + "`:`" + b;
    JoinedCategoryFragment(a, b);
    LabelFragmentRoundTrip([a, b]);
    assert |a| < |forged|;
  }

  // ---------------------------------------------------------------------------
  // Relation type sanitisation

  lemma {:induction false} KeepOmitsBad(s: string, bad: set<char>)
    ensures forall ch :: ch in Keep(s, bad) ==> ch in s && ch !in bad
  {
    if s != [] {
      KeepOmitsBad(s[1..], bad);
    }
  }

  lemma {:induction false} RemoveCharIsKeep(s: string, c: char)
    ensures RemoveChar(s, c) == Keep(s, {c})
  {
    if s != [] {
      RemoveCharIsKeep(s[1..], c);
    }
  }

  lemma {:induction false} RemoveCharAfterKeep(s: string, bad: set<char>, c: char)
    ensures RemoveChar(Keep(s, bad), c) == Keep(s, bad + {c})
  {
    if s != [] {
      RemoveCharAfterKeep(s[1..], bad, c);
      var k := Keep(s, bad);
      if s[0] !in bad {
        assert k == [s[0]] + Keep(s[1..], bad);
        assert k[0] == s[0] && k[1..] == Keep(s[1..], bad);
        assert RemoveChar(k, c) == (if s[0] == c then [] else [s[0]]) + RemoveChar(Keep(s[1..], bad), c);
      } else {
        assert k == Keep(s[1..], bad);
      }
      assert Keep(s, bad + {c}) == (if s[0] in bad + {c} then [] else [s[0]]) + Keep(s[1..], bad + {c});
    }
  }

  /** Three `replace` passes equal one pass that keeps every character outside backtick, double and single quote. */
  lemma SanitiseIsKeep(relationType: string)
    ensures SanitiseRelType(relationType) == Keep(relationType, Forbidden)
  {
    RemoveCharIsKeep(relationType, '`');
    RemoveCharAfterKeep(relationType, {'`'}, '"');
    RemoveCharAfterKeep(relationType, {'`'} + {'"'}, '\'');
    assert {'`'} + {'"'} + {'\''} == Forbidden;
  }

  lemma {:induction false} KeepIdempotent(s: string, bad: set<char>)
    ensures Keep(Keep(s, bad), bad) == Keep(s, bad)
  {
    if s != [] {
      KeepIdempotent(s[1..], bad);
      var k := Keep(s, bad);
      if s[0] !in bad {
        assert k == [s[0]] + Keep(s[1..], bad);
        assert k[0] == s[0] && k[1..] == Keep(s[1..], bad);
        assert Keep(k, bad) == [s[0]] + Keep(k[1..], bad);
      } else {
        assert k == Keep(s[1..], bad);
      }
    }
  }

  lemma {:induction false} KeepUnchanged(s: string, bad: set<char>)
    requires forall i :: 0 <= i < |s| ==> s[i] !in bad
    ensures Keep(s, bad) == s
  {
    if s != [] {
      KeepUnchanged(s[1..], bad);
      assert s == [s[0]] + s[1..];
    }
  }

  /** Sanitising twice is sanitising once. */
  lemma SanitiseIdempotent(relationType: string)
    ensures SanitiseRelType(SanitiseRelType(relationType)) == SanitiseRelType(relationType)
  {
    SanitiseIsKeep(relationType);
    SanitiseIsKeep(SanitiseRelType(relationType));
    KeepIdempotent(relationType, Forbidden);
  }

  /** Sanitising leaves a relation type unchanged exactly when it holds no backtick or quote. */
  lemma SanitiseUnchangedIff(relationType: string)
    ensures SanitiseRelType(relationType) == relationType
        <==> forall i :: 0 <= i < |relationType| ==> relationType[i] !in Forbidden
  {
    if forall i :: 0 <= i < |relationType| ==> relationType[i] !in Forbidden {
      SanitiseIsKeep(relationType);
      KeepUnchanged(relationType, Forbidden);
    }
  }

  // ---------------------------------------------------------------------------
  // Attributes

  /** Normalising already-normalised attributes changes nothing. */
  lemma WrapAttributesIdempotent(a: Attributes)
    ensures WrapAttributes(Dict(WrapAttributes(a))) == WrapAttributes(a)
  {
  }

  /** Overlaying the same update twice is overlaying it once. */
  lemma OverlayIdempotent(props: Properties, update: Properties)
    ensures Overlay(Overlay(props, update), update) == Overlay(props, update)
  {
    var once := Overlay(props, update);
    var twice := Overlay(once, update);
    assert twice.Keys == once.Keys;
  }

  // ---------------------------------------------------------------------------
  // create_node

  /** An existing name keeps its id, node set and description; only the categories are added to its labels. */
  lemma CreateNodeOnExistingName(g: Graph, e: EntityData)
    requires e.name in g.nodes && e.category != []
    ensures var r := CreateNodeEffect(g, e, false); var n := g.nodes[e.name];
      && r.id == Some(n.id)
      && r.graph.nodes.Keys == g.nodes.Keys
      && r.graph.nodes[e.name] == Node(n.id, n.labels + LabelSet(e.category), n.description)
      && (forall m :: m in g.nodes && m != e.name ==> r.graph.nodes[m] == g.nodes[m])
      && r.graph.nextId == g.nextId
  {
  }

  /** A new name gets exactly one new node, holding the entity's description and labels and an id no node had. */
  lemma CreateNodeOnNewName(g: Graph, e: EntityData)
    requires Invariant(g) && e.name !in g.nodes && e.category != []
    ensures var r := CreateNodeEffect(g, e, false);
      && r.id.Some?
      && (forall m :: m in g.nodes ==> g.nodes[m].id != r.id.value)
      && r.graph.nodes == g.nodes[e.name := Node(r.id.value, LabelSet(e.category), e.description)]
      && |r.graph.nodes| == |g.nodes| + 1
  {
  }

  /** A failed write (driver error, or no categories so the query is invalid) returns None and changes nothing. */
  lemma CreateNodeFailure(g: Graph, e: EntityData, fault: bool)
    requires (fault || e.category == [])
    ensures CreateNodeEffect(g, e, fault) == NodeOutcome(g, None)
  {
  }

  /** create_node adds a node only for a name not yet stored, and then exactly one. */
  lemma CreateNodeNeverDuplicates(g: Graph, e: EntityData, fault: bool)
    ensures var r := CreateNodeEffect(g, e, fault);
      |r.graph.nodes| == if e.name !in g.nodes && r.id.Some? then |g.nodes| + 1 else |g.nodes|
    ensures var r := CreateNodeEffect(g, e, fault);
      r.graph.nodes.Keys == if r.id.Some? then g.nodes.Keys + {e.name} else g.nodes.Keys
  {
    var r := CreateNodeEffect(g, e, fault);
    if r.id.Some? {
      if e.name in g.nodes {
        assert r.graph.nodes.Keys == g.nodes.Keys;
      } else {
        assert r.graph.nodes == g.nodes[e.name := r.graph.nodes[e.name]];
      }
    }
  }

  /** Two upserts under one name leave one node whose id did not change and whose labels are the union. */
  lemma RepeatedCreateNodeKeepsOneNode(g: Graph, e1: EntityData, e2: EntityData)
    requires e1.name == e2.name
    requires e1.category != [] && e2.category != []
    ensures var r1 := CreateNodeEffect(g, e1, false); var r2 := CreateNodeEffect(r1.graph, e2, false);
      && r1.id.Some? && r2.id == r1.id
      && r2.graph.nodes.Keys == g.nodes.Keys + {e1.name}
      && r2.graph.nodes[e1.name].labels
         == (if e1.name in g.nodes then g.nodes[e1.name].labels else {}) + LabelSet(e1.category) + LabelSet(e2.category)
      && r2.graph.nodes[e1.name].description
         == if e1.name in g.nodes then g.nodes[e1.name].description else e1.description
  {
    var r1 := CreateNodeEffect(g, e1, false);
    assert LabelFragment(e1.category) != "" && LabelFragment(e2.category) != "";
    assert e1.name in r1.graph.nodes;
    var n1 := r1.graph.nodes[e1.name];
    if e1.name in g.nodes {
      assert n1 == g.nodes[e1.name].(labels := g.nodes[e1.name].labels + LabelSet(e1.category));
      assert r1.graph.nodes.Keys == g.nodes.Keys;
    } else {
      assert n1 == Node(g.nextId, LabelSet(e1.category), e1.description);
      assert r1.graph.nodes.Keys == g.nodes.Keys + {e1.name};
    }
    var r2 := CreateNodeEffect(r1.graph, e2, false);
    assert r2.graph.nodes == r1.graph.nodes[e1.name := n1.(labels := n1.labels + LabelSet(e2.category))];
  }

  // ---------------------------------------------------------------------------
  // create_relationship

  /** A relationship with a missing endpoint changes no node and no edge. */
  lemma DanglingRelationshipChangesNothing(g: Graph, rel: RelationshipData, fault: bool)
    requires (rel.source !in g.nodes || rel.target !in g.nodes)
    ensures CreateRelationshipEffect(g, rel, fault) == g
  {
  }

  /** An attribute value Neo4j refuses (here a list mixing integers and strings) rolls the whole statement back,
      MERGE included: no edge is created or changed. */
  lemma UnstorableAttributesChangeNothing(g: Graph, rel: RelationshipData, fault: bool, key: string)
    requires rel.attributes == Dict(map[key := ListVal([IntVal(1), StrVal("a")])])
    ensures CreateRelationshipEffect(g, rel, fault) == g
  {
    var mixed := [IntVal(1), StrVal("a")];
    assert !SameKind(mixed[0], mixed[1]);
    assert WrapAttributes(rel.attributes)[key] == ListVal(mixed);
  }

  /** A relationship write changes the store only when every normalised attribute value can be stored. */
  lemma WrittenAttributesAreStorable(g: Graph, rel: RelationshipData, fault: bool)
    requires CreateRelationshipEffect(g, rel, fault) != g
    ensures StorableProperties(WrapAttributes(rel.attributes))
    ensures !fault && rel.source in g.nodes && rel.target in g.nodes
  {
  }

  /** create_relationship adds at most one edge, and only under its own key. */
  lemma CreateRelationshipAddsAtMostOneEdge(g: Graph, rel: RelationshipData, fault: bool)
    ensures var r := CreateRelationshipEffect(g, rel, fault);
      r.edges.Keys <= g.edges.Keys + {EdgeKey(rel.source, rel.target, SanitiseRelType(rel.relationType))}
      && |r.edges| <= |g.edges| + 1
  {
    var r := CreateRelationshipEffect(g, rel, fault);
    var key := EdgeKey(rel.source, rel.target, SanitiseRelType(rel.relationType));
    assert r.edges.Keys <= g.edges.Keys + {key};
    assert |g.edges.Keys + {key}| <= |g.edges.Keys| + 1;
    SubsetCardinality(r.edges.Keys, g.edges.Keys + {key});
  }

  lemma SubsetCardinality<T>(a: set<T>, b: set<T>)
    requires a <= b
    ensures |a| <= |b|
  {
    assert b == a + (b - a);
  }

  /** Creating a relationship twice under one (source, target, sanitised type) leaves one edge whose
      attributes are the earlier ones overlaid by the later ones. */
  lemma RepeatedCreateRelationshipKeepsOneEdge(g: Graph, r1: RelationshipData, r2: RelationshipData)
    requires r1.source == r2.source && r1.target == r2.target
    requires SanitiseRelType(r1.relationType) == SanitiseRelType(r2.relationType)
    requires r1.source in g.nodes && r1.target in g.nodes
    requires StorableProperties(WrapAttributes(r1.attributes)) && StorableProperties(WrapAttributes(r2.attributes))
    ensures var key := EdgeKey(r1.source, r1.target, SanitiseRelType(r1.relationType));
      var before := if key in g.edges then g.edges[key] else map[];
      var a1 := WrapAttributes(r1.attributes);
      var a2 := WrapAttributes(r2.attributes);
      var g2 := CreateRelationshipEffect(CreateRelationshipEffect(g, r1, false), r2, false);
      && g2.nodes == g.nodes
      && g2.edges.Keys == g.edges.Keys + {key}
      && g2.edges[key] == Overlay(Overlay(before, a1), a2)
      && (forall k :: k in a2 && a2[k] != Null ==> g2.edges[key][k] == a2[k])
      && (forall k :: k in a1 && a1[k] != Null && k !in a2 ==> g2.edges[key][k] == a1[k])
      && (forall k :: k in before && k !in a1 && k !in a2 ==> g2.edges[key][k] == before[k])
  {
  }

  /** The relation type of the scenario below is stored as it is written. */
  lemma CapitalOfIsClean()
    ensures SanitiseRelType("capital_of") == "capital_of"
  {
    var t := "capital_of";
    assert |t| == 10;
    assert t[0] == 'c' && t[1] == 'a' && t[2] == 'p' && t[3] == 'i' && t[4] == 't';
    assert t[5] == 'a' && t[6] == 'l' && t[7] == '_' && t[8] == 'o' && t[9] == 'f';
    forall i | 0 <= i < |t|
      ensures t[i] !in Forbidden
    {
    }
    SanitiseUnchangedIff(t);
  }

  /** Two upserts of "Paris" under "City" and then "Capital" leave one node, one id and both labels. */
  lemma ParisLabelsAccumulate()
    ensures
      var paris1 := CreateNodeEffect(Graph(map[], map[], 0), EntityData("Paris", "", ["City"]), false);
      var paris2 := CreateNodeEffect(paris1.graph, EntityData("Paris", "", ["Capital"]), false);
      && paris1.id.Some? && paris2.id == paris1.id
      && paris2.graph.nodes.Keys == {"Paris"}
      && paris2.graph.nodes["Paris"].labels == {"City", "Capital"}
  {
    var city := EntityData("Paris", "", ["City"]);
    var capital := EntityData("Paris", "", ["Capital"]);
    RepeatedCreateNodeKeepsOneNode(Graph(map[], map[], 0), city, capital);
    assert LabelSet(["City"]) + LabelSet(["Capital"]) == {"City", "Capital"};
  }

  /** "Paris" -> "France" stored with since 1789 and then with since 1792 keeps one edge, since 1792
      (for "capital_of", or any other relation type). */
  lemma ParisAttributeOverwritten(g: Graph, relType: string)
    requires "Paris" in g.nodes && "France" in g.nodes && g.edges == map[]
    ensures
      var rel1 := RelationshipData("Paris", "France", relType, Dict(map["since" := IntVal(1789)]));
      var rel2 := RelationshipData("Paris", "France", relType, Dict(map["since" := IntVal(1792)]));
      CreateRelationshipEffect(CreateRelationshipEffect(g, rel1, false), rel2, false).edges
        == map[EdgeKey("Paris", "France", SanitiseRelType(relType)) := map["since" := IntVal(1792)]]
  {
    var rel1 := RelationshipData("Paris", "France", relType, Dict(map["since" := IntVal(1789)]));
    var rel2 := RelationshipData("Paris", "France", relType, Dict(map["since" := IntVal(1792)]));
    var key := EdgeKey("Paris", "France", SanitiseRelType(relType));
    var since1789: Properties := map["since" := IntVal(1789)];
    var since1792: Properties := map["since" := IntVal(1792)];
    var g1 := CreateRelationshipEffect(g, rel1, false);
    assert Overlay(map[], since1789) == since1789 by {
      assert Overlay(map[], since1789).Keys == since1789.Keys;
    }
    assert g1.edges == map[key := since1789];
    var g2 := CreateRelationshipEffect(g1, rel2, false);
    assert Overlay(since1789, since1792) == since1792 by {
      assert Overlay(since1789, since1792).Keys == since1792.Keys;
    }
    assert g2.edges == map[key := since1792];
  }
}
