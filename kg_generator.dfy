/** The knowledge-graph generator's iteration loop. Each iteration picks a topic from a path the store reports,
    asks for a reasoning trace (stopping when there is none), extracts a batch of entities and relationships,
    renames each entity to the first same-concept name stored before the iteration, and submits every entity
    to the store before any relationship.

    The outside world enters as values: what the store, the language model, the embedder and `random.choice`
    answer in iteration i is `answers(i)`, and `isSameConcept` is the embedder's similarity test. */
module Generator {
  import opened Models
  import opened Neo4j

  /** One record of the store's path query: the two end nodes of a path, with their descriptions. */
  datatype PathRecord = PathRecord(
    startNodeName: string, startNodeDescription: string,
    endNodeName: string, endNodeDescription: string)

  /** What extraction returns: the batch's entities and relationships. */
  datatype Extraction = Extraction(entities: seq<EntityData>, relationships: seq<RelationshipData>)

  /** The answers the loop receives in one iteration:
      `paths` from the path query, `pick` from random.choice, `trace` from the reasoning model,
      `existingNames` from query_node_names, `extraction` from the extraction model, and the positions of the
      entities and relationships whose write transaction raises. */
  datatype Answers = Answers(
    paths: seq<PathRecord>,
    pick: nat,
    trace: Option<string>,
    existingNames: seq<string>,
    extraction: Option<Extraction>,
    failedNodes: set<nat>,
    failedRelationships: set<nat>)

  /** random.choice only ever picks an element of the list it is given. */
  type Round = a: Answers | a.paths == [] || a.pick < |a.paths|
    witness Answers([], 0, None, [], None, {}, {})

  /** The loop's own variables: `prompt` and `previous_node_name`. */
  datatype LoopState = LoopState(prompt: string, previousNodeName: Option<string>)

  datatype Topic = Topic(name: string, description: string)

  function TopicPrompt(name: string, description: string): string
  {
    "Given the concept of '" + name + " (" + description + ")', what related concepts and relationships"
    + " can be explored to expand our knowledge graph?"
  }

  /** The chosen path's end node, or its start node when the end node was the previous topic. */
  function ChooseNode(path: PathRecord, previousNodeName: Option<string>): Topic
  {
    if previousNodeName == Some(path.endNodeName) then Topic(path.startNodeName, path.startNodeDescription)
    else Topic(path.endNodeName, path.endNodeDescription)
  }

  /** The loop variables after topic selection; with no path the previous prompt is reused. */
  function SelectTopic(st: LoopState, round: Round): (r: LoopState)
    ensures round.paths == [] ==> r == st
    ensures round.paths != [] ==>
      r.previousNodeName in {Some(round.paths[round.pick].startNodeName), Some(round.paths[round.pick].endNodeName)}
  {
    if round.paths == [] then st
    else
      var topic := ChooseNode(round.paths[round.pick], st.previousNodeName);
      LoopState(TopicPrompt(topic.name, topic.description), Some(topic.name))
  }

  /** Python's falsiness of the reasoning trace: None or the empty string. */
  predicate Falsy(trace: Option<string>)
  {
    trace.None? || trace.value == ""
  }

  // ---------------------------------------------------------------------------
  // Entity canonicalisation

  /** Position of the first existing name that is the same concept as `name`. */
  function FirstSameConcept(name: string, existing: seq<string>, isSameConcept: (string, string) -> bool)
    : (r: Option<nat>)
    ensures r.Some? ==> r.value < |existing| && isSameConcept(name, existing[r.value])
    ensures r.Some? ==> forall j :: 0 <= j < r.value ==> !isSameConcept(name, existing[j])
    ensures r.None? ==> forall j :: 0 <= j < |existing| ==> !isSameConcept(name, existing[j])
  {
    if existing == [] then None
    else if isSameConcept(name, existing[0]) then Some(0)
    else
      match FirstSameConcept(name, existing[1..], isSameConcept)
      case None => None
      case Some(j) => Some(j + 1)
  }

  /** The name an entity is submitted under: the first same-concept existing name, unless that name is empty
      (falsy) or there is none; then the entity's own name. */
  function CanonicalName(name: string, existing: seq<string>, isSameConcept: (string, string) -> bool)
    : (r: string)
    ensures r == name || (r in existing && isSameConcept(name, r))
  {
    match FirstSameConcept(name, existing, isSameConcept)
    case Some(j) => if existing[j] != "" then existing[j] else name
    case None => name
  }

  function Canonicalise(e: EntityData, existing: seq<string>, isSameConcept: (string, string) -> bool)
    : EntityData
  {
    e.(name := CanonicalName(e.name, existing, isSameConcept))
  }

  // ---------------------------------------------------------------------------
  // One iteration, as a function of the store

  /** The store after the entity loop, and what create_node returned for each entity. */
  datatype EntityPhase = EntityPhase(graph: Graph, ids: seq<Option<NodeId>>)

  /** The entity loop: each entity, renamed against `existing`, is upserted in batch order. */
  function SubmitEntitiesEffect(
    g: Graph, entities: seq<EntityData>, existing: seq<string>,
    isSameConcept: (string, string) -> bool, failed: set<nat>): (r: EntityPhase)
    ensures |r.ids| == |entities|
    decreases |entities|
  {
    if entities == [] then EntityPhase(g, [])
    else
      var k := |entities| - 1;
      var before := SubmitEntitiesEffect(g, entities[..k], existing, isSameConcept, failed);
      var out := CreateNodeEffect(before.graph, Canonicalise(entities[k], existing, isSameConcept), k in failed);
      EntityPhase(out.graph, before.ids + [out.id])
  }

  /** The relationship loop: each relationship is submitted in batch order, endpoints as extracted. */
  function SubmitRelationshipsEffect(g: Graph, relationships: seq<RelationshipData>, failed: set<nat>)
    : (r: Graph)
    ensures r.nodes == g.nodes && r.nextId == g.nextId
    decreases |relationships|
  {
    if relationships == [] then g
    else
      var k := |relationships| - 1;
      CreateRelationshipEffect(SubmitRelationshipsEffect(g, relationships[..k], failed), relationships[k], k in failed)
  }

  /** The batch is processed only when extraction produced one with at least one entity. */
  predicate HasEntities(extraction: Option<Extraction>)
  {
    extraction.Some? && extraction.value.entities != []
  }

  /** One iteration's writes: the entity loop, then the relationship loop; nothing without a non-empty batch. */
  function IterationEffect(g: Graph, round: Round, isSameConcept: (string, string) -> bool): (r: Graph)
    ensures !HasEntities(round.extraction) ==> r == g
  {
    if HasEntities(round.extraction) then
      var batch := round.extraction.value;
      var afterEntities :=
        SubmitEntitiesEffect(g, batch.entities, round.existingNames, isSameConcept, round.failedNodes).graph;
      SubmitRelationshipsEffect(afterEntities, batch.relationships, round.failedRelationships)
    else g
  }

  function NodeCalls(entities: seq<EntityData>, existing: seq<string>, isSameConcept: (string, string) -> bool)
    : seq<Call>
  {
    seq(|entities|, k requires 0 <= k < |entities| => CreateNodeCall(Canonicalise(entities[k], existing, isSameConcept)))
  }

  function RelationshipCalls(relationships: seq<RelationshipData>): seq<Call>
  {
    seq(|relationships|, k requires 0 <= k < |relationships| => CreateRelationshipCall(relationships[k]))
  }

  /** The client calls one iteration issues, in order. */
  function IterationCalls(round: Round, isSameConcept: (string, string) -> bool): (r: seq<Call>)
    ensures |r| == if HasEntities(round.extraction)
      then |round.extraction.value.entities| + |round.extraction.value.relationships| else 0
  {
    if HasEntities(round.extraction) then
      var batch := round.extraction.value;
      NodeCalls(batch.entities, round.existingNames, isSameConcept) + RelationshipCalls(batch.relationships)
    else []
  }

  // ---------------------------------------------------------------------------
  // The whole run

  /** How many iterations began (reasoning traces requested), the loop variables, the store and the call log. */
  datatype RunOutcome = RunOutcome(iterations: nat, state: LoopState, graph: Graph, calls: seq<Call>)

  /** The loop from iteration i on, given the state when iteration i begins. */
  function Run(
    g: Graph, calls: seq<Call>, st: LoopState, answers: nat -> Round,
    isSameConcept: (string, string) -> bool, i: nat, maxIterations: int): (r: RunOutcome)
    ensures i <= r.iterations
    ensures calls <= r.calls
    decreases maxIterations - i
  {
    if i >= maxIterations then RunOutcome(i, st, g, calls)
    else
      var round := answers(i);
      var next := SelectTopic(st, round);
      if Falsy(round.trace) then RunOutcome(i + 1, next, g, calls)
      else
        Run(IterationEffect(g, round, isSameConcept), calls + IterationCalls(round, isSameConcept), next,
            answers, isSameConcept, i + 1, maxIterations)
  }

  // ---------------------------------------------------------------------------
  // The imperative loop

  /** The inner search: the first existing name the embedder calls the same concept, if any. */
  method FindSameConcept(name: string, existingEntityNames: seq<string>, isSameConcept: (string, string) -> bool)
    returns (sameConceptEntity: Option<string>)
    ensures sameConceptEntity.Some? <==> FirstSameConcept(name, existingEntityNames, isSameConcept).Some?
    ensures sameConceptEntity.Some? ==>
      sameConceptEntity.value == existingEntityNames[FirstSameConcept(name, existingEntityNames, isSameConcept).value]
  {
    sameConceptEntity := None;
    for j := 0 to |existingEntityNames|
      invariant forall m :: 0 <= m < j ==> !isSameConcept(name, existingEntityNames[m])
    {
      if isSameConcept(name, existingEntityNames[j]) {
        sameConceptEntity := Some(existingEntityNames[j]);
        return;
      }
    }
  }

  /** Topic selection: when the store reports paths, the prompt is rebuilt around an end point of the chosen path,
      avoiding the previous topic; otherwise prompt and topic are kept. */
  method SelectStartNode(round: Round, prompt: string, previousNodeName: Option<string>)
    returns (nextPrompt: string, nextPreviousNodeName: Option<string>)
    ensures LoopState(nextPrompt, nextPreviousNodeName) == SelectTopic(LoopState(prompt, previousNodeName), round)
  {
    nextPrompt, nextPreviousNodeName := prompt, previousNodeName;
    if |round.paths| > 0 {
      var path := round.paths[round.pick];
      var startNodeName := path.endNodeName;
      var startNodeDescription := path.endNodeDescription;
      if previousNodeName == Some(startNodeName) {
        startNodeName := path.startNodeName;
        startNodeDescription := path.startNodeDescription;
      }
      nextPreviousNodeName := Some(startNodeName);
      nextPrompt := TopicPrompt(startNodeName, startNodeDescription);
    }
  }

  /** Parsing the extraction: one new entity object per extracted entity, with no id yet. */
  method NewEntities(data: seq<EntityData>) returns (entities: seq<Entity>)
    ensures |entities| == |data|
    ensures forall k :: 0 <= k < |data| ==> fresh(entities[k]) && entities[k].Data() == data[k] && entities[k].id == None
    ensures forall a, b :: 0 <= a < b < |entities| ==> entities[a] != entities[b]
  {
    entities := [];
    for i := 0 to |data|
      invariant |entities| == i
      invariant forall k :: 0 <= k < i ==> fresh(entities[k]) && entities[k].Data() == data[k] && entities[k].id == None
      invariant forall a, b :: 0 <= a < b < i ==> entities[a] != entities[b]
    {
      var entity := new Entity(data[i]);
      entities := entities + [entity];
    }
  }

  /** Parsing the extraction: one new relationship object per extracted relationship. */
  method NewRelationships(data: seq<RelationshipData>) returns (relationships: seq<Relationship>)
    ensures |relationships| == |data|
    ensures forall k :: 0 <= k < |data| ==> fresh(relationships[k]) && relationships[k].Data() == data[k]
    ensures forall a, b :: 0 <= a < b < |relationships| ==> relationships[a] != relationships[b]
  {
    relationships := [];
    for i := 0 to |data|
      invariant |relationships| == i
      invariant forall k :: 0 <= k < i ==> fresh(relationships[k]) && relationships[k].Data() == data[k]
      invariant forall a, b :: 0 <= a < b < i ==> relationships[a] != relationships[b]
    {
      var relationship := new Relationship(data[i]);
      relationships := relationships + [relationship];
    }
  }

  /** One more entity of the batch: the prefix recursion of SubmitEntitiesEffect, one step at a time. */
  lemma SubmitEntitiesStep(
    g: Graph, data: seq<EntityData>, existing: seq<string>,
    isSameConcept: (string, string) -> bool, failed: set<nat>, i: nat)
    requires i < |data|
    ensures var before := SubmitEntitiesEffect(g, data[..i], existing, isSameConcept, failed);
      var out := CreateNodeEffect(before.graph, Canonicalise(data[i], existing, isSameConcept), i in failed);
      SubmitEntitiesEffect(g, data[..i + 1], existing, isSameConcept, failed) == EntityPhase(out.graph, before.ids + [out.id])
  {
    assert data[..i + 1][..i] == data[..i];
  }

  lemma NodeCallsStep(
    log: seq<Call>, data: seq<EntityData>, existing: seq<string>, isSameConcept: (string, string) -> bool, i: nat)
    requires i < |data|
    ensures log + NodeCalls(data[..i + 1], existing, isSameConcept)
      == log + NodeCalls(data[..i], existing, isSameConcept) + [CreateNodeCall(Canonicalise(data[i], existing, isSameConcept))]
  {
    assert NodeCalls(data[..i + 1], existing, isSameConcept)
      == NodeCalls(data[..i], existing, isSameConcept) + [CreateNodeCall(Canonicalise(data[i], existing, isSameConcept))];
  }

  lemma RelationshipCallsStep(log: seq<Call>, data: seq<RelationshipData>, i: nat)
    requires i < |data|
    ensures log + RelationshipCalls(data[..i + 1]) == log + RelationshipCalls(data[..i]) + [CreateRelationshipCall(data[i])]
  {
    assert RelationshipCalls(data[..i + 1]) == RelationshipCalls(data[..i]) + [CreateRelationshipCall(data[i])];
  }

  lemma AppendAssociative<T>(a: seq<T>, b: seq<T>, c: seq<T>)
    ensures a + b + c == a + (b + c)
  {
  }

  /** One more relationship of the batch. */
  lemma SubmitRelationshipsStep(g: Graph, data: seq<RelationshipData>, failed: set<nat>, i: nat)
    requires i < |data|
    ensures SubmitRelationshipsEffect(g, data[..i + 1], failed)
      == CreateRelationshipEffect(SubmitRelationshipsEffect(g, data[..i], failed), data[i], i in failed)
  {
    assert data[..i + 1][..i] == data[..i];
  }

  class KnowledgeGraphGenerator {
    const neo4jClient: Neo4jClient
    const isSameConcept: (string, string) -> bool

    constructor (neo4jClient: Neo4jClient, isSameConcept: (string, string) -> bool)
      ensures this.neo4jClient == neo4jClient && this.isSameConcept == isSameConcept
    {
      this.neo4jClient := neo4jClient;
      this.isSameConcept := isSameConcept;
    }

    /** One pass of the entity loop: rename the entity to its canonical name, upsert it, and record the id. */
    method SubmitEntity(entity: Entity, existingEntityNames: seq<string>, fault: bool) returns (nodeId: Option<NodeId>)
      requires neo4jClient.Valid()
      modifies neo4jClient, entity
      ensures neo4jClient.Valid()
      ensures entity.name == CanonicalName(old(entity.name), existingEntityNames, isSameConcept)
      ensures var e := EntityData(entity.name, entity.description, entity.category);
        && NodeOutcome(neo4jClient.State(), nodeId) == CreateNodeEffect(old(neo4jClient.State()), e, fault)
        && neo4jClient.calls == old(neo4jClient.calls) + [CreateNodeCall(e)]
      ensures entity.id == if nodeId.Some? then nodeId else old(entity.id)
    {
      var sameConceptEntity := FindSameConcept(entity.name, existingEntityNames, isSameConcept);
      if sameConceptEntity.Some? && sameConceptEntity.value != "" {
        entity.name := sameConceptEntity.value;
      }
      nodeId := neo4jClient.CreateNode(entity, fault);
      if nodeId.Some? {
        entity.id := nodeId;
      }
    }

    /** The entity loop: rename each entity in place, upsert it, and record a returned id in place.
        `data` and `initialIds` are the batch's values and ids on entry. */
    method SubmitEntities(
      entities: seq<Entity>, ghost data: seq<EntityData>, ghost initialIds: seq<Option<NodeId>>,
      existingEntityNames: seq<string>, failed: set<nat>)
      requires neo4jClient.Valid()
      requires |entities| == |data| == |initialIds|
      requires forall k :: 0 <= k < |entities| ==>
        && entities[k].name == data[k].name
        && entities[k].description == data[k].description
        && entities[k].category == data[k].category
        && entities[k].id == initialIds[k]
      requires forall a, b :: 0 <= a < b < |entities| ==> entities[a] != entities[b]
      modifies neo4jClient, entities
      ensures neo4jClient.Valid()
      ensures var r := SubmitEntitiesEffect(old(neo4jClient.State()), data, existingEntityNames, isSameConcept, failed);
        && neo4jClient.State() == r.graph
        && (forall k :: 0 <= k < |entities| ==> entities[k].id == if r.ids[k].Some? then r.ids[k] else initialIds[k])
      ensures neo4jClient.calls == old(neo4jClient.calls) + NodeCalls(data, existingEntityNames, isSameConcept)
      ensures forall k :: 0 <= k < |entities| ==>
        entities[k].name == CanonicalName(data[k].name, existingEntityNames, isSameConcept)
    {
      ghost var g0 := neo4jClient.State();
      ghost var calls0 := neo4jClient.calls;
      ghost var ids: seq<Option<NodeId>> := [];
      for i := 0 to |entities|
        invariant neo4jClient.Valid()
        invariant SubmitEntitiesEffect(g0, data[..i], existingEntityNames, isSameConcept, failed)
          == EntityPhase(neo4jClient.State(), ids)
        invariant |ids| == i
        invariant neo4jClient.calls == calls0 + NodeCalls(data[..i], existingEntityNames, isSameConcept)
        invariant forall k :: 0 <= k < |entities| ==>
          && entities[k].name == (if k < i then CanonicalName(data[k].name, existingEntityNames, isSameConcept) else data[k].name)
          && entities[k].id == (if k < i && ids[k].Some? then ids[k] else initialIds[k])
      {
        var nodeId := SubmitEntity(entities[i], existingEntityNames, i in failed);
        assert EntityData(entities[i].name, entities[i].description, entities[i].category)
          == Canonicalise(data[i], existingEntityNames, isSameConcept);
        SubmitEntitiesStep(g0, data, existingEntityNames, isSameConcept, failed, i);
        NodeCallsStep(calls0, data, existingEntityNames, isSameConcept, i);
        ids := ids + [nodeId];
      }
      assert data[..|entities|] == data;
    }

    /** The relationship loop: submit every relationship of the batch, in order. `data` is the batch's value. */
    method SubmitRelationships(relationships: seq<Relationship>, ghost data: seq<RelationshipData>, failed: set<nat>)
      requires neo4jClient.Valid()
      requires |relationships| == |data|
      requires forall k :: 0 <= k < |relationships| ==> relationships[k].Data() == data[k]
      requires forall a, b :: 0 <= a < b < |relationships| ==> relationships[a] != relationships[b]
      modifies neo4jClient, relationships
      ensures neo4jClient.Valid()
      ensures neo4jClient.State() == SubmitRelationshipsEffect(old(neo4jClient.State()), data, failed)
      ensures neo4jClient.calls == old(neo4jClient.calls) + RelationshipCalls(data)
      ensures forall k :: 0 <= k < |relationships| ==>
        relationships[k].attributes == Dict(WrapAttributes(data[k].attributes))
    {
      ghost var g0 := neo4jClient.State();
      ghost var calls0 := neo4jClient.calls;
      for i := 0 to |relationships|
        invariant neo4jClient.Valid()
        invariant neo4jClient.State() == SubmitRelationshipsEffect(g0, data[..i], failed)
        invariant neo4jClient.calls == calls0 + RelationshipCalls(data[..i])
        invariant forall k :: 0 <= k < i ==> relationships[k].attributes == Dict(WrapAttributes(data[k].attributes))
        invariant forall k :: i <= k < |relationships| ==> relationships[k].Data() == data[k]
      {
        neo4jClient.CreateRelationship(relationships[i], i in failed);
        SubmitRelationshipsStep(g0, data, failed, i);
        RelationshipCallsStep(calls0, data, i);
      }
      assert data[..|relationships|] == data;
    }

    /** The body of one iteration after a truthy reasoning trace: parse the batch and, when it has entities,
        submit all of them and then all of its relationships. */
    method ProcessBatch(existingEntityNames: seq<string>, newKnowledgeGraphData: Option<Extraction>, round: Round)
      requires neo4jClient.Valid()
      requires existingEntityNames == round.existingNames && newKnowledgeGraphData == round.extraction
      modifies neo4jClient
      ensures neo4jClient.Valid()
      ensures neo4jClient.State() == IterationEffect(old(neo4jClient.State()), round, isSameConcept)
      ensures neo4jClient.calls == old(neo4jClient.calls) + IterationCalls(round, isSameConcept)
    {
      if newKnowledgeGraphData.Some? && |newKnowledgeGraphData.value.entities| > 0 {
        var batch := newKnowledgeGraphData.value;
        var entities := NewEntities(batch.entities);
        var relationships := NewRelationships(batch.relationships);
        ghost var calls0 := neo4jClient.calls;
        SubmitEntities(entities, batch.entities, seq(|entities|, _ => None), existingEntityNames, round.failedNodes);
        SubmitRelationships(relationships, batch.relationships, round.failedRelationships);
        AppendAssociative(calls0, NodeCalls(batch.entities, existingEntityNames, isSameConcept),
                          RelationshipCalls(batch.relationships));
      } else {
        assert neo4jClient.calls + [] == neo4jClient.calls;
      }
    }

    /** run_kg_generation_iterations. Returns how many iterations began and the loop variables at the end. */
    method RunKgGenerationIterations(initialPrompt: string, maxIterations: int, answers: nat -> Round)
      returns (iterations: nat, prompt: string, previousNodeName: Option<string>)
      requires neo4jClient.Valid()
      modifies neo4jClient
      ensures neo4jClient.Valid()
      ensures RunOutcome(iterations, LoopState(prompt, previousNodeName), neo4jClient.State(), neo4jClient.calls)
        == Run(old(neo4jClient.State()), old(neo4jClient.calls), LoopState(initialPrompt, None),
               answers, isSameConcept, 0, maxIterations)
    {
      ghost var result := Run(neo4jClient.State(), neo4jClient.calls, LoopState(initialPrompt, None),
                              answers, isSameConcept, 0, maxIterations);
      prompt := initialPrompt;
      previousNodeName := None;
      iterations := 0;
      while iterations < maxIterations
        invariant neo4jClient.Valid()
        invariant Run(neo4jClient.State(), neo4jClient.calls, LoopState(prompt, previousNodeName),
                      answers, isSameConcept, iterations, maxIterations) == result
        decreases maxIterations - iterations
      {
        var round := answers(iterations);
        prompt, previousNodeName := SelectStartNode(round, prompt, previousNodeName);
        iterations := iterations + 1;

        var reasoningTrace := round.trace;
        if Falsy(reasoningTrace) {
          break;
        }

        var existingEntityNames := round.existingNames;
        var newKnowledgeGraphData := round.extraction;
        ProcessBatch(existingEntityNames, newKnowledgeGraphData, round);
      }
    }
  }
}
