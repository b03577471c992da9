/** Properties of the generator's iteration loop: how many iterations run, where the run stops, the order of the
    store writes, entity canonicalisation, and what a rename does to the batch's relationships. */
module GeneratorProperties {
  import opened Models
  import opened Neo4j
  import opened Generator

  // ---------------------------------------------------------------------------
  // Iteration count and early stop

  /** The run begins at most max(i, n) iterations, and none when the bound is already reached. */
  lemma {:induction false} RunIterationBound(
    g: Graph, calls: seq<Call>, st: LoopState, answers: nat -> Round,
    isSameConcept: (string, string) -> bool, i: nat, n: int)
    ensures var r := Run(g, calls, st, answers, isSameConcept, i, n);
      && i <= r.iterations <= (if n <= i then i else n)
      && (n <= i ==> r == RunOutcome(i, st, g, calls))
    decreases n - i
  {
    if i < n {
      var round := answers(i);
      if !Falsy(round.trace) {
        RunIterationBound(IterationEffect(g, round, isSameConcept), calls + IterationCalls(round, isSameConcept),
                          SelectTopic(st, round), answers, isSameConcept, i + 1, n);
      }
    }
  }

  /** When every reasoning trace is truthy, the run performs all of its iterations. */
  lemma {:induction false} RunCompletesWithTruthyTraces(
    g: Graph, calls: seq<Call>, st: LoopState, answers: nat -> Round,
    isSameConcept: (string, string) -> bool, i: nat, n: int)
    requires forall j: nat :: i <= j < n ==> !Falsy(answers(j).trace)
    ensures Run(g, calls, st, answers, isSameConcept, i, n).iterations == if n <= i then i else n
    decreases n - i
  {
    if i < n {
      var round := answers(i);
      RunCompletesWithTruthyTraces(IterationEffect(g, round, isSameConcept), calls + IterationCalls(round, isSameConcept),
                                   SelectTopic(st, round), answers, isSameConcept, i + 1, n);
    }
  }

  /** The run ends in the iteration of the first falsy reasoning trace: that iteration selects a topic and writes
      nothing, and the store and the call log are those of a run bounded just before it. */
  lemma {:induction false} RunStopsAtFirstFalsyTrace(
    g: Graph, calls: seq<Call>, st: LoopState, answers: nat -> Round,
    isSameConcept: (string, string) -> bool, i: nat, n: int, k: nat)
    requires i <= k < n
    requires Falsy(answers(k).trace)
    requires forall j: nat :: i <= j < k ==> !Falsy(answers(j).trace)
    ensures var r := Run(g, calls, st, answers, isSameConcept, i, n);
      var upTo := Run(g, calls, st, answers, isSameConcept, i, k);
      && r.iterations == k + 1
      && r.graph == upTo.graph
      && r.calls == upTo.calls
      && r.state == SelectTopic(upTo.state, answers(k))
    decreases k - i
  {
    var round := answers(i);
    if i == k {
      assert Run(g, calls, st, answers, isSameConcept, i, n) == RunOutcome(k + 1, SelectTopic(st, round), g, calls);
      assert Run(g, calls, st, answers, isSameConcept, i, k) == RunOutcome(i, st, g, calls);
    } else {
      assert !Falsy(round.trace);
      var g' := IterationEffect(g, round, isSameConcept);
      var calls' := calls + IterationCalls(round, isSameConcept);
      var st' := SelectTopic(st, round);
      assert Run(g, calls, st, answers, isSameConcept, i, n) == Run(g', calls', st', answers, isSameConcept, i + 1, n);
      assert Run(g, calls, st, answers, isSameConcept, i, k) == Run(g', calls', st', answers, isSameConcept, i + 1, k);
      RunStopsAtFirstFalsyTrace(g', calls', st', answers, isSameConcept, i + 1, n, k);
    }
  }

  // ---------------------------------------------------------------------------
  // Topic selection

  /** The topic is an end point of the chosen path, with that end point's description; with no path, the previous
      prompt and topic are kept. */
  lemma TopicIsPathEndpoint(st: LoopState, round: Round)
    ensures round.paths == [] ==> SelectTopic(st, round) == st
    ensures round.paths != [] ==>
      var path := round.paths[round.pick];
      var next := SelectTopic(st, round);
      || (next.previousNodeName == Some(path.endNodeName)
          && next.prompt == TopicPrompt(path.endNodeName, path.endNodeDescription))
      || (next.previousNodeName == Some(path.startNodeName)
          && next.prompt == TopicPrompt(path.startNodeName, path.startNodeDescription))
  {
  }

  /** On a path with two distinct end points, the new topic is never the previous one. */
  lemma TopicMovesOn(st: LoopState, round: Round)
    requires round.paths != []
    requires round.paths[round.pick].startNodeName != round.paths[round.pick].endNodeName
    ensures SelectTopic(st, round).previousNodeName != st.previousNodeName
  {
  }

  // ---------------------------------------------------------------------------
  // Canonicalisation

  /** An entity takes the first same-concept existing name, unless that name is empty. */
  lemma CanonicalNameIsFirstSameConcept(
    name: string, existing: seq<string>, isSameConcept: (string, string) -> bool, j: nat)
    requires j < |existing| && isSameConcept(name, existing[j])
    requires forall m :: 0 <= m < j ==> !isSameConcept(name, existing[m])
    ensures CanonicalName(name, existing, isSameConcept) == if existing[j] == "" then name else existing[j]
  {
    var r := FirstSameConcept(name, existing, isSameConcept);
    assert r == Some(j);
  }

  /** Without a same-concept existing name, an entity keeps its own name. */
  lemma CanonicalNameWithoutSameConcept(name: string, existing: seq<string>, isSameConcept: (string, string) -> bool)
    requires forall m :: 0 <= m < |existing| ==> !isSameConcept(name, existing[m])
    ensures CanonicalName(name, existing, isSameConcept) == name
  {
  }

  // ---------------------------------------------------------------------------
  // Order of the writes

  /** An iteration without a non-empty batch writes nothing; otherwise it issues one create_node call per entity,
      under its canonical name, in batch order, and then one create_relationship call per relationship, verbatim
      and in batch order. */
  lemma IterationCallOrder(g: Graph, round: Round, isSameConcept: (string, string) -> bool)
    ensures !HasEntities(round.extraction) ==>
      IterationCalls(round, isSameConcept) == [] && IterationEffect(g, round, isSameConcept) == g
    ensures HasEntities(round.extraction) ==>
      var batch := round.extraction.value;
      var cs := IterationCalls(round, isSameConcept);
      && |cs| == |batch.entities| + |batch.relationships|
      && (forall k :: 0 <= k < |batch.entities| ==>
            cs[k] == CreateNodeCall(Canonicalise(batch.entities[k], round.existingNames, isSameConcept)))
      && (forall k :: 0 <= k < |batch.relationships| ==>
            cs[|batch.entities| + k] == CreateRelationshipCall(batch.relationships[k]))
  {
  }

  /** No create_node call follows a create_relationship call within an iteration. */
  lemma NodesBeforeRelationships(round: Round, isSameConcept: (string, string) -> bool)
    ensures var cs := IterationCalls(round, isSameConcept);
      forall a, b :: 0 <= a < b < |cs| && cs[a].CreateRelationshipCall? ==> cs[b].CreateRelationshipCall?
  {
    if HasEntities(round.extraction) {
      var batch := round.extraction.value;
      var cs := IterationCalls(round, isSameConcept);
      forall j | 0 <= j < |cs|
        ensures cs[j].CreateRelationshipCall? <==> j >= |batch.entities|
      {
        if j < |batch.entities| {
          assert cs[j] == NodeCalls(batch.entities, round.existingNames, isSameConcept)[j];
        } else {
          assert cs[j] == RelationshipCalls(batch.relationships)[j - |batch.entities|];
        }
      }
    }
  }

  // ---------------------------------------------------------------------------
  // The entity phase

  /** An entity's write succeeds exactly when its write does not fail and it has a category; then its node is
      stored under its canonical name and the id recorded for it is that node's id. */
  lemma {:induction false} SubmittedEntitiesAreStored(
    g: Graph, entities: seq<EntityData>, existing: seq<string>,
    isSameConcept: (string, string) -> bool, failed: set<nat>)
    ensures var r := SubmitEntitiesEffect(g, entities, existing, isSameConcept, failed);
      forall k :: 0 <= k < |entities| ==>
        && (r.ids[k].Some? <==> k !in failed && entities[k].category != [])
        && (r.ids[k].Some? ==>
              var name := CanonicalName(entities[k].name, existing, isSameConcept);
              name in r.graph.nodes && r.ids[k] == Some(r.graph.nodes[name].id))
    decreases |entities|
  {
    if entities != [] {
      var n := |entities| - 1;
      var before := SubmitEntitiesEffect(g, entities[..n], existing, isSameConcept, failed);
      var out := CreateNodeEffect(before.graph, Canonicalise(entities[n], existing, isSameConcept), n in failed);
      SubmittedEntitiesAreStored(g, entities[..n], existing, isSameConcept, failed);
      CreateNodeResult(before.graph, Canonicalise(entities[n], existing, isSameConcept), n in failed);
      CreateNodeFrame(before.graph, Canonicalise(entities[n], existing, isSameConcept), n in failed);
      var r := SubmitEntitiesEffect(g, entities, existing, isSameConcept, failed);
      assert r == EntityPhase(out.graph, before.ids + [out.id]);
      forall k | 0 <= k < |entities|
        ensures && (r.ids[k].Some? <==> k !in failed && entities[k].category != [])
                && (r.ids[k].Some? ==>
                      var name := CanonicalName(entities[k].name, existing, isSameConcept);
                      name in r.graph.nodes && r.ids[k] == Some(r.graph.nodes[name].id))
      {
        if k < n {
          assert entities[..n][k] == entities[k];
          assert r.ids[k] == before.ids[k];
        } else {
          assert r.ids[k] == out.id;
        }
      }
    }
  }

  /** A name that no entity of the batch is submitted under, and that the store did not hold, is still absent
      after the entity phase. */
  lemma {:induction false} UnsubmittedNameStaysAbsent(
    g: Graph, entities: seq<EntityData>, existing: seq<string>,
    isSameConcept: (string, string) -> bool, failed: set<nat>, name: string)
    requires name !in g.nodes
    requires forall k :: 0 <= k < |entities| ==> CanonicalName(entities[k].name, existing, isSameConcept) != name
    ensures name !in SubmitEntitiesEffect(g, entities, existing, isSameConcept, failed).graph.nodes
    decreases |entities|
  {
    if entities != [] {
      var n := |entities| - 1;
      assert forall k :: 0 <= k < n ==> entities[..n][k] == entities[k];
      UnsubmittedNameStaysAbsent(g, entities[..n], existing, isSameConcept, failed, name);
    }
  }

  /** The entity phase creates no edge, removes no node, changes no stored id, and keeps the store invariant. */
  lemma {:induction false} SubmitEntitiesFrame(
    g: Graph, entities: seq<EntityData>, existing: seq<string>,
    isSameConcept: (string, string) -> bool, failed: set<nat>)
    ensures var r := SubmitEntitiesEffect(g, entities, existing, isSameConcept, failed).graph;
      && r.edges == g.edges
      && g.nodes.Keys <= r.nodes.Keys
      && (forall m :: m in g.nodes ==> r.nodes[m].id == g.nodes[m].id)
      && (Invariant(g) ==> Invariant(r))
    decreases |entities|
  {
    if entities != [] {
      var n := |entities| - 1;
      var before := SubmitEntitiesEffect(g, entities[..n], existing, isSameConcept, failed).graph;
      var e := Canonicalise(entities[n], existing, isSameConcept);
      SubmitEntitiesFrame(g, entities[..n], existing, isSameConcept, failed);
      CreateNodeFrame(before, e, n in failed);
      if Invariant(g) {
        CreateNodePreservesInvariant(before, e, n in failed);
      }
    }
  }

  /** The relationship phase changes no node and removes no edge, and keeps the store invariant. */
  lemma {:induction false} SubmitRelationshipsFrame(g: Graph, relationships: seq<RelationshipData>, failed: set<nat>)
    ensures var r := SubmitRelationshipsEffect(g, relationships, failed);
      && r.nodes == g.nodes && r.nextId == g.nextId
      && g.edges.Keys <= r.edges.Keys
      && (Invariant(g) ==> Invariant(r))
    decreases |relationships|
  {
    if relationships != [] {
      var n := |relationships| - 1;
      var before := SubmitRelationshipsEffect(g, relationships[..n], failed);
      SubmitRelationshipsFrame(g, relationships[..n], failed);
      CreateRelationshipFrame(before, relationships[n], n in failed);
      if Invariant(g) {
        CreateRelationshipPreservesInvariant(before, relationships[n], n in failed);
      }
    }
  }

  /** One iteration keeps node ids distinct and every edge between stored nodes. */
  lemma IterationPreservesInvariant(g: Graph, round: Round, isSameConcept: (string, string) -> bool)
    requires Invariant(g)
    ensures Invariant(IterationEffect(g, round, isSameConcept))
  {
    if HasEntities(round.extraction) {
      var batch := round.extraction.value;
      SubmitEntitiesFrame(g, batch.entities, round.existingNames, isSameConcept, round.failedNodes);
      var afterEntities := SubmitEntitiesEffect(g, batch.entities, round.existingNames, isSameConcept, round.failedNodes).graph;
      SubmitRelationshipsFrame(afterEntities, batch.relationships, round.failedRelationships);
    }
  }

  /** The whole run keeps the store invariant. */
  lemma {:induction false} RunPreservesInvariant(
    g: Graph, calls: seq<Call>, st: LoopState, answers: nat -> Round,
    isSameConcept: (string, string) -> bool, i: nat, n: int)
    requires Invariant(g)
    ensures Invariant(Run(g, calls, st, answers, isSameConcept, i, n).graph)
    decreases n - i
  {
    if i < n {
      var round := answers(i);
      if !Falsy(round.trace) {
        IterationPreservesInvariant(g, round, isSameConcept);
        RunPreservesInvariant(IterationEffect(g, round, isSameConcept), calls + IterationCalls(round, isSameConcept),
                              SelectTopic(st, round), answers, isSameConcept, i + 1, n);
      }
    }
  }

  /** Relationships keep the names extraction gave their end points. When an entity is renamed to an existing name
      and nothing in the batch or the store carries its original name, no relationship of the iteration reaches
      that name: relationships naming it are dropped. */
  lemma RenamedEndpointDropsRelationships(g: Graph, round: Round, isSameConcept: (string, string) -> bool, name: string)
    requires Invariant(g)
    requires name !in g.nodes
    requires HasEntities(round.extraction)
    requires forall k :: 0 <= k < |round.extraction.value.entities| ==>
      CanonicalName(round.extraction.value.entities[k].name, round.existingNames, isSameConcept) != name
    ensures var r := IterationEffect(g, round, isSameConcept);
      name !in r.nodes && forall key :: key in r.edges ==> key.source != name && key.target != name
  {
    var batch := round.extraction.value;
    UnsubmittedNameStaysAbsent(g, batch.entities, round.existingNames, isSameConcept, round.failedNodes, name);
    var afterEntities := SubmitEntitiesEffect(g, batch.entities, round.existingNames, isSameConcept, round.failedNodes).graph;
    SubmitRelationshipsFrame(afterEntities, batch.relationships, round.failedRelationships);
    IterationPreservesInvariant(g, round, isSameConcept);
  }
}
