# Knowledge-graph generation loop and its Neo4j writes, in Dafny

This project models the part of the agentic deep-graph-reasoning generator that grows a knowledge graph.
`KnowledgeGraphGenerator.run_kg_generation_iterations` repeats an iteration up to `max_iterations` times:

- It picks a topic from a path the store reports, preferring the path's end node unless that was the previous topic.
- It asks the reasoning model for a trace and stops at the first empty or missing one.
- It extracts a batch of entities and relationships.
- It renames each entity to the first existing node name the embedder calls the same concept, unless that name is empty.
- It upserts every entity with `Neo4jClient.create_node`, then every relationship with `Neo4jClient.create_relationship`.

The graph store is the class `Neo4j.Neo4jClient`. Its fields are:

- the nodes, keyed by name, each with an id, a label set and a description;
- the relationships, keyed by (source name, target name, relation type), each with a property map;
- the next fresh node id;
- a ghost log of every create call issued, in order.

Each store write is specified by a pure function of the store: `CreateNodeEffect` and `CreateRelationshipEffect`.
The methods are proved equal to these functions. Lemmas then state what the source promises about them:

- upserts by name never duplicate a node;
- labels accumulate;
- one relationship per (source, target, type), with its properties overlaid;
- sanitising the relation type removes exactly the quote characters and is idempotent;
- the label fragment parses back to the categories.

The generator is the class `Generator.KnowledgeGraphGenerator`. Its loop is a `while` loop proved equal to the function `Generator.Run`. Its entity and relationship loops are proved equal to `SubmitEntitiesEffect` and `SubmitRelationshipsEffect`. The lemmas about them cover:

- the iteration count and the stop at the first falsy trace;
- the choice of topic;
- canonical renaming;
- nodes being written before relationships;
- which entities end up stored under which id;
- the store invariant: distinct node ids, and every edge joins stored nodes.

What the outside world answers enters as values:

- In iteration `i`, the path query, `random.choice`, the reasoning model, `query_node_names` and the extraction model answer with `answers(i)`.
- `answers(i)` also says which write transactions raise.
- The embedder's similarity test is the function `isSameConcept`.

Where the code and its docstrings disagree, the model follows the code:

- An entity with an empty category list gets the label fragment `""`.
- The resulting `CREATE (n: {...})` or `SET n:` query is not valid Cypher.
- So `create_node` logs the error and returns `None`, and nothing is written.
- The docstring of `create_node` (src/clients/neo4j.py:65) says it creates a node for the given entity; for such an entity the model, like the code, creates none (`Neo4jProperties.CreateNodeFailure`).

The entity and relationship records are defined in `src/core/models.py`, which is not part of this model. Their fields are taken from how the two core files use them (`Models.Entity`, `Models.Relationship`).

## Model

| member | source | states |
|---|---|---|
| Neo4j.LabelFragment | src/clients/neo4j.py:68 | the label fragment is empty exactly when the category list is empty |
| Neo4j.LabelSet | src/clients/neo4j.py:75-80 | the label set a node receives holds each category as one label, and nothing else |
| Neo4jProperties.LabelSetIsFragmentLabels | src/clients/neo4j.py:68-80 | for categories without a backtick, the label set a node receives is exactly the set of labels the spliced fragment names |
| Neo4j.RemoveChar | src/clients/neo4j.py:102 | `str.replace(c, "")` never lengthens the string and leaves only characters of the input other than `c` |
| Neo4j.SanitiseRelType | src/clients/neo4j.py:102 | the sanitised relation type holds only characters of the input, and no backtick, double quote or single quote |
| Neo4j.WrapAttributes | src/clients/neo4j.py:98-99 | a dictionary is stored as it is; any other value is stored as the single property `stored_data` |
| Neo4j.Overlay | src/clients/neo4j.py:107 | `SET r += m`: keys of `m` with a non-null value are set, null values remove their key, every other key is kept |
| Neo4j.CreateNodeEffect | src/clients/neo4j.py:64-92 | the store and result of create_node: at most one fresh id is used and the next fresh id never goes back; that an id is returned exactly when the driver does not raise and the category list is non-empty is stated by CreateNodeResult, and the branches (match by name and add labels, create with a fresh id, fail) are stated by CreateNodeOnExistingName, CreateNodeOnNewName and CreateNodeFailure |
| Neo4j.CreateRelationshipEffect | src/clients/neo4j.py:94-124 | the store after create_relationship: no node and no id changes; the merge under one key with the attributes overlaid is stated by RepeatedCreateRelationshipKeepsOneEdge, and the cases that write nothing by DanglingRelationshipChangesNothing and UnstorableAttributesChangeNothing |
| Neo4j.CreateNodePreservesInvariant | src/clients/neo4j.py:64-92 | create_node keeps node ids distinct and below the next fresh id, and adds no edge |
| Neo4j.CreateNodeFrame | src/clients/neo4j.py:67-85 | create_node touches only the node with the entity's name: no edge, no other node and no existing id changes |
| Neo4j.CreateNodeResult | src/clients/neo4j.py:64-92 | an id is returned exactly when the driver does not raise and the category list is non-empty, and it is the id of the node then stored under the entity's name |
| Neo4j.CreateRelationshipPreservesInvariant | src/clients/neo4j.py:103-108 | create_relationship only ever adds an edge between two stored nodes |
| Neo4j.CreateRelationshipFrame | src/clients/neo4j.py:103-108 | create_relationship changes no node and removes no edge, and changes no edge other than its own key |
| Neo4j.Neo4jClient.constructor | src/clients/neo4j.py:14-28 | a connected client over an empty store, with no calls issued |
| Neo4j.Neo4jClient.CreateNode | src/clients/neo4j.py:64-92 | the new store and the returned id are those of CreateNodeEffect (match by name and add labels, or create with a fresh id, or return None on error), and the call is logged |
| Neo4j.Neo4jClient.CreateRelationship | src/clients/neo4j.py:94-124 | the new store is that of CreateRelationshipEffect, the call is logged, and the caller's attributes are replaced by their wrapped form |
| Neo4jProperties.LabelFragmentRoundTrip | src/clients/neo4j.py:68 | for categories without a backtick, the backtick-quoted, colon-joined fragment parses back to exactly the category list |
| Neo4jProperties.BacktickCategoryForgesLabels | src/clients/neo4j.py:68-80 | for backtick-free a and b (say "City" and "Admin"), the single category a`:`b yields the same fragment as the two categories a and b, so the statement sets the labels a and b, while the model's label set holds the one category a`:`b and not a |
| Neo4jProperties.JoinedCategoryFragment | src/clients/neo4j.py:68 | any category of the form a`:`b is spelt in the fragment exactly like the two categories a and b |
| Neo4jProperties.KeepOmitsBad | src/clients/neo4j.py:102 | the reference filter keeps only characters of the input that are not in the removed set |
| Neo4jProperties.RemoveCharIsKeep | src/clients/neo4j.py:102 | one `replace(c, "")` equals filtering out `{c}` |
| Neo4jProperties.RemoveCharAfterKeep | src/clients/neo4j.py:102 | a further `replace(c, "")` after filtering a set equals filtering the set with `c` added |
| Neo4jProperties.SanitiseIsKeep | src/clients/neo4j.py:102 | the three chained replaces equal one pass that removes every backtick, double quote and single quote, keeping the order of the rest |
| Neo4jProperties.KeepIdempotent | src/clients/neo4j.py:102 | filtering twice equals filtering once |
| Neo4jProperties.KeepUnchanged | src/clients/neo4j.py:102 | filtering a string with no removed character returns it unchanged |
| Neo4jProperties.SanitiseIdempotent | src/clients/neo4j.py:102 | sanitising a sanitised relation type changes nothing |
| Neo4jProperties.SanitiseUnchangedIff | src/clients/neo4j.py:102 | sanitising leaves a relation type unchanged if and only if it has no quote character |
| Neo4jProperties.WrapAttributesIdempotent | src/clients/neo4j.py:98-99 | wrapping already-wrapped attributes changes nothing, so a retried transaction stores the same properties |
| Neo4jProperties.OverlayIdempotent | src/clients/neo4j.py:107 | overlaying the same properties twice equals overlaying them once |
| Neo4jProperties.CreateNodeOnExistingName | src/clients/neo4j.py:69-77 | for a stored name, create_node returns that node's id, keeps every node and the description, and adds the categories to its labels |
| Neo4jProperties.CreateNodeOnNewName | src/clients/neo4j.py:78-85 | for a new name, create_node adds exactly one node with a fresh id, the category labels and the description |
| Neo4jProperties.CreateNodeFailure | src/clients/neo4j.py:68-92 | when the driver raises or the category list is empty, create_node returns None and the store is unchanged |
| Neo4jProperties.CreateNodeNeverDuplicates | src/clients/neo4j.py:69-85 | create_node adds a node only for a name not yet stored and only when it succeeds; the stored names are then the old names plus the entity's name |
| Neo4jProperties.RepeatedCreateNodeKeepsOneNode | src/clients/neo4j.py:64-92 | two upserts under one name return the same id and leave one node whose labels are the union and whose description is the first one |
| Neo4jProperties.ParisLabelsAccumulate | src/clients/neo4j.py:69-85 | upserting "Paris" as City and then as Capital leaves one node with both labels and one id |
| Neo4jProperties.DanglingRelationshipChangesNothing | src/clients/neo4j.py:104-105 | a relationship whose source or target name matches no node writes nothing |
| Neo4jProperties.UnstorableAttributesChangeNothing | src/clients/neo4j.py:107-124 | an attribute Neo4j refuses (a list mixing integers and strings) rolls the statement back: the store is unchanged |
| Neo4jProperties.WrittenAttributesAreStorable | src/clients/neo4j.py:103-124 | a relationship write changes the store only when the driver does not raise, both endpoints are stored and every attribute value can be stored |
| Neo4jProperties.CreateRelationshipAddsAtMostOneEdge | src/clients/neo4j.py:106 | create_relationship adds at most one edge, under its own (source, target, sanitised type) key |
| Neo4jProperties.RepeatedCreateRelationshipKeepsOneEdge | src/clients/neo4j.py:106-107 | two writes with the same endpoints and sanitised type, and storable attributes, leave one edge carrying the second overlay over the first over the old properties |
| Neo4jProperties.CapitalOfIsClean | src/clients/neo4j.py:102 | the relation type "capital_of" is stored unchanged |
| Neo4jProperties.ParisAttributeOverwritten | src/clients/neo4j.py:106-107 | Paris to France with `since` 1789 and then 1792 leaves one edge whose `since` is 1792 |
| Generator.FirstSameConcept | src/services/knowledge_graph_generator.py:101-109 | the position returned is the first existing name the embedder calls the same concept; None means there is no such name |
| Generator.CanonicalName | src/services/knowledge_graph_generator.py:111-113 | the name submitted is either the entity's own name or an existing name that the embedder calls the same concept |
| Generator.SubmitEntitiesEffect | src/services/knowledge_graph_generator.py:97-120 | the entity loop yields one create_node result per entity |
| Generator.SelectTopic | src/services/knowledge_graph_generator.py:73-81 | with no path the prompt and previous node are kept; otherwise the new previous node is one of the picked path's two end points (the prompt is stated by TopicIsPathEndpoint) |
| Generator.SubmitRelationshipsEffect | src/services/knowledge_graph_generator.py:123-127 | the relationship loop changes no node and no id; the rest is stated by SubmitRelationshipsFrame |
| Generator.IterationEffect | src/services/knowledge_graph_generator.py:94-127 | without a non-empty batch the store is unchanged; otherwise the entity loop runs and then the relationship loop (stated by IterationPreservesInvariant and RenamedEndpointDropsRelationships) |
| Generator.IterationCalls | src/services/knowledge_graph_generator.py:94-127 | one call per entity and one per relationship when the batch is non-empty, none otherwise; their order is stated by IterationCallOrder |
| Generator.Run | src/services/knowledge_graph_generator.py:60-143 | the iteration count never falls below the start and the call log is only appended to; the bound and the stop are stated by RunIterationBound, RunCompletesWithTruthyTraces and RunStopsAtFirstFalsyTrace |
| Generator.FindSameConcept | src/services/knowledge_graph_generator.py:101-109 | the search loop with its `break` finds a name exactly when one exists, and returns the first one |
| Generator.SelectStartNode | src/services/knowledge_graph_generator.py:73-81 | the new prompt and previous node name are those of SelectTopic: the picked path's end node, or its start node when the end node was the previous topic, and no change when there is no path |
| Generator.KnowledgeGraphGenerator.constructor | src/services/knowledge_graph_generator.py:38-42 | the generator keeps the store client and the embedder it is given |
| Generator.KnowledgeGraphGenerator.SubmitEntity | src/services/knowledge_graph_generator.py:101-117 | the entity is renamed to its canonical name and upserted; its id is set only when create_node returned one |
| Generator.KnowledgeGraphGenerator.SubmitEntities | src/services/knowledge_graph_generator.py:97-120 | the store after the entity loop is SubmitEntitiesEffect's, one create_node call per entity is logged in batch order, every entity carries its canonical name, and an entity's id changes only when its write returned one |
| Generator.KnowledgeGraphGenerator.SubmitRelationships | src/services/knowledge_graph_generator.py:123-127 | the store after the relationship loop is SubmitRelationshipsEffect's, one create_relationship call per relationship is logged in order, and every relationship's attributes end up wrapped |
| Generator.KnowledgeGraphGenerator.ProcessBatch | src/services/knowledge_graph_generator.py:94-127 | the store after one iteration's writes is IterationEffect's, and the calls issued are IterationCalls |
| Generator.KnowledgeGraphGenerator.RunKgGenerationIterations | src/services/knowledge_graph_generator.py:60-143 | the iteration count, the loop variables, the store and the call log at the end are those of Run from iteration 0 |
| GeneratorProperties.RunIterationBound | src/services/knowledge_graph_generator.py:67 | at most `max_iterations` iterations begin, none when `max_iterations` is not positive, and then nothing changes |
| GeneratorProperties.RunCompletesWithTruthyTraces | src/services/knowledge_graph_generator.py:67-87 | when every trace is truthy, all `max_iterations` iterations run |
| GeneratorProperties.RunStopsAtFirstFalsyTrace | src/services/knowledge_graph_generator.py:84-87 | the run stops in the iteration of the first falsy trace, after that iteration's topic selection and before any of its writes |
| GeneratorProperties.TopicIsPathEndpoint | src/services/knowledge_graph_generator.py:73-81 | with no path the prompt and previous node are kept; otherwise the new topic is one of the picked path's two end points, and the prompt names it |
| GeneratorProperties.TopicMovesOn | src/services/knowledge_graph_generator.py:75-80 | when the picked path has two distinct end points, the topic differs from the previous one |
| GeneratorProperties.CanonicalNameIsFirstSameConcept | src/services/knowledge_graph_generator.py:101-113 | the entity takes the first same-concept name, unless that name is empty (falsy), in which case it keeps its own name |
| GeneratorProperties.CanonicalNameWithoutSameConcept | src/services/knowledge_graph_generator.py:101-113 | an entity with no same-concept existing name keeps its own name |
| GeneratorProperties.IterationCallOrder | src/services/knowledge_graph_generator.py:94-127 | without a non-empty batch nothing is written; otherwise one create_node per entity under its canonical name in batch order, then one create_relationship per relationship in batch order |
| GeneratorProperties.NodesBeforeRelationships | src/services/knowledge_graph_generator.py:97-127 | within an iteration no create_node call follows a create_relationship call |
| GeneratorProperties.SubmittedEntitiesAreStored | src/services/knowledge_graph_generator.py:115-120 | an entity gets an id exactly when its write does not raise and it has a category; that id is the one of the node stored under its canonical name |
| GeneratorProperties.UnsubmittedNameStaysAbsent | src/services/knowledge_graph_generator.py:97-120 | a name that no entity is submitted under, and that is not stored, is still not stored after the entity loop |
| GeneratorProperties.SubmitEntitiesFrame | src/services/knowledge_graph_generator.py:97-120 | the entity loop adds no edge, removes no node, changes no id, and keeps the store invariant |
| GeneratorProperties.SubmitRelationshipsFrame | src/services/knowledge_graph_generator.py:123-127 | the relationship loop changes no node, removes no edge, and keeps the store invariant |
| GeneratorProperties.IterationPreservesInvariant | src/services/knowledge_graph_generator.py:94-127 | one iteration keeps node ids distinct and every edge between stored nodes |
| GeneratorProperties.RunPreservesInvariant | src/services/knowledge_graph_generator.py:60-143 | the whole run keeps node ids distinct and every edge between stored nodes |
| GeneratorProperties.RenamedEndpointDropsRelationships | src/services/knowledge_graph_generator.py:111-127 | relationships keep the names extraction gave them: a name that every entity was renamed away from, and that is not stored, gets no node and no edge in that iteration |

## Left out

- Driver, session and connection lifecycle (`__init__`'s connection check, `verify_connection`, `close`): the client starts connected to an empty store.
- A failure to open the session and a failure inside the transaction are one `fault` input. In the model, `create_relationship` has already wrapped the caller's attributes when the fault strikes.
- The automatic retry of `execute_write` on transient errors is not modelled. `WrapAttributesIdempotent` shows that a retry stores the same properties.
- `find_longest_shortest_paths`, `query_node_names` and the language-model calls are not modelled. Their answers are inputs (`answers(i)`), and so is which writes raise.
- The embedder's similarity test is an arbitrary function `isSameConcept`.
- `random.choice` is an index `pick` into the path list.
- Logging and the `print` of the paths (lines 68, 71, 82, 95, 98, 112, 118-120, 124-126, 129-143) are not modelled: they only produce output.
- The prompt text for extraction and the joined list of existing names (lines 44-58, 90) are not modelled. They only feed the extraction model, whose answer is an input.
- `src/application.py`, the command-line wiring, is not part of this model.
- Floating-point property values, and nested maps as property values (which Neo4j rejects), are not modelled. The other values Neo4j refuses (lists mixing kinds, lists holding null or lists, integers outside 64 bits) make the relationship write change nothing (`Neo4j.StorableProperties`).
- Node ids are natural numbers drawn from a counter, not Neo4j element-id strings. An id is truthy exactly when it is present, as element ids always are.
- Nodes are keyed by name, so the model never holds two nodes with the same name. `MATCH (n {name: $name}) ... single()` on a store that already held duplicates is not modelled.
- Entity names, relation types and endpoint names are strings; a missing (`None`) name is not modelled.
- An empty category string (giving the label `` `` ``) and an empty sanitised relation type (giving `[r:``]`) are stored as given, although Neo4j may reject such tokens.
- Neo4j.LabelSet: a category holding a backtick is stored as one label, although the unescaped fragment (src/clients/neo4j.py:68) can split it into several labels ("City`:`Admin" sets `City` and `Admin`), inject other Cypher or make the query invalid. The model agrees with the source only for backtick-free categories (`Neo4jProperties.LabelSetIsFragmentLabels`); `Neo4jProperties.BacktickCategoryForgesLabels` exhibits the difference.
- Generator.SubmitEntitiesEffect: its contract states only the length of the id list. What each id means is stated by `GeneratorProperties.SubmittedEntitiesAreStored`.
- Generator.KnowledgeGraphGenerator.SubmitEntities: each entity's id after the loop is stated relative to the ids the entities had before the loop. In the source, freshly extracted entities have no id, and that is how `ProcessBatch` calls it.
- Generator.KnowledgeGraphGenerator.RunKgGenerationIterations: the method returns the iteration count and the final loop variables, so its result can be stated. The source returns nothing.
- Exceptions from the outside calls are not modelled. `run_kg_generation_iterations` (src/services/knowledge_graph_generator.py:60-143) catches nothing, so an exception from `generate_reasoning_trace` (84), `generate_knowledge_graph_data` (92) or `is_same_concept` (103) ends the whole run, mid-batch in the last case: the earlier entities of the batch are written and no relationship is. The model's run stops only at the falsy-trace `break` (87) or after `max_iterations`.
- `find_longest_shortest_paths` (line 70) is not defined on the client in src/clients/neo4j.py, which defines `find_longest_paths` (126); as written, the first iteration raises before any write. The model treats the path query as an input that answers.
- The `knowledge_graph_data` variable (lines 62, 129-131) is only logged; it is not modelled.
