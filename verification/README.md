# Knowledge-graph engine: a verified Dafny model

This project models the core of a small knowledge-graph engine. The engine
stores short propositions ("atomic units") and keeps typed, directed
relations between them: supports, refutes, extends, implies and contradicts.
The model covers four parts:

- **Persistence** (`persistence.dfy`, module `Persistence`): the in-memory
  state of the persistence manager. It holds an ordered list of relation
  records and an idempotency cache from key to tool result.
- **Paths** (`paths.dfy`, module `UndirectedPaths`): the undirected view of
  the directed edge map, and a breadth-first search. The search returns a
  path with no shorter rival, or proves that no path exists.
- **Graph engine** (`graph_engine.dfy`, module `GraphEngine`): the
  `KnowledgeGraph` class. Its state is the unit table, the graph's nodes,
  the directed edge map and the persistence manager. Its operations are
  rebuilding the edges from the records, adding a unit, connecting two
  units, deleting a unit with its cascade, choosing a lineage path between
  two concepts, and classifying possible conflicts.
- **Tool layer** (`server.dfy`, module `Server`): the idempotent `ingest`
  and `connect` tools, validation of relation names, the confirmation
  guard on `delete`, and the caps on result limits.

`model.dfy` (module `Model`) holds the shared datatypes.

Vector search is an oracle. Each caller passes in the ranked hits
(unit, similarity score) that the search would return, and the model keeps
the first `limit` of them. The unit table is a map from id to unit. The id
that a new unit would get from a random UUID is a parameter. The class
invariant `KnowledgeGraph.Valid` has three parts. First, the unit table is
keyed by each unit's own id. Second, every edge joins two graph nodes.
Third, the edge map is exactly the result of adding the persisted records
in order.

Some facts about the code that the model keeps:

- A lineage search pairs the top 3 hits of each concept search. There is
  no similarity floor on those hits.
- The code does not check for self-loops, empty content or reuse of an
  idempotency key with different arguments.
- Idempotency keys are not scoped by operation.
- Nothing is rolled back.

## Model

| member | source | states |
|---|---|---|
| Model.ParseRelationType | src/server.py:152-158 | only the five relation names are accepted, each as the kind it names; any other text is rejected |
| Model.ParseName | src/server.py:153 | every relation kind is accepted under its own name |
| Persistence.Touching | src/persistence.py:75-81 | a record is returned exactly when it is stored and has the unit as source or target |
| Persistence.Untouched | src/persistence.py:113-116 | a record is kept exactly when it is stored and touches neither endpoint |
| Persistence.TouchingAppend | src/persistence.py:77-81 | filtering by endpoint keeps stored order (it distributes over concatenation) |
| Persistence.UntouchedAppend | src/persistence.py:113-116 | the cascade filter keeps stored order |
| Persistence.AppendedVisible | src/persistence.py:70-81 | after an append, each unit the new record touches sees it last in its own records, and no other unit's view changes |
| Persistence.PartitionCount | src/persistence.py:112-117 | records touching a unit plus records not touching it make up the whole list, so the deleted count is old length minus new length |
| Persistence.CascadeKeepsOthers | src/persistence.py:113-116 | after the cascade for u, no record touches u; every other unit keeps exactly its records that did not involve u, in order |
| Persistence.PersistenceManager.constructor | src/persistence.py:34-54 | starts from the loaded record list and cache |
| Persistence.PersistenceManager.GetAllRelations | src/persistence.py:66-68 | returns the stored records in order |
| Persistence.PersistenceManager.AddRelation | src/persistence.py:70-73 | appends exactly one record at the end and leaves the cache unchanged |
| Persistence.PersistenceManager.GetRelationsForUnit | src/persistence.py:75-81 | returns exactly the records touching the unit, in stored order |
| Persistence.PersistenceManager.RelationExists | src/persistence.py:83-92 | true iff some record has exactly that (source, target, kind) triple |
| Persistence.PersistenceManager.CheckIdempotency | src/persistence.py:94-96 | returns the cached result for a stored key and nothing for any other key |
| Persistence.PersistenceManager.StoreIdempotency | src/persistence.py:98-101 | sets the key to the new result, replacing any prior value; no other key and no record changes |
| Persistence.PersistenceManager.ClearIdempotencyCache | src/persistence.py:103-108 | returns the number of keys held before the call and leaves the cache empty |
| Persistence.PersistenceManager.DeleteRelationsForUnit | src/persistence.py:110-120 | keeps exactly the records not touching the unit, in order; returns old length minus new length, which is the number of records that touched it |
| UndirectedPaths.ShortestPath | src/graph_engine.py:236-246 | a returned path joins the two ids over the undirected view, and the end is not within fewer hops; no result means no path and no ball of any radius joins them |
| UndirectedPaths.Explore | src/graph_engine.py:236-246 | the visited set is a ball around the start, each visited node has a path of at most radius + 1 nodes, and if the target is not visited no node outside the set is adjacent to it |
| UndirectedPaths.MinimalIsShortest | src/graph_engine.py:236-241 | a path whose end lies outside the next smaller ball has no shorter rival path |
| UndirectedPaths.NoPathFromClosedBall | src/graph_engine.py:245-246 | once the search frontier stops growing without reaching the target, no path reaches it |
| UndirectedPaths.PathInBall | src/graph_engine.py:236-241 | the end of an n-node path lies within n-1 hops of its start |
| GraphEngine.LastWriteWins | src/graph_engine.py:67-76 | loading the records in order gives each ordered pair the kind and reasoning of the last record for that pair; pairs without records keep what the graph had |
| GraphEngine.RecordedIsEdge | src/graph_engine.py:67-76 | every pair some record names is an edge of the loaded graph |
| GraphEngine.FoldEndpoints | src/graph_engine.py:67-76 | every loaded edge joins two ids that some record names |
| GraphEngine.FoldWithout | src/graph_engine.py:367-372 | removing a node from the graph gives the same edges as rebuilding from the records the cascade keeps |
| GraphEngine.CascadeKeepsGraph | src/graph_engine.py:367-372 | after the node removal and the record cascade, the edges are still the fold of the remaining records, they join remaining nodes, and no record touches the deleted unit |
| GraphEngine.RemoveAbsent | src/graph_engine.py:368-369 | skipping the node removal for an id that is not a node loses no edge |
| GraphEngine.PairsFor | src/graph_engine.py:231-233 | every pair for a start hit has that start id and a different end id |
| GraphEngine.Candidates | src/graph_engine.py:230-233 | no candidate pair has two identical ids |
| GraphEngine.CandidatesExactly | src/graph_engine.py:230-233 | a pair is a candidate iff its ids come from a start hit and an end hit and differ |
| GraphEngine.RankDisconnected | src/graph_engine.py:245-246 | an unconnected pair leaves the best path and its pair unchanged |
| GraphEngine.RankShorter | src/graph_engine.py:242-244 | a path strictly shorter than the best so far becomes the best |
| GraphEngine.RankNotShorter | src/graph_engine.py:242 | a path no shorter than the best so far is dropped, so the first shortest path wins |
| GraphEngine.RankedBelow | src/graph_engine.py:242-244 | no candidate pair is joined by a path shorter than the best one |
| GraphEngine.RankedIsBest | src/graph_engine.py:230-246 | no candidate pair has a path shorter than the chosen one, and no earlier pair has one as short |
| GraphEngine.UnrankedIsDisconnected | src/graph_engine.py:248-253 | when no path was kept, no candidate pair is joined by any path |
| GraphEngine.HopRelation | src/graph_engine.py:262-281 | on a hop between adjacent nodes: the forward edge is reported if it exists, otherwise the reverse edge in its stored direction; the attributes are the edge's; the last node reports none |
| GraphEngine.LineageOfKnownRoute | src/graph_engine.py:255-285 | when every path node has a unit, there is one step per node, in path order, each with that node's hop relation |
| GraphEngine.LineageRelations | src/graph_engine.py:262-283 | along a path, every step except the last carries a relation |
| GraphEngine.FirstConflicting | src/graph_engine.py:305-312 | returns a stored refutes/contradicts record; returns none iff there is no such record |
| GraphEngine.FirstConflictingAt | src/graph_engine.py:305-312 | the reported record is the first refutes/contradicts record |
| GraphEngine.ConflictClassified | src/graph_engine.py:297-320 | a hit scoring under 0.5 is never reported; a hit touched by a refutes/contradicts record is reported with such a record; otherwise it is reported, without a relation, iff its score is over 0.85 |
| GraphEngine.ConflictsSound | src/graph_engine.py:297-322 | every listed report is the report of some hit |
| GraphEngine.ConflictsComplete | src/graph_engine.py:297-322 | the report of every reported hit is listed |
| GraphEngine.ConflictsBounded | src/graph_engine.py:297-322 | there are no more reports than hits |
| GraphEngine.ConflictsExactly | src/graph_engine.py:297-322 | the reports are exactly the per-hit reports, at most one per hit |
| GraphEngine.BallOfIsolated | src/graph_engine.py:236-241 | an id that no edge touches reaches only itself |
| GraphEngine.AbsentIsDisconnected | src/graph_engine.py:236-246 | a pair of distinct ids, one of which is not a graph node, is unconnected |
| GraphEngine.KnowledgeGraph.constructor | src/graph_engine.py:43-50 | the graph built from the persisted records has their edges and the ids they name, and is valid |
| GraphEngine.KnowledgeGraph.LoadGraphFromPersistence | src/graph_engine.py:67-76 | adds one edge per record, in stored order, on top of the existing graph |
| GraphEngine.KnowledgeGraph.AddProposition | src/graph_engine.py:86-121 | a given non-empty id is used, otherwise the fresh id; the unit is stored under it and becomes a node; edges are unchanged |
| GraphEngine.KnowledgeGraph.GetUnit | src/graph_engine.py:123-136 | returns the stored unit with that id, or nothing |
| GraphEngine.KnowledgeGraph.ConnectConcepts | src/graph_engine.py:138-174 | a missing source fails first, then a missing target, and nothing changes; otherwise the pair's edge gets the new attributes and exactly one record is appended |
| GraphEngine.KnowledgeGraph.GetUnitConnections | src/graph_engine.py:341-343 | returns exactly the records touching the unit |
| GraphEngine.KnowledgeGraph.DeleteUnit | src/graph_engine.py:345-380 | an absent id fails and nothing changes; otherwise the unit, its node, its incident edges and its records go, and both counts equal the number of records that touched it |
| GraphEngine.KnowledgeGraph.BuildLineage | src/graph_engine.py:255-285 | the steps along the path, with nodes that have no unit skipped |
| GraphEngine.KnowledgeGraph.ConsiderPair | src/graph_engine.py:235-246 | one candidate keeps the best-so-far ranking |
| GraphEngine.KnowledgeGraph.ScanStep | src/graph_engine.py:231-246 | one (start, end) hit pair: an absent id stops the scan at this candidate; otherwise the ranking is kept over one more candidate |
| GraphEngine.KnowledgeGraph.ScanEnds | src/graph_engine.py:231-246 | scans one start hit's end hits; stops at the first pair with an id that is not a node, otherwise keeps the ranking |
| GraphEngine.KnowledgeGraph.SelectPath | src/graph_engine.py:227-246 | over all candidates in start-major order, the first pair with an absent id, or the first-found shortest path, or none when all pairs are unconnected |
| GraphEngine.KnowledgeGraph.FindPath | src/graph_engine.py:206-285 | no hits for the start or the end concept is an error; an absent candidate id fails at the first such pair; if all pairs are unconnected, the result is the two top hits with no relation; otherwise it is the steps along the first shortest path found |
| GraphEngine.KnowledgeGraph.FindPathSkippingAbsent | src/graph_engine.py:206-285 | as FindPath, but a pair with an absent id counts as unconnected, so the search never fails once both concepts have hits |
| GraphEngine.KnowledgeGraph.ReportHit | src/graph_engine.py:297-320 | one hit's report is the one ConflictClassified describes, found by scanning the unit's records for the first refutes/contradicts record |
| GraphEngine.KnowledgeGraph.GetConflicts | src/graph_engine.py:287-322 | the reports for the top 10 hits, in hit order, as ConflictFor classifies them, using the persisted records |
| GraphEngine.AbsentUnitBreaksFindPath | src/graph_engine.py:235-246 | two stored units with no relations (a restarted graph) make the lineage search fail |
| GraphEngine.AbsentUnitFallsBack | src/graph_engine.py:248-253 | with absent ids skipped, the same search returns the two units unrelated |
| Server.SearchLimit | src/server.py:330-331 | the effective search limit is min(limit, 20) |
| Server.ListLimit | src/server.py:371-372 | the effective listing limit is min(limit, 50) |
| Server.IngestHypothesis | src/server.py:63-120 | a non-empty key that already holds a result returns it unchanged and changes nothing; otherwise the unit is added and its result is stored under the key, if one is given; the cache is untouched without a key |
| Server.ConnectPropositions | src/server.py:123-201 | an unknown relation name fails before any lookup or change; a cached key returns its result; a missing unit fails and stores nothing; a new connection adds both units as nodes, sets the edge, appends one record and caches the result |
| Server.DeleteUnit | src/server.py:453-513 | without confirm, nothing changes: a missing unit is an error, and an existing one is previewed with its connection count; with confirm, the cascade runs and reports how many records it removed |
| Server.IngestReplay | src/server.py:90-118 | replaying an ingestion under the same key returns the first result |
| Server.SharedKeySpace | src/server.py:160-164 | a connection under a key an ingestion used returns the ingestion's result and records nothing |
| Server.PreviewThenDelete | src/server.py:474-513 | the count the preview announces is the count the confirmed deletion removes |

## Findings

| source | as written | input that shows it | evidently intended | confidence | as-written member | corrected member |
|---|---|---|---|---|---|---|
| src/graph_engine.py:235-246 | only "no path" is caught around the shortest-path call. The graph's nodes are rebuilt only from relation records after a restart. So a unit that has no relation is not a node, and the call fails for it with a node-not-found error. That error is not a ValueError, so the tool layer does not catch it either. | two stored units "u" and "v", no relations, a freshly built graph, and a lineage search whose hits are u and v | treat the pair as unconnected and fall back to the two top hits | medium; not executed | GraphEngine.KnowledgeGraph.FindPath, GraphEngine.AbsentUnitBreaksFindPath | GraphEngine.KnowledgeGraph.FindPathSkippingAbsent, GraphEngine.AbsentUnitFallsBack |

## Left out

- Embedding calls, vectors and cosine distances: the search is an oracle that supplies ranked hits with real scores.
- The conversion of a distance into a score (`1 - distance`) is part of that oracle.
- Storage details of the vector table: the SQL `where` lookup by id, and rows duplicated under the same id. The table is a map, so adding a unit under an existing id replaces the old one.
- JSON file reads and writes, `mkdir` and the datetime encoding: the model keeps only the in-memory lists and maps.
- `created_at` timestamps on units and records.
- The explanation text of conflict reports and all tool-response wording: these are formatting only.
- `list_propositions` on the engine, `semantic_search` on the engine, and the `get_unit`, `find_scientific_lineage` and `find_contradictions` tools: only their limit caps are modelled, because the rest is the search oracle and response shaping.
- The tool framework registration, `load_dotenv` and the lazily created global graph: the tools take the graph as a parameter.
- UndirectedPaths.ShortestPath: among several shortest paths it returns one found by this breadth-first search, which need not be the one the graph library returns; lengths and the first-found-shortest rule across candidates are exact.
- GraphEngine.KnowledgeGraph.AddProposition: the node's `content` attribute is not kept, because nothing in the core reads it.
- Nodes are modelled as a set: the graph library's node attributes and adjacency order are not modelled.
- Float scores are `real`, with no rounding (`round(score, 4)` is formatting).
