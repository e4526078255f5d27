/**
 The tool layer over one knowledge graph: idempotent ingestion and
 connection, validation of relation names, the confirmation guard on
 deletion and the caps on result limits. Every tool reads and writes the
 same idempotency cache, whichever tool stored an entry.
 */
module Server {
  import opened Model
  import opened Persistence
  import opened UndirectedPaths
  import opened GraphEngine

  /** The most hits a semantic search may ask for. */
  const MaxSearchLimit: int := 20
  /** The most units a listing may ask for. */
  const MaxListLimit: int := 50

  /** The limit a semantic search actually uses: the requested one, capped. */
  function SearchLimit(limit: int): (r: int)
    ensures r <= MaxSearchLimit && r <= limit
    ensures r == limit || r == MaxSearchLimit
  {
    if limit < MaxSearchLimit then limit else MaxSearchLimit
  }

  /** The limit a listing actually uses: the requested one, capped. */
  function ListLimit(limit: int): (r: int)
    ensures r <= MaxListLimit && r <= limit
    ensures r == limit || r == MaxListLimit
  {
    if limit < MaxListLimit then limit else MaxListLimit
  }

  /** A key is consulted only when one is given and it is not empty. */
  predicate UsesKey(key: Option<string>)
  {
    key.Some? && key.value != ""
  }

  /** A given key that already holds a result. */
  predicate CachedUnder(cache: map<string, ToolResult>, key: Option<string>)
  {
    UsesKey(key) && key.value in cache
  }

  /**
   Ingests a hypothesis as a new unit with the fresh id. A key that already
   holds a result returns that result, whatever tool stored it, and changes
   nothing; otherwise the new unit's result is stored under the key, if one
   is given.
   */
  method IngestHypothesis(g: KnowledgeGraph, hypothesis: string, source: string, confidence: real,
                          key: Option<string>, freshId: Id)
    returns (result: ToolResult)
    requires g.Valid()
    modifies g, g.persistence
    ensures g.Valid()
    ensures CachedUnder(old(g.persistence.idempotencyCache), key) ==>
              result == old(g.persistence.idempotencyCache)[key.value] &&
              unchanged(g) && unchanged(g.persistence)
    ensures !CachedUnder(old(g.persistence.idempotencyCache), key) ==>
              result == Ingested(freshId, hypothesis, source, confidence) &&
              g.units == old(g.units)[freshId := AtomicUnit(freshId, hypothesis, source, confidence)] &&
              g.nodes == old(g.nodes) + {freshId} && g.edges == old(g.edges) &&
              g.persistence.relations == old(g.persistence.relations) &&
              g.persistence.idempotencyCache ==
                (if UsesKey(key) then old(g.persistence.idempotencyCache)[key.value := result]
                 else old(g.persistence.idempotencyCache))
  {
    if UsesKey(key) {
      var cached := g.persistence.CheckIdempotency(key.value);
      if cached.Some? {
        return cached.value;
      }
    }
    var unit := g.AddProposition(hypothesis, source, confidence, None, freshId);
    result := Ingested(unit.id, unit.content, unit.source, unit.confidence);
    if UsesKey(key) {
      g.persistence.StoreIdempotency(key.value, result);
    }
  }

  /**
   Connects two units with a named relation. An unknown relation name is
   rejected before the cache is consulted; a key that already holds a
   result returns it; a missing unit is reported and nothing is stored, so
   a retry tries again; a new connection's result is stored under the key.
   */
  method ConnectPropositions(g: KnowledgeGraph, idA: Id, idB: Id, relation: string, reasoning: string,
                             key: Option<string>)
    returns (result: ToolResult)
    requires g.Valid()
    modifies g, g.persistence
    ensures g.Valid()
    ensures ParseRelationType(relation).None? ==>
              result == ToolError(InvalidRelationType) && unchanged(g) && unchanged(g.persistence)
    ensures ParseRelationType(relation).Some? && CachedUnder(old(g.persistence.idempotencyCache), key) ==>
              result == old(g.persistence.idempotencyCache)[key.value] &&
              unchanged(g) && unchanged(g.persistence)
    ensures ParseRelationType(relation).Some? && !CachedUnder(old(g.persistence.idempotencyCache), key) ==>
              (idA !in g.units ==> result == ToolError(SourceNotFound(idA))) &&
              (idA in g.units && idB !in g.units ==> result == ToolError(TargetNotFound(idB))) &&
              (result.ToolError? ==>
                 g.nodes == old(g.nodes) && g.edges == old(g.edges) &&
                 g.persistence.relations == old(g.persistence.relations) &&
                 g.persistence.idempotencyCache == old(g.persistence.idempotencyCache))
    ensures ParseRelationType(relation).Some? && !CachedUnder(old(g.persistence.idempotencyCache), key) &&
            idA in g.units && idB in g.units ==>
              var rel := Relation(idA, idB, ParseRelationType(relation).value, reasoning);
              result == Connected(rel, g.units[idA].content, g.units[idB].content) &&
              g.nodes == old(g.nodes) + {idA, idB} &&
              g.edges == old(g.edges)[(idA, idB) := EdgeOf(rel)] &&
              g.persistence.relations == old(g.persistence.relations) + [rel] &&
              g.persistence.idempotencyCache ==
                (if UsesKey(key) then old(g.persistence.idempotencyCache)[key.value := result]
                 else old(g.persistence.idempotencyCache))
    ensures g.units == old(g.units)
  {
    var kind := ParseRelationType(relation);
    if kind.None? {
      return ToolError(InvalidRelationType);
    }
    if UsesKey(key) {
      var cached := g.persistence.CheckIdempotency(key.value);
      if cached.Some? {
        return cached.value;
      }
    }
    var connected := g.ConnectConcepts(idA, idB, kind.value, reasoning);
    if connected.Err? {
      return ToolError(connected.error);
    }
    var sourceUnit := g.GetUnit(idA);
    var targetUnit := g.GetUnit(idB);
    result := Connected(connected.value, sourceUnit.value.content, targetUnit.value.content);
    if UsesKey(key) {
      g.persistence.StoreIdempotency(key.value, result);
    }
  }

  /**
   Deletes a unit only when `confirm` is set. Without it nothing changes:
   a missing unit is an error, and an existing one is described with the
   number of records that a confirmed deletion would remove.
   */
  method DeleteUnit(g: KnowledgeGraph, id: Id, confirm: bool) returns (result: ToolResult)
    requires g.Valid()
    modifies g, g.persistence
    ensures g.Valid()
    ensures !confirm ==> unchanged(g) && unchanged(g.persistence)
    ensures !confirm && id !in g.units ==> result == ToolError(UnitNotFound(id))
    ensures !confirm && id in g.units ==>
              result == ConfirmationRequired(g.units[id], |Touching(g.persistence.relations, id)|)
    ensures confirm && id !in old(g.units) ==>
              result == ToolError(UnitNotFound(id)) && unchanged(g) && unchanged(g.persistence)
    ensures confirm && id in old(g.units) ==>
              var unit := old(g.units)[id];
              result == Deleted(id, unit.content, unit.source, |Touching(old(g.persistence.relations), id)|) &&
              g.units == old(g.units) - {id} && g.nodes == old(g.nodes) - {id} &&
              g.persistence.relations == Untouched(old(g.persistence.relations), id) &&
              Touching(g.persistence.relations, id) == []
    ensures g.persistence.idempotencyCache == old(g.persistence.idempotencyCache)
  {
    if !confirm {
      var unit := g.GetUnit(id);
      if unit.None? {
        return ToolError(UnitNotFound(id));
      }
      var connections := g.GetUnitConnections(id);
      return ConfirmationRequired(unit.value, |connections|);
    }
    var deleted := g.DeleteUnit(id);
    if deleted.Err? {
      return ToolError(deleted.error);
    }
    var report := deleted.value;
    result := Deleted(report.deletedUnitId, report.deletedContent, report.deletedSource, report.deletedRelationsCount);
  }

  /**
   Replaying an ingestion under the same non-empty key returns the first
   result and adds no second unit.
   */
  method IngestReplay(g: KnowledgeGraph, hypothesis: string, source: string, confidence: real,
                      key: string, firstId: Id, secondId: Id)
    returns (first: ToolResult, second: ToolResult)
    requires g.Valid() && key != ""
    modifies g, g.persistence
    ensures first == second
    ensures key !in old(g.persistence.idempotencyCache) ==>
              first == Ingested(firstId, hypothesis, source, confidence) &&
              g.units == old(g.units)[firstId := AtomicUnit(firstId, hypothesis, source, confidence)]
  {
    first := IngestHypothesis(g, hypothesis, source, confidence, Some(key), firstId);
    second := IngestHypothesis(g, hypothesis, source, confidence, Some(key), secondId);
  }

  /**
   The key space is shared: a connection requested under a key that an
   ingestion used returns the ingestion's result and records no relation.
   */
  method SharedKeySpace(g: KnowledgeGraph, hypothesis: string, key: string, freshId: Id,
                        idA: Id, idB: Id, relation: string, reasoning: string)
    returns (ingested: ToolResult, connected: ToolResult)
    requires g.Valid() && key != "" && key !in g.persistence.idempotencyCache
    requires ParseRelationType(relation).Some?
    modifies g, g.persistence
    ensures connected == ingested == Ingested(freshId, hypothesis, "", 1.0)
    ensures g.persistence.relations == old(g.persistence.relations)
  {
    ingested := IngestHypothesis(g, hypothesis, "", 1.0, Some(key), freshId);
    connected := ConnectPropositions(g, idA, idB, relation, reasoning, Some(key));
  }

  /** The count a deletion preview announces is the count the confirmed deletion removes. */
  method PreviewThenDelete(g: KnowledgeGraph, id: Id) returns (preview: ToolResult, outcome: ToolResult)
    requires g.Valid() && id in g.units
    modifies g, g.persistence
    ensures preview.ConfirmationRequired? && outcome.Deleted?
    ensures preview.connectionsToDelete == outcome.relationsRemoved
    ensures id !in g.units && Touching(g.persistence.relations, id) == []
  {
    preview := DeleteUnit(g, id, false);
    outcome := DeleteUnit(g, id, true);
  }
}
