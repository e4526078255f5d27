/**
 The entities of the knowledge graph: atomic units (propositions), typed
 relations between them, the steps of a lineage path, conflict reports and
 the results the tool layer returns and caches under idempotency keys.
 Embedding vectors and timestamps are not part of this model.
 */
module Model {

  datatype Option<+T> = None | Some(value: T)

  datatype Result<+T, +E> = Ok(value: T) | Err(error: E)

  /** The closed set of relation kinds. */
  datatype RelationType = Supports | Refutes | Extends | Implies | Contradicts

  /** The wire name of a relation kind. */
  function Name(k: RelationType): string
  {
    match k
    case Supports => "supports"
    case Refutes => "refutes"
    case Extends => "extends"
    case Implies => "implies"
    case Contradicts => "contradicts"
  }

  /** Reads a relation kind from its wire name; any other text is rejected. */
  function ParseRelationType(s: string): (r: Option<RelationType>)
    ensures r.Some? ==> Name(r.value) == s
    ensures r.None? ==> forall k: RelationType :: Name(k) != s
  {
    if s == "supports" then Some(Supports)
    else if s == "refutes" then Some(Refutes)
    else if s == "extends" then Some(Extends)
    else if s == "implies" then Some(Implies)
    else if s == "contradicts" then Some(Contradicts)
    else None
  }

  /** Every kind survives the trip through its wire name. */
  lemma ParseName(k: RelationType)
    ensures ParseRelationType(Name(k)) == Some(k)
  {
  }

  /** The kinds that mark an explicit contradiction. */
  predicate IsConflictKind(k: RelationType)
  {
    k == Refutes || k == Contradicts
  }

  /**
   A stored unit. `source` is the attribution; the empty string stands for
   "no source", as the vector table stores it.
   */
  datatype AtomicUnit = AtomicUnit(id: string, content: string, source: string, confidence: real)

  /** A directed, typed relation record. */
  datatype Relation = Relation(sourceId: string, targetId: string, kind: RelationType, reasoning: string)

  /** True when the relation has `u` as one of its endpoints. */
  predicate Touches(r: Relation, u: string)
  {
    r.sourceId == u || r.targetId == u
  }

  /** One node of a lineage path and the relation to the next node, if any. */
  datatype LineageStep = LineageStep(unit: AtomicUnit, relationToNext: Option<Relation>)

  /**
   A unit that may contradict a claim: with the refuting relation (an
   explicit conflict) or with none (an implicit, similarity-only conflict).
   */
  datatype ConflictResult = ConflictResult(conflictingUnit: AtomicUnit, relation: Option<Relation>)

  /** Why an operation failed. */
  datatype ErrorKind =
    | InvalidRelationType
    | SourceNotFound(sourceId: string)
    | TargetNotFound(targetId: string)
    | UnitNotFound(unitId: string)
    | NoUnitsMatching(concept: string)
    | NodeNotInGraph(startId: string, endId: string)

  /** What the tools return; the successful ingest and connect results are cached. */
  datatype ToolResult =
    | Ingested(unitId: string, content: string, source: string, confidence: real)
    | Connected(relation: Relation, sourceContent: string, targetContent: string)
    | ConfirmationRequired(unitToDelete: AtomicUnit, connectionsToDelete: nat)
    | Deleted(deletedId: string, deletedContent: string, deletedSource: string, relationsRemoved: nat)
    | ToolError(error: ErrorKind)
}
