/**
 The in-memory state of the persistence manager: the ordered list of
 relation records and the idempotency cache. Writing the two JSON files is
 a side effect this model leaves out.
 */
module Persistence {
  import opened Model

  /** The records that touch `u`, in stored order. */
  function Touching(rels: seq<Relation>, u: string): (r: seq<Relation>)
    ensures |r| <= |rels|
    ensures forall x :: x in r <==> x in rels && Touches(x, u)
  {
    if rels == [] then []
    else
      var init, last := rels[..|rels| - 1], rels[|rels| - 1];
      assert rels == init + [last];
      Touching(init, u) + (if Touches(last, u) then [last] else [])
  }

  /** The records that do not touch `u`, in stored order. */
  function Untouched(rels: seq<Relation>, u: string): (r: seq<Relation>)
    ensures |r| <= |rels|
    ensures forall x :: x in r <==> x in rels && !Touches(x, u)
  {
    if rels == [] then []
    else
      var init, last := rels[..|rels| - 1], rels[|rels| - 1];
      assert rels == init + [last];
      Untouched(init, u) + (if Touches(last, u) then [] else [last])
  }

  /** Concatenation is associative; stated on its own so no filter is in view while it is proved. */
  lemma Associative<T>(x: seq<T>, y: seq<T>, z: seq<T>)
    ensures x + (y + z) == (x + y) + z
  {
  }

  /** Each part of a concatenation is within it. */
  lemma InAppend<T>(x: seq<T>, y: seq<T>, e: T)
    ensures e in x ==> e in x + y
    ensures e in y ==> e in x + y
  {
  }

  /** Filtering distributes over concatenation, so stored order is kept. */
  lemma {:induction false} TouchingAppend(a: seq<Relation>, b: seq<Relation>, u: string)
    ensures Touching(a + b, u) == Touching(a, u) + Touching(b, u)
  {
    if b == [] {
      assert a + b == a;
    } else {
      var init, last := b[..|b| - 1], b[|b| - 1];
      assert (a + b)[..|a + b| - 1] == a + init && (a + b)[|a + b| - 1] == last;
      var tail := (if Touches(last, u) then [last] else []);
      assert Touching(a + b, u) == Touching(a + init, u) + tail;
      assert Touching(b, u) == Touching(init, u) + tail;
      TouchingAppend(a, init, u);
      Associative(Touching(a, u), Touching(init, u), tail);
    }
  }

  /** Filtering distributes over concatenation, so stored order is kept. */
  lemma {:induction false} UntouchedAppend(a: seq<Relation>, b: seq<Relation>, u: string)
    ensures Untouched(a + b, u) == Untouched(a, u) + Untouched(b, u)
  {
    if b == [] {
      assert a + b == a;
    } else {
      var init, last := b[..|b| - 1], b[|b| - 1];
      assert (a + b)[..|a + b| - 1] == a + init && (a + b)[|a + b| - 1] == last;
      var tail := (if Touches(last, u) then [] else [last]);
      assert Untouched(a + b, u) == Untouched(a + init, u) + tail;
      assert Untouched(b, u) == Untouched(init, u) + tail;
      UntouchedAppend(a, init, u);
      Associative(Untouched(a, u), Untouched(init, u), tail);
    }
  }

  /** An appended record shows up last among the records of each unit it touches, and nowhere else. */
  lemma AppendedVisible(rels: seq<Relation>, r: Relation, u: string)
    ensures Touching(rels + [r], u) == Touching(rels, u) + (if Touches(r, u) then [r] else [])
  {
    assert (rels + [r])[..|rels|] == rels;
  }

  /** Every record is either kept or deleted, never both and never neither. */
  lemma {:induction false} PartitionCount(rels: seq<Relation>, u: string)
    ensures |Touching(rels, u)| + |Untouched(rels, u)| == |rels|
  {
    if rels != [] {
      PartitionCount(rels[..|rels| - 1], u);
    }
  }

  /**
   After the cascade for `u` nothing touching `u` is left, and what touches
   any other unit `w` is exactly what touched `w` before minus the records
   that also touched `u`, in the same order.
   */
  lemma {:induction false} CascadeKeepsOthers(rels: seq<Relation>, u: string, w: string)
    ensures Touching(Untouched(rels, u), u) == []
    ensures Touching(Untouched(rels, u), w) == Untouched(Touching(rels, w), u)
  {
    if rels != [] {
      var init, last := rels[..|rels| - 1], rels[|rels| - 1];
      CascadeKeepsOthers(init, u, w);
      var kept := if Touches(last, u) then [] else [last];
      assert Untouched(rels, u) == Untouched(init, u) + kept;
      TouchingAppend(Untouched(init, u), kept, u);
      TouchingAppend(Untouched(init, u), kept, w);
      var hit := if Touches(last, w) then [last] else [];
      assert Touching(rels, w) == Touching(init, w) + hit;
      UntouchedAppend(Touching(init, w), hit, u);
      if kept != [] {
        assert kept == [last] && [last][..0] == [];
      }
      if hit != [] {
        assert hit == [last] && [last][..0] == [];
      }
    }
  }

  class PersistenceManager {
    /** The ordered relation records. */
    var relations: seq<Relation>
    /** The idempotency cache: key to cached tool result. */
    var idempotencyCache: map<string, ToolResult>

    /** Starts from what was loaded from disk (empty lists when the files are absent). */
    constructor (loadedRelations: seq<Relation>, loadedCache: map<string, ToolResult>)
      ensures relations == loadedRelations && idempotencyCache == loadedCache
    {
      relations := loadedRelations;
      idempotencyCache := loadedCache;
    }

    method GetAllRelations() returns (rs: seq<Relation>)
      ensures rs == relations
    {
      rs := relations;
    }

    /** Appends exactly one record; the cache is untouched. */
    method AddRelation(r: Relation)
      modifies this
      ensures relations == old(relations) + [r]
      ensures idempotencyCache == old(idempotencyCache)
    {
      relations := relations + [r];
    }

    method GetRelationsForUnit(u: string) returns (rs: seq<Relation>)
      ensures rs == Touching(relations, u)
    {
      rs := Touching(relations, u);
    }

    /** An early-return scan for an exact (source, target, kind) triple. */
    method RelationExists(sourceId: string, targetId: string, kind: RelationType) returns (found: bool)
      ensures found <==> exists i :: 0 <= i < |relations| &&
                          relations[i].sourceId == sourceId &&
                          relations[i].targetId == targetId &&
                          relations[i].kind == kind
    {
      var i := 0;
      while i < |relations|
        invariant 0 <= i <= |relations|
        invariant forall j :: 0 <= j < i ==>
                    !(relations[j].sourceId == sourceId && relations[j].targetId == targetId && relations[j].kind == kind)
      {
        var r := relations[i];
        if r.sourceId == sourceId && r.targetId == targetId && r.kind == kind {
          return true;
        }
        i := i + 1;
      }
      return false;
    }

    method CheckIdempotency(key: string) returns (cached: Option<ToolResult>)
      ensures key in idempotencyCache ==> cached == Some(idempotencyCache[key])
      ensures key !in idempotencyCache ==> cached == None
    {
      cached := if key in idempotencyCache then Some(idempotencyCache[key]) else None;
    }

    /** Sets one key, replacing any prior value; every other key keeps its entry. */
    method StoreIdempotency(key: string, result: ToolResult)
      modifies this
      ensures idempotencyCache == old(idempotencyCache)[key := result]
      ensures relations == old(relations)
    {
      idempotencyCache := idempotencyCache[key := result];
    }

    /** Empties the cache and reports how many keys it held. */
    method ClearIdempotencyCache() returns (count: nat)
      modifies this
      ensures count == |old(idempotencyCache)|
      ensures idempotencyCache == map[]
      ensures relations == old(relations)
    {
      count := |idempotencyCache|;
      idempotencyCache := map[];
    }

    /**
     Keeps exactly the records not touching `u`, in order, and returns how
     many were dropped: the number of records that touched `u`.
     */
    method DeleteRelationsForUnit(u: string) returns (deleted: nat)
      modifies this
      ensures relations == Untouched(old(relations), u)
      ensures deleted == |old(relations)| - |relations| == |Touching(old(relations), u)|
      ensures idempotencyCache == old(idempotencyCache)
    {
      var originalCount := |relations|;
      PartitionCount(relations, u);
      relations := Untouched(relations, u);
      deleted := originalCount - |relations|;
    }
  }
}
