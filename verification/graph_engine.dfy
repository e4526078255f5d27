/**
 The knowledge graph engine: a table of units keyed by id, a directed graph
 whose edges carry a relation kind and a reasoning text, and the persisted
 relation list the graph is rebuilt from. Vector search is an oracle whose
 ranked hits (unit, similarity score) are passed in by the caller.
 */
module GraphEngine {
  import opened Model
  import opened Persistence
  import opened UndirectedPaths

  /** How many hits each concept search asks for when looking for a path. */
  const PathSearchLimit: nat := 3
  /** How many hits the conflict search asks for. */
  const ConflictSearchLimit: nat := 10
  /** Hits scoring below this are never reported as conflicts. */
  const MinConflictScore: real := 0.5
  /** Hits without a contradicting relation are reported only above this score. */
  const ImplicitConflictScore: real := 0.85

  /** A search hit: a unit and its similarity to the query. */
  type Hit = (AtomicUnit, real)

  /** The first `n` hits of a ranked result, as a search with limit `n` returns them. */
  function Top(ranked: seq<Hit>, n: nat): seq<Hit>
  {
    if n < |ranked| then ranked[..n] else ranked
  }

  // ---------------------------------------------------------------------
  // The directed edge map and the relation list

  function EdgeOf(r: Relation): EdgeData
  {
    EdgeData(r.kind, r.reasoning)
  }

  /**
   The edge map after adding each record of `rels` to `base` in turn; adding
   an edge for an ordered pair that already has one replaces its attributes.
   */
  function EdgeFold(base: EdgeMap, rels: seq<Relation>): EdgeMap
  {
    if rels == [] then base
    else
      var last := rels[|rels| - 1];
      EdgeFold(base, rels[..|rels| - 1])[(last.sourceId, last.targetId) := EdgeOf(last)]
  }

  /** The index of the last record for the ordered pair (s, t), or -1 when there is none. */
  function LastRecord(rels: seq<Relation>, s: Id, t: Id): (k: int)
    ensures -1 <= k < |rels|
    ensures k >= 0 ==> rels[k].sourceId == s && rels[k].targetId == t
    ensures forall j :: k < j < |rels| ==> !(rels[j].sourceId == s && rels[j].targetId == t)
  {
    if rels == [] then -1
    else if rels[|rels| - 1].sourceId == s && rels[|rels| - 1].targetId == t then |rels| - 1
    else LastRecord(rels[..|rels| - 1], s, t)
  }

  /**
   Last write wins: the edge for (s, t) carries the attributes of the last
   record for that pair; with no such record it is whatever `base` had.
   */
  lemma {:induction false} LastWriteWins(base: EdgeMap, rels: seq<Relation>, s: Id, t: Id)
    ensures LastRecord(rels, s, t) >= 0 ==>
              (s, t) in EdgeFold(base, rels) &&
              EdgeFold(base, rels)[(s, t)] == EdgeOf(rels[LastRecord(rels, s, t)])
    ensures LastRecord(rels, s, t) < 0 ==>
              ((s, t) in EdgeFold(base, rels) <==> (s, t) in base) &&
              ((s, t) in base ==> EdgeFold(base, rels)[(s, t)] == base[(s, t)])
  {
    if rels != [] {
      var init := rels[..|rels| - 1];
      LastWriteWins(base, init, s, t);
      if LastRecord(rels, s, t) != |rels| - 1 {
        assert LastRecord(rels, s, t) == LastRecord(init, s, t);
        if LastRecord(init, s, t) >= 0 {
          assert rels[LastRecord(rels, s, t)] == init[LastRecord(init, s, t)];
        }
      }
    }
  }

  /** Every pair some record names is an edge of the built graph. */
  lemma RecordedIsEdge(base: EdgeMap, rels: seq<Relation>, k: nat)
    requires k < |rels|
    ensures (rels[k].sourceId, rels[k].targetId) in EdgeFold(base, rels)
  {
    LastWriteWins(base, rels, rels[k].sourceId, rels[k].targetId);
  }

  /** Every node named by some record. */
  function Mentioned(rels: seq<Relation>): (ids: set<Id>)
    ensures forall k :: 0 <= k < |rels| ==> rels[k].sourceId in ids && rels[k].targetId in ids
  {
    if rels == [] then {}
    else
      assert rels == rels[..|rels| - 1] + [rels[|rels| - 1]];
      Mentioned(rels[..|rels| - 1]) + {rels[|rels| - 1].sourceId, rels[|rels| - 1].targetId}
  }

  /** Every edge the fold adds joins two nodes that some record names. */
  lemma {:induction false} FoldEndpoints(base: EdgeMap, rels: seq<Relation>)
    ensures forall p :: p in EdgeFold(base, rels) ==>
              p in base || (p.0 in Mentioned(rels) && p.1 in Mentioned(rels))
  {
    if rels != [] {
      FoldEndpoints(base, rels[..|rels| - 1]);
    }
  }

  /** The edge map without the edges that have `u` as an endpoint. */
  function RemoveIncident(edges: EdgeMap, u: Id): EdgeMap
  {
    map p | p in edges && p.0 != u && p.1 != u :: edges[p]
  }

  /** Adding one record to the end of the list adds one edge to the built graph. */
  lemma FoldSnoc(base: EdgeMap, rels: seq<Relation>, r: Relation)
    ensures EdgeFold(base, rels + [r]) == EdgeFold(base, rels)[(r.sourceId, r.targetId) := EdgeOf(r)]
  {
    assert (rels + [r])[..|rels|] == rels;
  }

  lemma RemoveAfterTouchingUpdate(edges: EdgeMap, r: Relation, u: Id)
    requires Touches(r, u)
    ensures RemoveIncident(edges[(r.sourceId, r.targetId) := EdgeOf(r)], u) == RemoveIncident(edges, u)
  {
  }

  lemma RemoveAfterOtherUpdate(edges: EdgeMap, r: Relation, u: Id)
    requires !Touches(r, u)
    ensures RemoveIncident(edges[(r.sourceId, r.targetId) := EdgeOf(r)], u)
         == RemoveIncident(edges, u)[(r.sourceId, r.targetId) := EdgeOf(r)]
  {
  }

  /**
   Removing a node from the built graph gives the graph built from the
   records that do not touch it: the in-memory cascade and the persisted
   cascade agree.
   */
  lemma {:induction false} FoldWithout(base: EdgeMap, rels: seq<Relation>, u: Id)
    ensures EdgeFold(RemoveIncident(base, u), Untouched(rels, u)) == RemoveIncident(EdgeFold(base, rels), u)
  {
    if rels != [] {
      var init, last := rels[..|rels| - 1], rels[|rels| - 1];
      FoldWithout(base, init, u);
      FoldSnoc(base, init, last);
      assert rels == init + [last];
      if Touches(last, u) {
        assert Untouched(rels, u) == Untouched(init, u);
        RemoveAfterTouchingUpdate(EdgeFold(base, init), last, u);
      } else {
        assert Untouched(rels, u) == Untouched(init, u) + [last];
        FoldSnoc(RemoveIncident(base, u), Untouched(init, u), last);
        RemoveAfterOtherUpdate(EdgeFold(base, init), last, u);
      }
    }
  }

  /**
   Deleting a unit's records and removing its node keep the graph in step
   with the records: what is left of the graph is the fold of what is left
   of the records, its edges join remaining nodes, and no record touches
   the unit any more.
   */
  lemma CascadeKeepsGraph(nodes: set<Id>, edges: EdgeMap, rels: seq<Relation>, u: Id)
    requires forall p :: p in edges ==> p.0 in nodes && p.1 in nodes
    requires edges == EdgeFold(map[], rels)
    ensures forall p :: p in RemoveIncident(edges, u) ==> p.0 in nodes - {u} && p.1 in nodes - {u}
    ensures RemoveIncident(edges, u) == EdgeFold(map[], Untouched(rels, u))
    ensures Touching(Untouched(rels, u), u) == []
  {
    assert RemoveIncident(edges, u) == EdgeFold(map[], Untouched(rels, u)) by {
      FoldWithout(map[], rels, u);
      assert RemoveIncident(map[], u) == map[];
    }
    assert Touching(Untouched(rels, u), u) == [] by {
      CascadeKeepsOthers(rels, u, u);
    }
  }

  /** A node outside every edge loses nothing when its incident edges are removed. */
  lemma RemoveAbsent(edges: EdgeMap, u: Id)
    requires forall p :: p in edges ==> p.0 != u && p.1 != u
    ensures RemoveIncident(edges, u) == edges
  {
  }

  // ---------------------------------------------------------------------
  // Candidate pairs and the choice of a lineage path

  /** The pairs (s, t) for each end hit t, skipping an end hit with the same id as s. */
  function PairsFor(s: Id, ends: seq<Hit>): (cs: seq<(Id, Id)>)
    ensures forall k :: 0 <= k < |cs| ==> cs[k].0 == s && cs[k].0 != cs[k].1
  {
    if ends == [] then []
    else
      var t := ends[|ends| - 1].0.id;
      PairsFor(s, ends[..|ends| - 1]) + (if s == t then [] else [(s, t)])
  }

  /** Every start hit paired with every end hit, start-major, identical ids skipped. */
  function Candidates(starts: seq<Hit>, ends: seq<Hit>): (cs: seq<(Id, Id)>)
    ensures forall k :: 0 <= k < |cs| ==> cs[k].0 != cs[k].1
  {
    if starts == [] then []
    else Candidates(starts[..|starts| - 1], ends) + PairsFor(starts[|starts| - 1].0.id, ends)
  }

  /** One more end hit adds at most its own pair, at the end. */
  lemma PairsNext(s: Id, ends: seq<Hit>, j: nat)
    requires j < |ends|
    ensures PairsFor(s, ends[..j + 1]) ==
              PairsFor(s, ends[..j]) + (if s == ends[j].0.id then [] else [(s, ends[j].0.id)])
  {
    assert ends[..j + 1][..j] == ends[..j];
  }

  lemma {:induction false} PairsAppend(s: Id, a: seq<Hit>, b: seq<Hit>)
    ensures PairsFor(s, a + b) == PairsFor(s, a) + PairsFor(s, b)
  {
    if b == [] {
      assert a + b == a;
    } else {
      var init, last := b[..|b| - 1], b[|b| - 1];
      assert (a + b)[..|a + b| - 1] == a + init && (a + b)[|a + b| - 1] == last;
      var tail := if s == last.0.id then [] else [(s, last.0.id)];
      assert PairsFor(s, a + b) == PairsFor(s, a + init) + tail;
      assert PairsFor(s, b) == PairsFor(s, init) + tail;
      PairsAppend(s, a, init);
      Associative(PairsFor(s, a), PairsFor(s, init), tail);
    }
  }

  lemma {:induction false} CandidatesAppend(a: seq<Hit>, b: seq<Hit>, ends: seq<Hit>)
    ensures Candidates(a + b, ends) == Candidates(a, ends) + Candidates(b, ends)
  {
    if b == [] {
      assert a + b == a;
    } else {
      var init, last := b[..|b| - 1], b[|b| - 1];
      assert (a + b)[..|a + b| - 1] == a + init && (a + b)[|a + b| - 1] == last;
      var tail := PairsFor(last.0.id, ends);
      assert Candidates(a + b, ends) == Candidates(a + init, ends) + tail;
      assert Candidates(b, ends) == Candidates(init, ends) + tail;
      CandidatesAppend(a, init, ends);
      Associative(Candidates(a, ends), Candidates(init, ends), tail);
    }
  }

  /** A pair is a candidate exactly when its ids come from a start hit and an end hit and differ. */
  lemma {:induction false} CandidatesExactly(starts: seq<Hit>, ends: seq<Hit>, s: Id, t: Id)
    ensures (s, t) in Candidates(starts, ends) <==>
              s != t &&
              (exists i :: 0 <= i < |starts| && starts[i].0.id == s) &&
              (exists j :: 0 <= j < |ends| && ends[j].0.id == t)
  {
    if starts != [] {
      var init := starts[..|starts| - 1];
      CandidatesExactly(init, ends, s, t);
      PairsExactly(starts[|starts| - 1].0.id, ends, t);
      if (exists i :: 0 <= i < |starts| && starts[i].0.id == s) && !(exists i :: 0 <= i < |init| && init[i].0.id == s) {
        var i :| 0 <= i < |starts| && starts[i].0.id == s;
        if i < |init| {
          assert init[i].0.id == s;
        }
      }
      if exists i :: 0 <= i < |init| && init[i].0.id == s {
        var i :| 0 <= i < |init| && init[i].0.id == s;
        assert starts[i].0.id == s;
      }
    }
  }

  lemma {:induction false} PairsExactly(s: Id, ends: seq<Hit>, t: Id)
    ensures (s, t) in PairsFor(s, ends) <==> s != t && exists j :: 0 <= j < |ends| && ends[j].0.id == t
  {
    if ends != [] {
      var init := ends[..|ends| - 1];
      PairsExactly(s, init, t);
      if exists j :: 0 <= j < |init| && init[j].0.id == t {
        var j :| 0 <= j < |init| && init[j].0.id == t;
        assert ends[j].0.id == t;
      }
      if exists j :: 0 <= j < |ends| && ends[j].0.id == t {
        var j :| 0 <= j < |ends| && ends[j].0.id == t;
        if j < |init| {
          assert init[j].0.id == t;
        }
      }
    }
  }

  /** The pairs for the first `j` end hits begin the pairs for all of them. */
  lemma PairsPrefix(s: Id, ends: seq<Hit>, j: nat)
    requires j <= |ends|
    ensures PairsFor(s, ends[..j]) <= PairsFor(s, ends)
  {
    assert ends == ends[..j] + ends[j..];
    PairsAppend(s, ends[..j], ends[j..]);
  }

  /** The candidates of the first `i` start hits, then those of start hit `i`, begin the candidate list. */
  lemma CandidatesStep(starts: seq<Hit>, ends: seq<Hit>, i: nat)
    requires i < |starts|
    ensures Candidates(starts[..i], ends) + PairsFor(starts[i].0.id, ends) <= Candidates(starts, ends)
  {
    assert starts[..i + 1][..i] == starts[..i];
    assert starts == starts[..i + 1] + starts[i + 1..];
    CandidatesAppend(starts[..i + 1], starts[i + 1..], ends);
  }

  /**
   The candidates seen after `i` start hits and `j + 1` end hits of the
   next one begin the full candidate list.
   */
  lemma CandidatesPrefix(starts: seq<Hit>, ends: seq<Hit>, i: nat, j: nat)
    requires i < |starts| && j < |ends|
    ensures Candidates(starts[..i], ends) + PairsFor(starts[i].0.id, ends[..j + 1]) <= Candidates(starts, ends)
  {
    var a := Candidates(starts[..i], ends);
    var p := PairsFor(starts[i].0.id, ends[..j + 1]);
    var q := PairsFor(starts[i].0.id, ends);
    PairsPrefix(starts[i].0.id, ends, j + 1);
    CandidatesStep(starts, ends, i);
    assert a + p == (a + q)[..|a + p|];
  }

  /** The pair tried after the candidates `done` sits right after them in the full candidate list. */
  lemma NextCandidate(starts: seq<Hit>, ends: seq<Hit>, i: nat, j: nat, done: seq<(Id, Id)>)
    requires i < |starts| && j < |ends| && starts[i].0.id != ends[j].0.id
    requires done == Candidates(starts[..i], ends) + PairsFor(starts[i].0.id, ends[..j])
    ensures |done| < |Candidates(starts, ends)|
    ensures Candidates(starts, ends)[|done|] == (starts[i].0.id, ends[j].0.id)
    ensures forall c :: 0 <= c < |done| ==> Candidates(starts, ends)[c] == done[c]
  {
    assert ends[..j + 1][..j] == ends[..j];
    CandidatesPrefix(starts, ends, i, j);
    assert done + [(starts[i].0.id, ends[j].0.id)] <= Candidates(starts, ends);
  }

  /** Both ids of a candidate pair are graph nodes. */
  predicate Present(nodes: set<Id>, c: (Id, Id))
  {
    c.0 in nodes && c.1 in nodes
  }

  /**
   The outcome of scanning candidates `cs` in order, keeping a path only when
   it is strictly shorter than the best so far. With no best, every pair is
   disconnected. Otherwise `best` joins pair `pick` and no shorter path
   joins it; every earlier pair has no path as short as `best`, and no later
   pair a strictly shorter one: the first shortest path found wins.
   */
  ghost predicate Ranked(edges: EdgeMap, cs: seq<(Id, Id)>, best: Option<seq<Id>>, pick: nat)
  {
    if best.None? then
      forall c :: 0 <= c < |cs| ==> Disconnected(edges, cs[c].0, cs[c].1)
    else
      pick < |cs| &&
      PathBetween(edges, best.value, cs[pick].0, cs[pick].1) &&
      Minimal(edges, cs[pick].0, cs[pick].1, best.value) &&
      (forall c :: 0 <= c < pick ==> !Near(edges, cs[c].0, cs[c].1, |best.value| - 1)) &&
      (forall c :: pick < c < |cs| ==> !Near(edges, cs[c].0, cs[c].1, |best.value| - 2))
  }

  /** A disconnected pair changes nothing. */
  lemma RankDisconnected(edges: EdgeMap, cs: seq<(Id, Id)>, best: Option<seq<Id>>, pick: nat, s: Id, t: Id)
    requires Ranked(edges, cs, best, pick) && Disconnected(edges, s, t)
    ensures Ranked(edges, cs + [(s, t)], best, pick)
  {
    var cs' := cs + [(s, t)];
    if best.Some? {
      assert !Near(edges, cs'[|cs|].0, cs'[|cs|].1, |best.value| - 2);
    }
  }

  /** No candidate pair is joined within `n` hops when `n` is below the best path's hop count. */
  lemma RankedBelow(edges: EdgeMap, cs: seq<(Id, Id)>, best: seq<Id>, pick: nat, c: nat, n: int)
    requires Ranked(edges, cs, Some(best), pick)
    requires c < |cs| && n <= |best| - 2
    ensures !Near(edges, cs[c].0, cs[c].1, n)
  {
    if Near(edges, cs[c].0, cs[c].1, n) {
      if c < pick {
        NearMonotone(edges, cs[c].0, cs[c].1, n, |best| - 1);
      } else {
        NearMonotone(edges, cs[c].0, cs[c].1, n, |best| - 2);
      }
    }
  }

  /** A strictly shorter path than the best so far becomes the best. */
  lemma RankShorter(edges: EdgeMap, cs: seq<(Id, Id)>, best: Option<seq<Id>>, pick: nat, s: Id, t: Id, p: seq<Id>)
    requires Ranked(edges, cs, best, pick)
    requires PathBetween(edges, p, s, t) && Minimal(edges, s, t, p)
    requires best.None? || |p| < |best.value|
    ensures Ranked(edges, cs + [(s, t)], Some(p), |cs|)
  {
    var cs' := cs + [(s, t)];
    forall c | 0 <= c < |cs| ensures !Near(edges, cs'[c].0, cs'[c].1, |p| - 1) {
      assert cs'[c] == cs[c];
      if best.Some? {
        RankedBelow(edges, cs, best.value, pick, c, |p| - 1);
      }
    }
    assert cs'[|cs|] == (s, t);
  }

  /** A path no shorter than the best so far is dropped. */
  lemma RankNotShorter(edges: EdgeMap, cs: seq<(Id, Id)>, best: Option<seq<Id>>, pick: nat, s: Id, t: Id, p: seq<Id>)
    requires Ranked(edges, cs, best, pick) && best.Some?
    requires PathBetween(edges, p, s, t) && Minimal(edges, s, t, p)
    requires |best.value| <= |p|
    ensures Ranked(edges, cs + [(s, t)], best, pick)
  {
    var cs' := cs + [(s, t)];
    if Near(edges, s, t, |best.value| - 2) {
      NearMonotone(edges, s, t, |best.value| - 2, |p| - 2);
    }
    assert cs'[|cs|] == (s, t);
  }

  /**
   The chosen path is a shortest one over all candidates: no candidate pair
   is joined by a shorter path, and none before the chosen pair by a path
   as short.
   */
  lemma RankedIsBest(edges: EdgeMap, cs: seq<(Id, Id)>, route: seq<Id>, pick: nat, c: nat, q: seq<Id>)
    requires Ranked(edges, cs, Some(route), pick)
    requires c < |cs| && PathBetween(edges, q, cs[c].0, cs[c].1)
    ensures |route| <= |q|
    ensures c < pick ==> |route| < |q|
  {
    PathInBall(edges, q, cs[c].0);
    assert Near(edges, cs[c].0, cs[c].1, |q| - 1);
    if c < pick && |q| <= |route| {
      NearMonotone(edges, cs[c].0, cs[c].1, |q| - 1, |route| - 1);
    } else if |q| < |route| {
      NearMonotone(edges, cs[c].0, cs[c].1, |q| - 1, |route| - 2);
    }
  }

  /** With no best path, no candidate pair is joined by any path. */
  lemma UnrankedIsDisconnected(edges: EdgeMap, cs: seq<(Id, Id)>, pick: nat, c: nat, q: seq<Id>)
    requires Ranked(edges, cs, None, pick)
    requires c < |cs|
    ensures !PathBetween(edges, q, cs[c].0, cs[c].1)
  {
    if PathBetween(edges, q, cs[c].0, cs[c].1) {
      PathInBall(edges, q, cs[c].0);
    }
  }

  // ---------------------------------------------------------------------
  // Lineage steps along a path

  /**
   The relation reported for the hop from node `i` of `route` to the next:
   the forward edge when there is one, else the reverse edge in its stored
   direction; the last node reports none.
   */
  function HopRelation(edges: EdgeMap, route: seq<Id>, i: nat): (rel: Option<Relation>)
    requires i < |route|
    ensures i == |route| - 1 ==> rel.None?
    ensures i < |route| - 1 && rel.Some? ==>
              var r := rel.value;
              (r.sourceId, r.targetId) in edges && edges[(r.sourceId, r.targetId)] == EdgeData(r.kind, r.reasoning) &&
              ((r.sourceId, r.targetId) == (route[i], route[i + 1]) || (r.sourceId, r.targetId) == (route[i + 1], route[i]))
    ensures i < |route| - 1 ==> (rel.Some? <==> Adj(edges, route[i], route[i + 1]))
    ensures i < |route| - 1 && (route[i], route[i + 1]) in edges ==> rel.Some? && rel.value.sourceId == route[i]
  {
    if i == |route| - 1 then None
    else
      var here, next := route[i], route[i + 1];
      if (here, next) in edges then
        Some(Relation(here, next, edges[(here, next)].kind, edges[(here, next)].reasoning))
      else if (next, here) in edges then
        Some(Relation(next, here, edges[(next, here)].kind, edges[(next, here)].reasoning))
      else None
  }

  /** The steps for the first `n` nodes of `route`, skipping nodes with no unit. */
  function Lineage(units: map<Id, AtomicUnit>, edges: EdgeMap, route: seq<Id>, n: nat): seq<LineageStep>
    requires n <= |route|
  {
    if n == 0 then []
    else
      Lineage(units, edges, route, n - 1) +
      (if route[n - 1] in units then [LineageStep(units[route[n - 1]], HopRelation(edges, route, n - 1))] else [])
  }

  /** When every node of `route` has a unit, there is one step per node, in route order. */
  lemma {:induction false} LineageOfKnownRoute(units: map<Id, AtomicUnit>, edges: EdgeMap, route: seq<Id>, n: nat)
    requires n <= |route|
    requires forall i :: 0 <= i < |route| ==> route[i] in units
    ensures |Lineage(units, edges, route, n)| == n
    ensures forall i :: 0 <= i < n ==>
              Lineage(units, edges, route, n)[i] == LineageStep(units[route[i]], HopRelation(edges, route, i))
  {
    if n > 0 {
      LineageOfKnownRoute(units, edges, route, n - 1);
    }
  }

  /** Along a path whose nodes all have units, every step but the last carries a relation. */
  lemma LineageRelations(units: map<Id, AtomicUnit>, edges: EdgeMap, route: seq<Id>)
    requires IsPath(edges, route)
    requires forall i :: 0 <= i < |route| ==> route[i] in units
    ensures |Lineage(units, edges, route, |route|)| == |route|
    ensures forall i :: 0 <= i < |route| ==>
              (Lineage(units, edges, route, |route|)[i].relationToNext.Some? <==> i < |route| - 1)
  {
    LineageOfKnownRoute(units, edges, route, |route|);
  }

  /** The result when no candidate pair is connected: the top hits, unrelated. */
  function Disconnection(starts: seq<Hit>, ends: seq<Hit>): seq<LineageStep>
    requires starts != [] && ends != []
  {
    [LineageStep(starts[0].0, None), LineageStep(ends[0].0, None)]
  }

  // ---------------------------------------------------------------------
  // Conflict classification

  /** The first contradicting record of `rels`, if any. */
  function FirstConflicting(rels: seq<Relation>): (r: Option<Relation>)
    ensures r.Some? ==> r.value in rels && IsConflictKind(r.value.kind)
    ensures r.None? <==> forall x :: x in rels ==> !IsConflictKind(x.kind)
  {
    if rels == [] then None
    else if IsConflictKind(rels[0].kind) then Some(rels[0])
    else FirstConflicting(rels[1..])
  }

  /** The record at `k` is the first contradicting one when none before it is. */
  lemma {:induction false} FirstConflictingAt(rels: seq<Relation>, k: nat)
    requires k < |rels| && IsConflictKind(rels[k].kind)
    requires forall j :: 0 <= j < k ==> !IsConflictKind(rels[j].kind)
    ensures FirstConflicting(rels) == Some(rels[k])
  {
    if k > 0 {
      assert !IsConflictKind(rels[0].kind);
      FirstConflictingAt(rels[1..], k - 1);
    }
  }

  /**
   How one hit is reported: never below the minimum score; with the first
   contradicting relation touching its unit when there is one; otherwise
   with no relation, and only above the implicit-conflict score.
   */
  function ConflictFor(hit: Hit, rels: seq<Relation>): Option<ConflictResult>
  {
    if hit.1 < MinConflictScore then None
    else
      match FirstConflicting(Touching(rels, hit.0.id))
      case Some(x) => Some(ConflictResult(hit.0, Some(x)))
      case None => if hit.1 > ImplicitConflictScore then Some(ConflictResult(hit.0, None)) else None
  }

  /**
   A hit is reported only at or above the minimum score and always for its
   own unit; a reported relation is a contradicting record touching the
   unit, and there is one whenever such a record exists; without one the
   hit is reported exactly when it scores above the implicit-conflict score.
   */
  lemma ConflictClassified(hit: Hit, rels: seq<Relation>)
    ensures var c := ConflictFor(hit, rels);
            (c.Some? ==> c.value.conflictingUnit == hit.0 && hit.1 >= MinConflictScore) &&
            (c.Some? && c.value.relation.Some? ==>
               c.value.relation.value in rels && Touches(c.value.relation.value, hit.0.id) &&
               IsConflictKind(c.value.relation.value.kind)) &&
            (hit.1 >= MinConflictScore && (exists x :: x in rels && Touches(x, hit.0.id) && IsConflictKind(x.kind)) ==>
               c.Some? && c.value.relation.Some?) &&
            ((forall x :: x in rels && Touches(x, hit.0.id) ==> !IsConflictKind(x.kind)) ==>
               (c.Some? <==> hit.1 > ImplicitConflictScore) && (c.Some? ==> c.value.relation.None?))
  {
  }

  function ReportOf(c: Option<ConflictResult>): seq<ConflictResult>
  {
    if c.Some? then [c.value] else []
  }

  /** The reports for `hits`, in hit order, at most one per hit. */
  function ConflictsOf(hits: seq<Hit>, rels: seq<Relation>): seq<ConflictResult>
  {
    if hits == [] then []
    else ConflictsOf(hits[..|hits| - 1], rels) + ReportOf(ConflictFor(hits[|hits| - 1], rels))
  }

  /** Splitting off the last hit splits off its report. */
  lemma ConflictsLast(hits: seq<Hit>, rels: seq<Relation>)
    requires hits != []
    ensures ConflictsOf(hits, rels) ==
              ConflictsOf(hits[..|hits| - 1], rels) + ReportOf(ConflictFor(hits[|hits| - 1], rels))
  {
  }

  /** Every listed report is the report of some hit, and there are no more reports than hits. */
  lemma {:induction false} ConflictsSound(hits: seq<Hit>, rels: seq<Relation>, c: ConflictResult)
    requires c in ConflictsOf(hits, rels)
    ensures exists i :: 0 <= i < |hits| && ConflictFor(hits[i], rels) == Some(c)
  {
    var init, last := hits[..|hits| - 1], hits[|hits| - 1];
    ConflictsLast(hits, rels);
    if c in ConflictsOf(init, rels) {
      ConflictsSound(init, rels, c);
      var i :| 0 <= i < |init| && ConflictFor(init[i], rels) == Some(c);
      assert hits[i] == init[i];
    } else {
      assert ConflictFor(hits[|hits| - 1], rels) == Some(c);
    }
  }

  /** The report of every hit is listed. */
  lemma {:induction false} ConflictsComplete(hits: seq<Hit>, rels: seq<Relation>, i: nat)
    requires i < |hits| && ConflictFor(hits[i], rels).Some?
    ensures ConflictFor(hits[i], rels).value in ConflictsOf(hits, rels)
  {
    var init, c := hits[..|hits| - 1], ConflictFor(hits[i], rels).value;
    var report := ReportOf(ConflictFor(hits[|hits| - 1], rels));
    ConflictsLast(hits, rels);
    if i < |init| {
      assert init[i] == hits[i];
      ConflictsComplete(init, rels, i);
      InAppend(ConflictsOf(init, rels), report, c);
    } else {
      assert c in report;
      InAppend(ConflictsOf(init, rels), report, c);
    }
  }

  /** There are no more reports than hits. */
  lemma {:induction false} ConflictsBounded(hits: seq<Hit>, rels: seq<Relation>)
    ensures |ConflictsOf(hits, rels)| <= |hits|
  {
    if hits != [] {
      ConflictsLast(hits, rels);
      ConflictsBounded(hits[..|hits| - 1], rels);
    }
  }

  /** Exactly the reports of the individual hits are listed, and no more than one per hit. */
  lemma ConflictsExactly(hits: seq<Hit>, rels: seq<Relation>, c: ConflictResult)
    ensures |ConflictsOf(hits, rels)| <= |hits|
    ensures c in ConflictsOf(hits, rels) <==> exists i :: 0 <= i < |hits| && ConflictFor(hits[i], rels) == Some(c)
  {
    ConflictsBounded(hits, rels);
    if c in ConflictsOf(hits, rels) {
      ConflictsSound(hits, rels, c);
    }
    if exists i :: 0 <= i < |hits| && ConflictFor(hits[i], rels) == Some(c) {
      var i :| 0 <= i < |hits| && ConflictFor(hits[i], rels) == Some(c);
      ConflictsComplete(hits, rels, i);
    }
  }

  /** A node that no edge touches reaches only itself. */
  lemma {:induction false} BallOfIsolated(edges: EdgeMap, s: Id, k: nat)
    requires forall p :: p in edges ==> p.0 != s && p.1 != s
    ensures Ball(edges, s, k) == {s}
  {
    if k > 0 {
      BallOfIsolated(edges, s, k - 1);
      forall v | v in Neighbours(edges, {s}) ensures false {
        var u := NeighbourWitness(edges, {s}, v);
      }
    }
  }

  /**
   When every edge joins two nodes, a pair of distinct ids one of which is
   not a node is disconnected: skipping it is what searching it would give.
   */
  lemma AbsentIsDisconnected(edges: EdgeMap, nodes: set<Id>, s: Id, t: Id)
    requires forall p :: p in edges ==> p.0 in nodes && p.1 in nodes
    requires s != t && !Present(nodes, (s, t))
    ensures Disconnected(edges, s, t)
  {
    forall k: nat ensures t !in Ball(edges, s, k) {
      if s !in nodes {
        BallOfIsolated(edges, s, k);
      } else {
        BallBounded(edges, s, k);
        EndpointsWithin(edges, nodes);
      }
    }
  }

  lemma EndpointsWithin(edges: EdgeMap, nodes: set<Id>)
    requires forall p :: p in edges ==> p.0 in nodes && p.1 in nodes
    ensures Endpoints(edges) <= nodes
  {
    forall v | v in Endpoints(edges) ensures v in nodes {
      if v in (set p | p in edges.Keys :: p.0) {
        var p :| p in edges.Keys && p.0 == v;
      } else {
        var p :| p in edges.Keys && p.1 == v;
      }
    }
  }

  /** What a successful unit deletion reports. */
  datatype DeleteReport = DeleteReport(
    deletedUnitId: Id, deletedContent: string, deletedSource: string,
    deletedRelationsCount: nat, connectionsRemoved: nat)

  // ---------------------------------------------------------------------
  // The engine

  class KnowledgeGraph {
    /** The unit table, keyed by unit id. */
    var units: map<Id, AtomicUnit>
    /** The graph's nodes. */
    var nodes: set<Id>
    /** The graph's directed edges. */
    var edges: EdgeMap
    const persistence: PersistenceManager

    /**
     The table is keyed by id, every edge joins two nodes, and the edges are
     exactly those obtained by adding the persisted records in order.
     */
    ghost predicate Valid()
      reads this, persistence
    {
      (forall id :: id in units ==> units[id].id == id) &&
      (forall p :: p in edges ==> p.0 in nodes && p.1 in nodes) &&
      edges == EdgeFold(map[], persistence.relations)
    }

    /** Opens the table, starts from an empty graph and loads the persisted records into it. */
    constructor (table: map<Id, AtomicUnit>, store: PersistenceManager)
      requires forall id :: id in table ==> table[id].id == id
      ensures Valid()
      ensures units == table && persistence == store
      ensures nodes == Mentioned(store.relations) && edges == EdgeFold(map[], store.relations)
    {
      units := table;
      nodes := {};
      edges := map[];
      persistence := store;
      new;
      LoadGraphFromPersistence();
      FoldEndpoints(map[], persistence.relations);
    }

    /** Adds an edge for every persisted record, in stored order. */
    method LoadGraphFromPersistence()
      modifies this`nodes, this`edges
      ensures edges == EdgeFold(old(edges), persistence.relations)
      ensures nodes == old(nodes) + Mentioned(persistence.relations)
    {
      var relations := persistence.GetAllRelations();
      var i := 0;
      while i < |relations|
        invariant 0 <= i <= |relations|
        invariant edges == EdgeFold(old(edges), relations[..i])
        invariant nodes == old(nodes) + Mentioned(relations[..i])
      {
        var r := relations[i];
        assert relations[..i + 1][..i] == relations[..i];
        edges := edges[(r.sourceId, r.targetId) := EdgeData(r.kind, r.reasoning)];
        nodes := nodes + {r.sourceId, r.targetId};
        i := i + 1;
      }
      assert relations[..i] == relations;
    }

    /**
     Stores a new unit and registers its node. A given non-empty id is used,
     otherwise the fresh one; a unit already stored under that id is replaced.
     */
    method AddProposition(content: string, source: string, confidence: real, unitId: Option<Id>, freshId: Id)
      returns (unit: AtomicUnit)
      requires Valid()
      modifies this`units, this`nodes
      ensures Valid()
      ensures unit.id == (if unitId.Some? && unitId.value != "" then unitId.value else freshId)
      ensures unit.content == content && unit.source == source && unit.confidence == confidence
      ensures units == old(units)[unit.id := unit] && nodes == old(nodes) + {unit.id}
    {
      var id := freshId;
      if unitId.Some? && unitId.value != "" {
        id := unitId.value;
      }
      unit := AtomicUnit(id, content, source, confidence);
      units := units[id := unit];
      nodes := nodes + {id};
    }

    method GetUnit(id: Id) returns (unit: Option<AtomicUnit>)
      requires Valid()
      ensures unit.Some? <==> id in units
      ensures unit.Some? ==> unit.value == units[id] && unit.value.id == id
    {
      unit := if id in units then Some(units[id]) else None;
    }

    /**
     Records a relation from `sourceId` to `targetId`. A missing source is
     reported first, then a missing target, and then nothing changes.
     Otherwise the edge for the pair gets the new attributes and one record
     is appended.
     */
    method ConnectConcepts(sourceId: Id, targetId: Id, kind: RelationType, reasoning: string)
      returns (r: Result<Relation, ErrorKind>)
      requires Valid()
      modifies this`nodes, this`edges, persistence
      ensures Valid()
      ensures sourceId !in units ==> r == Err(SourceNotFound(sourceId))
      ensures sourceId in units && targetId !in units ==> r == Err(TargetNotFound(targetId))
      ensures r.Err? ==> nodes == old(nodes) && edges == old(edges) &&
                         persistence.relations == old(persistence.relations)
      ensures sourceId in units && targetId in units ==>
                r == Ok(Relation(sourceId, targetId, kind, reasoning)) &&
                edges == old(edges)[(sourceId, targetId) := EdgeData(kind, reasoning)] &&
                nodes == old(nodes) + {sourceId, targetId} &&
                persistence.relations == old(persistence.relations) + [r.value]
      ensures r.Ok? ==> r.value in Touching(persistence.relations, sourceId) &&
                        r.value in Touching(persistence.relations, targetId)
      ensures persistence.idempotencyCache == old(persistence.idempotencyCache)
    {
      var source := GetUnit(sourceId);
      var target := GetUnit(targetId);
      if source.None? {
        return Err(SourceNotFound(sourceId));
      }
      if target.None? {
        return Err(TargetNotFound(targetId));
      }
      var relation := Relation(sourceId, targetId, kind, reasoning);
      edges := edges[(sourceId, targetId) := EdgeData(kind, reasoning)];
      nodes := nodes + {sourceId, targetId};
      persistence.AddRelation(relation);
      assert persistence.relations[..|persistence.relations| - 1] == old(persistence.relations);
      r := Ok(relation);
    }

    method GetUnitConnections(id: Id) returns (rs: seq<Relation>)
      ensures rs == Touching(persistence.relations, id)
    {
      rs := persistence.GetRelationsForUnit(id);
    }

    /**
     Deletes a unit, its node with every incident edge and every record
     touching it. Both reported counts are the number of records that
     touched the unit.
     */
    method DeleteUnit(id: Id) returns (r: Result<DeleteReport, ErrorKind>)
      requires Valid()
      modifies this`units, this`nodes, this`edges, persistence
      ensures Valid()
      ensures id !in old(units) ==>
                r == Err(UnitNotFound(id)) && unchanged(this) && unchanged(persistence)
      ensures id in old(units) ==>
                var n := |Touching(old(persistence.relations), id)|;
                r == Ok(DeleteReport(id, old(units)[id].content, old(units)[id].source, n, n)) &&
                units == old(units) - {id} && nodes == old(nodes) - {id} &&
                edges == RemoveIncident(old(edges), id) &&
                persistence.relations == Untouched(old(persistence.relations), id)
      ensures Touching(persistence.relations, id) == [] || id !in old(units)
      ensures persistence.idempotencyCache == old(persistence.idempotencyCache)
    {
      var unit := GetUnit(id);
      if unit.None? {
        return Err(UnitNotFound(id));
      }
      var connections := GetUnitConnections(id);
      units := units - {id};
      if id in nodes {
        nodes := nodes - {id};
        edges := RemoveIncident(edges, id);
      } else {
        RemoveAbsent(edges, id);
      }
      CascadeKeepsGraph(old(nodes), old(edges), persistence.relations, id);
      var deleted := persistence.DeleteRelationsForUnit(id);
      r := Ok(DeleteReport(id, unit.value.content, unit.value.source, deleted, |connections|));
    }

    /** The steps along `route`, one per node that has a unit. */
    method BuildLineage(route: seq<Id>) returns (steps: seq<LineageStep>)
      ensures steps == Lineage(units, edges, route, |route|)
    {
      steps := [];
      var i := 0;
      while i < |route|
        invariant 0 <= i <= |route|
        invariant steps == Lineage(units, edges, route, i)
      {
        var nodeId := route[i];
        if nodeId in units {
          var relation: Option<Relation> := None;
          if i < |route| - 1 {
            var nextId := route[i + 1];
            if (nodeId, nextId) in edges {
              var e := edges[(nodeId, nextId)];
              relation := Some(Relation(nodeId, nextId, e.kind, e.reasoning));
            } else if (nextId, nodeId) in edges {
              var e := edges[(nextId, nodeId)];
              relation := Some(Relation(nextId, nodeId, e.kind, e.reasoning));
            }
          }
          steps := steps + [LineageStep(units[nodeId], relation)];
        }
        i := i + 1;
      }
    }

    /**
     Tries one candidate pair whose ids are both graph nodes: a path
     replaces the best so far only when it is strictly shorter.
     */
    method ConsiderPair(s: Id, t: Id, best: Option<seq<Id>>, ghost pick: nat, ghost done: seq<(Id, Id)>)
      returns (best': Option<seq<Id>>, ghost pick': nat)
      requires Ranked(edges, done, best, pick)
      ensures Ranked(edges, done + [(s, t)], best', pick')
    {
      var p := ShortestPath(edges, s, t);
      if p.None? {
        RankDisconnected(edges, done, best, pick, s, t);
        best', pick' := best, pick;
      } else if best.None? || |p.value| < |best.value| {
        RankShorter(edges, done, best, pick, s, t, p.value);
        best', pick' := p, |done|;
      } else {
        RankNotShorter(edges, done, best, pick, s, t, p.value);
        best', pick' := best, pick;
      }
    }

    /**
     The scan state after the end hits before `j` for start hit `i`: `done`
     lists the candidates seen so far, all of them graph nodes when the scan
     stops on absent ids, and the best path so far is ranked among them.
     */
    ghost predicate Scanned(starts: seq<Hit>, ends: seq<Hit>, i: nat, j: nat, stopOnAbsent: bool,
                            done: seq<(Id, Id)>, best: Option<seq<Id>>, pick: nat)
      reads this
      requires i < |starts| && j <= |ends|
    {
      done == Candidates(starts[..i], ends) + PairsFor(starts[i].0.id, ends[..j]) &&
      (stopOnAbsent ==> forall c :: 0 <= c < |done| ==> Present(nodes, done[c])) &&
      Ranked(edges, done, best, pick)
    }

    /** Candidate `pick` is the first one with an id that is not a graph node. */
    ghost predicate Stopped(starts: seq<Hit>, ends: seq<Hit>, stopOnAbsent: bool, missing: (Id, Id), pick: nat)
      reads this
    {
      var cs := Candidates(starts, ends);
      stopOnAbsent && pick < |cs| && cs[pick] == missing && !Present(nodes, cs[pick]) &&
      forall c :: 0 <= c < pick ==> Present(nodes, cs[c])
    }

    /** Considers the pair of start hit `i` and end hit `j`, if their ids differ. */
    method ScanStep(starts: seq<Hit>, ends: seq<Hit>, i: nat, j: nat, stopOnAbsent: bool,
                    best: Option<seq<Id>>, ghost pick: nat, ghost done: seq<(Id, Id)>)
      returns (missing: Option<(Id, Id)>, best': Option<seq<Id>>, ghost pick': nat, ghost done': seq<(Id, Id)>)
      requires i < |starts| && j < |ends|
      requires Scanned(starts, ends, i, j, stopOnAbsent, done, best, pick)
      ensures missing.Some? ==> Stopped(starts, ends, stopOnAbsent, missing.value, pick')
      ensures missing.None? ==> Scanned(starts, ends, i, j + 1, stopOnAbsent, done', best', pick')
    {
      missing, best', pick', done' := None, best, pick, done;
      var s, t := starts[i].0.id, ends[j].0.id;
      PairsNext(s, ends, j);
      if s != t {
        if stopOnAbsent && !(s in nodes && t in nodes) {
          NextCandidate(starts, ends, i, j, done);
          missing, pick' := Some((s, t)), |done|;
        } else {
          best', pick' := ConsiderPair(s, t, best, pick, done);
          done' := done + [(s, t)];
        }
      }
    }

    /**
     Scans the end hits for start hit `i`, continuing from the candidates of
     the earlier start hits. When `stopOnAbsent` is set, a pair with an id
     that is not a graph node stops the scan. A path replaces the best so
     far only when it is strictly shorter.
     */
    method ScanEnds(starts: seq<Hit>, ends: seq<Hit>, i: nat, stopOnAbsent: bool, best: Option<seq<Id>>, ghost pick: nat)
      returns (missing: Option<(Id, Id)>, best': Option<seq<Id>>, ghost pick': nat)
      requires i < |starts|
      requires stopOnAbsent ==>
                 forall c :: 0 <= c < |Candidates(starts[..i], ends)| ==> Present(nodes, Candidates(starts[..i], ends)[c])
      requires Ranked(edges, Candidates(starts[..i], ends), best, pick)
      ensures missing.Some? ==>
                var cs := Candidates(starts, ends);
                stopOnAbsent && pick' < |cs| && cs[pick'] == missing.value && !Present(nodes, cs[pick']) &&
                forall c :: 0 <= c < pick' ==> Present(nodes, cs[c])
      ensures missing.None? ==>
                var done := Candidates(starts[..i + 1], ends);
                (stopOnAbsent ==> forall c :: 0 <= c < |done| ==> Present(nodes, done[c])) &&
                Ranked(edges, done, best', pick')
    {
      missing, best', pick' := None, best, pick;
      ghost var done := Candidates(starts[..i], ends);
      assert ends[..0] == [];
      var j := 0;
      while j < |ends| && missing.None?
        invariant 0 <= j <= |ends|
        invariant missing.None? ==> Scanned(starts, ends, i, j, stopOnAbsent, done, best', pick')
        invariant missing.Some? ==> Stopped(starts, ends, stopOnAbsent, missing.value, pick')
      {
        missing, best', pick', done := ScanStep(starts, ends, i, j, stopOnAbsent, best', pick', done);
        j := j + 1;
      }
      if missing.None? {
        assert ends[..j] == ends;
        assert starts[..i + 1][..i] == starts[..i];
      }
    }

    /**
     Scans the candidate pairs of the start and end hits in start-major
     order and keeps a path only when it is strictly shorter than the best
     so far. When `stopOnAbsent` is set, a pair with an id that is not a
     graph node is reported instead.
     */
    method SelectPath(starts: seq<Hit>, ends: seq<Hit>, stopOnAbsent: bool)
      returns (missing: Option<(Id, Id)>, best: Option<seq<Id>>, ghost pick: nat)
      ensures missing.Some? ==>
                var cs := Candidates(starts, ends);
                stopOnAbsent && pick < |cs| && cs[pick] == missing.value && !Present(nodes, cs[pick]) &&
                forall c :: 0 <= c < pick ==> Present(nodes, cs[c])
      ensures missing.None? ==>
                var cs := Candidates(starts, ends);
                (stopOnAbsent ==> forall c :: 0 <= c < |cs| ==> Present(nodes, cs[c])) &&
                Ranked(edges, cs, best, pick)
    {
      missing, best, pick := None, None, 0;
      var i := 0;
      while i < |starts|
        invariant 0 <= i <= |starts| && missing.None?
        invariant stopOnAbsent ==>
                    forall c :: 0 <= c < |Candidates(starts[..i], ends)| ==> Present(nodes, Candidates(starts[..i], ends)[c])
        invariant Ranked(edges, Candidates(starts[..i], ends), best, pick)
      {
        missing, best, pick := ScanEnds(starts, ends, i, stopOnAbsent, best, pick);
        if missing.Some? {
          return;
        }
        i := i + 1;
      }
      assert starts[..i] == starts;
    }

    /**
     The lineage between two concepts from the ranked hits of their searches.
     No hits for either concept is an error, and so is a candidate id that
     is not a graph node; with no connected candidate the top hits are
     returned unrelated; otherwise the steps along the chosen path.
     */
    method FindPath(startConcept: string, endConcept: string, startRanked: seq<Hit>, endRanked: seq<Hit>)
      returns (r: Result<seq<LineageStep>, ErrorKind>, ghost pick: nat, ghost route: seq<Id>)
      ensures startRanked == [] ==> r == Err(NoUnitsMatching(startConcept))
      ensures startRanked != [] && endRanked == [] ==> r == Err(NoUnitsMatching(endConcept))
      ensures startRanked != [] && endRanked != [] && r.Err? ==>
                var cs := Candidates(Top(startRanked, PathSearchLimit), Top(endRanked, PathSearchLimit));
                pick < |cs| && r.error == NodeNotInGraph(cs[pick].0, cs[pick].1) &&
                !Present(nodes, cs[pick]) && forall c :: 0 <= c < pick ==> Present(nodes, cs[c])
      ensures startRanked != [] && endRanked != [] && r.Ok? ==>
                var cs := Candidates(Top(startRanked, PathSearchLimit), Top(endRanked, PathSearchLimit));
                (forall c :: 0 <= c < |cs| ==> Present(nodes, cs[c])) &&
                if forall c :: 0 <= c < |cs| ==> Disconnected(edges, cs[c].0, cs[c].1) then
                  r.value == Disconnection(startRanked, endRanked)
                else
                  Ranked(edges, cs, Some(route), pick) && r.value == Lineage(units, edges, route, |route|)
    {
      pick, route := 0, [];
      var starts := Top(startRanked, PathSearchLimit);
      if starts == [] {
        return Err(NoUnitsMatching(startConcept)), pick, route;
      }
      var ends := Top(endRanked, PathSearchLimit);
      if ends == [] {
        return Err(NoUnitsMatching(endConcept)), pick, route;
      }
      var missing, best;
      missing, best, pick := SelectPath(starts, ends, true);
      if missing.Some? {
        return Err(NodeNotInGraph(missing.value.0, missing.value.1)), pick, route;
      }
      if best.None? {
        return Ok(Disconnection(starts, ends)), pick, route;
      }
      route := best.value;
      var cs := Candidates(starts, ends);
      assert !Disconnected(edges, cs[pick].0, cs[pick].1) by {
        PathInBall(edges, route, cs[pick].0);
      }
      var steps := BuildLineage(best.value);
      r := Ok(steps);
    }

    /**
     The lineage between two concepts, with a candidate id that is not a
     graph node treated like any other unconnected pair instead of failing.
     */
    method FindPathSkippingAbsent(startConcept: string, endConcept: string, startRanked: seq<Hit>, endRanked: seq<Hit>)
      returns (r: Result<seq<LineageStep>, ErrorKind>, ghost pick: nat, ghost route: seq<Id>)
      ensures startRanked == [] ==> r == Err(NoUnitsMatching(startConcept))
      ensures startRanked != [] && endRanked == [] ==> r == Err(NoUnitsMatching(endConcept))
      ensures startRanked != [] && endRanked != [] ==>
                var cs := Candidates(Top(startRanked, PathSearchLimit), Top(endRanked, PathSearchLimit));
                r.Ok? &&
                if forall c :: 0 <= c < |cs| ==> Disconnected(edges, cs[c].0, cs[c].1) then
                  r.value == Disconnection(startRanked, endRanked)
                else
                  Ranked(edges, cs, Some(route), pick) && r.value == Lineage(units, edges, route, |route|)
    {
      pick, route := 0, [];
      var starts := Top(startRanked, PathSearchLimit);
      if starts == [] {
        return Err(NoUnitsMatching(startConcept)), pick, route;
      }
      var ends := Top(endRanked, PathSearchLimit);
      if ends == [] {
        return Err(NoUnitsMatching(endConcept)), pick, route;
      }
      var missing, best;
      missing, best, pick := SelectPath(starts, ends, false);
      if best.None? {
        return Ok(Disconnection(starts, ends)), pick, route;
      }
      route := best.value;
      var cs := Candidates(starts, ends);
      assert !Disconnected(edges, cs[pick].0, cs[pick].1) by {
        PathInBall(edges, route, cs[pick].0);
      }
      var steps := BuildLineage(best.value);
      r := Ok(steps);
    }

    /**
     How one search hit is reported: skipped below the minimum score, else
     with the first contradicting record that touches its unit, else
     without a relation when it scores above the implicit-conflict score.
     */
    method ReportHit(unit: AtomicUnit, score: real) returns (report: Option<ConflictResult>)
      ensures report == ConflictFor((unit, score), persistence.relations)
    {
      report := None;
      if score >= MinConflictScore {
        var related := persistence.GetRelationsForUnit(unit.id);
        var k := 0;
        while k < |related|
          invariant 0 <= k <= |related|
          invariant forall j :: 0 <= j < k ==> !IsConflictKind(related[j].kind)
        {
          if IsConflictKind(related[k].kind) {
            break;
          }
          k := k + 1;
        }
        if k < |related| {
          FirstConflictingAt(related, k);
          report := Some(ConflictResult(unit, Some(related[k])));
        } else if score > ImplicitConflictScore {
          report := Some(ConflictResult(unit, None));
        }
      }
    }

    /**
     The possible conflicts among the top hits of a claim's search, in hit
     order, each hit classified by its score and by the relations touching
     its unit in the persisted list.
     */
    method GetConflicts(ranked: seq<Hit>) returns (conflicts: seq<ConflictResult>)
      ensures conflicts == ConflictsOf(Top(ranked, ConflictSearchLimit), persistence.relations)
    {
      var hits := Top(ranked, ConflictSearchLimit);
      conflicts := [];
      var i := 0;
      while i < |hits|
        invariant 0 <= i <= |hits|
        invariant conflicts == ConflictsOf(hits[..i], persistence.relations)
      {
        var report := ReportHit(hits[i].0, hits[i].1);
        assert hits[..i + 1][..i] == hits[..i];
        conflicts := conflicts + ReportOf(report);
        i := i + 1;
      }
      assert hits[..i] == hits;
    }
  }

  /**
   A unit whose id is not a graph node (after a restart the nodes are
   rebuilt from the relation records only) makes the search fail, although
   the pair is merely unconnected.
   */
  method AbsentUnitBreaksFindPath() returns (r: Result<seq<LineageStep>, ErrorKind>)
    ensures r == Err(NodeNotInGraph("u", "v"))
  {
    var u, v := AtomicUnit("u", "a claim", "", 1.0), AtomicUnit("v", "another claim", "", 1.0);
    var store := new PersistenceManager([], map[]);
    var g := new KnowledgeGraph(map["u" := u, "v" := v], store);
    assert [(u, 0.9)][..0] == [] && [(v, 0.9)][..0] == [];
    assert PairsFor("u", [(v, 0.9)]) == [("u", "v")];
    assert Candidates([(u, 0.9)], [(v, 0.9)]) == [("u", "v")];
    ghost var pick, route;
    assert g.nodes == {};
    assert Top([(u, 0.9)], PathSearchLimit) == [(u, 0.9)] && Top([(v, 0.9)], PathSearchLimit) == [(v, 0.9)];
    ghost var cs := Candidates(Top([(u, 0.9)], PathSearchLimit), Top([(v, 0.9)], PathSearchLimit));
    assert cs[0] == ("u", "v") && !Present(g.nodes, cs[0]);
    r, pick, route := g.FindPath("first", "second", [(u, 0.9)], [(v, 0.9)]);
    assert r.Err?;
  }

  /** The same search with absent ids skipped returns the two units unrelated. */
  method AbsentUnitFallsBack() returns (r: Result<seq<LineageStep>, ErrorKind>)
    ensures r == Ok([LineageStep(AtomicUnit("u", "a claim", "", 1.0), None),
                     LineageStep(AtomicUnit("v", "another claim", "", 1.0), None)])
  {
    var u, v := AtomicUnit("u", "a claim", "", 1.0), AtomicUnit("v", "another claim", "", 1.0);
    var store := new PersistenceManager([], map[]);
    var g := new KnowledgeGraph(map["u" := u, "v" := v], store);
    assert [(u, 0.9)][..0] == [] && [(v, 0.9)][..0] == [];
    assert PairsFor("u", [(v, 0.9)]) == [("u", "v")];
    assert Candidates([(u, 0.9)], [(v, 0.9)]) == [("u", "v")];
    AbsentIsDisconnected(g.edges, g.nodes, "u", "v");
    ghost var pick, route;
    r, pick, route := g.FindPathSkippingAbsent("first", "second", [(u, 0.9)], [(v, 0.9)]);
  }
}
