/**
 Paths over the undirected view of a directed edge map, and a breadth-first
 search that returns a shortest one. An edge stored as (a, b) can be walked
 from a to b and from b to a.
 */
module UndirectedPaths {
  import opened Model

  type Id = string

  /** The attributes kept on a directed edge. */
  datatype EdgeData = EdgeData(kind: RelationType, reasoning: string)

  type EdgeMap = map<(Id, Id), EdgeData>

  /** `u` and `v` are joined by an edge in either direction. */
  predicate Adj(edges: EdgeMap, u: Id, v: Id)
  {
    (u, v) in edges || (v, u) in edges
  }

  /** Every node adjacent to some node of `s`. */
  function Neighbours(edges: EdgeMap, s: set<Id>): set<Id>
  {
    (set p | p in edges.Keys && p.0 in s :: p.1) + (set p | p in edges.Keys && p.1 in s :: p.0)
  }

  lemma NeighbourOf(edges: EdgeMap, s: set<Id>, u: Id, v: Id)
    requires u in s && Adj(edges, u, v)
    ensures v in Neighbours(edges, s)
  {
    if (u, v) in edges {
      assert (u, v).1 == v;
    } else {
      assert (v, u).0 == v;
    }
  }

  lemma NeighbourWitness(edges: EdgeMap, s: set<Id>, v: Id) returns (u: Id)
    requires v in Neighbours(edges, s)
    ensures u in s && Adj(edges, u, v)
  {
    if v in (set p | p in edges.Keys && p.0 in s :: p.1) {
      var e :| e in edges.Keys && e.0 in s && e.1 == v;
      u := e.0;
    } else {
      var e :| e in edges.Keys && e.1 in s && e.0 == v;
      u := e.1;
    }
  }

  /** Every node that occurs in some edge. */
  function Endpoints(edges: EdgeMap): set<Id>
  {
    (set p | p in edges.Keys :: p.0) + (set p | p in edges.Keys :: p.1)
  }

  lemma AdjInEndpoints(edges: EdgeMap, u: Id, v: Id)
    requires Adj(edges, u, v)
    ensures u in Endpoints(edges) && v in Endpoints(edges)
  {
    if (u, v) in edges {
      assert (u, v).0 == u && (u, v).1 == v;
    } else {
      assert (v, u).0 == v && (v, u).1 == u;
    }
  }

  /** The nodes reachable from `a` in at most `k` hops. */
  ghost function Ball(edges: EdgeMap, a: Id, k: nat): set<Id>
  {
    if k == 0 then {a}
    else Ball(edges, a, k - 1) + Neighbours(edges, Ball(edges, a, k - 1))
  }

  /** A non-empty node sequence whose consecutive nodes are adjacent. */
  predicate IsPath(edges: EdgeMap, p: seq<Id>)
  {
    |p| > 0 && forall i :: 0 <= i < |p| - 1 ==> Adj(edges, p[i], p[i + 1])
  }

  /** `p` is a path from `a` to `b`. */
  predicate PathBetween(edges: EdgeMap, p: seq<Id>, a: Id, b: Id)
  {
    IsPath(edges, p) && p[0] == a && p[|p| - 1] == b
  }

  lemma {:induction false} BallMonotone(edges: EdgeMap, a: Id, j: nat, k: nat)
    requires j <= k
    ensures Ball(edges, a, j) <= Ball(edges, a, k)
  {
    if j < k {
      BallMonotone(edges, a, j, k - 1);
    }
  }

  /** The end of a path of `n` nodes from `a` lies within `n - 1` hops of `a`. */
  lemma {:induction false} PathInBall(edges: EdgeMap, p: seq<Id>, a: Id)
    requires IsPath(edges, p) && p[0] == a
    ensures p[|p| - 1] in Ball(edges, a, |p| - 1)
  {
    if |p| > 1 {
      var q := p[..|p| - 1];
      assert IsPath(edges, q) by {
        forall i | 0 <= i < |q| - 1 ensures Adj(edges, q[i], q[i + 1]) {
          assert q[i] == p[i] && q[i + 1] == p[i + 1];
        }
      }
      PathInBall(edges, q, a);
      NeighbourOf(edges, Ball(edges, a, |p| - 2), p[|p| - 2], p[|p| - 1]);
    }
  }

  /** Once a ball has no new neighbours, no later ball grows beyond it. */
  lemma {:induction false} BallClosed(edges: EdgeMap, a: Id, d: nat, k: nat)
    requires Closed(edges, Ball(edges, a, d))
    ensures Ball(edges, a, k) <= Ball(edges, a, d)
  {
    if k <= d {
      BallMonotone(edges, a, k, d);
    } else {
      BallClosed(edges, a, d, k - 1);
      forall v | v in Neighbours(edges, Ball(edges, a, k - 1))
        ensures v in Ball(edges, a, d)
      {
        var u := NeighbourWitness(edges, Ball(edges, a, k - 1), v);
        NeighbourOf(edges, Ball(edges, a, d), u, v);
      }
    }
  }

  /** Every node of a ball, other than `a` itself, is an edge endpoint. */
  lemma {:induction false} BallBounded(edges: EdgeMap, a: Id, k: nat)
    ensures Ball(edges, a, k) <= {a} + Endpoints(edges)
  {
    if k > 0 {
      BallBounded(edges, a, k - 1);
      forall v | v in Neighbours(edges, Ball(edges, a, k - 1)) ensures v in Endpoints(edges) {
        var u := NeighbourWitness(edges, Ball(edges, a, k - 1), v);
        AdjInEndpoints(edges, u, v);
      }
    }
  }

  lemma ExtendPath(edges: EdgeMap, p: seq<Id>, a: Id, u: Id, v: Id)
    requires PathBetween(edges, p, a, u) && Adj(edges, u, v)
    ensures PathBetween(edges, p + [v], a, v)
  {
    var q := p + [v];
    forall i | 0 <= i < |q| - 1 ensures Adj(edges, q[i], q[i + 1]) {
      if i < |p| - 1 {
        assert q[i] == p[i] && q[i + 1] == p[i + 1];
      }
    }
  }

  /** Each node of `s` has in `paths` a path from `a` of at most `n` nodes. */
  predicate Reaches(edges: EdgeMap, a: Id, paths: map<Id, seq<Id>>, s: set<Id>, n: nat)
  {
    forall v :: v in s ==> v in paths && PathBetween(edges, paths[v], a, v) && |paths[v]| <= n
  }

  lemma ReachesAdd(edges: EdgeMap, a: Id, paths: map<Id, seq<Id>>, s: set<Id>, n: nat, v: Id, p: seq<Id>)
    requires Reaches(edges, a, paths, s, n)
    requires PathBetween(edges, p, a, v) && |p| <= n
    ensures Reaches(edges, a, paths[v := p], s + {v}, n)
  {
  }

  lemma ReachesUpdateOutside(edges: EdgeMap, a: Id, paths: map<Id, seq<Id>>, s: set<Id>, n: nat, v: Id, p: seq<Id>)
    requires Reaches(edges, a, paths, s, n) && v !in s
    ensures Reaches(edges, a, paths[v := p], s, n)
  {
  }

  lemma ReachesWeaken(edges: EdgeMap, a: Id, paths: map<Id, seq<Id>>, s: set<Id>, n: nat)
    requires Reaches(edges, a, paths, s, n)
    ensures Reaches(edges, a, paths, s, n + 1)
  {
  }

  /** Gives each node of `next` a path: the path of one of its visited neighbours, extended by one hop. */
  method ExtendPaths(edges: EdgeMap, a: Id, visited: set<Id>, next: set<Id>, paths: map<Id, seq<Id>>, ghost n: nat)
    returns (extended: map<Id, seq<Id>>)
    requires Reaches(edges, a, paths, visited, n)
    requires next <= Neighbours(edges, visited) && next !! visited
    ensures Reaches(edges, a, extended, visited + next, n + 1)
  {
    ReachesWeaken(edges, a, paths, visited, n);
    extended := paths;
    var todo := next;
    assert visited + (next - todo) == visited;
    while todo != {}
      invariant todo <= next
      invariant Reaches(edges, a, extended, visited + (next - todo), n + 1)
      invariant Reaches(edges, a, extended, visited, n)
      decreases |todo|
    {
      var v :| v in todo;
      ghost var w := NeighbourWitness(edges, visited, v);
      var u :| u in visited && Adj(edges, u, v);
      var p := extended[u];
      ExtendPath(edges, p, a, u, v);
      ReachesAdd(edges, a, extended, visited + (next - todo), n + 1, v, p + [v]);
      ReachesUpdateOutside(edges, a, extended, visited, n, v, p + [v]);
      TakeOne(visited, next, todo, v);
      extended := extended[v := p + [v]];
      todo := todo - {v};
    }
    assert next - todo == next;
  }

  lemma TakeOne(visited: set<Id>, next: set<Id>, todo: set<Id>, v: Id)
    requires v in todo && todo <= next
    ensures visited + (next - todo) + {v} == visited + (next - (todo - {v}))
  {
  }

  /** No path from `a` to `b` has fewer than `n` nodes. */
  ghost predicate NoShorterPath(edges: EdgeMap, a: Id, b: Id, n: nat)
  {
    forall q :: PathBetween(edges, q, a, b) ==> n <= |q|
  }

  /** `b` is within `n` hops of `a` (never, for a negative `n`). */
  ghost predicate Near(edges: EdgeMap, a: Id, b: Id, n: int)
  {
    n >= 0 && b in Ball(edges, a, n)
  }

  /** A ball is also a ball of every larger radius: being near is monotone. */
  lemma NearMonotone(edges: EdgeMap, a: Id, b: Id, m: int, n: int)
    requires m <= n && Near(edges, a, b, m)
    ensures Near(edges, a, b, n)
  {
    BallMonotone(edges, a, m, n);
  }

  /** `b` is not within `|p| - 2` hops of `a`: no path with fewer nodes than `p` reaches it. */
  ghost predicate Minimal(edges: EdgeMap, a: Id, b: Id, p: seq<Id>)
  {
    !Near(edges, a, b, |p| - 2)
  }

  /** No ball around `a`, however large, holds `b`. */
  ghost predicate Disconnected(edges: EdgeMap, a: Id, b: Id)
  {
    forall k: nat :: b !in Ball(edges, a, k)
  }

  /** No path from `a` ends at `b`. */
  ghost predicate Unreachable(edges: EdgeMap, a: Id, b: Id)
  {
    forall q :: IsPath(edges, q) && q[0] == a ==> q[|q| - 1] != b
  }

  /** When the ball around `a` stops growing without holding `b`, no ball and no path reaches `b`. */
  lemma NoPathFromClosedBall(edges: EdgeMap, a: Id, b: Id, d: nat)
    requires Closed(edges, Ball(edges, a, d))
    requires b !in Ball(edges, a, d)
    ensures Disconnected(edges, a, b)
    ensures Unreachable(edges, a, b)
  {
    forall k: nat ensures b !in Ball(edges, a, k) {
      BallClosed(edges, a, d, k);
    }
    forall q | IsPath(edges, q) && q[0] == a ensures q[|q| - 1] != b {
      PathInBall(edges, q, a);
    }
  }

  /** The first ball that holds `b` yields a path to `b` that no smaller ball could hold. */
  lemma FirstBall(edges: EdgeMap, a: Id, b: Id, d: nat, visited: set<Id>, paths: map<Id, seq<Id>>)
    requires visited == Ball(edges, a, d) && b in visited && (d > 0 ==> b !in Ball(edges, a, d - 1))
    requires Reaches(edges, a, paths, visited, d + 1)
    ensures b in paths && PathBetween(edges, paths[b], a, b) && Minimal(edges, a, b, paths[b])
  {
    var p := paths[b];
    if |p| >= 2 && b in Ball(edges, a, |p| - 2) {
      BallMonotone(edges, a, |p| - 2, d - 1);
    }
  }

  /** Any path whose end lies outside the ball one hop smaller has no shorter rival. */
  lemma MinimalIsShortest(edges: EdgeMap, a: Id, b: Id, p: seq<Id>)
    requires PathBetween(edges, p, a, b) && Minimal(edges, a, b, p)
    ensures NoShorterPath(edges, a, b, |p|)
  {
    forall q | PathBetween(edges, q, a, b) ensures |p| <= |q| {
      PathInBall(edges, q, a);
      if |q| < |p| {
        BallMonotone(edges, a, |q| - 1, |p| - 2);
      }
    }
  }

  /** One round of the search turns the visited ball into the next one. */
  lemma BallStep(edges: EdgeMap, a: Id, d: nat, visited: set<Id>)
    requires visited == Ball(edges, a, d)
    ensures visited + (Neighbours(edges, visited) - visited) == Ball(edges, a, d + 1)
  {
  }

  /** One round of the search reaches the next ball and leaves fewer nodes unvisited. */
  lemma Advance(edges: EdgeMap, a: Id, d: nat, visited: set<Id>, next: set<Id>, universe: set<Id>)
    requires visited == Ball(edges, a, d) && universe == {a} + Endpoints(edges)
    requires next == Neighbours(edges, visited) - visited && next != {}
    ensures visited + next == Ball(edges, a, d + 1) && visited + next <= universe
    ensures |universe - (visited + next)| < |universe - visited|
  {
    BallStep(edges, a, d, visited);
    BallBounded(edges, a, d + 1);
    Progress(universe, visited, next);
  }

  /** Adding a non-empty set of new elements inside a finite universe leaves fewer outside. */
  lemma Progress<T>(universe: set<T>, visited: set<T>, next: set<T>)
    requires visited + next <= universe && next !! visited && next != {}
    ensures |universe - (visited + next)| < |universe - visited|
  {
    var w :| w in next;
    assert w in universe - visited;
    assert universe - (visited + next) < universe - visited;
  }

  lemma EmptyDifference<T>(x: set<T>, y: set<T>)
    requires x - y == {}
    ensures x <= y
  {
    forall v | v in x ensures v in y {
      assert v !in x - y;
    }
  }

  /** How many nodes that a search from `a` could still reach lie outside `visited`. */
  ghost function Unvisited(edges: EdgeMap, a: Id, visited: set<Id>): nat
  {
    |({a} + Endpoints(edges)) - visited|
  }

  /** No node outside `s` is adjacent to a node of `s`. */
  predicate Closed(edges: EdgeMap, s: set<Id>)
  {
    Neighbours(edges, s) <= s
  }

  /**
   The state of the search after `d` rounds: the visited nodes are the ball
   of radius `d`, each has a path of at most `d + 1` nodes, and `b` was not
   in the previous ball.
   */
  ghost predicate Frontier(edges: EdgeMap, a: Id, b: Id, visited: set<Id>, paths: map<Id, seq<Id>>, d: nat)
  {
    visited == Ball(edges, a, d) && Reaches(edges, a, paths, visited, d + 1) &&
    (d > 0 ==> b !in Ball(edges, a, d - 1))
  }

  /** The search starts from the ball of radius 0, with the one-node path to `a`. */
  lemma Start(edges: EdgeMap, a: Id, b: Id)
    ensures Frontier(edges, a, b, {a}, map[a := [a]], 0)
  {
  }

  /**
   One round of the search: either the ball around `a` has stopped growing,
   or it grows by one hop and every new node gets a path.
   */
  method Round(edges: EdgeMap, a: Id, b: Id, visited: set<Id>, paths: map<Id, seq<Id>>, ghost d: nat)
    returns (closed: bool, visited': set<Id>, paths': map<Id, seq<Id>>)
    requires Frontier(edges, a, b, visited, paths, d) && b !in visited
    ensures closed ==> Closed(edges, visited)
    ensures !closed ==> Frontier(edges, a, b, visited', paths', d + 1)
    ensures !closed ==> Unvisited(edges, a, visited') < Unvisited(edges, a, visited)
  {
    ghost var universe := {a} + Endpoints(edges);
    var next := Neighbours(edges, visited) - visited;
    if next == {} {
      EmptyDifference(Neighbours(edges, visited), visited);
      return true, visited, paths;
    }
    paths' := ExtendPaths(edges, a, visited, next, paths, d + 1);
    Advance(edges, a, d, visited, next, universe);
    closed, visited' := false, visited + next;
  }

  /**
   Grows the ball around `a` one hop at a time until it holds `b` or stops
   growing, recording a path of at most `d + 1` nodes to each node reached.
   */
  method Explore(edges: EdgeMap, a: Id, b: Id) returns (visited: set<Id>, paths: map<Id, seq<Id>>, ghost d: nat)
    ensures Frontier(edges, a, b, visited, paths, d)
    ensures b !in visited ==> Closed(edges, visited)
  {
    visited := {a};
    paths := map[a := [a]];
    d := 0;
    Start(edges, a, b);
    var closed := false;
    while b !in visited && !closed
      invariant Frontier(edges, a, b, visited, paths, d)
      invariant closed ==> Closed(edges, visited)
      decreases Unvisited(edges, a, visited), !closed
    {
      var visited', paths';
      closed, visited', paths' := Round(edges, a, b, visited, paths, d);
      if !closed {
        visited, paths, d := visited', paths', d + 1;
      }
    }
  }

  /**
   Breadth-first search from `a` to `b` over the undirected view. A result
   is a path from `a` to `b` whose end is not within fewer hops of `a`; no
   result means no path from `a` ends at `b`.
   */
  method ShortestPath(edges: EdgeMap, a: Id, b: Id) returns (p: Option<seq<Id>>)
    ensures p.Some? ==> PathBetween(edges, p.value, a, b) && Minimal(edges, a, b, p.value)
    ensures p.None? ==> Disconnected(edges, a, b) && Unreachable(edges, a, b)
  {
    var visited, paths, d := Explore(edges, a, b);
    if b in visited {
      FirstBall(edges, a, b, d, visited, paths);
      p := Some(paths[b]);
    } else {
      NoPathFromClosedBall(edges, a, b, d);
      p := None;
    }
  }
}
