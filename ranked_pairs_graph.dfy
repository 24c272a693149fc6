/**
 * The graph of locked victories in ranked pairs: `graph[a]` is the set of
 * candidates `a` has a locked victory over. Reachability along locked
 * edges, the depth-first search that decides it, acyclicity, and the
 * sources (candidates without an incoming edge).
 */
module RankedPairsGraph {
  import opened Types
  import opened Seqs

  type Graph = map<CandidateId, set<CandidateId>>

  /** Consecutive candidates of `path` are joined by edges. */
  ghost predicate IsPath(g: Graph, path: seq<CandidateId>)
  {
    |path| >= 1 && forall i :: 0 <= i < |path| - 1 ==> path[i] in g && path[i + 1] in g[path[i]]
  }

  /** There is a path (possibly of no edges) from a to b. */
  ghost predicate Reaches(g: Graph, a: CandidateId, b: CandidateId)
  {
    exists path :: IsPath(g, path) && path[0] == a && path[|path| - 1] == b
  }

  /** No edge a → b can be followed back from b to a. */
  ghost predicate Acyclic(g: Graph)
  {
    forall a, b :: a in g && b in g[a] ==> !Reaches(g, b, a)
  }

  lemma {:induction false} ReachesSelf(g: Graph, a: CandidateId)
    ensures Reaches(g, a, a)
  {
    assert IsPath(g, [a]);
  }

  lemma {:induction false} ReachesStep(g: Graph, a: CandidateId, b: CandidateId, c: CandidateId)
    requires Reaches(g, a, b) && b in g && c in g[b]
    ensures Reaches(g, a, c)
  {
    var path :| IsPath(g, path) && path[0] == a && path[|path| - 1] == b;
    var longer := path + [c];
    assert forall i :: 0 <= i < |path| ==> longer[i] == path[i];
    assert IsPath(g, longer);
  }

  lemma {:induction false} ReachesTrans(g: Graph, a: CandidateId, b: CandidateId, c: CandidateId)
    requires Reaches(g, a, b) && Reaches(g, b, c)
    ensures Reaches(g, a, c)
  {
    var p :| IsPath(g, p) && p[0] == a && p[|p| - 1] == b;
    var q :| IsPath(g, q) && q[0] == b && q[|q| - 1] == c;
    var joined := p + q[1..];
    assert forall i :: 0 <= i < |p| ==> joined[i] == p[i];
    assert forall i :: |p| <= i < |joined| ==> joined[i] == q[i - |p| + 1];
    assert IsPath(g, joined);
  }

  /** The first edge of a path that leaves its start. */
  lemma {:induction false} FirstEdge(g: Graph, a: CandidateId, b: CandidateId)
    requires Reaches(g, a, b) && a != b
    ensures exists c :: a in g && c in g[a] && Reaches(g, c, b)
  {
    var p :| IsPath(g, p) && p[0] == a && p[|p| - 1] == b;
    var rest := p[1..];
    assert forall i :: 0 <= i < |rest| ==> rest[i] == p[i + 1];
    assert IsPath(g, rest);
    assert a in g && p[1] in g[a] && Reaches(g, p[1], b);
  }

  /** Everything reachable from inside a set closed under edges stays inside it. */
  lemma {:induction false} ClosedReach(g: Graph, s: set<CandidateId>, a: CandidateId, b: CandidateId)
    requires forall x, y :: x in s && x in g && y in g[x] ==> y in s
    requires a in s && Reaches(g, a, b)
    ensures b in s
  {
    var p :| IsPath(g, p) && p[0] == a && p[|p| - 1] == b;
    var i := 0;
    while i < |p| - 1
      invariant 0 <= i <= |p| - 1
      invariant p[i] in s
    {
      i := i + 1;
    }
  }

  /** Every candidate that occurs in the graph, at either end of an edge. */
  function Nodes(g: Graph): set<CandidateId>
  {
    g.Keys + set a, b | a in g && b in g[a] :: b
  }

  /** Adds the members of `s` on top of the stack, in some order. */
  method PushAll(stack: seq<CandidateId>, s: set<CandidateId>) returns (stack': seq<CandidateId>)
    ensures forall x :: x in stack' <==> x in stack || x in s
  {
    stack' := stack;
    var rest := s;
    while rest != {}
      invariant rest <= s
      invariant forall x :: x in stack' <==> x in stack || x in s - rest
      decreases |rest|
    {
      var x :| x in rest;
      stack' := stack' + [x];
      rest := rest - {x};
    }
  }

  /**
   * What the search keeps true: every candidate on the stack or visited is
   * reachable from `start`, `target` is never marked visited, and the
   * successors of visited candidates are visited or still on the stack.
   */
  ghost predicate Searching(g: Graph, target: CandidateId, start: CandidateId, universe: set<CandidateId>,
                            visited: set<CandidateId>, stack: seq<CandidateId>)
  {
    && visited <= universe
    && (forall x :: x in stack ==> x in universe && Reaches(g, start, x))
    && (forall x :: x in visited ==> Reaches(g, start, x))
    && target !in visited
    && (start in visited || start in stack)
    && (forall x, y :: x in visited && x in g && y in g[x] ==> y in visited || y in stack)
  }

  /**
   * One step of the search: pops a candidate; stops when it is the target,
   * skips it when already visited, otherwise marks it and pushes its
   * successors.
   */
  method SearchStep(g: Graph, target: CandidateId, start: CandidateId, ghost universe: set<CandidateId>,
                    visited: set<CandidateId>, stack: seq<CandidateId>)
    returns (found: bool, visited': set<CandidateId>, stack': seq<CandidateId>)
    requires universe == Nodes(g) + {start}
    requires Searching(g, target, start, universe, visited, stack) && stack != []
    ensures found ==> Reaches(g, start, target)
    ensures !found ==> Searching(g, target, start, universe, visited', stack')
    ensures !found ==> (visited' == visited && |stack'| < |stack|) || (visited < visited' <= universe)
  {
    var current := stack[|stack| - 1];
    assert current in stack;
    stack' := stack[..|stack| - 1];
    visited' := visited;
    assert forall x :: x in stack <==> x in stack' || x == current;
    if current == target {
      return true, visited', stack';
    }
    found := false;
    if current in visited {
      return;
    }
    visited' := visited + {current};
    if current in g {
      forall y | y in g[current]
        ensures Reaches(g, start, y) && y in universe
      {
        ReachesStep(g, start, current, y);
      }
      stack' := PushAll(stack', g[current]);
    }
  }

  /**
   * Locking `winner → loser` closes a cycle exactly when `loser` already
   * reaches `winner`: a depth-first search from `loser` with an explicit
   * stack and a visited set.
   */
  method WouldCreateCycle(g: Graph, winner: CandidateId, loser: CandidateId) returns (r: bool)
    ensures r <==> Reaches(g, loser, winner)
  {
    var visited: set<CandidateId> := {};
    var stack := [loser];
    ghost var universe := Nodes(g) + {loser};
    ReachesSelf(g, loser);
    while stack != []
      invariant Searching(g, winner, loser, universe, visited, stack)
      decreases universe - visited, |stack|
    {
      var found, visited', stack' := SearchStep(g, winner, loser, universe, visited, stack);
      if found {
        return true;
      }
      if visited' != visited {
        assert universe - visited' < universe - visited;
      }
      visited, stack := visited', stack';
    }
    SearchExhausted(g, winner, loser, universe, visited);
    return false;
  }

  /** An empty stack means the visited set is closed, so the target is out of reach. */
  lemma {:induction false} SearchExhausted(g: Graph, target: CandidateId, start: CandidateId, universe: set<CandidateId>,
                                           visited: set<CandidateId>)
    requires Searching(g, target, start, universe, visited, [])
    ensures !Reaches(g, start, target)
  {
    if Reaches(g, start, target) {
      ClosedReach(g, visited, start, target);
    }
  }

  /** The graph with the edge a → b added; a already has a row. */
  function AddEdge(g: Graph, a: CandidateId, b: CandidateId): (g': Graph)
    requires a in g
    ensures g'.Keys == g.Keys
  {
    g[a := g[a] + {b}]
  }

  /**
   * A path in the graph with w → l added either avoids the new edge, or
   * runs from its start to w and from l to its end in the old graph.
   */
  lemma {:induction false} AddEdgePath(g: Graph, w: CandidateId, l: CandidateId, path: seq<CandidateId>)
    requires w in g && IsPath(AddEdge(g, w, l), path)
    requires !Reaches(g, l, w)
    ensures Reaches(g, path[0], path[|path| - 1]) ||
      (Reaches(g, path[0], w) && Reaches(g, l, path[|path| - 1]))
    decreases |path|
  {
    var g' := AddEdge(g, w, l);
    if |path| == 1 {
      ReachesSelf(g, path[0]);
    } else {
      var init := path[..|path| - 1];
      var c, b := path[|path| - 2], path[|path| - 1];
      assert forall i :: 0 <= i < |init| ==> init[i] == path[i];
      assert IsPath(g', init);
      AddEdgePath(g, w, l, init);
      assert c in g' && b in g'[c];
      if c in g && b in g[c] {
        if Reaches(g, path[0], c) {
          ReachesStep(g, path[0], c, b);
        } else {
          ReachesStep(g, l, c, b);
        }
      } else {
        // the new edge: c is w and b is l
        ReachesSelf(g, l);
      }
    }
  }

  lemma {:induction false} AddEdgeReach(g: Graph, w: CandidateId, l: CandidateId, a: CandidateId, b: CandidateId)
    requires w in g && !Reaches(g, l, w)
    requires Reaches(AddEdge(g, w, l), a, b)
    ensures Reaches(g, a, b) || (Reaches(g, a, w) && Reaches(g, l, b))
  {
    var path :| IsPath(AddEdge(g, w, l), path) && path[0] == a && path[|path| - 1] == b;
    AddEdgePath(g, w, l, path);
  }

  /** Locking an edge whose loser does not reach its winner keeps the graph acyclic. */
  lemma {:induction false} AddEdgeAcyclic(g: Graph, w: CandidateId, l: CandidateId)
    requires w in g && Acyclic(g) && !Reaches(g, l, w)
    ensures Acyclic(AddEdge(g, w, l))
  {
    var g' := AddEdge(g, w, l);
    forall a, b | a in g' && b in g'[a]
      ensures !Reaches(g', b, a)
    {
      if Reaches(g', b, a) {
        AddEdgeReach(g, w, l, b, a);
        if a in g && b in g[a] {
          if !Reaches(g, b, a) {
            // b reaches w and l reaches a, so l reaches w through a → b
            ReachesStep(g, l, a, b);
            ReachesTrans(g, l, b, w);
          }
        }
      }
    }
  }

  /** In an acyclic graph two different candidates never reach each other both ways. */
  lemma {:induction false} NoTwoWayReach(g: Graph, x: CandidateId, d: CandidateId)
    requires Acyclic(g) && x != d
    requires Reaches(g, x, d)
    ensures !Reaches(g, d, x)
  {
    if Reaches(g, d, x) {
      FirstEdge(g, x, d);
      var c :| x in g && c in g[x] && Reaches(g, c, d);
      ReachesTrans(g, c, d, x);
    }
  }

  /**
   * Every non-empty set of candidates has a member that no other member of
   * the set reaches, when the graph is acyclic.
   */
  lemma {:induction false} MinimalExists(g: Graph, s: set<CandidateId>)
    requires Acyclic(g) && s != {}
    ensures exists m :: m in s && forall z :: z in s && Reaches(g, z, m) ==> z == m
    decreases s
  {
    var x :| x in s;
    if !forall z :: z in s && Reaches(g, z, x) ==> z == x {
      var d :| d in s && Reaches(g, d, x) && d != x;
      var s' := set y | y in s && Reaches(g, y, d);
      ReachesSelf(g, d);
      assert d in s';
      NoTwoWayReach(g, d, x);
      assert x !in s';
      assert s' < s;
      MinimalExists(g, s');
      var m :| m in s' && forall z :: z in s' && Reaches(g, z, m) ==> z == m;
      forall z | z in s && Reaches(g, z, m)
        ensures z == m
      {
        ReachesTrans(g, z, m, d);
      }
    }
  }

  /** The candidates with an incoming edge. */
  function Incoming(g: Graph): set<CandidateId>
  {
    set a, b | a in g && b in g[a] :: b
  }

  /** Gathers the targets of every row of the graph, row by row. */
  method CollectIncoming(g: Graph) returns (hasIncoming: set<CandidateId>)
    ensures hasIncoming == Incoming(g)
  {
    hasIncoming := {};
    var rows := g.Keys;
    while rows != {}
      invariant rows <= g.Keys
      invariant hasIncoming == set a, b | a in g.Keys - rows && b in g[a] :: b
      decreases |rows|
    {
      var a :| a in rows;
      hasIncoming := hasIncoming + g[a];
      rows := rows - {a};
    }
  }

  /** The candidates of `ids` outside `hasIncoming`, in declared order. */
  function Sources(ids: seq<CandidateId>, hasIncoming: set<CandidateId>): (sources: seq<CandidateId>)
    ensures forall c :: c in sources <==> c in ids && c !in hasIncoming
    ensures |sources| <= |ids|
  {
    if |ids| == 0 then []
    else
      var rest := Sources(ids[..|ids| - 1], hasIncoming);
      var last := ids[|ids| - 1];
      assert forall c :: c in ids <==> c in ids[..|ids| - 1] || c == last;
      if last in hasIncoming then rest else rest + [last]
  }

  /**
   * An acyclic graph whose rows are exactly the candidates has a source
   * among the candidates whenever there is a candidate.
   */
  lemma {:induction false} SourceExists(ids: seq<CandidateId>, g: Graph)
    requires Acyclic(g) && g.Keys == ToSet(ids) && |ids| > 0
    ensures |Sources(ids, Incoming(g))| > 0
  {
    assert ids[0] in ToSet(ids);
    MinimalExists(g, ToSet(ids));
    var m :| m in ToSet(ids) && forall z :: z in ToSet(ids) && Reaches(g, z, m) ==> z == m;
    if m in Incoming(g) {
      var a :| a in g && m in g[a];
      ReachesSelf(g, a);
      ReachesStep(g, a, a, m);
    }
    assert m in Sources(ids, Incoming(g));
  }
}
