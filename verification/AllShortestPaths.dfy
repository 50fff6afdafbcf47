/** All minimum-hop paths: a level-synchronous search that keeps every parent, then an enumeration of the parent DAG. */
module AllShortestPaths {
  import opened Prelude
  import opened Bytes
  import opened Hops

  // ===== Levels =====

  /** The parents of `v` are exactly its neighbours one level up, each once. */
  ghost predicate ParentsExact(scan: Neighbors, depth: map<int, nat>, parents: map<int, seq<int>>, v: int)
    requires v in depth
  {
    && v in parents && parents[v] != [] && NoDup(parents[v])
    && forall u :: u in parents[v] <==> u in depth && depth[u] + 1 == depth[v] && Adjacent(scan, u, v)
  }

  ghost function Above(depth: map<int, nat>, d: nat): set<int> {
    set v | v in depth && depth[v] < d
  }

  /** All levels up to `d` are complete, and `frontier` is the last of them. */
  ghost predicate LevelsOk(scan: Neighbors, start: int, depth: map<int, nat>, parents: map<int, seq<int>>,
                           d: nat, frontier: seq<int>) {
    && start in depth && depth[start] == 0 && start !in parents && parents.Keys <= depth.Keys
    && NoDup(frontier) && (forall v :: v in frontier <==> v in depth && depth[v] == d)
    && (forall v :: v in depth ==> depth[v] <= d)
    && (forall v :: v in depth && v != start ==> ParentsExact(scan, depth, parents, v))
    && Expanded(scan, depth, Above(depth, d))
  }

  /** While level `d` is being expanded: `edges` are the hops out of it that have been taken. */
  ghost predicate MidLevel(scan: Neighbors, start: int, depth: map<int, nat>, parents: map<int, seq<int>>,
                           d: nat, next: seq<int>, edges: set<(int, int)>) {
    && start in depth && depth[start] == 0 && start !in parents && parents.Keys <= depth.Keys
    && NoDup(next) && (forall v :: v in next <==> v in depth && depth[v] == d + 1)
    && (forall v :: v in depth ==> depth[v] <= d + 1)
    && (forall v :: v in depth && v != start && depth[v] <= d ==> ParentsExact(scan, depth, parents, v))
    && (forall v :: v in depth && depth[v] == d + 1 ==> ParentsSoFar(parents, edges, v))
    && (forall e :: e in edges ==> TakenHop(scan, depth, d, e))
    && Expanded(scan, depth, Above(depth, d))
  }

  ghost predicate ParentsSoFar(parents: map<int, seq<int>>, edges: set<(int, int)>, v: int) {
    v in parents && parents[v] != [] && NoDup(parents[v]) && forall u :: u in parents[v] <==> (u, v) in edges
  }

  ghost predicate TakenHop(scan: Neighbors, depth: map<int, nat>, d: nat, e: (int, int)) {
    && e.0 in depth && depth[e.0] == d && Adjacent(scan, e.0, e.1)
    && e.1 in depth && depth[e.1] <= d + 1
  }

  /** What one neighbour does to the maps. */
  datatype Levels = Levels(depth: map<int, nat>, parents: map<int, seq<int>>, next: seq<int>)

  function Take(l: Levels, d: nat, u: int, v: int): Levels {
    if v !in l.depth then Levels(l.depth[v := d + 1], l.parents[v := [u]], l.next + [v])
    else if l.depth[v] == d + 1 then
      l.(parents := l.parents[v := (if v in l.parents then l.parents[v] else []) + [u]])
    else l
  }

  lemma TakeNew(scan: Neighbors, start: int, l: Levels, d: nat, edges: set<(int, int)>, u: int, v: int)
    requires MidLevel(scan, start, l.depth, l.parents, d, l.next, edges)
    requires u in l.depth && l.depth[u] == d && Adjacent(scan, u, v) && v !in l.depth
    ensures MidLevel(scan, start, l.depth[v := d + 1], l.parents[v := [u]], d, l.next + [v], edges + {(u, v)})
  {
    var depth, parents := l.depth[v := d + 1], l.parents[v := [u]];
    forall x | x in depth && x != start && depth[x] <= d ensures ParentsExact(scan, depth, parents, x) {
      assert ParentsExact(scan, l.depth, l.parents, x);
    }
    forall x | x in depth && depth[x] == d + 1 ensures ParentsSoFar(parents, edges + {(u, v)}, x) {
      if x != v {
        assert ParentsSoFar(l.parents, edges, x);
      } else {
        forall e | e in edges ensures e.1 != v { assert TakenHop(scan, l.depth, d, e); }
      }
    }
    forall e | e in edges + {(u, v)} ensures TakenHop(scan, depth, d, e) {
      if e != (u, v) { assert TakenHop(scan, l.depth, d, e); }
    }
    KnownStayExpanded(scan, l.depth, d, v);
  }

  lemma KnownStayExpanded(scan: Neighbors, depth: map<int, nat>, d: nat, v: int)
    requires Expanded(scan, depth, Above(depth, d)) && v !in depth
    ensures Expanded(scan, depth[v := d + 1], Above(depth[v := d + 1], d))
  {
    var depth' := depth[v := d + 1];
    forall x | x in Above(depth', d) ensures ExpandedAt(scan, depth', x) {
      assert x in Above(depth, d);
      assert ExpandedAt(scan, depth, x);
    }
  }

  lemma TakeAgain(scan: Neighbors, start: int, l: Levels, d: nat, edges: set<(int, int)>, u: int, v: int)
    requires MidLevel(scan, start, l.depth, l.parents, d, l.next, edges)
    requires u in l.depth && l.depth[u] == d && Adjacent(scan, u, v) && (u, v) !in edges
    requires v in l.depth && l.depth[v] == d + 1
    ensures v in l.parents
    ensures MidLevel(scan, start, l.depth, l.parents[v := l.parents[v] + [u]], d, l.next, edges + {(u, v)})
  {
    assert ParentsSoFar(l.parents, edges, v);
    var parents := l.parents[v := l.parents[v] + [u]];
    forall x | x in l.depth && x != start && l.depth[x] <= d ensures ParentsExact(scan, l.depth, parents, x) {
      assert ParentsExact(scan, l.depth, l.parents, x);
    }
    forall x | x in l.depth && l.depth[x] == d + 1 ensures ParentsSoFar(parents, edges + {(u, v)}, x) {
      assert ParentsSoFar(l.parents, edges, x);
    }
    assert TakenHop(scan, l.depth, d, (u, v));
  }

  lemma TakeBack(scan: Neighbors, start: int, l: Levels, d: nat, edges: set<(int, int)>, u: int, v: int)
    requires MidLevel(scan, start, l.depth, l.parents, d, l.next, edges)
    requires u in l.depth && l.depth[u] == d && Adjacent(scan, u, v)
    requires v in l.depth && l.depth[v] <= d
    ensures MidLevel(scan, start, l.depth, l.parents, d, l.next, edges + {(u, v)})
  {
    assert TakenHop(scan, l.depth, d, (u, v));
    forall x | x in l.depth && l.depth[x] == d + 1 ensures ParentsSoFar(l.parents, edges + {(u, v)}, x) {
      assert ParentsSoFar(l.parents, edges, x);
    }
  }

  lemma TakeKeeps(scan: Neighbors, start: int, l: Levels, d: nat, edges: set<(int, int)>, u: int, v: int)
    requires MidLevel(scan, start, l.depth, l.parents, d, l.next, edges)
    requires u in l.depth && l.depth[u] == d && Adjacent(scan, u, v) && (u, v) !in edges
    ensures var l' := Take(l, d, u, v);
            MidLevel(scan, start, l'.depth, l'.parents, d, l'.next, edges + {(u, v)}) && u in l'.depth &&
              l'.depth[u] == d
  {
    if v !in l.depth {
      TakeNew(scan, start, l, d, edges, u, v);
    } else if l.depth[v] == d + 1 {
      TakeAgain(scan, start, l, d, edges, u, v);
    } else {
      TakeBack(scan, start, l, d, edges, u, v);
    }
  }

  lemma LevelBegins(scan: Neighbors, start: int, depth: map<int, nat>, parents: map<int, seq<int>>, d: nat,
                    frontier: seq<int>)
    requires LevelsOk(scan, start, depth, parents, d, frontier)
    ensures MidLevel(scan, start, depth, parents, d, [], {})
  {
  }

  /** All hops out of level `d` have been taken. */
  ghost predicate LevelTaken(scan: Neighbors, depth: map<int, nat>, d: nat, edges: set<(int, int)>) {
    forall u :: u in depth && depth[u] == d ==> TakenFrom(scan, u, edges)
  }

  ghost predicate TakenFrom(scan: Neighbors, u: int, edges: set<(int, int)>) {
    scan(u).Some? && forall v :: v in scan(u).value ==> (u, v) in edges
  }

  lemma LevelEnds(scan: Neighbors, start: int, l: Levels, d: nat, edges: set<(int, int)>)
    requires MidLevel(scan, start, l.depth, l.parents, d, l.next, edges) && LevelTaken(scan, l.depth, d, edges)
    ensures LevelsOk(scan, start, l.depth, l.parents, d + 1, l.next)
  {
    forall v | v in l.depth && v != start ensures ParentsExact(scan, l.depth, l.parents, v) {
      if l.depth[v] == d + 1 {
        assert ParentsSoFar(l.parents, edges, v);
        forall u ensures u in l.parents[v] <==> u in l.depth && l.depth[u] + 1 == l.depth[v] && Adjacent(scan, u, v) {
          if (u, v) in edges {
            assert TakenHop(scan, l.depth, d, (u, v));
          } else if u in l.depth && l.depth[u] == d {
            assert TakenFrom(scan, u, edges);
          }
        }
      }
    }
    forall u | u in Above(l.depth, d + 1) ensures ExpandedAt(scan, l.depth, u) {
      if l.depth[u] < d {
        assert u in Above(l.depth, d);
      } else {
        assert TakenFrom(scan, u, edges);
        forall v | v in scan(u).value ensures v in l.depth && l.depth[v] <= d + 1 {
          assert Adjacent(scan, u, v);
          assert TakenHop(scan, l.depth, d, (u, v));
        }
      }
    }
  }

  /** The hops out of `u` have been taken, and nothing else has changed. */
  ghost predicate Advanced(scan: Neighbors, depth: map<int, nat>, depth': map<int, nat>,
                           edges: set<(int, int)>, edges': set<(int, int)>, d: nat, u: int) {
    && TakenFrom(scan, u, edges') && edges <= edges' && (forall e :: e in edges' ==> e in edges || e.0 == u)
    && (forall v :: v in depth ==> v in depth' && depth'[v] == depth[v])
    && (forall v :: v in depth' && v !in depth ==> depth'[v] == d + 1)
    && (forall v :: v in depth'.Keys ==> v in depth.Keys || Adjacent(scan, u, v))
  }

  /** The loop over the neighbours of one frontier vertex. */
  ghost predicate NoneTaken(edges: set<(int, int)>, u: int) {
    forall v :: (u, v) !in edges
  }

  method TakeAll(scan: Neighbors, ghost start: int, target: int, l0: Levels, d: nat, u: int, neighbors: seq<int>,
                 found0: bool, ghost edges0: set<(int, int)>)
      returns (l: Levels, found: bool, ghost edges: set<(int, int)>)
    requires MidLevel(scan, start, l0.depth, l0.parents, d, l0.next, edges0)
    requires u in l0.depth && l0.depth[u] == d && scan(u) == Some(neighbors) && NoDup(neighbors)
    requires NoneTaken(edges0, u)
    requires found0 <==> target in l0.depth
    ensures MidLevel(scan, start, l.depth, l.parents, d, l.next, edges)
    ensures Advanced(scan, l0.depth, l.depth, edges0, edges, d, u)
    ensures found <==> target in l.depth
  {
    l, found, edges := l0, found0, edges0;
    hide MidLevel;
    var i := 0;
    while i < |neighbors|
      invariant 0 <= i <= |neighbors|
      invariant MidLevel(scan, start, l.depth, l.parents, d, l.next, edges)
      invariant u in l.depth && l.depth[u] == d
      invariant edges0 <= edges && (forall e :: e in edges ==> e in edges0 || e.0 == u)
      invariant forall v :: (u, v) in edges <==> v in neighbors[..i]
      invariant forall v :: v in l0.depth ==> v in l.depth && l.depth[v] == l0.depth[v]
      invariant forall v :: v in l.depth && v !in l0.depth ==> l.depth[v] == d + 1
      invariant forall v :: v in l.depth.Keys ==> v in l0.depth.Keys || Adjacent(scan, u, v)
      invariant found <==> target in l.depth
    {
      var v := neighbors[i];
      assert Adjacent(scan, u, v) && v !in neighbors[..i];
      TakeKeeps(scan, start, l, d, edges, u, v);
      if v !in l.depth && v == target {
        found := true;
      }
      l, edges := Take(l, d, u, v), edges + {(u, v)};
      assert neighbors[..i + 1] == neighbors[..i] + [v];
      i := i + 1;
    }
    assert neighbors[..i] == neighbors;
  }

  // ===== Depth is distance =====

  /** A vertex at depth `n` is reached by some path of `n` hops. */
  lemma {:induction false} DepthIsReached(scan: Neighbors, start: int, depth: map<int, nat>,
                                          parents: map<int, seq<int>>,
                                          v: int) returns (p: seq<int>)
    requires start in depth && depth[start] == 0 && v in depth
    requires forall x :: x in depth && x != start ==> x in parents && parents[x] != []
    requires forall x, u :: x in depth && x != start && u in parents[x] ==>
               u in depth && depth[u] + 1 == depth[x] && Adjacent(scan, u, x)
    ensures Joins(scan, p, start, v) && |p| == depth[v] + 1
    decreases depth[v]
  {
    if v == start {
      p := [start];
    } else {
      var u := parents[v][0];
      p := DepthIsReached(scan, start, depth, parents, u);
      AppendHop(scan, p, start, u, v);
      p := p + [v];
    }
  }

  lemma KnownIsReached(scan: Neighbors, start: int, depth: map<int, nat>, parents: map<int, seq<int>>,
                       d: nat, next: seq<int>, edges: set<(int, int)>, v: int) returns (p: seq<int>)
    requires MidLevel(scan, start, depth, parents, d, next, edges) && v in depth
    ensures Joins(scan, p, start, v) && |p| == depth[v] + 1
  {
    forall x | x in depth && x != start
      ensures x in parents && parents[x] != []
      ensures forall u :: u in parents[x] ==> u in depth && depth[u] + 1 == depth[x] && Adjacent(scan, u, x)
    {
      if depth[x] <= d {
        assert ParentsExact(scan, depth, parents, x);
      } else {
        assert ParentsSoFar(parents, edges, x);
        forall u | u in parents[x] ensures u in depth && depth[u] + 1 == depth[x] && Adjacent(scan, u, x) {
          assert TakenHop(scan, depth, d, (u, x));
        }
      }
    }
    p := DepthIsReached(scan, start, depth, parents, v);
  }

  /** A path of at most `d` hops ends in a known vertex, no deeper than the path is long. */
  lemma ShortPathsEndKnown(scan: Neighbors, start: int, depth: map<int, nat>, parents: map<int, seq<int>>,
                           d: nat, frontier: seq<int>, p: seq<int>)
    requires LevelsOk(scan, start, depth, parents, d, frontier) && IsPath(scan, p) && p[0] == start
    ensures |p| - 1 <= d ==> p[|p| - 1] in depth
    ensures p[|p| - 1] in depth ==> depth[p[|p| - 1]] <= |p| - 1
    ensures frontier == [] ==> p[|p| - 1] in depth
  {
    var j := Leaves(scan, depth, Above(depth, d), start, p);
    assert p[j] in Above(depth, d) || p[j] in frontier;
    var last := p[|p| - 1];
    if j < |p| - 1 && last in depth {
      assert depth[last] <= d == depth[p[j]];
    }
  }

  // ===== The level loop =====

  ghost predicate Distinct(scan: Neighbors) {
    forall u :: scan(u).Some? ==> NoDup(scan(u).value)
  }

  /** Vertices expanded so far: all of them are at depth `d` or less, and the target is not. */
  lemma ExpandedAreAhead(scan: Neighbors, start: int, target: int, l: Levels, d: nat, edges: set<(int, int)>,
                         us: set<int>, maxSteps: nat)
    requires MidLevel(scan, start, l.depth, l.parents, d, l.next, edges) && d < maxSteps
    requires NoneWithin(scan, start, target, d)
    requires forall u :: u in us ==> u in l.depth && l.depth[u] <= d
    ensures AllAhead(scan, start, target, maxSteps, us)
  {
    forall u | u in us ensures Ahead(scan, start, target, maxSteps, u) {
      var p := KnownIsReached(scan, start, l.depth, l.parents, d, l.next, edges, u);
      assert NoneWithin(scan, start, target, |p| - 1);
    }
  }

  lemma TargetIsFurther(scan: Neighbors, start: int, depth: map<int, nat>, parents: map<int, seq<int>>, d: nat,
                        frontier: seq<int>, target: int)
    requires LevelsOk(scan, start, depth, parents, d, frontier) && target !in depth
    ensures NoneWithin(scan, start, target, d)
  {
    forall p | Joins(scan, p, start, target) ensures |p| - 1 > d {
      ShortPathsEndKnown(scan, start, depth, parents, d, frontier, p);
    }
  }

  method ExpandLevel(scan: Neighbors, start: int, target: int, depth0: map<int, nat>, parents0: map<int, seq<int>>,
                     d: nat, frontier: seq<int>, ghost maxSteps: nat, maxNodes: nat, nodes0: nat,
                     ghost us0: set<int>, ghost universe: set<int>)
      returns (failure: Option<Failure>, l: Levels, found: bool, nodes: nat, ghost us: set<int>)
    requires LevelsOk(scan, start, depth0, parents0, d, frontier) && Distinct(scan)
    requires target !in depth0 && d < maxSteps && depth0.Keys <= universe && Contains(scan, universe)
    requires us0 == Above(depth0, d) && |us0| == nodes0 && (maxNodes > 0 ==> nodes0 <= maxNodes)
    ensures failure.None? && maxNodes > 0 ==> nodes <= maxNodes
    ensures failure.None? ==>
              && LevelsOk(scan, start, l.depth, l.parents, d + 1, l.next)
              && us == Above(l.depth, d + 1) && |us| == nodes && l.depth.Keys <= universe
              && (found <==> target in l.depth)
    ensures failure.None? ==> Above(l.depth, d + 1) == Above(depth0, d + 1)
    ensures failure.Some? ==> StoppedBy(scan, start, target, maxSteps, maxNodes, failure.value)
  {
    hide LevelsOk, MidLevel, Contains, StoppedBy, NoneWithin, Distinct, NoDup, Reached, Advanced, Above, NoneTaken;
    failure, l, found, nodes, us := None, Levels(depth0, parents0, []), false, nodes0, us0;
    ghost var edges: set<(int, int)> := {};
    LevelBegins(scan, start, depth0, parents0, d, frontier);
    FrontierIsLevel(scan, start, depth0, parents0, d, frontier);
    TargetIsFurther(scan, start, depth0, parents0, d, frontier, target);
    var i := 0;
    assert MidState(scan, start, target, depth0, l, d, frontier, i, edges, us0, us, nodes, found, universe);
    hide MidState;
    while i < |frontier|
      invariant 0 <= i <= |frontier|
      invariant MidState(scan, start, target, depth0, l, d, frontier, i, edges, us0, us, nodes, found, universe)
      invariant maxNodes > 0 ==> nodes <= maxNodes
    {
      if maxNodes > 0 && nodes >= maxNodes {
        OverBudget(scan, start, target, depth0, l, d, frontier, i, edges, us0, us, nodes, found, universe, maxSteps,
                   maxNodes);
        failure := Some(NodeBudget);
        return;
      }
      nodes := nodes + 1;
      var scanned := scan(frontier[i]);
      if scanned.None? {
        BadEdge(scan, start, target, depth0, l, d, frontier, i, edges, us0, us, nodes - 1, found, universe, maxSteps,
                maxNodes);
        failure := Some(InvalidEdge);
        return;
      }
      l, found, edges := ExpandVertex(scan, start, target, depth0, l, d, frontier, i, scanned.value, edges, us0, us,
                                      nodes - 1, found, universe);
      us, i := us + {frontier[i]}, i + 1;
    }
    LevelIsDone(scan, start, target, depth0, l, d, frontier, edges, us0, us, nodes, found, universe);
  }

  /** The first `i` vertices of the frontier have been expanded, and counted. */
  ghost predicate MidState(scan: Neighbors, start: int, target: int, depth0: map<int, nat>, l: Levels, d: nat,
                           frontier: seq<int>, i: nat, edges: set<(int, int)>, us0: set<int>, us: set<int>, nodes: nat,
                           found: bool, universe: set<int>)
    requires i <= |frontier|
  {
    && MidLevel(scan, start, l.depth, l.parents, d, l.next, edges)
    && Reached(scan, depth0, l.depth, d, frontier, i, edges, us0, us)
    && |us| == nodes && l.depth.Keys <= universe && (found <==> target in l.depth)
  }

  method ExpandVertex(scan: Neighbors, ghost start: int, target: int, ghost depth0: map<int, nat>, l0: Levels, d: nat,
                      frontier: seq<int>, i: nat, neighbors: seq<int>, ghost edges0: set<(int, int)>,
                      ghost us0: set<int>, ghost us: set<int>, ghost nodes: nat, found0: bool, ghost universe: set<int>)
      returns (l: Levels, found: bool, ghost edges: set<(int, int)>)
    requires i < |frontier| && Contains(scan, universe) && Distinct(scan) && scan(frontier[i]) == Some(neighbors)
    requires MidState(scan, start, target, depth0, l0, d, frontier, i, edges0, us0, us, nodes, found0, universe)
    ensures MidState(scan, start, target, depth0, l, d, frontier, i + 1, edges, us0, us + {frontier[i]}, nodes + 1,
                     found, universe)
  {
    hide MidLevel, Reached, Contains, Distinct, NoDup, Advanced, NoneTaken;
    NextVertex(scan, depth0, l0.depth, d, frontier, i, edges0, us0, us);
    DistinctAt(scan, frontier[i]);
    l, found, edges := TakeAll(scan, start, target, l0, d, frontier[i], neighbors, found0, edges0);
    ReachedNext(scan, depth0, l0.depth, l.depth, d, frontier, i, edges0, edges, us0, us, universe);
  }

  lemma LevelIsDone(scan: Neighbors, start: int, target: int, depth0: map<int, nat>, l: Levels, d: nat,
                    frontier: seq<int>, edges: set<(int, int)>, us0: set<int>, us: set<int>, nodes: nat, found: bool,
                    universe: set<int>)
    requires MidState(scan, start, target, depth0, l, d, frontier, |frontier|, edges, us0, us, nodes, found, universe)
    ensures LevelsOk(scan, start, l.depth, l.parents, d + 1, l.next)
    ensures us == Above(l.depth, d + 1) == Above(depth0, d + 1)
    ensures |us| == nodes && l.depth.Keys <= universe && (found <==> target in l.depth)
  {
    hide LevelsOk, MidLevel, Reached, LevelTaken, Above;
    AllTaken(scan, depth0, l.depth, d, frontier, edges, us0, us);
    LevelEnds(scan, start, l, d, edges);
  }

  /** The first `i` frontier vertices have been expanded. */
  ghost predicate Reached(scan: Neighbors, depth0: map<int, nat>, depth: map<int, nat>, d: nat, frontier: seq<int>,
                          i: nat,
                          edges: set<(int, int)>, us0: set<int>, us: set<int>)
    requires i <= |frontier|
  {
    && us0 == Above(depth0, d) && (forall v :: v in frontier <==> v in depth0 && depth0[v] == d)
    && (forall k :: 0 <= k < |frontier| ==> frontier[k] !in frontier[..k])
    && (forall v :: v in depth0 ==> v in depth && depth[v] == depth0[v] <= d)
    && (forall v :: v in depth && v !in depth0 ==> depth[v] == d + 1)
    && (forall k :: 0 <= k < i ==> TakenFrom(scan, frontier[k], edges))
    && (forall e :: e in edges ==> e.0 in frontier[..i])
    && us == us0 + (set x | x in frontier[..i])
  }

  lemma NextIsFresh(scan: Neighbors, depth0: map<int, nat>, depth: map<int, nat>, d: nat, frontier: seq<int>, i: nat,
                    edges: set<(int, int)>, us0: set<int>, us: set<int>)
    requires i < |frontier| && Reached(scan, depth0, depth, d, frontier, i, edges, us0, us)
    ensures frontier[i] in depth && depth[frontier[i]] == d && frontier[i] !in us
    ensures NoneTaken(edges, frontier[i])
    ensures forall u :: u in us + {frontier[i]} ==> u in depth && depth[u] <= d
  {
    var u := frontier[i];
    assert u in frontier;
    assert u in depth0 && depth0[u] == d;
  }

  /** The next vertex to expand is one of level `d`, and new. */
  lemma NextVertex(scan: Neighbors, depth0: map<int, nat>, depth: map<int, nat>, d: nat, frontier: seq<int>, i: nat,
                   edges: set<(int, int)>, us0: set<int>, us: set<int>)
    requires i < |frontier| && Reached(scan, depth0, depth, d, frontier, i, edges, us0, us)
    ensures frontier[i] in depth && depth[frontier[i]] == d && frontier[i] !in us && NoneTaken(edges, frontier[i])
  {
    NextIsFresh(scan, depth0, depth, d, frontier, i, edges, us0, us);
  }

  lemma ReachedNext(scan: Neighbors, depth0: map<int, nat>, depth: map<int, nat>, depth': map<int, nat>, d: nat,
                    frontier: seq<int>, i: nat, edges: set<(int, int)>, edges': set<(int, int)>, us0: set<int>,
                    us: set<int>, universe: set<int>)
    requires i < |frontier| && Reached(scan, depth0, depth, d, frontier, i, edges, us0, us)
    requires Advanced(scan, depth, depth', edges, edges', d, frontier[i])
    requires depth.Keys <= universe && frontier[i] in depth && Contains(scan, universe)
    ensures depth'.Keys <= universe
    ensures Reached(scan, depth0, depth', d, frontier, i + 1, edges', us0, us + {frontier[i]})
  {
    assert frontier[..i + 1] == frontier[..i] + [frontier[i]];
    StaysInUniverse(scan, universe, frontier[i], depth.Keys, depth'.Keys);
  }

  lemma FrontierIsLevel(scan: Neighbors, start: int, depth: map<int, nat>, parents: map<int, seq<int>>, d: nat,
                        frontier: seq<int>)
    requires LevelsOk(scan, start, depth, parents, d, frontier)
    ensures Reached(scan, depth, depth, d, frontier, 0, {}, Above(depth, d), Above(depth, d))
  {
  }

  lemma DistinctAt(scan: Neighbors, u: int)
    requires Distinct(scan) && scan(u).Some?
    ensures NoDup(scan(u).value)
  {
  }

  lemma AllTaken(scan: Neighbors, depth0: map<int, nat>, depth: map<int, nat>, d: nat, frontier: seq<int>,
                 edges: set<(int, int)>, us0: set<int>, us: set<int>)
    requires Reached(scan, depth0, depth, d, frontier, |frontier|, edges, us0, us)
    ensures LevelTaken(scan, depth, d, edges) && us == Above(depth, d + 1) == Above(depth0, d + 1)
  {
    assert frontier[..|frontier|] == frontier;
    forall u | u in depth && depth[u] == d ensures TakenFrom(scan, u, edges) {
      assert u in frontier;
    }
    forall v ensures v in us <==> v in Above(depth, d + 1) {
      assert v in us <==> v in Above(depth0, d) || v in frontier;
    }
    assert forall v :: v in Above(depth0, d + 1) ==> v in us;
    assert forall v :: v in us ==> v in depth0 && depth0[v] <= d;
  }

  lemma OverBudget(scan: Neighbors, start: int, target: int, depth0: map<int, nat>, l: Levels, d: nat,
                   frontier: seq<int>, i: nat, edges: set<(int, int)>, us0: set<int>, us: set<int>, nodes: nat,
                   found: bool, universe: set<int>, maxSteps: nat, maxNodes: nat)
    requires i < |frontier| && d < maxSteps && NoneWithin(scan, start, target, d) && 0 < maxNodes <= nodes
    requires MidState(scan, start, target, depth0, l, d, frontier, i, edges, us0, us, nodes, found, universe)
    ensures StoppedBy(scan, start, target, maxSteps, maxNodes, NodeBudget)
  {
    hide MidLevel, Reached, NoneWithin, NoneTaken;
    NextIsFresh(scan, depth0, l.depth, d, frontier, i, edges, us0, us);
    ExpandedAreAhead(scan, start, target, l, d, edges, us + {frontier[i]}, maxSteps);
  }

  lemma BadEdge(scan: Neighbors, start: int, target: int, depth0: map<int, nat>, l: Levels, d: nat,
                frontier: seq<int>, i: nat, edges: set<(int, int)>, us0: set<int>, us: set<int>, nodes: nat,
                found: bool, universe: set<int>, maxSteps: nat, maxNodes: nat)
    requires i < |frontier| && d < maxSteps && NoneWithin(scan, start, target, d) && scan(frontier[i]).None?
    requires MidState(scan, start, target, depth0, l, d, frontier, i, edges, us0, us, nodes, found, universe)
    ensures StoppedBy(scan, start, target, maxSteps, maxNodes, InvalidEdge)
  {
    hide MidLevel, Reached, NoneWithin, NoneTaken;
    NextVertex(scan, depth0, l.depth, d, frontier, i, edges, us0, us);
    ExpandedAreAhead(scan, start, target, l, d, edges, {frontier[i]}, maxSteps);
  }

  // ----- What a finished search has expanded -----

  lemma AheadIsExpanded(scan: Neighbors, start: int, depth: map<int, nat>, parents: map<int, seq<int>>, d: nat,
                        frontier: seq<int>, target: int, maxSteps: nat, u: int)
    requires LevelsOk(scan, start, depth, parents, d, frontier)
    requires frontier == [] || d >= maxSteps || (target in depth && depth[target] == d)
    requires Ahead(scan, start, target, maxSteps, u)
    ensures u in Above(depth, d)
  {
    var p :| Joins(scan, p, start, u) && |p| - 1 < maxSteps && NoneWithin(scan, start, target, |p| - 1);
    ShortPathsEndKnown(scan, start, depth, parents, d, frontier, p);
    if target in depth {
      var q := LevelIsReached(scan, start, depth, parents, d, frontier, target);
    }
    if frontier == [] { assert u !in frontier; }
  }

  /** A search that was not stopped had nothing ahead that could stop it. */
  lemma NothingAheadFails(scan: Neighbors, start: int, depth: map<int, nat>, parents: map<int, seq<int>>, d: nat,
                          frontier: seq<int>, target: int, maxSteps: nat, maxNodes: nat)
    requires LevelsOk(scan, start, depth, parents, d, frontier)
    requires frontier == [] || d >= maxSteps || (target in depth && depth[target] == d)
    requires maxNodes > 0 ==> |Above(depth, d)| <= maxNodes
    ensures forall e :: !StoppedBy(scan, start, target, maxSteps, maxNodes, e)
  {
    var done := Above(depth, d);
    forall u | Ahead(scan, start, target, maxSteps, u) ensures u in done && scan(u).Some? {
      AheadIsExpanded(scan, start, depth, parents, d, frontier, target, maxSteps, u);
      assert u in done ==> ExpandedAt(scan, depth, u);
    }
    forall us: set<int> | AllAhead(scan, start, target, maxSteps, us) ensures |us| <= |done| {
      forall u | u in us ensures u in done { assert Ahead(scan, start, target, maxSteps, u); }
      assert done == us + (done - us);
    }
  }

  lemma NothingIsAheadOfStart(scan: Neighbors, start: int, maxSteps: nat, maxNodes: nat)
    ensures forall e :: !StoppedBy(scan, start, start, maxSteps, maxNodes, e)
  {
    assert Joins(scan, [start], start, start);
    forall u ensures !Ahead(scan, start, start, maxSteps, u) { }
    forall us: set<int> | AllAhead(scan, start, start, maxSteps, us) ensures |us| == 0 {
      forall u ensures u !in us { assert u in us ==> Ahead(scan, start, start, maxSteps, u); }
    }
  }

  // ===== Enumerating the parent DAG =====

  datatype Dag = Dag(start: int, parents: map<int, seq<int>>, depth: map<int, nat>)
  {
    /** Parents are distinct and strictly nearer to the start, which has none. */
    ghost predicate Ok() {
      start !in parents && forall v :: v in parents ==> v in depth && NoDup(parents[v]) && Nearer(v)
    }

    ghost predicate Nearer(v: int)
      requires v in parents && v in depth
    {
      forall u :: u in parents[v] ==> u in depth && depth[u] < depth[v]
    }
  }

  ghost predicate IsPartial(g: Dag, partial: seq<int>) {
    partial != [] && partial[|partial| - 1] in g.depth
  }

  /** The completions of a partial path, in the order the stack produces them: the last parent first. */
  ghost function Completions(g: Dag, partial: seq<int>): seq<seq<int>>
    requires g.Ok() && IsPartial(g, partial)
    decreases g.depth[partial[|partial| - 1]], 1, 0
  {
    var head := partial[|partial| - 1];
    if head == g.start then [partial]
    else if head in g.parents then
      assert g.Nearer(head);
      CompletionsVia(g, partial, g.parents[head])
    else []
  }

  ghost function CompletionsVia(g: Dag, partial: seq<int>, preds: seq<int>): seq<seq<int>>
    requires g.Ok() && IsPartial(g, partial)
    requires forall u :: u in preds ==> u in g.depth && g.depth[u] < g.depth[partial[|partial| - 1]]
    decreases g.depth[partial[|partial| - 1]], 0, |preds|
  {
    if preds == [] then []
    else
      var u := preds[|preds| - 1];
      Completions(g, partial + [u]) + CompletionsVia(g, partial, preds[..|preds| - 1])
  }

  /** A walk down the DAG: each vertex is followed by one of its parents. */
  ghost predicate Descends(g: Dag, s: seq<int>) {
    s != [] && forall i {:trigger s[i]} :: 0 <= i < |s| - 1 ==> s[i] in g.parents && s[i + 1] in g.parents[s[i]]
  }

  ghost predicate Completes(g: Dag, partial: seq<int>, s: seq<int>) {
    partial <= s && Descends(g, s) && s[|s| - 1] == g.start
  }

  /** A partial path that has reached the start completes only to itself. */
  lemma CompleteAtStart(g: Dag, partial: seq<int>, s: seq<int>)
    requires g.start !in g.parents && Descends(g, partial) && partial[|partial| - 1] == g.start
    ensures Completes(g, partial, s) <==> s == partial
  {
    if Completes(g, partial, s) { assert s[|partial| - 1] == g.start; }
  }

  /** Elsewhere it completes through one of the parents of its head. */
  lemma CompleteThroughParent(g: Dag, partial: seq<int>, s: seq<int>)
    requires Descends(g, partial) && partial[|partial| - 1] != g.start && Completes(g, partial, s)
    ensures |partial| < |s| && partial[|partial| - 1] in g.parents
    ensures s[|partial|] in g.parents[partial[|partial| - 1]] && Completes(g, partial + [s[|partial|]], s)
  {
    assert s[|partial| - 1] == partial[|partial| - 1];
  }

  lemma {:induction false} CompletionsExact(g: Dag, partial: seq<int>, s: seq<int>)
    requires g.Ok() && IsPartial(g, partial) && Descends(g, partial)
    ensures s in Completions(g, partial) <==> Completes(g, partial, s)
    decreases g.depth[partial[|partial| - 1]], 1, 0
  {
    var head := partial[|partial| - 1];
    if Completes(g, partial, s) && head != g.start { CompleteThroughParent(g, partial, s); }
    if head == g.start {
      CompleteAtStart(g, partial, s);
    } else if head in g.parents {
      assert g.Nearer(head);
      ViaExact(g, partial, g.parents[head], s);
      if Completes(g, partial, s) {
        var u := s[|partial|];
        assert u in g.parents[head] && Completes(g, partial + [u], s);
      }
    }
  }

  lemma {:induction false} ViaExact(g: Dag, partial: seq<int>, preds: seq<int>, s: seq<int>)
    requires g.Ok() && IsPartial(g, partial) && Descends(g, partial)
    requires partial[|partial| - 1] in g.parents
    requires forall u :: u in preds ==>
               u in g.depth && g.depth[u] < g.depth[partial[|partial| - 1]] && u in g.parents[partial[|partial| - 1]]
    ensures s in CompletionsVia(g, partial, preds) <==>
              exists u :: u in preds && Completes(g, partial + [u], s)
    decreases g.depth[partial[|partial| - 1]], 0, |preds|
  {
    if preds == [] {
    } else {
      var u, rest := preds[|preds| - 1], preds[..|preds| - 1];
      assert preds == rest + [u] && u in preds;
      assert forall w :: w in rest ==> w in preds;
      DescendFurther(g, partial, u);
      CompletionsExact(g, partial + [u], s);
      ViaExact(g, partial, rest, s);
    }
  }

  lemma DescendFurther(g: Dag, partial: seq<int>, u: int)
    requires Descends(g, partial) && partial[|partial| - 1] in g.parents && u in g.parents[partial[|partial| - 1]]
    ensures Descends(g, partial + [u])
  {
    var s := partial + [u];
    forall i | 0 <= i < |s| - 1 ensures s[i] in g.parents && s[i + 1] in g.parents[s[i]] {
      if i < |partial| - 1 { assert s[i] == partial[i] && s[i + 1] == partial[i + 1]; }
    }
  }

  lemma {:induction false} CompletionsDistinct(g: Dag, partial: seq<int>)
    requires g.Ok() && IsPartial(g, partial) && Descends(g, partial)
    ensures NoDup(Completions(g, partial))
    decreases g.depth[partial[|partial| - 1]], 1, 0
  {
    var head := partial[|partial| - 1];
    if head != g.start && head in g.parents {
      assert g.Nearer(head);
      ViaDistinct(g, partial, g.parents[head]);
    }
  }

  lemma {:induction false} ViaDistinct(g: Dag, partial: seq<int>, preds: seq<int>)
    requires g.Ok() && IsPartial(g, partial) && Descends(g, partial)
    requires partial[|partial| - 1] in g.parents && NoDup(preds)
    requires forall u :: u in preds ==>
               u in g.depth && g.depth[u] < g.depth[partial[|partial| - 1]] && u in g.parents[partial[|partial| - 1]]
    ensures NoDup(CompletionsVia(g, partial, preds))
    decreases g.depth[partial[|partial| - 1]], 0, |preds|
  {
    if preds == [] {
    } else {
      var u, rest := preds[|preds| - 1], preds[..|preds| - 1];
      assert u in preds;
      assert forall w :: w in rest ==> w in preds;
      DescendFurther(g, partial, u);
      CompletionsDistinct(g, partial + [u]);
      ViaDistinct(g, partial, rest);
      var first, others := Completions(g, partial + [u]), CompletionsVia(g, partial, rest);
      forall i, j | 0 <= i < |first| && 0 <= j < |others| ensures first[i] != others[j] {
        CompletionsExact(g, partial + [u], first[i]);
        ViaExact(g, partial, rest, others[j]);
        var w :| w in rest && Completes(g, partial + [w], others[j]);
        assert first[i][|partial|] == u && others[j][|partial|] == w;
      }
    }
  }

  // ===== The enumeration loop =====

  /** What the stack still stands for, its top first. */
  ghost function Pending(g: Dag, stack: seq<seq<int>>): seq<seq<int>>
    requires g.Ok() && AllPartial(g, stack)
  {
    if stack == [] then [] else Completions(g, stack[|stack| - 1]) + Pending(g, stack[..|stack| - 1])
  }

  /** The number of stack entries that a partial path with this head gives rise to. */
  ghost function Weight(g: Dag, v: int): (n: nat)
    requires g.Ok() && v in g.depth
    ensures n > 0
    decreases g.depth[v], 1, 0
  {
    if v in g.parents then
      assert g.Nearer(v);
      1 + WeightOf(g, v, g.parents[v])
    else 1
  }

  ghost function WeightOf(g: Dag, v: int, preds: seq<int>): nat
    requires g.Ok() && v in g.depth && forall u :: u in preds ==> u in g.depth && g.depth[u] < g.depth[v]
    decreases g.depth[v], 0, |preds|
  {
    if preds == [] then 0 else Weight(g, preds[|preds| - 1]) + WeightOf(g, v, preds[..|preds| - 1])
  }

  ghost function StackWeight(g: Dag, stack: seq<seq<int>>): nat
    requires g.Ok() && AllPartial(g, stack)
  {
    if stack == [] then 0
    else
      var top := stack[|stack| - 1];
      assert IsPartial(g, top);
      Weight(g, top[|top| - 1]) + StackWeight(g, stack[..|stack| - 1])
  }

  ghost predicate AllPartial(g: Dag, stack: seq<seq<int>>) {
    forall i :: 0 <= i < |stack| ==> IsPartial(g, stack[i])
  }

  lemma PushOne(g: Dag, stack: seq<seq<int>>, top: seq<int>)
    requires g.Ok() && AllPartial(g, stack) && IsPartial(g, top)
    ensures AllPartial(g, stack + [top])
    ensures Pending(g, stack + [top]) == Completions(g, top) + Pending(g, stack)
    ensures StackWeight(g, stack + [top]) == Weight(g, top[|top| - 1]) + StackWeight(g, stack)
  {
    assert (stack + [top])[..|stack|] == stack;
  }

  lemma ViaGrows(g: Dag, partial: seq<int>, preds: seq<int>, i: nat)
    requires g.Ok() && IsPartial(g, partial) && i < |preds|
    requires forall u :: u in preds ==> u in g.depth && g.depth[u] < g.depth[partial[|partial| - 1]]
    ensures preds[i] in preds && IsPartial(g, partial + [preds[i]])
    ensures CompletionsVia(g, partial, preds[..i + 1]) ==
              Completions(g, partial + [preds[i]]) + CompletionsVia(g, partial, preds[..i])
    ensures WeightOf(g, partial[|partial| - 1], preds[..i + 1]) ==
              Weight(g, preds[i]) + WeightOf(g, partial[|partial| - 1], preds[..i])
  {
    assert preds[..i + 1][..i] == preds[..i] && preds[..i + 1][i] == preds[i];
  }

  lemma NoParents(g: Dag, partial: seq<int>)
    requires g.Ok() && IsPartial(g, partial)
    ensures CompletionsVia(g, partial, []) == [] && WeightOf(g, partial[|partial| - 1], []) == 0
  {
  }

  /** Pushing one extension per parent stands for the same completions. */
  method PushParents(g: Dag, rest: seq<seq<int>>, partial: seq<int>, preds: seq<int>) returns (stack: seq<seq<int>>)
    requires g.Ok() && IsPartial(g, partial) && AllPartial(g, rest)
    requires forall u :: u in preds ==> u in g.depth && g.depth[u] < g.depth[partial[|partial| - 1]]
    ensures AllPartial(g, stack)
    ensures Pending(g, stack) == CompletionsVia(g, partial, preds) + Pending(g, rest)
    ensures StackWeight(g, stack) == WeightOf(g, partial[|partial| - 1], preds) + StackWeight(g, rest)
  {
    hide Dag.Ok, Completions, CompletionsVia, Pending, Weight, WeightOf, StackWeight, AllPartial;
    stack := rest;
    var i := 0;
    NoParents(g, partial);
    assert preds[..0] == [];
    while i < |preds|
      invariant 0 <= i <= |preds|
      invariant AllPartial(g, stack)
      invariant Pending(g, stack) == CompletionsVia(g, partial, preds[..i]) + Pending(g, rest)
      invariant StackWeight(g, stack) == WeightOf(g, partial[|partial| - 1], preds[..i]) + StackWeight(g, rest)
    {
      ViaGrows(g, partial, preds, i);
      PushOne(g, stack, partial + [preds[i]]);
      stack := stack + [partial + [preds[i]]];
      i := i + 1;
    }
    assert preds[..i] == preds;
  }

  /** Unfolding one stack entry. */
  lemma TopEntry(g: Dag, partial: seq<int>)
    requires g.Ok() && IsPartial(g, partial)
    ensures var head := partial[|partial| - 1];
            if head == g.start then Completions(g, partial) == [partial]
            else if head !in g.parents then Completions(g, partial) == []
            else
              && (forall u :: u in g.parents[head] ==> u in g.depth && g.depth[u] < g.depth[head])
              && Completions(g, partial) == CompletionsVia(g, partial, g.parents[head])
              && Weight(g, head) == 1 + WeightOf(g, head, g.parents[head])
  {
    var head := partial[|partial| - 1];
    assert head in g.parents ==> g.Nearer(head);
  }

  ghost predicate Mirrors(paths: seq<seq<int>>, found: seq<seq<int>>) {
    |paths| == |found| && forall i :: 0 <= i < |paths| ==> paths[i] == Reverse(found[i])
  }

  lemma MoveAcross<T>(a: seq<T>, x: T, b: seq<T>, all: seq<T>)
    requires a + ([x] + b) == all
    ensures (a + [x]) + b == all && |a| < |all|
  {
  }

  lemma FirstEntry(g: Dag, target: int)
    requires g.Ok() && target in g.depth
    ensures AllPartial(g, [[target]]) && Pending(g, [[target]]) == Completions(g, [target])
  {
    assert [[target]][..0] == [];
  }

  lemma SplitStack(g: Dag, stack: seq<seq<int>>)
    requires g.Ok() && AllPartial(g, stack) && stack != []
    ensures var rest, top := stack[..|stack| - 1], stack[|stack| - 1];
            && AllPartial(g, rest) && IsPartial(g, top) && stack == rest + [top]
            && Pending(g, stack) == Completions(g, top) + Pending(g, rest)
            && StackWeight(g, stack) == Weight(g, top[|top| - 1]) + StackWeight(g, rest)
  {
    PushOne(g, stack[..|stack| - 1], stack[|stack| - 1]);
    assert stack == stack[..|stack| - 1] + [stack[|stack| - 1]];
  }

  lemma NothingLeft(g: Dag)
    requires g.Ok()
    ensures Pending(g, []) == []
  {
  }

  method Enumerate(g: Dag, target: int, maxPaths: nat) returns (r: Result<seq<seq<int>>, Failure>)
    requires g.Ok() && target in g.depth
    ensures r.Ok? ==> Mirrors(r.value, Completions(g, [target])) && (maxPaths > 0 ==> |r.value| <= maxPaths)
    ensures r.Err? ==> r.error == PathBudget && 0 < maxPaths < |Completions(g, [target])|
  {
    hide Dag.Ok, Pending, StackWeight, AllPartial, Completions, CompletionsVia, Weight, WeightOf, Reverse;
    var paths: seq<seq<int>> := [];
    var stack := [[target]];
    ghost var found: seq<seq<int>> := [];
    FirstEntry(g, target);
    while stack != []
      invariant AllPartial(g, stack)
      invariant found + Pending(g, stack) == Completions(g, [target])
      invariant Mirrors(paths, found) && (maxPaths > 0 ==> |paths| <= maxPaths)
      decreases StackWeight(g, stack)
    {
      SplitStack(g, stack);
      var partial, rest := stack[|stack| - 1], stack[..|stack| - 1];
      TopEntry(g, partial);
      var head := partial[|partial| - 1];
      if head == g.start {
        MoveAcross(found, partial, Pending(g, rest), Completions(g, [target]));
        if maxPaths > 0 && |paths| >= maxPaths {
          return Err(PathBudget);
        }
        paths, found := paths + [Reverse(partial)], found + [partial];
        stack := rest;
      } else if head !in g.parents {
        stack := rest;
      } else {
        stack := PushParents(g, rest, partial, g.parents[head]);
      }
    }
    NothingLeft(g);
    assert found == Completions(g, [target]);
    r := Ok(paths);
  }

  // ===== The DAG's completions are the shortest paths =====

  lemma LevelsMakeDag(scan: Neighbors, start: int, depth: map<int, nat>, parents: map<int, seq<int>>, d: nat,
                      frontier: seq<int>)
    requires LevelsOk(scan, start, depth, parents, d, frontier)
    ensures Dag(start, parents, depth).Ok()
  {
    var g := Dag(start, parents, depth);
    forall v | v in parents ensures v in depth && NoDup(parents[v]) && g.Nearer(v) {
      assert ParentsExact(scan, depth, parents, v);
    }
  }

  lemma ReverseIsInvolution<T>(s: seq<T>)
    ensures Reverse(Reverse(s)) == s
  {
  }

  /** Going down the DAG from depth `d`, the depth falls by one at each step. */
  lemma {:induction false} DescentDepth(scan: Neighbors, start: int, depth: map<int, nat>, parents: map<int, seq<int>>,
                                        d: nat, frontier: seq<int>, s: seq<int>, i: nat)
    requires LevelsOk(scan, start, depth, parents, d, frontier) && i < |s|
    requires Descends(Dag(start, parents, depth), s) && s[0] in depth
    ensures s[i] in depth && depth[s[i]] + i == depth[s[0]]
    ensures i > 0 ==> Adjacent(scan, s[i], s[i - 1])
  {
    if i == 0 {
    } else {
      DescentDepth(scan, start, depth, parents, d, frontier, s, i - 1);
      var v, u := s[i - 1], s[i];
      assert v in parents && u in parents[v];
      assert ParentsExact(scan, depth, parents, v);
    }
  }

  lemma CompletionIsShortest(scan: Neighbors, start: int, depth: map<int, nat>, parents: map<int, seq<int>>, d: nat,
                             frontier: seq<int>, target: int, maxSteps: nat, s: seq<int>)
    requires LevelsOk(scan, start, depth, parents, d, frontier)
    requires target in depth && depth[target] == d <= maxSteps
    requires Completes(Dag(start, parents, depth), [target], s)
    ensures IsShortest(scan, Reverse(s), start, target, maxSteps)
  {
    var p := Reverse(s);
    DescentDepth(scan, start, depth, parents, d, frontier, s, |s| - 1);
    forall i | 0 <= i < |p| - 1 ensures Adjacent(scan, p[i], p[i + 1]) {
      DescentDepth(scan, start, depth, parents, d, frontier, s, |s| - 1 - i);
    }
    forall other | Joins(scan, other, start, target) ensures |p| <= |other| {
      ShortPathsEndKnown(scan, start, depth, parents, d, frontier, other);
    }
  }

  /** On a path as short as the target's depth, the i-th vertex is at depth i. */
  lemma {:induction false} ShortestClimbs(scan: Neighbors, start: int, depth: map<int, nat>,
                                          parents: map<int, seq<int>>,
                                          d: nat, frontier: seq<int>, target: int, p: seq<int>, i: nat)
    requires LevelsOk(scan, start, depth, parents, d, frontier)
    requires target in depth && depth[target] == d && Joins(scan, p, start, target) && |p| == d + 1 && i <= d
    ensures p[i] in depth && depth[p[i]] == i
    decreases d - i
  {
    PrefixIsPath(scan, p, i + 1);
    ShortPathsEndKnown(scan, start, depth, parents, d, frontier, p[..i + 1]);
    if i < d {
      ShortestClimbs(scan, start, depth, parents, d, frontier, target, p, i + 1);
      assert Adjacent(scan, p[i], p[i + 1]);
      assert p[i] in Above(depth, d);
      assert ExpandedAt(scan, depth, p[i]);
    }
  }

  lemma LevelIsReached(scan: Neighbors, start: int, depth: map<int, nat>, parents: map<int, seq<int>>, d: nat,
                       frontier: seq<int>, v: int) returns (p: seq<int>)
    requires LevelsOk(scan, start, depth, parents, d, frontier) && v in depth
    ensures Joins(scan, p, start, v) && |p| == depth[v] + 1
  {
    forall x | x in depth && x != start
      ensures x in parents && parents[x] != []
      ensures forall u :: u in parents[x] ==> u in depth && depth[u] + 1 == depth[x] && Adjacent(scan, u, x)
    {
      assert ParentsExact(scan, depth, parents, x);
    }
    p := DepthIsReached(scan, start, depth, parents, v);
  }

  lemma ShortestIsCompletion(scan: Neighbors, start: int, depth: map<int, nat>, parents: map<int, seq<int>>, d: nat,
                             frontier: seq<int>, target: int, maxSteps: nat, p: seq<int>)
    requires LevelsOk(scan, start, depth, parents, d, frontier)
    requires target in depth && depth[target] == d && IsShortest(scan, p, start, target, maxSteps)
    ensures Completes(Dag(start, parents, depth), [target], Reverse(p))
  {
    var reaching := LevelIsReached(scan, start, depth, parents, d, frontier, target);
    ShortPathsEndKnown(scan, start, depth, parents, d, frontier, p);
    var s := Reverse(p);
    assert s[0] == target && [target] <= s;
    forall i | 0 <= i < |s| - 1 ensures s[i] in parents && s[i + 1] in parents[s[i]] {
      var k := |p| - 2 - i;
      ShortestClimbs(scan, start, depth, parents, d, frontier, target, p, k);
      ShortestClimbs(scan, start, depth, parents, d, frontier, target, p, k + 1);
      assert Adjacent(scan, p[k], p[k + 1]) && p[k + 1] != start;
      assert ParentsExact(scan, depth, parents, p[k + 1]);
    }
  }

  /** The reversed completions are the shortest paths, each once. */
  lemma CompletionsAreShortestPaths(scan: Neighbors, start: int, depth: map<int, nat>, parents: map<int, seq<int>>,
                                    d: nat,
                                    frontier: seq<int>, target: int, maxSteps: nat, paths: seq<seq<int>>)
    requires LevelsOk(scan, start, depth, parents, d, frontier)
    requires target in depth && depth[target] == d <= maxSteps
    requires Dag(start, parents, depth).Ok() && Mirrors(paths, Completions(Dag(start, parents, depth), [target]))
    ensures NoDup(paths)
    ensures forall p :: p in paths <==> IsShortest(scan, p, start, target, maxSteps)
  {
    hide LevelsOk, Dag.Ok, Completions, Completes, IsShortest, Reverse;
    var g := Dag(start, parents, depth);
    var found := Completions(g, [target]);
    OneVertexDescends(g, target);
    CompletionsDistinct(g, [target]);
    MirrorsAreDistinct(paths, found);
    forall p ensures p in paths <==> IsShortest(scan, p, start, target, maxSteps) {
      if p in paths {
        var i :| 0 <= i < |paths| && paths[i] == p;
        CompletionsExact(g, [target], found[i]);
        CompletionIsShortest(scan, start, depth, parents, d, frontier, target, maxSteps, found[i]);
      }
      if IsShortest(scan, p, start, target, maxSteps) {
        ShortestIsCompletion(scan, start, depth, parents, d, frontier, target, maxSteps, p);
        CompletionsExact(g, [target], Reverse(p));
        var i :| 0 <= i < |found| && found[i] == Reverse(p);
        ReverseIsInvolution(p);
        assert paths[i] == p;
      }
    }
  }

  lemma OneVertexDescends(g: Dag, target: int)
    requires target in g.depth
    ensures IsPartial(g, [target]) && Descends(g, [target])
  {
  }

  lemma MirrorsAreDistinct(paths: seq<seq<int>>, found: seq<seq<int>>)
    requires Mirrors(paths, found) && NoDup(found)
    ensures NoDup(paths)
  {
    hide Reverse;
    forall i, j | 0 <= i < j < |paths| ensures paths[i] != paths[j] {
      ReverseIsInvolution(found[i]);
      ReverseIsInvolution(found[j]);
    }
  }

  // ===== The search =====

  ghost predicate ManyShortest(scan: Neighbors, start: int, target: int, maxSteps: nat, n: nat) {
    exists ps: seq<seq<int>> :: |ps| > n && NoDup(ps) && AllShortest(scan, start, target, maxSteps, ps)
  }

  ghost predicate AllShortest(scan: Neighbors, start: int, target: int, maxSteps: nat, ps: seq<seq<int>>) {
    forall p :: p in ps ==> IsShortest(scan, p, start, target, maxSteps)
  }

  /** `paths` lists the shortest paths, each exactly once. */
  ghost predicate ListsShortest(scan: Neighbors, start: int, target: int, maxSteps: nat, paths: seq<seq<int>>) {
    NoDup(paths) && forall p :: p in paths <==> IsShortest(scan, p, start, target, maxSteps)
  }

  lemma TrivialPath(scan: Neighbors, start: int, maxSteps: nat)
    ensures ListsShortest(scan, start, start, maxSteps, [[start]])
  {
    forall p ensures p in [[start]] <==> IsShortest(scan, p, start, start, maxSteps) {
      assert Joins(scan, [start], start, start);
      if IsShortest(scan, p, start, start, maxSteps) { assert p == [start]; }
    }
  }

  lemma NothingToList(scan: Neighbors, start: int, depth: map<int, nat>, parents: map<int, seq<int>>, d: nat,
                      frontier: seq<int>, target: int, maxSteps: nat)
    requires LevelsOk(scan, start, depth, parents, d, frontier) && target !in depth
    requires frontier == [] || d >= maxSteps
    ensures ListsShortest(scan, start, target, maxSteps, [])
  {
    forall p | Joins(scan, p, start, target) ensures |p| - 1 > maxSteps {
      ShortPathsEndKnown(scan, start, depth, parents, d, frontier, p);
    }
  }

  lemma LevelZero(scan: Neighbors, start: int)
    ensures LevelsOk(scan, start, map[start := 0], map[], 0, [start]) && Above(map[start := 0], 0) == {}
  {
  }

  /** Every path in a mirror of more than `n` completions is shortest, so there are more than `n` shortest paths. */
  lemma TooManyPaths(scan: Neighbors, start: int, depth: map<int, nat>, parents: map<int, seq<int>>, d: nat,
                     frontier: seq<int>, target: int, maxSteps: nat, n: nat)
    requires LevelsOk(scan, start, depth, parents, d, frontier)
    requires target in depth && depth[target] == d <= maxSteps && Dag(start, parents, depth).Ok()
    requires |Completions(Dag(start, parents, depth), [target])| > n
    ensures ManyShortest(scan, start, target, maxSteps, n)
  {
    var found := Completions(Dag(start, parents, depth), [target]);
    var paths := seq(|found|, i requires 0 <= i < |found| => Reverse(found[i]));
    hide LevelsOk, IsShortest, Completions;
    assert Mirrors(paths, found);
    CompletionsAreShortestPaths(scan, start, depth, parents, d, frontier, target, maxSteps, paths);
    assert AllShortest(scan, start, target, maxSteps, paths);
  }

  method FindAllShortestPaths(scan: Neighbors, start: int, target: int, maxSteps: nat, maxNodes: nat, maxPaths: nat,
                              ghost universe: set<int>)
      returns (r: Result<seq<seq<int>>, Failure>)
    requires start in universe && Contains(scan, universe) && Distinct(scan)
    ensures r.Ok? ==> ListsShortest(scan, start, target, maxSteps, r.value)
    ensures r.Ok? && maxPaths > 0 ==> |r.value| <= maxPaths && !ManyShortest(scan, start, target, maxSteps, maxPaths)
    ensures r == Err(PathBudget) ==> maxPaths > 0 && ManyShortest(scan, start, target, maxSteps, maxPaths)
    ensures r.Err? && r.error != PathBudget ==> BudgetOrEdge(scan, start, maxSteps, maxNodes, r.error)
    ensures r.Err? && r.error != PathBudget ==> StoppedBy(scan, start, target, maxSteps, maxNodes, r.error)
    ensures r.Ok? || r == Err(PathBudget) ==>
              forall e :: !StoppedBy(scan, start, target, maxSteps, maxNodes, e)
  {
    if start == target {
      NothingIsAheadOfStart(scan, start, maxSteps, maxNodes);
      TrivialPath(scan, start, maxSteps);
      NotMany(scan, start, target, maxSteps, [[start]]);
      return Ok([[start]]);
    }
    var depth: map<int, nat>, parents: map<int, seq<int>>, frontier := map[start := 0], map[], [start];
    var d, found, nodes := 0, false, 0;
    ghost var us: set<int> := {};
    LevelZero(scan, start);
    hide LevelsOk, BudgetOrEdge, ListsShortest, ManyShortest, Contains, Distinct, Above, Dag.Ok, Completions, Mirrors,
      StoppedBy;
    while frontier != [] && d < maxSteps && !found
      invariant LevelsOk(scan, start, depth, parents, d, frontier) && d <= maxSteps
      invariant us == Above(depth, d) && |us| == nodes && depth.Keys <= universe
      invariant found <==> target in depth
      invariant found ==> depth[target] == d
      invariant maxNodes > 0 ==> nodes <= maxNodes
      decreases maxSteps - d
    {
      var failure, l;
      failure, l, found, nodes, us :=
        ExpandLevel(scan, start, target, depth, parents, d, frontier, maxSteps, maxNodes, nodes, us, universe);
      if failure.Some? {
        StopIsNear(scan, start, target, maxSteps, maxNodes, failure.value);
        return Err(failure.value);
      }
      if found { NewIsDeepest(scan, start, depth, l.depth, l.parents, d, l.next, target); }
      depth, parents, frontier := l.depth, l.parents, l.next;
      d := d + 1;
    }
    NothingAheadFails(scan, start, depth, parents, d, frontier, target, maxSteps, maxNodes);
    if !found {
      NothingToList(scan, start, depth, parents, d, frontier, target, maxSteps);
      NotMany(scan, start, target, maxSteps, []);
      return Ok([]);
    }
    LevelsMakeDag(scan, start, depth, parents, d, frontier);
    var g := Dag(start, parents, depth);
    r := Enumerate(g, target, maxPaths);
    if r.Ok? {
      CompletionsAreShortestPaths(scan, start, depth, parents, d, frontier, target, maxSteps, r.value);
      ListingIsComplete(scan, start, target, maxSteps, r.value);
      NotMany(scan, start, target, maxSteps, r.value);
    } else {
      TooManyPaths(scan, start, depth, parents, d, frontier, target, maxSteps, maxPaths);
    }
  }

  /** A complete list bounds the number of shortest paths. */
  lemma NotMany(scan: Neighbors, start: int, target: int, maxSteps: nat, paths: seq<seq<int>>)
    requires ListsShortest(scan, start, target, maxSteps, paths)
    ensures forall n: nat :: |paths| <= n ==> !ManyShortest(scan, start, target, maxSteps, n)
  {
    forall ps | NoDup(ps) && AllShortest(scan, start, target, maxSteps, ps) ensures |ps| <= |paths| {
      hide IsShortest;
      forall p | p in ps ensures p in paths { assert IsShortest(scan, p, start, target, maxSteps); }
      DistinctFit(ps, paths);
    }
  }

  /** A list without repetitions is no longer than a list that contains it. */
  lemma {:induction false} DistinctFit<T>(a: seq<T>, b: seq<T>)
    requires NoDup(a) && forall x :: x in a ==> x in b
    ensures |a| <= |b|
  {
    if a == [] {
    } else {
      var x, rest := a[0], a[1..];
      assert x in a;
      var i :| 0 <= i < |b| && b[i] == x;
      var b' := b[..i] + b[i + 1..];
      forall y | y in rest ensures y in b' {
        assert y in a && y != x;
        var j :| 0 <= j < |b| && b[j] == y;
        assert b'[if j < i then j else j - 1] == y;
      }
      DistinctFit(rest, b');
    }
  }

  lemma ListingIsComplete(scan: Neighbors, start: int, target: int, maxSteps: nat, paths: seq<seq<int>>)
    requires NoDup(paths) && forall p :: p in paths <==> IsShortest(scan, p, start, target, maxSteps)
    ensures ListsShortest(scan, start, target, maxSteps, paths)
  {
  }

  /** A vertex that was unknown before level `d` was expanded is at depth `d + 1`. */
  lemma NewIsDeepest(scan: Neighbors, start: int, depth0: map<int, nat>, depth: map<int, nat>,
                     parents: map<int, seq<int>>,
                     d: nat, next: seq<int>, v: int)
    requires LevelsOk(scan, start, depth, parents, d + 1, next) && Above(depth, d + 1) == Above(depth0, d + 1)
    requires v in depth && v !in depth0
    ensures depth[v] == d + 1
  {
    assert v !in Above(depth0, d + 1);
  }
}
