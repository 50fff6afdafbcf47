/** Paths counted in hops, over the neighbour lists that the store scans produce. */
module Hops {
  import opened Prelude

  datatype Failure = NodeBudget | PathBudget | InvalidEdge

  /** The distinct neighbours of a vertex, or None if one of its edges cannot be read. */
  type Neighbors = int -> Option<seq<int>>

  ghost predicate NoDup<T>(s: seq<T>) {
    forall i, j :: 0 <= i < j < |s| ==> s[i] != s[j]
  }

  ghost predicate Adjacent(scan: Neighbors, u: int, v: int) {
    scan(u).Some? && v in scan(u).value
  }

  ghost predicate IsPath(scan: Neighbors, p: seq<int>) {
    p != [] && forall i {:trigger p[i]} :: 0 <= i < |p| - 1 ==> Adjacent(scan, p[i], p[i + 1])
  }

  ghost predicate Joins(scan: Neighbors, p: seq<int>, a: int, b: int) {
    IsPath(scan, p) && p[0] == a && p[|p| - 1] == b
  }

  /** `p` has as few hops as any path between its ends, and at most `maxSteps`. */
  ghost predicate IsShortest(scan: Neighbors, p: seq<int>, a: int, b: int, maxSteps: nat) {
    && Joins(scan, p, a, b) && (a == b || |p| - 1 <= maxSteps)
    && forall other :: Joins(scan, other, a, b) ==> |p| <= |other|
  }

  ghost predicate NoneWithin(scan: Neighbors, a: int, b: int, maxSteps: nat) {
    forall p :: Joins(scan, p, a, b) ==> |p| - 1 > maxSteps
  }

  /** `universe` is closed under neighbours, so that the search is finite. */
  ghost predicate Contains(scan: Neighbors, universe: set<int>) {
    forall u, v :: u in universe && Adjacent(scan, u, v) ==> v in universe
  }

  /** `u` can be reached in fewer than `maxSteps` hops. */
  ghost predicate Near(scan: Neighbors, start: int, u: int, maxSteps: nat) {
    exists p :: Joins(scan, p, start, u) && |p| - 1 < maxSteps
  }

  /** Every vertex in `us` can be reached in fewer than `maxSteps` hops. */
  ghost predicate AllNear(scan: Neighbors, start: int, maxSteps: nat, us: set<int>) {
    forall u :: u in us ==> Near(scan, start, u, maxSteps)
  }

  /** The node budget fails when too many vertices are near, an edge when one that is near cannot be read. */
  ghost predicate BudgetOrEdge(scan: Neighbors, start: int, maxSteps: nat, maxNodes: nat, e: Failure) {
    match e
    case NodeBudget => maxNodes > 0 && exists us: set<int> :: |us| > maxNodes && AllNear(scan, start, maxSteps, us)
    case InvalidEdge => exists u :: Near(scan, start, u, maxSteps) && scan(u).None?
    case PathBudget => false
  }

  /** `u` can be reached in fewer than `maxSteps` hops, and in fewer than it takes to reach the target. */
  ghost predicate Ahead(scan: Neighbors, start: int, target: int, maxSteps: nat, u: int) {
    exists p :: Joins(scan, p, start, u) && |p| - 1 < maxSteps && NoneWithin(scan, start, target, |p| - 1)
  }

  ghost predicate AllAhead(scan: Neighbors, start: int, target: int, maxSteps: nat, us: set<int>) {
    forall u :: u in us ==> Ahead(scan, start, target, maxSteps, u)
  }

  /** What stops a search that expands whole levels until it meets the target. */
  ghost predicate StoppedBy(scan: Neighbors, start: int, target: int, maxSteps: nat, maxNodes: nat, e: Failure) {
    match e
    case NodeBudget =>
      maxNodes > 0 && exists us: set<int> :: |us| > maxNodes && AllAhead(scan, start, target, maxSteps, us)
    case InvalidEdge => exists u :: Ahead(scan, start, target, maxSteps, u) && scan(u).None?
    case PathBudget => false
  }

  /** `u` can be reached in fewer than `maxSteps` hops, and in fewer, by two, than it takes to reach the target. */
  ghost predicate WellAhead(scan: Neighbors, start: int, target: int, maxSteps: nat, u: int) {
    exists p :: Joins(scan, p, start, u) && |p| - 1 < maxSteps && NoneWithin(scan, start, target, |p|)
  }

  ghost predicate AllWellAhead(scan: Neighbors, start: int, target: int, maxSteps: nat, us: set<int>) {
    forall u :: u in us ==> WellAhead(scan, start, target, maxSteps, u)
  }

  /** What stops even a search that leaves the last level before the target unfinished. */
  ghost predicate SurelyStoppedBy(scan: Neighbors, start: int, target: int, maxSteps: nat, maxNodes: nat, e: Failure) {
    match e
    case NodeBudget =>
      maxNodes > 0 && exists us: set<int> :: |us| > maxNodes && AllWellAhead(scan, start, target, maxSteps, us)
    case InvalidEdge => exists u :: WellAhead(scan, start, target, maxSteps, u) && scan(u).None?
    case PathBudget => false
  }

  /** Without a path to the target within the bound there is no such level, and the two are one. */
  lemma StopsAlikeWithoutPath(scan: Neighbors, start: int, target: int, maxSteps: nat, maxNodes: nat, e: Failure)
    requires NoneWithin(scan, start, target, maxSteps) && StoppedBy(scan, start, target, maxSteps, maxNodes, e)
    ensures SurelyStoppedBy(scan, start, target, maxSteps, maxNodes, e)
  {
    forall u | Ahead(scan, start, target, maxSteps, u) ensures WellAhead(scan, start, target, maxSteps, u) {
      var p :| Joins(scan, p, start, u) && |p| - 1 < maxSteps && NoneWithin(scan, start, target, |p| - 1);
      assert NoneWithin(scan, start, target, |p|);
    }
    hide Ahead, WellAhead, NoneWithin, Joins;
    if e == NodeBudget {
      var us: set<int> :| |us| > maxNodes && AllAhead(scan, start, target, maxSteps, us);
      assert AllWellAhead(scan, start, target, maxSteps, us);
    }
  }

  lemma StopIsNear(scan: Neighbors, start: int, target: int, maxSteps: nat, maxNodes: nat, e: Failure)
    requires StoppedBy(scan, start, target, maxSteps, maxNodes, e)
    ensures BudgetOrEdge(scan, start, maxSteps, maxNodes, e)
  {
    hide Joins, NoneWithin;
    if e == NodeBudget {
      var us: set<int> :| |us| > maxNodes && AllAhead(scan, start, target, maxSteps, us);
      forall u | u in us ensures Near(scan, start, u, maxSteps) {
        assert Ahead(scan, start, target, maxSteps, u);
      }
      assert AllNear(scan, start, maxSteps, us);
    }
  }

  lemma AppendHop(scan: Neighbors, p: seq<int>, a: int, b: int, c: int)
    requires Joins(scan, p, a, b) && Adjacent(scan, b, c)
    ensures Joins(scan, p + [c], a, c)
  {
    var q := p + [c];
    forall i | 0 <= i < |q| - 1 ensures Adjacent(scan, q[i], q[i + 1]) {
      if i < |p| - 1 { assert q[i] == p[i] && q[i + 1] == p[i + 1]; }
    }
  }

  lemma PrefixIsPath(scan: Neighbors, p: seq<int>, n: nat)
    requires IsPath(scan, p) && 0 < n <= |p|
    ensures IsPath(scan, p[..n])
  {
    forall i | 0 <= i < n - 1 ensures Adjacent(scan, p[..n][i], p[..n][i + 1]) {
      assert Adjacent(scan, p[i], p[i + 1]);
    }
  }

  lemma FewerLeft(universe: set<int>, done: set<int>, u: int)
    requires u in universe && u !in done
    ensures |universe - (done + {u})| < |universe - done|
  {
    assert universe - done == (universe - (done + {u})) + {u};
  }

  lemma StaysInUniverse(scan: Neighbors, universe: set<int>, u: int, known: set<int>, known': set<int>)
    requires Contains(scan, universe) && u in universe && known <= universe
    requires forall v :: v in known' ==> v in known || Adjacent(scan, u, v)
    ensures known' <= universe
  {
    forall v | v in known' ensures v in universe {
      assert v in known || Adjacent(scan, u, v);
    }
  }

  // ===== Explored regions =====

  /** Every neighbour of a vertex in `done` is known, at most one level further away. */
  ghost predicate Expanded(scan: Neighbors, depth: map<int, nat>, done: set<int>) {
    forall u :: u in done ==> u in depth && ExpandedAt(scan, depth, u)
  }

  ghost predicate ExpandedAt(scan: Neighbors, depth: map<int, nat>, u: int)
    requires u in depth
  {
    scan(u).Some? && forall v :: v in scan(u).value ==> v in depth && depth[v] <= depth[u] + 1
  }

  /** Along any path from the start, a known vertex that is unexpanded or the last one, and no deeper than its place. */
  lemma {:induction false} Leaves(scan: Neighbors, depth: map<int, nat>, done: set<int>, start: int, p: seq<int>)
      returns (j: nat)
    requires Expanded(scan, depth, done) && start in depth && depth[start] == 0
    requires IsPath(scan, p) && p[0] == start
    ensures j < |p| && p[j] in depth && depth[p[j]] <= j && (j == |p| - 1 || p[j] !in done)
    decreases |p|
  {
    if |p| == 1 {
      j := 0;
    } else {
      var shorter := p[..|p| - 1];
      PrefixIsPath(scan, p, |p| - 1);
      j := Leaves(scan, depth, done, start, shorter);
      if j == |p| - 2 && p[j] in done {
        assert Adjacent(scan, p[j], p[j + 1]);
        assert ExpandedAt(scan, depth, p[j]);
        j := j + 1;
      }
    }
  }
}

/** Breadth-first search for one path with the fewest hops. */
module ShortestPath {
  import opened Prelude
  import opened Hops

  /** The search's maps and queue. */
  datatype Search = Search(parent: map<int, int>, queue: seq<(int, nat)>, visited: set<int>)

  /** A path to `v` with `depth[v]` hops, grown from the path to its parent. */
  ghost predicate TrailOk(scan: Neighbors, start: int, parent: map<int, int>, depth: map<int, nat>,
                          trail: map<int, seq<int>>, v: int)
    requires v in depth && v in trail
  {
    && Joins(scan, trail[v], start, v) && |trail[v]| == depth[v] + 1
    && (v != start ==> v in parent && parent[v] in trail && trail[v] == trail[parent[v]] + [v])
  }

  ghost predicate TrailsOk(scan: Neighbors, start: int, parent: map<int, int>, depth: map<int, nat>,
                           trail: map<int, seq<int>>) {
    && start in depth && depth[start] == 0 && trail.Keys == depth.Keys
    && forall v :: v in depth ==> TrailOk(scan, start, parent, depth, trail, v)
  }

  /** The queue holds distinct known vertices by increasing depth, all between `level` and `level + 1`. */
  ghost predicate QueueOk(queue: seq<(int, nat)>, depth: map<int, nat>, done: set<int>, level: nat) {
    && (forall i :: 0 <= i < |queue| ==>
          && queue[i].0 in depth && depth[queue[i].0] == queue[i].1 && queue[i].0 !in done
          && level <= queue[i].1 <= level + 1)
    && (forall i, j :: 0 <= i < j < |queue| ==> queue[i].1 <= queue[j].1 && queue[i].0 != queue[j].0)
  }

  /** A known vertex that is neither expanded nor queued lies at the step bound or beyond. */
  ghost predicate NothingLost(queue: seq<(int, nat)>, depth: map<int, nat>, done: set<int>, maxSteps: nat) {
    forall v :: v in depth && v !in done && depth[v] < maxSteps ==> (v, depth[v]) in queue
  }

  /** All that is known while `u`, popped from the queue, is being expanded. */
  ghost predicate Expanding(scan: Neighbors, start: int, target: int, maxSteps: nat, s: Search,
                            depth: map<int, nat>, trail: map<int, seq<int>>, done: set<int>, u: int, step: nat) {
    && s.visited == depth.Keys == trail.Keys && target !in depth
    && TrailsOk(scan, start, s.parent, depth, trail)
    && Expanded(scan, depth, done) && QueueOk(s.queue, depth, done + {u}, step)
    && NothingLost(s.queue, depth, done + {u}, maxSteps)
    && u in depth && depth[u] == step && u !in done && done <= depth.Keys && step < maxSteps
    && (forall v :: v in depth ==> depth[v] <= step + 1)
    && (forall x :: x in done ==> depth[x] < maxSteps && depth[x] <= step)
  }

  /** Recording a newly found vertex `v`, reached from `u`. */
  function Discover(s: Search, u: int, step: nat, v: int): Search {
    Search(s.parent[v := u], s.queue + [(v, step + 1)], s.visited + {v})
  }

  lemma DiscoverTrails(scan: Neighbors, start: int, s: Search, depth: map<int, nat>, trail: map<int, seq<int>>,
                       u: int, step: nat, v: int)
    requires TrailsOk(scan, start, s.parent, depth, trail) && u in depth && depth[u] == step
    requires Adjacent(scan, u, v) && v !in depth
    ensures TrailsOk(scan, start, s.parent[v := u], depth[v := step + 1], trail[v := trail[u] + [v]])
  {
    assert TrailOk(scan, start, s.parent, depth, trail, u);
    AppendHop(scan, trail[u], start, u, v);
    var parent', depth', trail' := s.parent[v := u], depth[v := step + 1], trail[v := trail[u] + [v]];
    forall x | x in depth' ensures TrailOk(scan, start, parent', depth', trail', x) {
      if x != v { assert TrailOk(scan, start, s.parent, depth, trail, x); }
    }
  }

  lemma DiscoverQueue(s: Search, depth: map<int, nat>, done: set<int>, maxSteps: nat, u: int, step: nat, v: int)
    requires QueueOk(s.queue, depth, done, step) && NothingLost(s.queue, depth, done, maxSteps)
    requires v !in depth && done <= depth.Keys
    ensures QueueOk(Discover(s, u, step, v).queue, depth[v := step + 1], done, step)
    ensures NothingLost(Discover(s, u, step, v).queue, depth[v := step + 1], done, maxSteps)
  {
    var queue, queue' := s.queue, Discover(s, u, step, v).queue;
    var depth' := depth[v := step + 1];
    forall x | x in depth' && x !in done && depth'[x] < maxSteps ensures (x, depth'[x]) in queue' {
      if x != v {
        assert (x, depth[x]) in queue;
      } else {
        assert queue'[|queue|] == (v, step + 1);
      }
    }
  }

  lemma DeeperStaysExpanded(scan: Neighbors, depth: map<int, nat>, done: set<int>, v: int, d: nat)
    requires Expanded(scan, depth, done) && v !in depth
    ensures Expanded(scan, depth[v := d], done)
  {
    forall u | u in done ensures ExpandedAt(scan, depth[v := d], u) { assert ExpandedAt(scan, depth, u); }
  }

  /** Along any path a known vertex that is the last, or unexpanded and then as deep as the one expanded now. */
  lemma LeavesWhileExpanding(scan: Neighbors, start: int, target: int, maxSteps: nat, s: Search, depth: map<int, nat>,
                             trail: map<int, seq<int>>, done: set<int>, u: int, step: nat, p: seq<int>, x: int)
      returns (j: nat)
    requires Expanding(scan, start, target, maxSteps, s, depth, trail, done, u, step) && Joins(scan, p, start, x)
    ensures j < |p| && p[j] in depth && depth[p[j]] <= j
    ensures j == |p| - 1 || p[j] !in done
    ensures p[j] !in done ==> step <= depth[p[j]]
  {
    j := Leaves(scan, depth, done, start, p);
    var v := p[j];
    hide TrailsOk, Expanded, IsPath;
    if v !in done { assert v == u || depth[v] >= maxSteps || (v, depth[v]) in s.queue; }
  }

  /** While a vertex at depth `step` is expanded, the target is further away than that. */
  lemma TargetIsFurther(scan: Neighbors, start: int, target: int, maxSteps: nat, s: Search,
                        depth: map<int, nat>, trail: map<int, seq<int>>, done: set<int>, u: int, step: nat)
    requires Expanding(scan, start, target, maxSteps, s, depth, trail, done, u, step)
    ensures NoneWithin(scan, start, target, step)
  {
    assert target !in depth;
    hide Expanding;
    forall p | Joins(scan, p, start, target) ensures |p| - 1 > step {
      var j := LeavesWhileExpanding(scan, start, target, maxSteps, s, depth, trail, done, u, step, p, target);
      assert p[j] != target;
    }
  }

  /** The first discovery of the target is at its distance. */
  lemma DiscoveryIsShortest(scan: Neighbors, start: int, target: int, maxSteps: nat, s: Search,
                            depth: map<int, nat>, trail: map<int, seq<int>>, done: set<int>, u: int, step: nat)
    requires Expanding(scan, start, target, maxSteps, s, depth, trail, done, u, step)
    requires Adjacent(scan, u, target)
    ensures IsShortest(scan, trail[u] + [target], start, target, maxSteps)
  {
    assert TrailOk(scan, start, s.parent, depth, trail, u);
    AppendHop(scan, trail[u], start, u, target);
    TargetIsFurther(scan, start, target, maxSteps, s, depth, trail, done, u, step);
  }

  /** The loop over the neighbours of one vertex. */
  method Visit(scan: Neighbors, start: int, target: int, ghost maxSteps: nat, s0: Search, u: int, step: nat,
               neighbors: seq<int>, ghost depth0: map<int, nat>, ghost trail0: map<int, seq<int>>, ghost done: set<int>)
      returns (found: bool, s: Search, ghost depth: map<int, nat>, ghost trail: map<int, seq<int>>)
    requires Expanding(scan, start, target, maxSteps, s0, depth0, trail0, done, u, step)
    requires scan(u) == Some(neighbors)
    ensures found ==>
              && TrailsOk(scan, start, s.parent, depth, trail) && target in depth && depth[target] == step + 1
              && IsShortest(scan, trail[target], start, target, maxSteps)
    ensures !found ==>
              && Expanding(scan, start, target, maxSteps, s, depth, trail, done, u, step)
              && ExpandedAt(scan, depth, u)
    ensures !found ==> forall v :: v in depth.Keys ==> v in depth0.Keys || Adjacent(scan, u, v)
  {
    found, s, depth, trail := false, s0, depth0, trail0;
    var i := 0;
    hide TrailsOk, QueueOk, NothingLost, Expanded, IsShortest, Joins;
    while i < |neighbors|
      invariant 0 <= i <= |neighbors|
      invariant Expanding(scan, start, target, maxSteps, s, depth, trail, done, u, step)
      invariant forall k :: 0 <= k < i ==> neighbors[k] in depth && depth[neighbors[k]] <= step + 1
      invariant forall v :: v in depth.Keys ==> v in depth0.Keys || Adjacent(scan, u, v)
    {
      var v := neighbors[i];
      if v !in s.visited {
        DiscoverTrails(scan, start, s, depth, trail, u, step, v);
        if v == target {
          DiscoveryIsShortest(scan, start, target, maxSteps, s, depth, trail, done, u, step);
          found, depth, trail := true, depth[v := step + 1], trail[v := trail[u] + [v]];
          s := s.(parent := s.parent[v := u]);
          return;
        }
        s, depth, trail := Record(scan, start, target, maxSteps, s, u, step, v, depth, trail, done);
      }
      i := i + 1;
    }
  }

  method Record(scan: Neighbors, ghost start: int, ghost target: int, ghost maxSteps: nat, s0: Search, u: int,
                step: nat,
                v: int, ghost depth0: map<int, nat>, ghost trail0: map<int, seq<int>>, ghost done: set<int>)
      returns (s: Search, ghost depth: map<int, nat>, ghost trail: map<int, seq<int>>)
    requires Expanding(scan, start, target, maxSteps, s0, depth0, trail0, done, u, step)
    requires Adjacent(scan, u, v) && v !in depth0 && v != target
    ensures Expanding(scan, start, target, maxSteps, s, depth, trail, done, u, step)
    ensures depth == depth0[v := step + 1]
  {
    DiscoverTrails(scan, start, s0, depth0, trail0, u, step, v);
    assert done + {u} <= depth0.Keys;
    DiscoverQueue(s0, depth0, done + {u}, maxSteps, u, step, v);
    DeeperStaysExpanded(scan, depth0, done, v, step + 1);
    s, depth, trail := Discover(s0, u, step, v), depth0[v := step + 1], trail0[v := trail0[u] + [v]];
  }

  /** What holds between two pops of the queue. */
  ghost predicate Between(scan: Neighbors, start: int, target: int, maxSteps: nat, s: Search,
                          depth: map<int, nat>, trail: map<int, seq<int>>, done: set<int>, level: nat) {
    && s.visited == depth.Keys == trail.Keys && target !in depth && done <= depth.Keys
    && TrailsOk(scan, start, s.parent, depth, trail)
    && Expanded(scan, depth, done) && QueueOk(s.queue, depth, done, level)
    && NothingLost(s.queue, depth, done, maxSteps)
    && (forall v :: v in depth ==> depth[v] <= level + 1)
    && (forall u :: u in done ==> depth[u] < maxSteps && depth[u] <= level)
  }

  lemma ExpandedAreAhead(scan: Neighbors, start: int, target: int, maxSteps: nat, s: Search,
                         depth: map<int, nat>, trail: map<int, seq<int>>, done: set<int>, u: int, step: nat)
    requires Expanding(scan, start, target, maxSteps, s, depth, trail, done, u, step)
    ensures AllAhead(scan, start, target, maxSteps, done + {u})
  {
    TargetIsFurther(scan, start, target, maxSteps, s, depth, trail, done, u, step);
    forall x | x in done + {u} ensures Ahead(scan, start, target, maxSteps, x) {
      assert TrailOk(scan, start, s.parent, depth, trail, x);
      assert NoneWithin(scan, start, target, |trail[x]| - 1);
    }
  }

  // ----- What a search that found the target, or emptied the queue, has expanded -----

  lemma WellAheadOfFound(scan: Neighbors, start: int, target: int, maxSteps: nat, s: Search, depth: map<int, nat>,
                         trail: map<int, seq<int>>, done: set<int>, u: int, step: nat, q: seq<int>, x: int)
    requires Expanding(scan, start, target, maxSteps, s, depth, trail, done, u, step)
    requires Joins(scan, q, start, target) && |q| == step + 2 && WellAhead(scan, start, target, maxSteps, x)
    ensures x in done
  {
    hide Expanding, IsPath;
    var p :| Joins(scan, p, start, x) && |p| - 1 < maxSteps && NoneWithin(scan, start, target, |p|);
    assert |p| - 1 < step;
    var j := LeavesWhileExpanding(scan, start, target, maxSteps, s, depth, trail, done, u, step, p, x);
    assert p[j] in done;
  }

  lemma WellAheadOfNothing(scan: Neighbors, start: int, target: int, maxSteps: nat, s: Search, depth: map<int, nat>,
                           trail: map<int, seq<int>>, done: set<int>, level: nat, x: int)
    requires Between(scan, start, target, maxSteps, s, depth, trail, done, level) && s.queue == []
    requires WellAhead(scan, start, target, maxSteps, x)
    ensures x in done
  {
    hide Between, IsPath, NoneWithin;
    var p :| Joins(scan, p, start, x) && |p| - 1 < maxSteps && NoneWithin(scan, start, target, |p|);
    var j := LeavesWhenEmpty(scan, start, target, maxSteps, s, depth, trail, done, level, p, x);
  }

  lemma LeavesWhenEmpty(scan: Neighbors, start: int, target: int, maxSteps: nat, s: Search, depth: map<int, nat>,
                        trail: map<int, seq<int>>, done: set<int>, level: nat, p: seq<int>, x: int) returns (j: nat)
    requires Between(scan, start, target, maxSteps, s, depth, trail, done, level) && s.queue == []
    requires Joins(scan, p, start, x)
    ensures j < |p| && p[j] in depth && depth[p[j]] <= j
    ensures j == |p| - 1 || p[j] !in done
    ensures p[j] !in done ==> maxSteps <= depth[p[j]]
  {
    j := Leaves(scan, depth, done, start, p);
    var v := p[j];
    hide TrailsOk, Expanded, IsPath, QueueOk;
    assert v in done || maxSteps <= depth[v];
  }

  /** A search that expanded all that is well ahead, within its budget, had nothing there to stop it. */
  lemma NothingStops(scan: Neighbors, start: int, target: int, maxSteps: nat, maxNodes: nat, depth: map<int, nat>,
                     done: set<int>)
    requires Expanded(scan, depth, done) && (maxNodes > 0 ==> |done| <= maxNodes)
    requires forall x :: WellAhead(scan, start, target, maxSteps, x) ==> x in done
    ensures forall e :: !SurelyStoppedBy(scan, start, target, maxSteps, maxNodes, e)
  {
    hide WellAhead;
    assert forall x :: x in done ==> ExpandedAt(scan, depth, x);
    forall us: set<int> | AllWellAhead(scan, start, target, maxSteps, us) ensures |us| <= |done| {
      forall x | x in us ensures x in done { assert WellAhead(scan, start, target, maxSteps, x); }
      assert done == us + (done - us);
    }
  }

  lemma FoundWasNotStopped(scan: Neighbors, start: int, target: int, maxSteps: nat, maxNodes: nat, s: Search,
                           depth: map<int, nat>, trail: map<int, seq<int>>, done: set<int>, u: int, step: nat,
                           q: seq<int>)
    requires Expanding(scan, start, target, maxSteps, s, depth, trail, done, u, step)
    requires Joins(scan, q, start, target) && |q| == step + 2 && (maxNodes > 0 ==> |done| <= maxNodes)
    ensures forall e :: !SurelyStoppedBy(scan, start, target, maxSteps, maxNodes, e)
  {
    forall x | WellAhead(scan, start, target, maxSteps, x) ensures x in done {
      WellAheadOfFound(scan, start, target, maxSteps, s, depth, trail, done, u, step, q, x);
    }
    hide SurelyStoppedBy, WellAhead;
    NothingStops(scan, start, target, maxSteps, maxNodes, depth, done);
  }

  lemma EmptyWasNotStopped(scan: Neighbors, start: int, target: int, maxSteps: nat, maxNodes: nat, s: Search,
                           depth: map<int, nat>, trail: map<int, seq<int>>, done: set<int>, level: nat)
    requires Between(scan, start, target, maxSteps, s, depth, trail, done, level) && s.queue == []
    requires maxNodes > 0 ==> |done| <= maxNodes
    ensures forall e :: !SurelyStoppedBy(scan, start, target, maxSteps, maxNodes, e)
  {
    forall x | WellAhead(scan, start, target, maxSteps, x) ensures x in done {
      WellAheadOfNothing(scan, start, target, maxSteps, s, depth, trail, done, level, x);
    }
    hide SurelyStoppedBy, WellAhead;
    NothingStops(scan, start, target, maxSteps, maxNodes, depth, done);
  }

  lemma StartWasNotStopped(scan: Neighbors, start: int, maxSteps: nat, maxNodes: nat)
    ensures forall e :: !SurelyStoppedBy(scan, start, start, maxSteps, maxNodes, e)
  {
    assert Joins(scan, [start], start, start);
    forall x ensures !WellAhead(scan, start, start, maxSteps, x) { }
    NothingStops(scan, start, start, maxSteps, maxNodes, map[], {});
  }

  lemma PopBeginsExpansion(scan: Neighbors, start: int, target: int, maxSteps: nat, s: Search,
            depth: map<int, nat>, trail: map<int, seq<int>>, done: set<int>, level: nat)
    requires Between(scan, start, target, maxSteps, s, depth, trail, done, level) && s.queue != []
    ensures var (u, step) := s.queue[0];
            var s' := s.(queue := s.queue[1..]);
            && u in depth && u !in done
            && if step >= maxSteps then Between(scan, start, target, maxSteps, s', depth, trail, done, level)
               else
                 && Expanding(scan, start, target, maxSteps, s', depth, trail, done, u, step)
                 && AllAhead(scan, start, target, maxSteps, done + {u})
  {
    hide TrailsOk, Expanded, Joins, AllAhead, QueueOk, NothingLost;
    var (u, step) := s.queue[0];
    PopQueue(s.queue, depth, done, maxSteps, level);
    if step < maxSteps {
      ExpandedAreAhead(scan, start, target, maxSteps, s.(queue := s.queue[1..]), depth, trail, done, u, step);
    }
  }

  lemma PopQueue(queue: seq<(int, nat)>, depth: map<int, nat>, done: set<int>, maxSteps: nat, level: nat)
    requires QueueOk(queue, depth, done, level) && NothingLost(queue, depth, done, maxSteps) && queue != []
    ensures var (u, step) := queue[0];
            && u in depth && depth[u] == step && u !in done && level <= step
            && QueueOk(queue[1..], depth, done + {u}, step)
            && NothingLost(queue[1..], depth, done + {u}, maxSteps)
            && (step >= maxSteps ==>
                  QueueOk(queue[1..], depth, done, level) && NothingLost(queue[1..], depth, done, maxSteps))
  {
    var (u, step) := queue[0];
    var rest := queue[1..];
    assert queue == [queue[0]] + rest;
    forall v | v in depth && v !in done && v != u && depth[v] < maxSteps ensures (v, depth[v]) in rest {
      assert (v, depth[v]) in queue;
    }
    forall i | 0 <= i < |rest| ensures rest[i].0 != u && step <= rest[i].1 {
      assert rest[i] == queue[i + 1];
    }
  }

  lemma ExpansionEnds(scan: Neighbors, start: int, target: int, maxSteps: nat, s: Search,
             depth: map<int, nat>, trail: map<int, seq<int>>, done: set<int>, u: int, step: nat)
    requires Expanding(scan, start, target, maxSteps, s, depth, trail, done, u, step) && ExpandedAt(scan, depth, u)
    ensures Between(scan, start, target, maxSteps, s, depth, trail, done + {u}, step)
  {
    hide TrailsOk, QueueOk, NothingLost, Joins;
  }

  lemma SearchBegins(scan: Neighbors, start: int, target: int, maxSteps: nat)
    requires start != target
    ensures Between(scan, start, target, maxSteps, Search(map[], [(start, 0)], {start}),
                    map[start := 0], map[start := [start]], {}, 0)
  {
    var queue: seq<(int, nat)> := [(start, 0)];
    assert queue[0] == (start, 0);
    assert Joins(scan, [start], start, start);
  }

  lemma QueueEmpty(scan: Neighbors, start: int, target: int, maxSteps: nat, s: Search,
                   depth: map<int, nat>, trail: map<int, seq<int>>, done: set<int>, level: nat)
    requires Between(scan, start, target, maxSteps, s, depth, trail, done, level) && s.queue == []
    ensures NoneWithin(scan, start, target, maxSteps)
  {
    assert target !in depth;
    hide Between;
    forall p | Joins(scan, p, start, target) ensures |p| - 1 > maxSteps {
      var j := LeavesWhenEmpty(scan, start, target, maxSteps, s, depth, trail, done, level, p, target);
      assert p[j] != target;
    }
  }

  method ReconstructPath(scan: Neighbors, parent: map<int, int>, start: int, target: int,
                         ghost depth: map<int, nat>, ghost trail: map<int, seq<int>>) returns (path: seq<int>)
    requires TrailsOk(scan, start, parent, depth, trail) && target in depth
    ensures path == trail[target]
  {
    path := [target];
    var curr := target;
    while curr != start
      invariant curr in depth && path != [] && path[0] == curr
      invariant trail[curr] + path[1..] == trail[target]
      decreases |trail[curr]|
    {
      assert TrailOk(scan, start, parent, depth, trail, curr);
      var before := path;
      curr := parent[curr];
      path := [curr] + path;
      assert trail[curr] + path[1..] == trail[before[0]] + before[1..];
    }
    assert TrailOk(scan, start, parent, depth, trail, start);
    assert trail[start] == [start];
    assert path == [start] + path[1..];
  }

  method FindShortestPath(scan: Neighbors, start: int, target: int, maxSteps: nat, maxNodes: nat,
                          ghost universe: set<int>)
      returns (r: Result<Option<seq<int>>, Failure>)
    requires start in universe && Contains(scan, universe)
    ensures r.Ok? && r.value.Some? ==> IsShortest(scan, r.value.value, start, target, maxSteps)
    ensures r.Ok? && r.value.None? ==> NoneWithin(scan, start, target, maxSteps)
    ensures r.Err? ==> BudgetOrEdge(scan, start, maxSteps, maxNodes, r.error)
    ensures r.Err? ==> StoppedBy(scan, start, target, maxSteps, maxNodes, r.error)
    ensures r.Ok? ==> forall e :: !SurelyStoppedBy(scan, start, target, maxSteps, maxNodes, e)
  {
    hide IsPath, Joins, Adjacent, Between, Expanding, TrailsOk, Expanded, ExpandedAt, IsShortest, NoneWithin, AllAhead,
      Contains, BudgetOrEdge, StoppedBy, SurelyStoppedBy;
    if start == target {
      StandingStill(scan, start, maxSteps);
      StartWasNotStopped(scan, start, maxSteps, maxNodes);
      return Ok(Some([start]));
    }
    var s := Search(map[], [(start, 0)], {start});
    ghost var depth, trail, done: set<int>, level: nat := map[start := 0], map[start := [start]], {}, 0;
    SearchBegins(scan, start, target, maxSteps);
    var nodes := 0;
    while s.queue != []
      invariant Between(scan, start, target, maxSteps, s, depth, trail, done, level)
      invariant nodes == |done| && depth.Keys <= universe && (maxNodes > 0 ==> nodes <= maxNodes)
      decreases |universe - done|, |s.queue|
    {
      var (u, step) := s.queue[0];
      PopBeginsExpansion(scan, start, target, maxSteps, s, depth, trail, done, level);
      s := s.(queue := s.queue[1..]);
      if step >= maxSteps {
        continue;
      }
      if maxNodes > 0 && nodes >= maxNodes {
        TooManyAhead(scan, start, target, maxSteps, maxNodes, done + {u});
        return Err(NodeBudget);
      }
      nodes := nodes + 1;
      var scanned := scan(u);
      if scanned.None? {
        UnreadableAhead(scan, start, target, maxSteps, maxNodes, done, u);
        return Err(InvalidEdge);
      }
      ghost var s0, depth0, trail0 := s, depth, trail;
      var found;
      found, s, depth, trail := Visit(scan, start, target, maxSteps, s, u, step, scanned.value, depth, trail, done);
      if found {
        TrailIsPath(scan, start, s.parent, depth, trail, target);
        FoundWasNotStopped(scan, start, target, maxSteps, maxNodes, s0, depth0, trail0, done, u, step, trail[target]);
        var path := ReconstructPath(scan, s.parent, start, target, depth, trail);
        return Ok(Some(path));
      }
      StaysInUniverse(scan, universe, u, depth0.Keys, depth.Keys);
      ExpansionEnds(scan, start, target, maxSteps, s, depth, trail, done, u, step);
      FewerLeft(universe, done, u);
      done, level := done + {u}, step;
    }
    QueueEmpty(scan, start, target, maxSteps, s, depth, trail, done, level);
    EmptyWasNotStopped(scan, start, target, maxSteps, maxNodes, s, depth, trail, done, level);
    r := Ok(None);
  }

  lemma StandingStill(scan: Neighbors, start: int, maxSteps: nat)
    ensures IsShortest(scan, [start], start, start, maxSteps)
  {
    assert Joins(scan, [start], start, start);
  }

  lemma TrailIsPath(scan: Neighbors, start: int, parent: map<int, int>, depth: map<int, nat>, trail: map<int, seq<int>>,
                    v: int)
    requires TrailsOk(scan, start, parent, depth, trail) && v in depth
    ensures v in trail && Joins(scan, trail[v], start, v) && |trail[v]| == depth[v] + 1
  {
    assert TrailOk(scan, start, parent, depth, trail, v);
  }

  lemma TooManyAhead(scan: Neighbors, start: int, target: int, maxSteps: nat, maxNodes: nat, us: set<int>)
    requires maxNodes > 0 && |us| > maxNodes && AllAhead(scan, start, target, maxSteps, us)
    ensures StoppedBy(scan, start, target, maxSteps, maxNodes, NodeBudget)
    ensures BudgetOrEdge(scan, start, maxSteps, maxNodes, NodeBudget)
  {
    hide AllAhead;
    StopIsNear(scan, start, target, maxSteps, maxNodes, NodeBudget);
  }

  lemma UnreadableAhead(scan: Neighbors, start: int, target: int, maxSteps: nat, maxNodes: nat, done: set<int>, u: int)
    requires AllAhead(scan, start, target, maxSteps, done + {u}) && scan(u).None?
    ensures StoppedBy(scan, start, target, maxSteps, maxNodes, InvalidEdge)
    ensures BudgetOrEdge(scan, start, maxSteps, maxNodes, InvalidEdge)
  {
    assert Ahead(scan, start, target, maxSteps, u);
    StopIsNear(scan, start, target, maxSteps, maxNodes, InvalidEdge);
  }
}
