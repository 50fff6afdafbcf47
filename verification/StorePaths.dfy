/** The hop searches run over a store, and what the store's edge set makes of them. */
module StorePaths {
  import opened Prelude
  import opened Bytes
  import opened GraphData
  import opened Hops
  import opened EdgeScan
  import ShortestPath
  import AllShortestPaths

  /** The neighbour lists that a search over `rows` reads. */
  function ScanOf(rows: seq<Row>, space: string, types: set<string>, bidirect: bool): Neighbors {
    v => NeighborVids(rows, space, v, types, bidirect)
  }

  // ===== Every search over a store is finite =====

  ghost function Ends(rows: seq<Row>): set<int> {
    (set row | row in rows && row.1.Some? :: row.1.value.dst) +
    (set row | row in rows && row.1.Some? :: row.1.value.src)
  }

  lemma {:induction false} AddedAreEnds(acc: Option<seq<int>>, rows: seq<Row>, types: set<string>, forward: bool,
                                        bound: set<int>)
    requires acc.Some? ==> forall v :: v in acc.value ==> v in bound
    requires Ends(rows) <= bound
    ensures var out := AddNeighbors(acc, rows, types, forward);
            out.Some? ==> forall v :: v in out.value ==> v in bound
    decreases |rows|
  {
    if rows == [] {
    } else {
      var first, rest := rows[0], rows[1..];
      assert first in rows && (forall row :: row in rest ==> row in rows);
      assert Ends(rest) <= Ends(rows);
      assert first.1.Some? ==> first.1.value.dst in Ends(rows) && first.1.value.src in Ends(rows);
      var acc' := AddNeighbor(acc, first, types, forward);
      assert acc'.Some? ==> forall v :: v in acc'.value ==> v in bound;
      AddedAreEnds(acc', rest, types, forward, bound);
    }
  }

  lemma ScanStaysInside(rows: seq<Row>, prefix: string)
    ensures Ends(ScanPrefix(rows, prefix)) <= Ends(rows)
  {
    forall row | row in ScanPrefix(rows, prefix) ensures row in rows { ScanPrefixExact(rows, prefix, row); }
  }

  lemma SearchIsFinite(rows: seq<Row>, space: string, types: set<string>, bidirect: bool, start: int)
    ensures Contains(ScanOf(rows, space, types, bidirect), Ends(rows) + {start})
  {
    var scan, universe := ScanOf(rows, space, types, bidirect), Ends(rows) + {start};
    forall u, v | u in universe && Adjacent(scan, u, v) ensures v in universe {
      var forward := ScanPrefix(rows, Keys.EdgeSrcPrefix(space, u));
      var reverse := ScanPrefix(rows, Keys.InEdgeDstPrefix(space, u));
      ScanStaysInside(rows, Keys.EdgeSrcPrefix(space, u));
      ScanStaysInside(rows, Keys.InEdgeDstPrefix(space, u));
      AddedAreEnds(Some([]), forward, types, true, Ends(rows));
      AddedAreEnds(AddNeighbors(Some([]), forward, types, true), reverse, types, false, Ends(rows));
    }
  }

  lemma {:induction false} AddingKeepsDistinct(acc: Option<seq<int>>, rows: seq<Row>, types: set<string>, forward: bool)
    requires acc.Some? ==> NoDup(acc.value)
    ensures var out := AddNeighbors(acc, rows, types, forward); out.Some? ==> NoDup(out.value)
    decreases |rows|
  {
    if rows == [] {
    } else {
      AddingKeepsDistinct(AddNeighbor(acc, rows[0], types, forward), rows[1..], types, forward);
    }
  }

  lemma ScansAreDistinct(rows: seq<Row>, space: string, types: set<string>, bidirect: bool)
    ensures AllShortestPaths.Distinct(ScanOf(rows, space, types, bidirect))
  {
    var scan := ScanOf(rows, space, types, bidirect);
    forall u | scan(u).Some? ensures NoDup(scan(u).value) {
      var forward := ScanPrefix(rows, Keys.EdgeSrcPrefix(space, u));
      AddingKeepsDistinct(Some([]), forward, types, true);
      AddingKeepsDistinct(AddNeighbors(Some([]), forward, types, true),
                          ScanPrefix(rows, Keys.InEdgeDstPrefix(space, u)), types, false);
    }
  }

  // ===== The searches, over any store =====

  method FindShortest(rows: seq<Row>, space: string, start: int, target: int, types: set<string>, maxSteps: nat,
                      bidirect: bool, maxNodes: nat) returns (r: Result<Option<seq<int>>, Failure>)
    ensures r.Ok? && r.value.Some? ==>
              IsShortest(ScanOf(rows, space, types, bidirect), r.value.value, start, target, maxSteps)
    ensures r.Ok? && r.value.None? ==> NoneWithin(ScanOf(rows, space, types, bidirect), start, target, maxSteps)
    ensures r.Err? ==>
              BudgetOrEdge(ScanOf(rows, space, types, bidirect), start, maxSteps, maxNodes, r.error)
    ensures r.Err? ==>
              StoppedBy(ScanOf(rows, space, types, bidirect), start, target, maxSteps, maxNodes, r.error)
    ensures r.Ok? ==>
              forall e :: !SurelyStoppedBy(ScanOf(rows, space, types, bidirect), start, target, maxSteps, maxNodes, e)
  {
    SearchIsFinite(rows, space, types, bidirect, start);
    r := ShortestPath.FindShortestPath(ScanOf(rows, space, types, bidirect), start, target, maxSteps, maxNodes,
                                       Ends(rows) + {start});
  }

  method FindAllShortest(rows: seq<Row>, space: string, start: int, target: int, types: set<string>, maxSteps: nat,
                         bidirect: bool, maxNodes: nat, maxPaths: nat) returns (r: Result<seq<seq<int>>, Failure>)
    ensures r.Ok? ==>
              AllShortestPaths.ListsShortest(ScanOf(rows, space, types, bidirect), start, target, maxSteps, r.value)
    ensures maxPaths > 0 && (r.Ok? || r == Err(PathBudget)) ==>
              (r == Err(PathBudget) <==>
               AllShortestPaths.ManyShortest(ScanOf(rows, space, types, bidirect), start, target, maxSteps, maxPaths))
    ensures maxPaths == 0 ==> r != Err(PathBudget)
    ensures r.Err? && r.error != PathBudget ==>
              BudgetOrEdge(ScanOf(rows, space, types, bidirect), start, maxSteps, maxNodes, r.error)
    ensures r.Err? && r.error != PathBudget ==>
              StoppedBy(ScanOf(rows, space, types, bidirect), start, target, maxSteps, maxNodes, r.error)
    ensures r.Ok? || r == Err(PathBudget) ==>
              forall e :: !StoppedBy(ScanOf(rows, space, types, bidirect), start, target, maxSteps, maxNodes, e)
  {
    SearchIsFinite(rows, space, types, bidirect, start);
    ScansAreDistinct(rows, space, types, bidirect);
    r := AllShortestPaths.FindAllShortestPaths(ScanOf(rows, space, types, bidirect), start, target, maxSteps, maxNodes,
                                               maxPaths, Ends(rows) + {start});
  }

  // ===== On a store that holds an edge set =====

  /** A path of the edge set itself. */
  ghost predicate IsEdgePath(edges: set<EdgeData>, types: set<string>, bidirect: bool, p: seq<int>) {
    p != [] && forall i {:trigger p[i]} :: 0 <= i < |p| - 1 ==> Linked(edges, types, bidirect, p[i], p[i + 1])
  }

  /** The search's paths are the paths of the edge set. */
  lemma PathsAreEdgePaths(rows: seq<Row>, space: string, edges: set<EdgeData>, types: set<string>, bidirect: bool,
                          p: seq<int>)
    requires Holds(rows, space, edges) && p != [] && IsI64(p[0])
    ensures IsPath(ScanOf(rows, space, types, bidirect), p) <==> IsEdgePath(edges, types, bidirect, p)
  {
    var scan := ScanOf(rows, space, types, bidirect);
    forall i | 0 <= i < |p| - 1 && IsI64(p[i])
      ensures Adjacent(scan, p[i], p[i + 1]) <==> Linked(edges, types, bidirect, p[i], p[i + 1])
    {
      NeighborsExact(rows, space, edges, p[i], types, bidirect);
    }
    if IsPath(scan, p) {
      StaysI64(rows, space, edges, types, bidirect, p, |p|);
    } else if IsEdgePath(edges, types, bidirect, p) {
      EdgePathStaysI64(rows, space, edges, types, bidirect, p, |p|);
    }
  }

  lemma LinkedIsI64(rows: seq<Row>, space: string, edges: set<EdgeData>, types: set<string>, bidirect: bool, u: int,
                    v: int)
    requires Holds(rows, space, edges) && Linked(edges, types, bidirect, u, v)
    ensures IsI64(v)
  {
  }

  lemma NeighborIsI64(rows: seq<Row>, space: string, edges: set<EdgeData>, types: set<string>, bidirect: bool, u: int,
                      v: int)
    requires Holds(rows, space, edges) && IsI64(u) && Adjacent(ScanOf(rows, space, types, bidirect), u, v)
    ensures IsI64(v)
  {
    NeighborsExact(rows, space, edges, u, types, bidirect);
    LinkedIsI64(rows, space, edges, types, bidirect, u, v);
  }

  lemma {:induction false} StaysI64(rows: seq<Row>, space: string, edges: set<EdgeData>, types: set<string>,
                                    bidirect: bool,
                                    p: seq<int>, n: nat)
    requires Holds(rows, space, edges) && p != [] && IsI64(p[0]) && n <= |p|
    requires IsPath(ScanOf(rows, space, types, bidirect), p)
    ensures forall i :: 0 <= i < n ==> IsI64(p[i])
  {
    hide Holds, ScanOf, Adjacent;
    if n > 1 {
      StaysI64(rows, space, edges, types, bidirect, p, n - 1);
      assert Adjacent(ScanOf(rows, space, types, bidirect), p[n - 2], p[n - 1]);
      NeighborIsI64(rows, space, edges, types, bidirect, p[n - 2], p[n - 1]);
    }
  }

  lemma {:induction false} EdgePathStaysI64(rows: seq<Row>, space: string, edges: set<EdgeData>, types: set<string>,
                                            bidirect: bool, p: seq<int>, n: nat)
    requires Holds(rows, space, edges) && p != [] && IsI64(p[0]) && n <= |p|
    requires IsEdgePath(edges, types, bidirect, p)
    ensures forall i :: 0 <= i < n ==> IsI64(p[i])
  {
    hide Holds, Linked;
    if n > 1 {
      EdgePathStaysI64(rows, space, edges, types, bidirect, p, n - 1);
      assert Linked(edges, types, bidirect, p[n - 2], p[n - 1]);
      LinkedIsI64(rows, space, edges, types, bidirect, p[n - 2], p[n - 1]);
    }
  }

  /** On a store that holds an edge set a hop search fails only by its budget. */
  lemma OnlyBudgetFails(rows: seq<Row>, space: string, edges: set<EdgeData>, types: set<string>, bidirect: bool,
                        start: int, maxSteps: nat, maxNodes: nat, e: Failure)
    requires Holds(rows, space, edges) && IsI64(start)
    requires BudgetOrEdge(ScanOf(rows, space, types, bidirect), start, maxSteps, maxNodes, e)
    ensures e == NodeBudget
  {
    hide Holds, Adjacent, NeighborVids, Linked;
    var scan := ScanOf(rows, space, types, bidirect);
    if e == InvalidEdge {
      var u :| Near(scan, start, u, maxSteps) && scan(u).None?;
      var p :| Joins(scan, p, start, u) && |p| - 1 < maxSteps;
      StaysI64(rows, space, edges, types, bidirect, p, |p|);
      NeighborsExact(rows, space, edges, u, types, bidirect);
    }
  }

  // ===== BIDIRECT is symmetric =====

  lemma LinkedIsSymmetric(edges: set<EdgeData>, types: set<string>, u: int, v: int)
    ensures Linked(edges, types, true, u, v) ==> Linked(edges, types, true, v, u)
  {
    if Linked(edges, types, true, u, v) {
      var e :| e in edges && Selected(types, Some(e.edgeType)) && Spans(e, true, u, v);
      assert Spans(e, true, v, u);
    }
  }

  lemma ReversedPath(rows: seq<Row>, space: string, edges: set<EdgeData>, types: set<string>, p: seq<int>, a: int,
                     b: int)
    requires Holds(rows, space, edges) && IsI64(a) && IsI64(b)
    requires Joins(ScanOf(rows, space, types, true), p, a, b)
    ensures Joins(ScanOf(rows, space, types, true), Reverse(p), b, a)
  {
    var r := Reverse(p);
    PathsAreEdgePaths(rows, space, edges, types, true, p);
    forall i | 0 <= i < |r| - 1 ensures Linked(edges, types, true, r[i], r[i + 1]) {
      var k := |p| - 2 - i;
      assert Linked(edges, types, true, p[k], p[k + 1]);
      LinkedIsSymmetric(edges, types, p[k], p[k + 1]);
    }
    PathsAreEdgePaths(rows, space, edges, types, true, r);
  }

  /** A shortest BIDIRECT path, reversed, is a shortest path the other way: the lengths agree. */
  lemma BidirectIsSymmetric(rows: seq<Row>, space: string, edges: set<EdgeData>, types: set<string>, p: seq<int>,
                            a: int, b: int,
                            maxSteps: nat)
    requires Holds(rows, space, edges) && IsI64(a) && IsI64(b)
    requires IsShortest(ScanOf(rows, space, types, true), p, a, b, maxSteps)
    ensures IsShortest(ScanOf(rows, space, types, true), Reverse(p), b, a, maxSteps)
  {
    var scan := ScanOf(rows, space, types, true);
    ReversedPath(rows, space, edges, types, p, a, b);
    forall other | Joins(scan, other, b, a) ensures |p| <= |other| {
      ReversedPath(rows, space, edges, types, other, b, a);
    }
  }
}
