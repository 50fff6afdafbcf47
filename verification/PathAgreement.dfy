/** The weighted search over a store, and its agreement with the hop search when no edge carries a weight. */
module PathAgreement {
  import opened Prelude
  import opened Bytes
  import opened GraphData
  import opened EdgeScan
  import opened StorePaths
  import Hops
  import W = WeightedSearch

  function EntryOf(row: Row): W.Entry { W.Entry(EdgeTypeFromKey(row.0), DecodeQueryEdge(row)) }

  function EntriesOf(rows: seq<Row>): (es: seq<W.Entry>)
    ensures |es| == |rows| && forall i :: 0 <= i < |rows| ==> es[i] == EntryOf(rows[i])
  {
    if rows == [] then [] else [EntryOf(rows[0])] + EntriesOf(rows[1..])
  }

  /** The weighted search over `rows`. */
  function StoreQuery(rows: seq<Row>, space: string, types: set<string>, weightProp: string, arith: W.Arithmetic,
                      start: int, target: int, maxSteps: Option<nat>, maxNodes: nat): W.Query {
    W.Query(u => EntriesOf(ScanAt(rows, space, u, true)), types, weightProp, arith, start, target, maxSteps, maxNodes)
  }

  lemma WeightedSearchIsFinite(rows: seq<Row>, space: string, types: set<string>, weightProp: string,
                               arith: W.Arithmetic,
                               start: int, target: int, maxSteps: Option<nat>, maxNodes: nat)
    ensures W.Contains(StoreQuery(rows, space, types, weightProp, arith, start, target, maxSteps, maxNodes),
                       Ends(rows) + {start})
  {
    var q := StoreQuery(rows, space, types, weightProp, arith, start, target, maxSteps, maxNodes);
    forall u, j | 0 <= j < |q.scan(u)| && W.Classify(q, q.scan(u)[j]).Hop?
      ensures W.Classify(q, q.scan(u)[j]).dst in Ends(rows)
    {
      var row := ScanAt(rows, space, u, true)[j];
      ScanPrefixExact(rows, Keys.EdgeSrcPrefix(space, u), row);
      assert row in ScanAt(rows, space, u, true);
      assert DecodeQueryEdge(row).Some? && row.1.value.dst == W.Classify(q, q.scan(u)[j]).dst;
    }
  }

  // ===== On a store that holds an edge set =====

  /** The query reads the forward edges of `rows`. */
  ghost predicate Reads(q: W.Query, rows: seq<Row>, space: string) {
    forall u :: q.scan(u) == EntriesOf(ScanAt(rows, space, u, true))
  }

  /** What the search makes of an intact, selected edge. */
  function MoveOf(q: W.Query, e: EdgeData): W.Move {
    var w := W.WeightOf(q, e);
    if w.None? || w.value < 0.0 then W.BadWeight else W.Hop(e.dst, w.value)
  }

  ghost predicate OfferedBy(edges: set<EdgeData>, q: W.Query, u: int, m: W.Move) {
    exists e :: e in edges && e.src == u && Selected(q.types, Some(e.edgeType)) && MoveOf(q, e) == m
  }

  lemma IntactEntry(q: W.Query, row: Row, e: EdgeData)
    requires DecodeQueryEdge(row) == Some(e) && EdgeTypeFromKey(row.0) == Some(e.edgeType)
    ensures W.Classify(q, EntryOf(row)) == if Selected(q.types, Some(e.edgeType)) then MoveOf(q, e) else W.Skipped
  {
  }

  /** Only intact edges of the chosen types are offered, each with its own weight. */
  lemma OffersExactly(rows: seq<Row>, space: string, edges: set<EdgeData>, q: W.Query, u: int, m: W.Move)
    requires Holds(rows, space, edges) && IsI64(u) && m != W.Skipped && Reads(q, rows, space)
    ensures W.Offers(q, u, m) <==> OfferedBy(edges, q, u, m)
  {
    hide Holds, ScanAt, DecodeQueryEdge, EdgeTypeFromKey, RowOf, W.Classify, MoveOf, Selected, EntryOf;
    var scanned := ScanAt(rows, space, u, true);
    ScannedEdges(rows, space, edges, u, true);
    assert q.scan(u) == EntriesOf(scanned);
    if W.Offers(q, u, m) {
      var j :| 0 <= j < |q.scan(u)| && W.Classify(q, q.scan(u)[j]) == m;
      var row := scanned[j];
      assert row in scanned;
      var e :| e in edges && u == Far(e, false) && row == RowOf(space, e, true);
      IntactEntry(q, row, e);
      assert e in edges && e.src == u && Selected(q.types, Some(e.edgeType)) && MoveOf(q, e) == m;
    }
    if OfferedBy(edges, q, u, m) {
      var e :| e in edges && e.src == u && Selected(q.types, Some(e.edgeType)) && MoveOf(q, e) == m;
      assert Far(e, false) == u;
      var row := RowOf(space, e, true);
      var j :| 0 <= j < |scanned| && scanned[j] == row;
      IntactEntry(q, row, e);
      assert W.Classify(q, q.scan(u)[j]) == m;
    }
  }

  /** A store that holds an edge set is never found corrupt. */
  lemma NeverCorrupt(rows: seq<Row>, space: string, edges: set<EdgeData>, q: W.Query, u: int)
    requires Holds(rows, space, edges) && IsI64(u) && Reads(q, rows, space)
    ensures !W.Offers(q, u, W.Corrupt)
  {
    OffersExactly(rows, space, edges, q, u, W.Corrupt);
  }

  /** Every hop of a walk is one of the stored edges, so walks stay in the range of vids. */
  lemma WalkStaysI64(rows: seq<Row>, space: string, edges: set<EdgeData>, q: W.Query, w: W.Walk)
    requires Holds(rows, space, edges) && Reads(q, rows, space) && IsI64(q.start) && W.IsWalk(q, w)
    ensures IsI64(W.End(q, w))
  {
    if w.Then? {
      WalkStaysI64(rows, space, edges, q, w.prior);
      OffersExactly(rows, space, edges, q, W.End(q, w.prior), w.hop);
      hide W.Offers, Selected, Reads;
      var e :| e in edges && e.src == W.End(q, w.prior) && Selected(q.types, Some(e.edgeType)) && MoveOf(q, e) == w.hop;
      assert IsEdge(e);
    }
  }

  // ----- Weights -----

  /** The edge weighs `x`: its weight property as a number, or 1.0 if it has none that is one. */
  ghost predicate Weighs(q: W.Query, e: EdgeData, x: real) {
    && x >= 0.0
    && if q.weightProp !in e.properties || e.properties[q.weightProp] == Other then x == 1.0
       else
         || e.properties[q.weightProp] == Float(x)
         || (e.properties[q.weightProp].Int? && x == q.arith.ofInt(e.properties[q.weightProp].i))
  }

  /** The weight property is a number, and negative or not finite. */
  ghost predicate WeighsBadly(q: W.Query, e: EdgeData) {
    q.weightProp in e.properties &&
    var p := e.properties[q.weightProp];
    p == FloatNotFinite || (p.Float? && p.number < 0.0) || (p.Int? && q.arith.ofInt(p.i) < 0.0)
  }

  lemma MoveExactly(q: W.Query, e: EdgeData, v: int, x: real)
    ensures MoveOf(q, e) == W.Hop(v, x) <==> e.dst == v && Weighs(q, e, x)
    ensures MoveOf(q, e) == W.BadWeight <==> WeighsBadly(q, e)
  {
  }

  /** The edge is one of the store's, of a chosen type, and weighs `x`. */
  ghost predicate IsLeg(edges: set<EdgeData>, q: W.Query, e: EdgeData, x: real) {
    e in edges && (q.types == {} || e.edgeType in q.types) && Weighs(q, e, x)
  }

  /** The hops offered at a vertex are the edges that leave it, with the weight their property gives. */
  lemma HopsAreLegs(rows: seq<Row>, space: string, edges: set<EdgeData>, q: W.Query, u: int, v: int, x: real)
    requires Holds(rows, space, edges) && IsI64(u) && Reads(q, rows, space)
    ensures W.Offers(q, u, W.Hop(v, x)) <==> exists e :: IsLeg(edges, q, e, x) && e.src == u && e.dst == v
  {
    hide Holds, Reads, W.Offers, MoveOf, Weighs;
    OffersExactly(rows, space, edges, q, u, W.Hop(v, x));
    forall e: EdgeData ensures MoveOf(q, e) == W.Hop(v, x) <==> e.dst == v && Weighs(q, e, x) {
      MoveExactly(q, e, v, x);
    }
    if e :| IsLeg(edges, q, e, x) && e.src == u && e.dst == v {
      assert Selected(q.types, Some(e.edgeType)) && MoveOf(q, e) == W.Hop(v, x);
    }
  }

  /** A bad weight is met at a vertex exactly if a chosen edge that leaves it has one. */
  lemma BadWeightsExactly(rows: seq<Row>, space: string, edges: set<EdgeData>, q: W.Query, u: int)
    requires Holds(rows, space, edges) && IsI64(u) && Reads(q, rows, space)
    ensures W.Offers(q, u, W.BadWeight) <==>
              exists e :: e in edges && e.src == u && (q.types == {} || e.edgeType in q.types) && WeighsBadly(q, e)
  {
    hide Holds, Reads, W.Offers, MoveOf, WeighsBadly;
    OffersExactly(rows, space, edges, q, u, W.BadWeight);
    forall e: EdgeData ensures MoveOf(q, e) == W.BadWeight <==> WeighsBadly(q, e) {
      MoveExactly(q, e, 0, 0.0);
    }
    if e :| e in edges && e.src == u && (q.types == {} || e.edgeType in q.types) && WeighsBadly(q, e) {
      assert Selected(q.types, Some(e.edgeType)) && MoveOf(q, e) == W.BadWeight;
    }
  }

  // ----- Routes: sequences of edges with their weights -----

  ghost predicate IsRoute(edges: set<EdgeData>, q: W.Query, es: seq<EdgeData>, xs: seq<real>, a: int, b: int) {
    && |xs| == |es| && (forall i :: 0 <= i < |es| ==> IsLeg(edges, q, es[i], xs[i]))
    && (forall i {:trigger es[i]} :: 0 <= i < |es| - 1 ==> es[i].dst == es[i + 1].src)
    && if es == [] then a == b else es[0].src == a && es[|es| - 1].dst == b
  }

  /** The weights added up from the left. */
  ghost function Sum(arith: W.Arithmetic, xs: seq<real>): real {
    if xs == [] then 0.0 else arith.plus(Sum(arith, xs[..|xs| - 1]), xs[|xs| - 1])
  }

  /** The vertices of a route. */
  ghost function Visits(a: int, es: seq<EdgeData>): seq<int> { [a] + seq(|es|, i requires 0 <= i < |es| => es[i].dst) }

  lemma SumOneMore(arith: W.Arithmetic, xs: seq<real>, x: real)
    ensures Sum(arith, xs + [x]) == arith.plus(Sum(arith, xs), x)
  {
    assert (xs + [x])[..|xs|] == xs;
  }

  lemma VisitsOneMore(a: int, es: seq<EdgeData>, e: EdgeData)
    ensures Visits(a, es + [e]) == Visits(a, es) + [e.dst]
  {
  }

  lemma RouteOneMore(edges: set<EdgeData>, q: W.Query, es: seq<EdgeData>, xs: seq<real>, a: int, b: int, e: EdgeData,
                     x: real)
    requires IsRoute(edges, q, es, xs, a, b) && IsLeg(edges, q, e, x) && e.src == b
    ensures IsRoute(edges, q, es + [e], xs + [x], a, e.dst)
    ensures Sum(q.arith, xs + [x]) == q.arith.plus(Sum(q.arith, xs), x)
    ensures Visits(a, es + [e]) == Visits(a, es) + [e.dst]
  {
    hide IsLeg, Sum, Visits;
    SumOneMore(q.arith, xs, x);
    VisitsOneMore(a, es, e);
    var all := es + [e];
    forall i | 0 <= i < |all| - 1 ensures all[i].dst == all[i + 1].src {
      if i < |es| - 1 { assert es[i].dst == es[i + 1].src; }
    }
  }

  lemma RouteOneLess(edges: set<EdgeData>, q: W.Query, es: seq<EdgeData>, xs: seq<real>, a: int, b: int)
    requires IsRoute(edges, q, es, xs, a, b) && es != []
    ensures var n := |es| - 1;
            IsRoute(edges, q, es[..n], xs[..n], a, es[n].src) && IsLeg(edges, q, es[n], xs[n]) && es[n].dst == b
  {
    hide IsLeg;
    var n := |es| - 1;
    if n > 0 { assert es[n - 1].dst == es[n - 1 + 1].src; }
    forall i | 0 <= i < n - 1 ensures es[..n][i].dst == es[..n][i + 1].src {
      assert es[i].dst == es[i + 1].src;
    }
  }

  lemma {:induction false} WalkIsRoute(rows: seq<Row>, space: string, edges: set<EdgeData>, q: W.Query, w: W.Walk)
      returns (es: seq<EdgeData>, xs: seq<real>)
    requires Holds(rows, space, edges) && Reads(q, rows, space) && IsI64(q.start) && W.IsGraphWalk(q, w)
    ensures IsRoute(edges, q, es, xs, q.start, W.End(q, w)) && |es| == W.Length(w) && IsI64(W.End(q, w))
    ensures Sum(q.arith, xs) == W.Cost(q, w) && Visits(q.start, es) == W.Vertices(q, w)
  {
    hide Holds, Reads, W.Offers, Weighs, IsRoute, Visits;
    match w
    case Here =>
      es, xs := [], [];
      NoLegs(edges, q);
    case Then(prior, h) =>
      es, xs := WalkIsRoute(rows, space, edges, q, prior);
      HopsAreLegs(rows, space, edges, q, W.End(q, prior), h.dst, h.weight);
      var e :| IsLeg(edges, q, e, h.weight) && e.src == W.End(q, prior) && e.dst == h.dst;
      RouteOneMore(edges, q, es, xs, q.start, W.End(q, prior), e, h.weight);
      StoredEndsAreI64(rows, space, edges, e);
      es, xs := es + [e], xs + [h.weight];
  }

  lemma NoLegs(edges: set<EdgeData>, q: W.Query)
    ensures IsRoute(edges, q, [], [], q.start, q.start) && Visits(q.start, []) == [q.start]
  {
  }

  lemma StoredEndsAreI64(rows: seq<Row>, space: string, edges: set<EdgeData>, e: EdgeData)
    requires Holds(rows, space, edges) && e in edges
    ensures IsI64(e.src) && IsI64(e.dst)
  {
  }

  lemma LegIsStored(rows: seq<Row>, space: string, edges: set<EdgeData>, q: W.Query, e: EdgeData, x: real)
    requires Holds(rows, space, edges) && IsLeg(edges, q, e, x)
    ensures IsI64(e.src) && IsI64(e.dst)
  {
    hide Holds, Weighs;
    StoredEndsAreI64(rows, space, edges, e);
  }

  lemma RouteShape(edges: set<EdgeData>, q: W.Query, es: seq<EdgeData>, xs: seq<real>, a: int, b: int)
    requires IsRoute(edges, q, es, xs, a, b)
    ensures |xs| == |es| && (es == [] ==> a == b)
  {
  }

  lemma {:induction false} RouteIsWalk(rows: seq<Row>, space: string, edges: set<EdgeData>, q: W.Query,
                                       es: seq<EdgeData>, xs: seq<real>, b: int) returns (w: W.Walk)
    requires Holds(rows, space, edges) && Reads(q, rows, space) && IsI64(q.start)
    requires IsRoute(edges, q, es, xs, q.start, b)
    ensures W.IsGraphWalk(q, w) && W.Length(w) == |es| && W.End(q, w) == b && W.Cost(q, w) == Sum(q.arith, xs)
    ensures IsI64(b)
    decreases |es|
  {
    hide Holds, Reads, W.Offers, Weighs, IsRoute, IsLeg;
    RouteShape(edges, q, es, xs, q.start, b);
    if es == [] {
      w := W.Here;
    } else {
      RouteOneLess(edges, q, es, xs, q.start, b);
      var n := |es| - 1;
      var prior := RouteIsWalk(rows, space, edges, q, es[..n], xs[..n], es[n].src);
      HopsAreLegs(rows, space, edges, q, es[n].src, es[n].dst, xs[n]);
      LegIsStored(rows, space, edges, q, es[n], xs[n]);
      w := W.Then(prior, W.Hop(b, xs[n]));
    }
  }

  ghost predicate WithinSteps(q: W.Query, n: nat) { q.maxSteps.Some? ==> n <= q.maxSteps.value }

  /** The answer is a route from start to target within the bound, and no such route weighs less. */
  ghost predicate IsLightest(edges: set<EdgeData>, q: W.Query, path: seq<int>, cost: real) {
    && (exists es, xs :: IsRoute(edges, q, es, xs, q.start, q.target) && WithinSteps(q, |es|) &&
                         path == Visits(q.start, es) && cost == Sum(q.arith, xs))
    && forall es, xs :: IsRoute(edges, q, es, xs, q.start, q.target) && WithinSteps(q, |es|) ==>
         cost <= Sum(q.arith, xs)
  }

  ghost predicate NoRoute(edges: set<EdgeData>, q: W.Query) {
    forall es, xs :: IsRoute(edges, q, es, xs, q.start, q.target) ==> !WithinSteps(q, |es|)
  }

  /** On a store that holds an edge set, cheapest over walks is lightest over routes. */
  lemma CheapestIsLightest(rows: seq<Row>, space: string, edges: set<EdgeData>, q: W.Query, w: W.Walk)
    requires Holds(rows, space, edges) && Reads(q, rows, space) && IsI64(q.start) && q.arith.Lawful()
    requires W.Cheapest(q, w)
    ensures IsLightest(edges, q, W.Vertices(q, w), W.Cost(q, w))
  {
    hide IsRoute, W.Cheapest, Visits, Sum, Holds, Reads, W.Arithmetic.Lawful, W.Vertices, W.Cost;
    var es, xs := CheapestRoute(rows, space, edges, q, w);
    forall es', xs' | IsRoute(edges, q, es', xs', q.start, q.target) && WithinSteps(q, |es'|)
      ensures W.Cost(q, w) <= Sum(q.arith, xs')
    {
      NoRouteIsLighter(rows, space, edges, q, w, es', xs');
    }
  }

  lemma CheapestRoute(rows: seq<Row>, space: string, edges: set<EdgeData>, q: W.Query, w: W.Walk)
      returns (es: seq<EdgeData>, xs: seq<real>)
    requires Holds(rows, space, edges) && Reads(q, rows, space) && IsI64(q.start) && q.arith.Lawful()
    requires W.Cheapest(q, w)
    ensures IsRoute(edges, q, es, xs, q.start, q.target) && WithinSteps(q, |es|)
    ensures W.Vertices(q, w) == Visits(q.start, es) && W.Cost(q, w) == Sum(q.arith, xs)
  {
    W.WalkIsGraphWalk(q, w);
    hide Holds, Reads, IsRoute, W.IsGraphWalk, W.IsWalk, W.Vertices, W.Cost, Visits, W.Arithmetic.Lawful;
    es, xs := WalkIsRoute(rows, space, edges, q, w);
  }

  lemma NoRouteIsLighter(rows: seq<Row>, space: string, edges: set<EdgeData>, q: W.Query, w: W.Walk,
                         es: seq<EdgeData>, xs: seq<real>)
    requires Holds(rows, space, edges) && Reads(q, rows, space) && IsI64(q.start) && W.Cheapest(q, w)
    requires IsRoute(edges, q, es, xs, q.start, q.target) && WithinSteps(q, |es|)
    ensures W.Cost(q, w) <= Sum(q.arith, xs)
  {
    hide Holds, Reads, IsRoute, W.IsGraphWalk, W.IsWalk, W.Cost;
    var other := RouteIsWalk(rows, space, edges, q, es, xs, q.target);
    assert W.WithinBound(q, other);
  }

  lemma UnreachableHasNoRoute(rows: seq<Row>, space: string, edges: set<EdgeData>, q: W.Query)
    requires Holds(rows, space, edges) && Reads(q, rows, space) && IsI64(q.start) && W.Unreachable(q)
    ensures NoRoute(edges, q)
  {
    hide Holds, Reads, IsRoute, W.IsGraphWalk;
    forall es, xs | IsRoute(edges, q, es, xs, q.start, q.target) ensures !WithinSteps(q, |es|) {
      var w := RouteIsWalk(rows, space, edges, q, es, xs, q.target);
    }
  }

  // ----- The search over a store -----

  method FindWeighted(rows: seq<Row>, space: string, types: set<string>, weightProp: string, arith: W.Arithmetic,
                      start: int, target: int, maxSteps: Option<nat>, maxNodes: nat)
      returns (r: Result<W.Answer, W.Failure>, visited: nat)
    requires arith.Lawful()
    ensures var q := StoreQuery(rows, space, types, weightProp, arith, start, target, maxSteps, maxNodes);
            && (r.Ok? && r.value.Found? ==>
                  exists w :: W.Cheapest(q, w) && r.value.path == W.Vertices(q, w) && r.value.cost == W.Cost(q, w))
            && (r.Ok? && r.value.NoPath? ==> W.Unreachable(q))
            && (r.Ok? && start != target ==> W.EachExpandedOnce(q, visited))
            && (start == target ==> r == Ok(W.Found([start], 0.0)) && visited == 0)
            && (start != target ==> (r.Ok? <==> W.ValidData(q) && W.NoOverflow(q) && !W.OverBudget(q)))
            && (r == Err(W.ResourceExhausted) ==> W.OverBudget(q))
            && (start != target && W.ValidData(q) && W.NoOverflow(q) ==>
                  (r == Err(W.ResourceExhausted) <==> W.OverBudget(q)))
            && (r.Err? && r.error != W.ResourceExhausted ==> exists w :: W.Explains(q, w, r.error))
    ensures var q := StoreQuery(rows, space, types, weightProp, arith, start, target, maxSteps, maxNodes);
            forall edges :: Holds(rows, space, edges) && IsI64(start) && r.Ok? ==>
              match r.value
              case Found(path, cost) => IsLightest(edges, q, path, cost)
              case NoPath => NoRoute(edges, q)
  {
    var q := StoreQuery(rows, space, types, weightProp, arith, start, target, maxSteps, maxNodes);
    WeightedSearchIsFinite(rows, space, types, weightProp, arith, start, target, maxSteps, maxNodes);
    hide W.Cheapest, W.Unreachable, W.OverBudget, W.EachExpandedOnce, W.Explains, W.ValidData, W.NoOverflow;
    r, visited := W.DijkstraShortestPath(q, Ends(rows) + {start});
    hide IsLightest, NoRoute, Holds, W.Vertices, W.Cost;
    forall edges | Holds(rows, space, edges) && IsI64(start) && r.Ok?
      ensures match r.value
              case Found(path, cost) => IsLightest(edges, q, path, cost)
              case NoPath => NoRoute(edges, q)
    {
      if r.value.Found? {
        var w :| W.Cheapest(q, w) && r.value.path == W.Vertices(q, w) && r.value.cost == W.Cost(q, w);
        CheapestIsLightest(rows, space, edges, q, w);
      } else {
        UnreachableHasNoRoute(rows, space, edges, q);
      }
    }
  }

  /** No selected edge out of an expandable reachable state has a negative or infinite weight. */
  ghost predicate GoodWeights(edges: set<EdgeData>, q: W.Query) {
    forall w, e {:trigger W.IsWalk(q, w), e in edges} ::
      W.IsWalk(q, w) && W.Expandable(q, W.StateOf(q, w)) && e in edges && e.src == W.End(q, w) &&
      Selected(q.types, Some(e.edgeType)) ==>
        !WeighsBadly(q, e)
  }

  /** On a store that holds an edge set only weights can make the data invalid. */
  lemma OnlyWeightsFail(rows: seq<Row>, space: string, edges: set<EdgeData>, q: W.Query)
    requires Holds(rows, space, edges) && Reads(q, rows, space) && IsI64(q.start)
    ensures W.ValidData(q) <==> GoodWeights(edges, q)
  {
    hide Holds, Reads, W.IsWalk, W.Offers, Selected, MoveOf, WeighsBadly;
    forall w | W.IsWalk(q, w) && W.Expandable(q, W.StateOf(q, w))
      ensures !W.Offers(q, W.End(q, w), W.Corrupt)
      ensures W.Offers(q, W.End(q, w), W.BadWeight) <==> OfferedBy(edges, q, W.End(q, w), W.BadWeight)
    {
      WalkStaysI64(rows, space, edges, q, w);
      NeverCorrupt(rows, space, edges, q, W.End(q, w));
      OffersExactly(rows, space, edges, q, W.End(q, w), W.BadWeight);
    }
    forall e: EdgeData ensures MoveOf(q, e) == W.BadWeight <==> WeighsBadly(q, e) {
      MoveExactly(q, e, 0, 0.0);
    }
    if W.ValidData(q) {
      forall w, e | W.IsWalk(q, w) && W.Expandable(q, W.StateOf(q, w)) && e in edges && e.src == W.End(q, w) &&
                    Selected(q.types, Some(e.edgeType))
        ensures !WeighsBadly(q, e)
      {
        assert !OfferedBy(edges, q, W.End(q, w), W.BadWeight);
      }
    }
  }

  // ===== Unit weights =====

  ghost predicate Unweighted(edges: set<EdgeData>, weightProp: string) {
    forall e :: e in edges ==> weightProp !in e.properties
  }

  function AsCost(n: nat): real { n as real }

  /** Adding 1.0 counts exactly up to `limit`, as it does for machine numbers below 2 to the 53. */
  ghost predicate CountsTo(arith: W.Arithmetic, limit: nat) {
    forall n: nat :: n < limit ==> arith.plus(AsCost(n), 1.0) == AsCost(n + 1)
  }

  /** The query, bounded or not, reads a store whose edges carry no weight. */
  ghost predicate Agreeing(rows: seq<Row>, space: string, edges: set<EdgeData>, q: W.Query) {
    Holds(rows, space, edges) && Unweighted(edges, q.weightProp) && Reads(q, rows, space) && IsI64(q.start)
  }

  /** The hops offered at a vertex are its links, each of weight 1.0. */
  lemma UnitHops(rows: seq<Row>, space: string, edges: set<EdgeData>, q: W.Query, u: int, h: W.Move)
    requires Agreeing(rows, space, edges, q) && IsI64(u) && h.Hop?
    ensures W.Offers(q, u, h) <==> h.weight == 1.0 && Linked(edges, q.types, false, u, h.dst)
    ensures Linked(edges, q.types, false, u, h.dst) ==> IsI64(h.dst)
  {
    hide Holds, W.Offers, Selected, Reads;
    OffersExactly(rows, space, edges, q, u, h);
    if Linked(edges, q.types, false, u, h.dst) { LinkedIsI64(rows, space, edges, q.types, false, u, h.dst); }
    if OfferedBy(edges, q, u, h) {
      var e :| e in edges && e.src == u && Selected(q.types, Some(e.edgeType)) && MoveOf(q, e) == h;
      assert Spans(e, false, u, h.dst);
    }
    if h.weight == 1.0 && Linked(edges, q.types, false, u, h.dst) {
      var e :| e in edges && Selected(q.types, Some(e.edgeType)) && Spans(e, false, u, h.dst);
      assert MoveOf(q, e) == h;
    }
  }

  lemma LongerPath(edges: set<EdgeData>, types: set<string>, p: seq<int>, v: int)
    requires p != []
    ensures IsEdgePath(edges, types, false, p + [v]) <==>
              IsEdgePath(edges, types, false, p) && Linked(edges, types, false, p[|p| - 1], v)
  {
    hide Linked;
    var p' := p + [v];
    if IsEdgePath(edges, types, false, p') {
      forall i | 0 <= i < |p| - 1 ensures Linked(edges, types, false, p[i], p[i + 1]) {
        assert p'[i] == p[i] && p'[i + 1] == p[i + 1];
      }
      assert p'[|p| - 1] == p[|p| - 1] && p'[|p|] == v;
    }
    if IsEdgePath(edges, types, false, p) && Linked(edges, types, false, p[|p| - 1], v) {
      forall i | 0 <= i < |p'| - 1 ensures Linked(edges, types, false, p'[i], p'[i + 1]) {
        if i < |p| - 1 { assert p'[i] == p[i] && p'[i + 1] == p[i + 1]; }
      }
    }
  }

  /** A walk of any length visits the vertices of a path, one per hop, each hop of weight 1.0. */
  lemma {:induction false} WalkIsPath(rows: seq<Row>, space: string, edges: set<EdgeData>, q: W.Query, w: W.Walk)
    requires Agreeing(rows, space, edges, q) && W.IsGraphWalk(q, w)
    ensures var p := W.Vertices(q, w);
            && |p| == W.Length(w) + 1 && p[0] == q.start && p[|p| - 1] == W.End(q, w)
            && IsEdgePath(edges, q.types, false, p) && IsI64(W.End(q, w))
    ensures UnitSteps(w)
  {
    match w
    case Here =>
    case Then(prior, h) =>
      UnitHops(rows, space, edges, q, if IsI64(W.End(q, prior)) then W.End(q, prior) else q.start, h);
      hide Agreeing, Linked, W.Offers, IsEdgePath;
      WalkIsPath(rows, space, edges, q, prior);
      LongerPath(edges, q.types, W.Vertices(q, prior), h.dst);
  }

  ghost predicate UnitSteps(w: W.Walk) {
    match w
    case Here => true
    case Then(prior, h) => UnitSteps(prior) && h.Hop? && h.weight == 1.0
  }

  /** While counting is exact a walk costs its number of hops; a longer one costs at least as far as counting goes. */
  lemma {:induction false} CostCounts(q: W.Query, limit: nat, w: W.Walk)
    requires UnitSteps(w) && CountsTo(q.arith, limit) && q.arith.Lawful()
    ensures W.Length(w) <= limit ==> W.Cost(q, w) == AsCost(W.Length(w))
    ensures W.Length(w) >= limit ==> AsCost(limit) <= W.Cost(q, w)
  {
    match w
    case Here =>
    case Then(prior, h) =>
      CostCounts(q, limit, prior);
      assert W.Cost(q, prior) <= W.Cost(q, w);
  }

  /** Conversely every path of the edge set is the trace of a walk. */
  lemma {:induction false} PathIsWalk(rows: seq<Row>, space: string, edges: set<EdgeData>, q: W.Query, p: seq<int>)
      returns (w: W.Walk)
    requires Agreeing(rows, space, edges, q) && IsEdgePath(edges, q.types, false, p) && p[0] == q.start
    ensures W.IsGraphWalk(q, w) && W.Vertices(q, w) == p && W.Length(w) == |p| - 1 && W.End(q, w) == p[|p| - 1]
    ensures IsI64(p[|p| - 1])
    decreases |p|
  {
    hide Holds, Unweighted, Reads, Linked, W.Offers;
    if |p| == 1 {
      w := W.Here;
    } else {
      var shorter, v := p[..|p| - 1], p[|p| - 1];
      assert shorter + [v] == p;
      LongerPath(edges, q.types, shorter, v);
      hide Agreeing, IsEdgePath;
      var prior := PathIsWalk(rows, space, edges, q, shorter);
      var h := W.Hop(v, 1.0);
      UnitHops(rows, space, edges, q, p[|p| - 2], h);
      w := W.Then(prior, h);
    }
  }

  /**
   * Without weights the cheapest walk, with or without a hop bound, costs as many units as the shortest
   * path has hops, as long as the addition can count that far.
   */
  lemma HopsEqualCost(rows: seq<Row>, space: string, edges: set<EdgeData>, q: W.Query, w: W.Walk, limit: nat,
                      p: seq<int>)
    requires Agreeing(rows, space, edges, q) && q.arith.Lawful() && W.Cheapest(q, w)
    requires Hops.IsShortest(ScanOf(rows, space, q.types, false), p, q.start, q.target, limit)
    requires CountsTo(q.arith, |p| - 1)
    ensures W.Cost(q, w) == AsCost(|p| - 1)
  {
    W.WalkIsGraphWalk(q, w);
    GraphWalkJoins(rows, space, edges, q, w);
    var other := JoiningIsWalk(rows, space, edges, q, p, q.target);
    hide Agreeing, ScanOf, W.IsWalk, W.IsGraphWalk, Hops.Joins, W.Length, W.Vertices, CountsTo, W.Arithmetic.Lawful,
      UnitSteps, W.Cost;
    assert |p| <= |W.Vertices(q, w)|;
    GraphWalkJoins(rows, space, edges, q, other);
    CostCounts(q, |p| - 1, w);
    CostCounts(q, |p| - 1, other);
    assert W.WithinBound(q, other);
    assert W.Cost(q, w) <= W.Cost(q, other);
  }

  lemma GraphWalkJoins(rows: seq<Row>, space: string, edges: set<EdgeData>, q: W.Query, w: W.Walk)
    requires Agreeing(rows, space, edges, q) && W.IsGraphWalk(q, w)
    ensures |W.Vertices(q, w)| == W.Length(w) + 1 && UnitSteps(w)
    ensures Hops.Joins(ScanOf(rows, space, q.types, false), W.Vertices(q, w), q.start, W.End(q, w))
  {
    WalkIsPath(rows, space, edges, q, w);
    PathsAreEdgePaths(rows, space, edges, q.types, false, W.Vertices(q, w));
  }

  lemma JoiningIsWalk(rows: seq<Row>, space: string, edges: set<EdgeData>, q: W.Query, p: seq<int>, target: int)
      returns (w: W.Walk)
    requires Agreeing(rows, space, edges, q)
    requires Hops.Joins(ScanOf(rows, space, q.types, false), p, q.start, target)
    ensures W.IsGraphWalk(q, w) && W.Length(w) == |p| - 1 && W.End(q, w) == target
  {
    PathsAreEdgePaths(rows, space, edges, q.types, false, p);
    w := PathIsWalk(rows, space, edges, q, p);
  }

  /** No path joins `a` and `b` within the bound, or, without one, at all. */
  ghost predicate NoneFor(scan: Hops.Neighbors, a: int, b: int, maxSteps: Option<nat>) {
    match maxSteps
    case Some(limit) => Hops.NoneWithin(scan, a, b, limit)
    case None => forall limit: nat :: Hops.NoneWithin(scan, a, b, limit)
  }

  /** And the one finds nothing exactly when the other does, with the same bound or without any. */
  lemma NothingTogether(rows: seq<Row>, space: string, edges: set<EdgeData>, q: W.Query)
    requires Agreeing(rows, space, edges, q)
    ensures W.Unreachable(q) <==> NoneFor(ScanOf(rows, space, q.types, false), q.start, q.target, q.maxSteps)
  {
    var scan := ScanOf(rows, space, q.types, false);
    hide ScanOf, W.IsGraphWalk, Hops.Joins, W.Vertices, W.Length, Agreeing;
    if W.Unreachable(q) {
      forall p | Hops.Joins(scan, p, q.start, q.target) ensures q.maxSteps.Some? && |p| - 1 > q.maxSteps.value {
        var w := JoiningIsWalk(rows, space, edges, q, p, q.target);
      }
    } else {
      var w :| W.IsGraphWalk(q, w) && W.WithinBound(q, w) && W.End(q, w) == q.target;
      GraphWalkJoins(rows, space, edges, q, w);
      assert !Hops.NoneWithin(scan, q.start, q.target, W.Length(w));
    }
  }
}
