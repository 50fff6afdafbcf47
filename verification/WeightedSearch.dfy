/**
 * Hop-constrained Dijkstra over (vertex, hops) states.
 *
 * A search is described by a `Query`; what it must find is described by walks over
 * the entries that prefix scans return.  The method at the end keeps the source's
 * shape (heap with stale entries, `dist` and `parent` maps, an unexpanded target,
 * a work budget) and is proved against the walks.
 */
module WeightedSearch {
  import opened Prelude
  import opened GraphData

  // ===== Costs =====

  /**
   * Costs are finite non-negative numbers, ordered as reals.  `plus` is addition
   * followed by whatever rounding the machine applies, `ofInt` the conversion of an
   * integer weight, and a sum above `top` is infinite.
   */
  datatype Arithmetic = Arithmetic(plus: (real, real) -> real, ofInt: int -> real, top: real)
  {
    ghost predicate Lawful() {
      && 0.0 <= top
      && (forall a, b, w {:trigger plus(a, w), plus(b, w)} :: a <= b ==> plus(a, w) <= plus(b, w))
      && (forall a, w {:trigger plus(a, w)} :: 0.0 <= w ==> a <= plus(a, w))
    }
  }

  // ===== The search problem =====

  /** One scanned row: the edge type named by its key, and its payload if it decodes. */
  datatype Entry = Entry(keyType: Option<string>, payload: Option<EdgeData>)

  datatype Query = Query(
    scan: int -> seq<Entry>,
    types: set<string>,
    weightProp: string,
    arith: Arithmetic,
    start: int,
    target: int,
    maxSteps: Option<nat>,
    maxNodes: nat)

  datatype State = State(vid: int, hops: nat)

  /** What the inner loop makes of one scanned row. */
  datatype Move = Skipped | Corrupt | BadWeight | Hop(dst: int, weight: real)

  function WeightOf(q: Query, edge: EdgeData): Option<real> {
    if q.weightProp in edge.properties then
      match edge.properties[q.weightProp]
      case Float(f) => Some(f)
      case FloatNotFinite => None
      case Int(i) => Some(q.arith.ofInt(i))
      case Other => Some(1.0)
    else
      Some(1.0)
  }

  function Classify(q: Query, e: Entry): Move {
    if q.types != {} && (e.keyType.None? || e.keyType.value !in q.types) then Skipped
    else if e.payload.None? then Corrupt
    else
      var w := WeightOf(q, e.payload.value);
      if w.None? || w.value < 0.0 then BadWeight
      else Hop(e.payload.value.dst, w.value)
  }

  function Initial(q: Query): State { State(q.start, 0) }

  predicate Expandable(q: Query, s: State) {
    s.vid != q.target && !(q.maxSteps.Some? && s.hops >= q.maxSteps.value)
  }

  function NextState(q: Query, s: State, dst: int): State {
    State(dst, if q.maxSteps.Some? then s.hops + 1 else 0)
  }

  /** Some row scanned at `vid` is read as `m`. */
  ghost predicate Offers(q: Query, vid: int, m: Move) {
    exists j :: 0 <= j < |q.scan(vid)| && Classify(q, q.scan(vid)[j]) == m
  }

  // ===== Walks =====

  /** The hops taken from the start vertex, the last one outermost. */
  datatype Walk = Here | Then(prior: Walk, hop: Move)

  ghost function Length(w: Walk): nat {
    match w case Here => 0 case Then(p, _) => Length(p) + 1
  }

  ghost function End(q: Query, w: Walk): int {
    if w.Then? && w.hop.Hop? then w.hop.dst else q.start
  }

  ghost function StateOf(q: Query, w: Walk): State {
    State(End(q, w), if q.maxSteps.Some? then Length(w) else 0)
  }

  ghost function Cost(q: Query, w: Walk): real {
    match w
    case Here => 0.0
    case Then(p, h) => if h.Hop? then q.arith.plus(Cost(q, p), h.weight) else Cost(q, p)
  }

  ghost function Vertices(q: Query, w: Walk): seq<int> {
    match w
    case Here => [q.start]
    case Then(p, _) => Vertices(q, p) + [End(q, w)]
  }

  /** A walk of the type-filtered graph, of any length and through any vertices. */
  ghost predicate IsGraphWalk(q: Query, w: Walk) {
    match w
    case Here => true
    case Then(p, h) => IsGraphWalk(q, p) && h.Hop? && Offers(q, End(q, p), h)
  }

  /** A graph walk that meets the target only at its end and stays within the hop bound. */
  ghost predicate IsWalk(q: Query, w: Walk) {
    match w
    case Here => true
    case Then(p, h) => IsWalk(q, p) && Expandable(q, StateOf(q, p)) && h.Hop? && Offers(q, End(q, p), h)
  }

  ghost predicate WithinBound(q: Query, w: Walk) {
    q.maxSteps.Some? ==> Length(w) <= q.maxSteps.value
  }

  /** Every graph walk to the target contains a first visit, reached no more dearly. */
  lemma {:induction false} FirstVisit(q: Query, w: Walk) returns (first: Walk)
    requires q.arith.Lawful() && IsGraphWalk(q, w) && WithinBound(q, w)
    ensures IsWalk(q, first) && Length(first) <= Length(w) && Cost(q, first) <= Cost(q, w)
    ensures first == w || End(q, first) == q.target
  {
    match w
    case Here => first := Here;
    case Then(p, h) =>
      first := FirstVisit(q, p);
      assert h.weight >= 0.0;
      if End(q, first) != q.target { first := w; }
  }

  lemma {:induction false} WalkIsGraphWalk(q: Query, w: Walk)
    requires IsWalk(q, w)
    ensures IsGraphWalk(q, w) && WithinBound(q, w)
  {
    match w
    case Here =>
    case Then(p, h) => WalkIsGraphWalk(q, p);
  }

  // ===== What a search returns =====

  datatype Answer = Found(path: seq<int>, cost: real) | NoPath

  datatype Failure = ResourceExhausted | InvalidEdge | InvalidWeight | CostOverflow

  ghost predicate Reaches(q: Query, s: State) {
    exists w :: IsWalk(q, w) && StateOf(q, w) == s
  }

  ghost predicate AllExpandable(q: Query, ss: set<State>) {
    forall s :: s in ss ==> Expandable(q, s) && Reaches(q, s)
  }

  /** More states must be expanded than the budget allows. */
  ghost predicate OverBudget(q: Query) {
    q.maxNodes > 0 && exists ss: set<State> :: AllExpandable(q, ss) && |ss| > q.maxNodes
  }

  // ===== The search's own state =====

  /** A heap entry; the heap orders entries by cost, then vertex, then hops. */
  datatype HeapEntry = HeapEntry(cost: real, state: State)

  predicate EntryLeq(a: HeapEntry, b: HeapEntry) {
    || a.cost < b.cost
    || (a.cost == b.cost && a.state.vid < b.state.vid)
    || (a.cost == b.cost && a.state.vid == b.state.vid && a.state.hops <= b.state.hops)
  }

  /** Equal entries are never pushed twice (see `Relax`), so a set holds the heap. */
  datatype Frontier = Frontier(dist: map<State, real>, parent: map<State, State>, heap: set<HeapEntry>)

  ghost predicate IsMinimum(heap: set<HeapEntry>, e: HeapEntry) {
    e in heap && forall f :: f in heap ==> EntryLeq(e, f)
  }

  /** The order leaves no choice which entry is popped. */
  lemma MinimumIsUnique(heap: set<HeapEntry>, e: HeapEntry, f: HeapEntry)
    requires IsMinimum(heap, e) && IsMinimum(heap, f)
    ensures e == f
  {
    assert EntryLeq(e, f) && EntryLeq(f, e);
  }

  lemma {:induction false} MinimumExists(heap: set<HeapEntry>)
    requires heap != {}
    ensures exists e :: IsMinimum(heap, e)
  {
    var x :| x in heap;
    var rest := heap - {x};
    assert forall f :: f in heap ==> f == x || f in rest;
    if rest == {} {
      assert IsMinimum(heap, x);
    } else {
      MinimumExists(rest);
      var m :| IsMinimum(rest, m);
      var least := if EntryLeq(x, m) then x else m;
      assert forall f :: f in rest ==> EntryLeq(m, f);
      assert IsMinimum(heap, least);
    }
  }

  method PopMinimum(heap: set<HeapEntry>) returns (e: HeapEntry, rest: set<HeapEntry>)
    requires heap != {}
    ensures IsMinimum(heap, e) && rest == heap - {e}
  {
    MinimumExists(heap);
    e :| e in heap && forall f :: f in heap ==> EntryLeq(e, f);
    rest := heap - {e};
  }

  /** The relaxation of one hop out of `s`, settled at cost `d`. */
  function Relax(q: Query, f: Frontier, s: State, d: real, h: Move): Frontier
    requires h.Hop?
  {
    var next := NextState(q, s, h.dst);
    var cost := q.arith.plus(d, h.weight);
    if next !in f.dist || cost < f.dist[next] then
      Frontier(f.dist[next := cost], f.parent[next := s], f.heap + {HeapEntry(cost, next)})
    else f
  }

  // ===== Invariants =====
  // `done` is the set of settled states, `walks` a witness walk for every discovered
  // state, and `level` the cost at which the last state was settled.

  ghost predicate Discovered(q: Query, f: Frontier, done: set<State>, walks: map<State, Walk>, s: State)
    requires s in f.dist && s in walks
  {
    var w := walks[s];
    && IsWalk(q, w) && StateOf(q, w) == s && Cost(q, w) == f.dist[s]
    && (w.Here? <==> s == Initial(q))
    && (w.Then? ==>
          && s in f.parent && f.parent[s] in done && f.parent[s] in walks
          && walks[f.parent[s]] == w.prior)
  }

  ghost predicate WalksHold(q: Query, f: Frontier, done: set<State>, walks: map<State, Walk>) {
    && done <= f.dist.Keys && walks.Keys == f.dist.Keys
    && Initial(q) in f.dist
    && forall s :: s in f.dist ==> Discovered(q, f, done, walks, s)
  }

  ghost predicate HeapHolds(f: Frontier, done: set<State>, level: real) {
    && done <= f.dist.Keys
    && (forall s :: s in done ==> f.dist[s] <= level)
    && (forall s :: s in f.dist && s !in done ==> HeapEntry(f.dist[s], s) in f.heap)
    && (forall e :: e in f.heap ==>
          && level <= e.cost && e.state in f.dist && f.dist[e.state] <= e.cost
          && (e.state in done ==> f.dist[e.state] < e.cost))
  }

  /** The hop `h` out of `s` has been taken into account. */
  ghost predicate Relaxed(q: Query, f: Frontier, s: State, h: Move)
    requires s in f.dist
  {
    && h.Hop?
    && NextState(q, s, h.dst) in f.dist
    && f.dist[NextState(q, s, h.dst)] <= q.arith.plus(f.dist[s], h.weight) <= q.arith.top
  }

  ghost predicate EntryDone(q: Query, f: Frontier, s: State, m: Move)
    requires s in f.dist
  {
    m.Skipped? || Relaxed(q, f, s, m)
  }

  ghost predicate ScannedUpTo(q: Query, f: Frontier, s: State, n: nat)
    requires s in f.dist && n <= |q.scan(s.vid)|
  {
    forall j :: 0 <= j < n ==> EntryDone(q, f, s, Classify(q, q.scan(s.vid)[j]))
  }

  ghost predicate Closed(q: Query, f: Frontier, done: set<State>) {
    && done <= f.dist.Keys
    && forall s :: s in done && Expandable(q, s) ==> ScannedUpTo(q, f, s, |q.scan(s.vid)|)
  }

  // ===== One relaxation keeps the invariants =====

  lemma {:induction false} CostNonNegative(q: Query, w: Walk)
    requires q.arith.Lawful() && IsGraphWalk(q, w)
    ensures 0.0 <= Cost(q, w)
  {
    if w.Then? { CostNonNegative(q, w.prior); }
  }

  /** The hop leads to a state that is new, or known only at a higher cost. */
  ghost predicate Improves(q: Query, f: Frontier, s: State, d: real, h: Move)
    requires h.Hop?
  {
    var next := NextState(q, s, h.dst);
    next !in f.dist || q.arith.plus(d, h.weight) < f.dist[next]
  }

  /** Only states that are not settled, and never the initial one, can be improved. */
  lemma ImprovedIsOpen(q: Query, f: Frontier, done: set<State>, walks: map<State, Walk>, level: real,
                       s: State, h: Move)
    requires q.arith.Lawful() && WalksHold(q, f, done, walks) && HeapHolds(f, done, level)
    requires s in done && f.dist[s] == level && h.Hop? && h.weight >= 0.0
    requires Improves(q, f, s, level, h)
    ensures NextState(q, s, h.dst) !in done && NextState(q, s, h.dst) != Initial(q)
  {
    assert Discovered(q, f, done, walks, s);
    assert Discovered(q, f, done, walks, Initial(q));
    WalkIsGraphWalk(q, walks[s]);
    CostNonNegative(q, walks[s]);
  }

  lemma RelaxKeepsWalks(q: Query, f: Frontier, done: set<State>, walks: map<State, Walk>, level: real,
                        s: State, h: Move) returns (walks': map<State, Walk>)
    requires q.arith.Lawful() && WalksHold(q, f, done, walks) && HeapHolds(f, done, level)
    requires s in done && f.dist[s] == level && Expandable(q, s)
    requires h.Hop? && h.weight >= 0.0 && Offers(q, s.vid, h)
    ensures WalksHold(q, Relax(q, f, s, level, h), done, walks')
  {
    if !Improves(q, f, s, level, h) { return walks; }
    ImprovedIsOpen(q, f, done, walks, level, s, h);
    var next := NextState(q, s, h.dst);
    assert Discovered(q, f, done, walks, s);
    walks' := walks[next := Then(walks[s], h)];
    var f' := Relax(q, f, s, level, h);
    forall t | t in f'.dist ensures Discovered(q, f', done, walks', t) {
      if t != next { assert Discovered(q, f, done, walks, t); }
    }
  }

  lemma RelaxKeepsHeap(q: Query, f: Frontier, done: set<State>, walks: map<State, Walk>, level: real,
                       s: State, h: Move)
    requires q.arith.Lawful() && WalksHold(q, f, done, walks) && HeapHolds(f, done, level)
    requires s in done && f.dist[s] == level && h.Hop? && h.weight >= 0.0
    requires q.arith.plus(level, h.weight) <= q.arith.top
    ensures HeapHolds(Relax(q, f, s, level, h), done, level)
    ensures Relaxed(q, Relax(q, f, s, level, h), s, h)
    ensures Relax(q, f, s, level, h).dist[s] == level
    ensures Improves(q, f, s, level, h) ==>
              HeapEntry(q.arith.plus(level, h.weight), NextState(q, s, h.dst)) !in f.heap
  {
    if Improves(q, f, s, level, h) {
      ImprovedIsOpen(q, f, done, walks, level, s, h);
    }
  }

  lemma RelaxKeepsScanned(q: Query, f: Frontier, done: set<State>, walks: map<State, Walk>, level: real,
                          s: State, h: Move, t: State, n: nat)
    requires q.arith.Lawful() && WalksHold(q, f, done, walks) && HeapHolds(f, done, level)
    requires s in done && f.dist[s] == level && h.Hop? && h.weight >= 0.0
    requires t in done && n <= |q.scan(t.vid)| && ScannedUpTo(q, f, t, n)
    ensures ScannedUpTo(q, Relax(q, f, s, level, h), t, n)
  {
    if Improves(q, f, s, level, h) {
      ImprovedIsOpen(q, f, done, walks, level, s, h);
      var f' := Relax(q, f, s, level, h);
      forall j | 0 <= j < n ensures EntryDone(q, f', t, Classify(q, q.scan(t.vid)[j])) {
        assert EntryDone(q, f, t, Classify(q, q.scan(t.vid)[j]));
      }
    }
  }

  // ===== Finiteness =====

  /** `universe` holds every vertex a scan can lead to from one of its members. */
  ghost predicate Contains(q: Query, universe: set<int>) {
    forall u, j :: u in universe && 0 <= j < |q.scan(u)| && Classify(q, q.scan(u)[j]).Hop? ==>
      Classify(q, q.scan(u)[j]).dst in universe
  }

  ghost function AllStates(q: Query, universe: set<int>): set<State> {
    set v, h | v in universe && 0 <= h <= (if q.maxSteps.Some? then q.maxSteps.value else 0) :: State(v, h)
  }

  // ===== Expanding one state =====

  /** `walk` is a cheapest walk to its own state. */
  ghost predicate IsLeast(q: Query, walk: Walk) {
    IsWalk(q, walk) && forall w :: IsWalk(q, w) && StateOf(q, w) == StateOf(q, walk) ==> Cost(q, walk) <= Cost(q, w)
  }

  /** Why expanding the end of `w` fails: `w` is a cheapest walk to an expandable state, and a row there is to blame. */
  ghost predicate Explains(q: Query, w: Walk, e: Failure) {
    && IsLeast(q, w) && Expandable(q, StateOf(q, w))
    && match e
       case InvalidEdge => Offers(q, End(q, w), Corrupt)
       case InvalidWeight => Offers(q, End(q, w), BadWeight)
       case CostOverflow => exists h: Move :: h.Hop? && Offers(q, End(q, w), h) && Cost(q, Then(w, h)) > q.arith.top
       case ResourceExhausted => false
  }

  /** All the invariants that hold while `s` is being expanded. */
  ghost predicate Expanding(q: Query, f: Frontier, done: set<State>, walks: map<State, Walk>, level: real, s: State) {
    && done <= f.dist.Keys == walks.Keys
    && s in done && f.dist[s] == level && Expandable(q, s)
    && WalksHold(q, f, done, walks) && HeapHolds(f, done, level) && Closed(q, f, done - {s})
  }

  lemma RelaxKeepsClosed(q: Query, f: Frontier, done: set<State>, walks: map<State, Walk>, level: real,
                         s: State, h: Move)
    requires q.arith.Lawful() && Expanding(q, f, done, walks, level, s)
    requires h.Hop? && h.weight >= 0.0
    ensures Closed(q, Relax(q, f, s, level, h), done - {s})
  {
    var f' := Relax(q, f, s, level, h);
    forall t | t in done - {s} && Expandable(q, t) ensures ScannedUpTo(q, f', t, |q.scan(t.vid)|) {
      RelaxKeepsScanned(q, f, done, walks, level, s, h, t, |q.scan(t.vid)|);
    }
  }

  lemma NothingToDo(q: Query, f: Frontier, s: State, j: nat)
    requires s in f.dist && j < |q.scan(s.vid)| && ScannedUpTo(q, f, s, j)
    requires Classify(q, q.scan(s.vid)[j]).Skipped?
    ensures ScannedUpTo(q, f, s, j + 1)
  {
  }

  /** A row that cannot be relaxed explains the failure it is reported as. */
  lemma RowFails(q: Query, f: Frontier, done: set<State>, walks: map<State, Walk>, s: State, j: nat, e: Failure)
    requires WalksHold(q, f, done, walks) && s in f.dist && s in walks && Expandable(q, s)
    requires j < |q.scan(s.vid)| && IsLeast(q, walks[s])
    requires match Classify(q, q.scan(s.vid)[j])
             case Skipped => false
             case Corrupt => e == InvalidEdge
             case BadWeight => e == InvalidWeight
             case Hop(_, weight) => e == CostOverflow && q.arith.plus(f.dist[s], weight) > q.arith.top
    ensures Explains(q, walks[s], e)
  {
    assert Discovered(q, f, done, walks, s);
    var h := Classify(q, q.scan(s.vid)[j]);
    if h.Hop? {
      assert Offers(q, s.vid, h) && Cost(q, Then(walks[s], h)) > q.arith.top;
    }
  }

  /** While `s` is expanded, every walk ends in a settled state no dearer than itself, or costs at least `level`. */
  lemma {:induction false} WalkMeetsLevel(q: Query, f: Frontier, done: set<State>, walks: map<State, Walk>, level: real,
                                          s: State, w: Walk)
    requires q.arith.Lawful() && Expanding(q, f, done, walks, level, s) && IsWalk(q, w)
    ensures level <= Cost(q, w) || (StateOf(q, w) in done && f.dist[StateOf(q, w)] <= Cost(q, w))
  {
    match w
    case Here =>
      assert Discovered(q, f, done, walks, Initial(q));
    case Then(p, h) =>
      WalkMeetsLevel(q, f, done, walks, level, s, p);
      assert h.weight >= 0.0 && Cost(q, p) <= Cost(q, w);
      var t := StateOf(q, p);
      if !(level <= Cost(q, p)) && t != s {
        HopIsRelaxed(q, f, done - {s}, t, h);
        PlusMonotone(q.arith, f.dist[t], Cost(q, p), h.weight);
        assert NextState(q, t, h.dst) == StateOf(q, w);
      }
  }

  /** A state is expanded at the cost of a cheapest walk to it. */
  lemma ExpandedAtLeast(q: Query, f: Frontier, done: set<State>, walks: map<State, Walk>, level: real, s: State)
    requires q.arith.Lawful() && Expanding(q, f, done, walks, level, s)
    ensures IsLeast(q, walks[s])
  {
    assert Discovered(q, f, done, walks, s);
    hide WalksHold, HeapHolds, Closed, Arithmetic.Lawful, IsWalk;
    forall w | IsWalk(q, w) && StateOf(q, w) == s ensures level <= Cost(q, w) {
      WalkMeetsLevel(q, f, done, walks, level, s, w);
    }
  }

  lemma FullyScanned(q: Query, f: Frontier, done: set<State>, s: State)
    requires done <= f.dist.Keys && s in done && Closed(q, f, done - {s})
    requires ScannedUpTo(q, f, s, |q.scan(s.vid)|)
    ensures Closed(q, f, done)
  {
    forall t | t in done && Expandable(q, t) ensures ScannedUpTo(q, f, t, |q.scan(t.vid)|) {
      assert t == s || t in done - {s};
    }
  }

  /** The settled distances of `f` and `f'` agree. */
  ghost predicate SameSettled(f: Frontier, f': Frontier, done: set<State>) {
    && done <= f.dist.Keys && done <= f'.dist.Keys
    && forall t :: t in done ==> f'.dist[t] == f.dist[t]
  }

  /** The inner loop: scan the rows of one vertex and relax each hop. */
  method Expand(q: Query, f0: Frontier, s: State, level: real,
                ghost done: set<State>, ghost walks0: map<State, Walk>, ghost universe: set<int>)
      returns (r: Result<Frontier, Failure>, ghost walks: map<State, Walk>)
    requires q.arith.Lawful() && Contains(q, universe)
    requires Expanding(q, f0, done, walks0, level, s) && f0.dist.Keys <= AllStates(q, universe)
    ensures r.Ok? ==>
              && WalksHold(q, r.value, done, walks) && HeapHolds(r.value, done, level)
              && Closed(q, r.value, done) && r.value.dist.Keys <= AllStates(q, universe)
              && SameSettled(f0, r.value, done)
    ensures r.Err? ==> r.error != ResourceExhausted && exists w :: Explains(q, w, r.error)
  {
    var f, j := f0, 0;
    walks := walks0;
    var entries := q.scan(s.vid);
    assert ScannedUpTo(q, f, s, j) && SameSettled(f0, f, done);
    hide WalksHold, HeapHolds, Closed, ScannedUpTo, SameSettled, AllStates, Contains, Explains, IsLeast,
      Arithmetic.Lawful, Classify;
    while j < |entries|
      invariant 0 <= j <= |entries|
      invariant Expanding(q, f, done, walks, level, s)
      invariant ScannedUpTo(q, f, s, j)
      invariant f.dist.Keys <= AllStates(q, universe)
      invariant SameSettled(f0, f, done)
    {
      var m := Classify(q, entries[j]);
      match m {
        case Skipped =>
          NothingToDo(q, f, s, j);
        case Corrupt =>
          ExpandedAtLeast(q, f, done, walks, level, s);
          RowFails(q, f, done, walks, s, j, InvalidEdge);
          return Err(InvalidEdge), walks;
        case BadWeight =>
          ExpandedAtLeast(q, f, done, walks, level, s);
          RowFails(q, f, done, walks, s, j, InvalidWeight);
          return Err(InvalidWeight), walks;
        case Hop(dst, weight) =>
          if q.arith.plus(level, weight) > q.arith.top {
            ExpandedAtLeast(q, f, done, walks, level, s);
            RowFails(q, f, done, walks, s, j, CostOverflow);
            return Err(CostOverflow), walks;
          }
          ghost var before := f;
          f, walks := RelaxOne(q, f, done, walks, level, s, m, j, universe);
          StillSettled(f0, before, f, done);
      }
      j := j + 1;
    }
    FullyScanned(q, f, done, s);
    r := Ok(f);
  }

  lemma StillSettled(a: Frontier, b: Frontier, c: Frontier, done: set<State>)
    requires SameSettled(a, b, done) && SameSettled(b, c, done)
    ensures SameSettled(a, c, done)
  {
  }

  lemma RelaxStaysInside(q: Query, f: Frontier, done: set<State>, walks: map<State, Walk>, level: real,
                         s: State, h: Move, j: nat, universe: set<int>)
    requires q.arith.Lawful() && Contains(q, universe) && f.dist.Keys <= AllStates(q, universe)
    requires WalksHold(q, f, done, walks) && HeapHolds(f, done, level)
    requires s in done && s in f.dist && f.dist[s] == level && Expandable(q, s)
    requires j < |q.scan(s.vid)| && h == Classify(q, q.scan(s.vid)[j]) && h.Hop?
    ensures Relax(q, f, s, level, h).dist.Keys <= AllStates(q, universe)
    ensures SameSettled(f, Relax(q, f, s, level, h), done)
  {
    assert s in AllStates(q, universe);
    if Improves(q, f, s, level, h) {
      ImprovedIsOpen(q, f, done, walks, level, s, h);
    }
  }

  method RelaxOne(q: Query, f: Frontier, ghost done: set<State>, ghost walks: map<State, Walk>, level: real,
                  s: State, h: Move, ghost j: nat, ghost universe: set<int>)
      returns (f': Frontier, ghost walks': map<State, Walk>)
    requires q.arith.Lawful() && Contains(q, universe) && f.dist.Keys <= AllStates(q, universe)
    requires Expanding(q, f, done, walks, level, s)
    requires j < |q.scan(s.vid)| && ScannedUpTo(q, f, s, j)
    requires h == Classify(q, q.scan(s.vid)[j]) && h.Hop? && q.arith.plus(level, h.weight) <= q.arith.top
    ensures Expanding(q, f', done, walks', level, s)
    ensures ScannedUpTo(q, f', s, j + 1)
    ensures f'.dist.Keys <= AllStates(q, universe)
    ensures SameSettled(f, f', done)
  {
    f' := Relax(q, f, s, level, h);
    assert h.weight >= 0.0 && Offers(q, s.vid, h);
    hide AllStates, Contains, Classify, Arithmetic.Lawful, HeapHolds, Closed;
    walks' := RelaxKeepsWalks(q, f, done, walks, level, s, h);
    RelaxKeepsHeap(q, f, done, walks, level, s, h);
    RelaxKeepsScanned(q, f, done, walks, level, s, h, s, j);
    RelaxKeepsClosed(q, f, done, walks, level, s, h);
    RelaxStaysInside(q, f, done, walks, level, s, h, j, universe);
  }

  // ===== Taking the least entry off the heap =====

  /** A stale entry can be dropped. */
  lemma DropStale(f: Frontier, done: set<State>, level: real, e: HeapEntry)
    requires HeapHolds(f, done, level) && IsMinimum(f.heap, e) && e.state in f.dist && e.cost > f.dist[e.state]
    ensures HeapHolds(f.(heap := f.heap - {e}), done, level)
  {
  }

  /** A current entry belongs to an unsettled state; settling it costs at least as much as before. */
  lemma Settle(q: Query, f: Frontier, done: set<State>, walks: map<State, Walk>, level: real, e: HeapEntry)
    requires WalksHold(q, f, done, walks) && HeapHolds(f, done, level) && Closed(q, f, done)
    requires IsMinimum(f.heap, e) && e.state in f.dist && !(e.cost > f.dist[e.state])
    ensures e.state !in done && e.cost == f.dist[e.state]
    ensures done + {e.state} <= f.dist.Keys == walks.Keys
    ensures var f' := f.(heap := f.heap - {e});
            && WalksHold(q, f', done + {e.state}, walks) && HeapHolds(f', done + {e.state}, e.cost)
            && Closed(q, f', done)
  {
    var f' := f.(heap := f.heap - {e});
    SettleInHeap(f, done, level, e);
    SettleKeepsWalks(q, f, f', done, walks, e.state);
    ClosedWithoutHeap(q, f, f', done);
    hide HeapHolds, Closed, IsMinimum, Discovered;
  }

  lemma SettleInHeap(f: Frontier, done: set<State>, level: real, e: HeapEntry)
    requires HeapHolds(f, done, level)
    requires IsMinimum(f.heap, e) && e.state in f.dist && !(e.cost > f.dist[e.state])
    ensures e.state !in done && e.cost == f.dist[e.state]
    ensures HeapHolds(f.(heap := f.heap - {e}), done + {e.state}, e.cost)
  {
  }

  /** Settling one more state takes no walk away. */
  lemma SettleKeepsWalks(q: Query, f: Frontier, f': Frontier, done: set<State>, walks: map<State, Walk>, s: State)
    requires WalksHold(q, f, done, walks) && s in f.dist && f' == f.(heap := f'.heap)
    ensures WalksHold(q, f', done + {s}, walks)
  {
    hide IsWalk, Cost;
    forall x | x in f'.dist ensures Discovered(q, f', done + {s}, walks, x) {
      assert Discovered(q, f, done, walks, x);
    }
  }

  /** Closedness does not look at the heap. */
  lemma ClosedWithoutHeap(q: Query, f: Frontier, f': Frontier, done: set<State>)
    requires Closed(q, f, done) && f'.dist == f.dist
    ensures Closed(q, f', done)
  {
    forall s | s in done && Expandable(q, s) ensures ScannedUpTo(q, f', s, |q.scan(s.vid)|) {
      assert ScannedUpTo(q, f, s, |q.scan(s.vid)|);
      forall j | 0 <= j < |q.scan(s.vid)| ensures EntryDone(q, f', s, Classify(q, q.scan(s.vid)[j])) {
        assert EntryDone(q, f, s, Classify(q, q.scan(s.vid)[j]));
      }
    }
  }

  ghost predicate BestHolds(q: Query, f: Frontier, done: set<State>, best: Option<HeapEntry>) {
    && done <= f.dist.Keys
    && (best.None? ==> forall s :: s in done ==> s.vid != q.target)
    && (best.Some? ==>
          && best.value.state in done && best.value.state.vid == q.target
          && f.dist[best.value.state] == best.value.cost
          && forall s :: s in done && s.vid == q.target ==> best.value.cost <= f.dist[s])
  }

  ghost function Expanded(q: Query, done: set<State>): set<State> {
    set s | s in done && Expandable(q, s)
  }

  // ===== When the heap is empty =====

  /** Every hop out of a settled state has been relaxed. */
  lemma HopIsRelaxed(q: Query, f: Frontier, done: set<State>, s: State, h: Move)
    requires Closed(q, f, done) && s in done && Expandable(q, s) && h.Hop? && Offers(q, s.vid, h)
    ensures Relaxed(q, f, s, h)
  {
    var j :| 0 <= j < |q.scan(s.vid)| && Classify(q, q.scan(s.vid)[j]) == h;
    assert EntryDone(q, f, s, Classify(q, q.scan(s.vid)[j]));
  }

  lemma PlusMonotone(arith: Arithmetic, a: real, b: real, w: real)
    requires arith.Lawful() && a <= b
    ensures arith.plus(a, w) <= arith.plus(b, w)
  {
  }

  /** Every walk ends in a settled state, at a distance no larger than the walk's cost. */
  lemma {:induction false} DistIsOptimal(q: Query, f: Frontier, done: set<State>, walks: map<State, Walk>, w: Walk)
    requires q.arith.Lawful() && WalksHold(q, f, done, walks) && Closed(q, f, done)
    requires f.dist.Keys == done && IsWalk(q, w)
    ensures StateOf(q, w) in done && f.dist[StateOf(q, w)] <= Cost(q, w)
  {
    match w
    case Here =>
      assert Discovered(q, f, done, walks, Initial(q));
    case Then(p, h) =>
      DistIsOptimal(q, f, done, walks, p);
      HopIsRelaxed(q, f, done, StateOf(q, p), h);
      PlusMonotone(q.arith, f.dist[StateOf(q, p)], Cost(q, p), h.weight);
      hide WalksHold, Closed, IsWalk, Offers, Arithmetic.Lawful;
      assert NextState(q, StateOf(q, p), h.dst) == StateOf(q, w);
  }

  /** No scan of an expandable reachable state is corrupt or carries an invalid weight. */
  ghost predicate ValidData(q: Query) {
    forall w {:trigger IsWalk(q, w)} :: IsWalk(q, w) && Expandable(q, StateOf(q, w)) ==>
      !Offers(q, End(q, w), Corrupt) && !Offers(q, End(q, w), BadWeight)
  }

  lemma ScannedIsValid(q: Query, f: Frontier, done: set<State>, walks: map<State, Walk>, w: Walk)
    requires q.arith.Lawful() && WalksHold(q, f, done, walks) && Closed(q, f, done) && f.dist.Keys == done
    requires IsWalk(q, w) && Expandable(q, StateOf(q, w))
    ensures !Offers(q, End(q, w), Corrupt) && !Offers(q, End(q, w), BadWeight)
  {
    DistIsOptimal(q, f, done, walks, w);
    hide WalksHold, IsWalk, Arithmetic.Lawful;
    var s := StateOf(q, w);
    forall j | 0 <= j < |q.scan(s.vid)|
      ensures Classify(q, q.scan(s.vid)[j]) != Corrupt && Classify(q, q.scan(s.vid)[j]) != BadWeight
    {
      assert EntryDone(q, f, s, Classify(q, q.scan(s.vid)[j]));
    }
  }

  lemma RelaxedHopFits(q: Query, f: Frontier, done: set<State>, walks: map<State, Walk>, w: Walk, h: Move)
    requires q.arith.Lawful() && WalksHold(q, f, done, walks) && Closed(q, f, done) && f.dist.Keys == done
    requires IsLeast(q, w) && Expandable(q, StateOf(q, w)) && h.Hop? && Offers(q, End(q, w), h)
    ensures Cost(q, Then(w, h)) <= q.arith.top
  {
    var s := StateOf(q, w);
    DistIsOptimal(q, f, done, walks, w);
    assert Discovered(q, f, done, walks, s);
    assert IsWalk(q, walks[s]) && StateOf(q, walks[s]) == s;
    HopIsRelaxed(q, f, done, s, h);
  }

  lemma ExpandableIsExpanded(q: Query, f: Frontier, done: set<State>, walks: map<State, Walk>, ss: set<State>)
    requires q.arith.Lawful() && WalksHold(q, f, done, walks) && Closed(q, f, done) && f.dist.Keys == done
    requires AllExpandable(q, ss)
    ensures ss <= Expanded(q, done)
  {
    hide WalksHold, Closed, IsWalk, Arithmetic.Lawful;
    forall s | s in ss ensures s in Expanded(q, done) {
      var w :| IsWalk(q, w) && StateOf(q, w) == s;
      DistIsOptimal(q, f, done, walks, w);
    }
  }

  lemma ClosedMeansValid(q: Query, f: Frontier, done: set<State>, walks: map<State, Walk>)
    requires q.arith.Lawful() && WalksHold(q, f, done, walks) && Closed(q, f, done) && f.dist.Keys == done
    ensures ValidData(q) && NoOverflow(q)
    ensures forall ss :: AllExpandable(q, ss) ==> ss <= Expanded(q, done)
  {
    hide WalksHold, Closed, IsWalk, IsLeast, Offers, Arithmetic.Lawful, AllExpandable, Expanded, Expandable, Cost;
    forall w | IsWalk(q, w) && Expandable(q, StateOf(q, w))
      ensures !Offers(q, End(q, w), Corrupt) && !Offers(q, End(q, w), BadWeight)
    {
      ScannedIsValid(q, f, done, walks, w);
    }
    forall w, h: Move | IsLeast(q, w) && Expandable(q, StateOf(q, w)) && h.Hop? && Offers(q, End(q, w), h)
      ensures Cost(q, Then(w, h)) <= q.arith.top
    {
      RelaxedHopFits(q, f, done, walks, w, h);
    }
    forall ss | AllExpandable(q, ss) ensures ss <= Expanded(q, done) {
      ExpandableIsExpanded(q, f, done, walks, ss);
    }
  }

  /** The predecessor loop; it follows a witness walk back to the initial state. */
  method Reconstruct(q: Query, f: Frontier, s: State, ghost done: set<State>, ghost walks: map<State, Walk>)
      returns (path: seq<int>)
    requires WalksHold(q, f, done, walks) && s in f.dist
    ensures path == Vertices(q, walks[s])
  {
    var state := s;
    path := [state.vid];
    ghost var rest := walks[s];
    assert Discovered(q, f, done, walks, s);
    while state != Initial(q)
      invariant state in f.dist && walks[state] == rest && path != [] && path[0] == End(q, rest)
      invariant Vertices(q, rest) + path[1..] == Vertices(q, walks[s])
      decreases rest
    {
      assert Discovered(q, f, done, walks, state);
      var prev := f.parent[state];
      assert Discovered(q, f, done, walks, prev);
      assert Vertices(q, rest) + path[1..] == Vertices(q, rest.prior) + path;
      state := prev;
      rest := rest.prior;
      path := [state.vid] + path;
    }
    assert Discovered(q, f, done, walks, state);
    assert Vertices(q, rest) + path[1..] == path;
  }

  // ===== The search =====

  /** `walk` is a cheapest way to the target, among all graph walks within the hop bound. */
  ghost predicate Cheapest(q: Query, walk: Walk) {
    && IsWalk(q, walk) && End(q, walk) == q.target
    && forall w :: IsGraphWalk(q, w) && WithinBound(q, w) && End(q, w) == q.target ==> Cost(q, walk) <= Cost(q, w)
  }

  ghost predicate Unreachable(q: Query) {
    forall w :: IsGraphWalk(q, w) && WithinBound(q, w) ==> End(q, w) != q.target
  }

  /** `visited` is the number of reachable states that are neither the target nor at the hop boundary. */
  ghost predicate EachExpandedOnce(q: Query, visited: nat) {
    exists ss: set<State> :: |ss| == visited && forall s :: s in ss <==> Expandable(q, s) && Reaches(q, s)
  }

  /** No hop out of a cheapest walk to an expandable state leaves the finite range. */
  ghost predicate NoOverflow(q: Query) {
    forall w, h: Move {:trigger IsLeast(q, w), Offers(q, End(q, w), h)} ::
      IsLeast(q, w) && Expandable(q, StateOf(q, w)) && h.Hop? && Offers(q, End(q, w), h) ==>
        Cost(q, Then(w, h)) <= q.arith.top
  }

  lemma OnlyBadDataFails(q: Query, w: Walk, e: Failure)
    requires Explains(q, w, e)
    ensures !(ValidData(q) && NoOverflow(q))
  {
    if e == CostOverflow {
      var h: Move :| h.Hop? && Offers(q, End(q, w), h) && Cost(q, Then(w, h)) > q.arith.top;
      assert IsLeast(q, w) && Offers(q, End(q, w), h);
    }
  }

  lemma ExpandedExactly(q: Query, done: set<State>)
    requires AllExpandable(q, Expanded(q, done))
    requires forall ss :: AllExpandable(q, ss) ==> ss <= Expanded(q, done)
    ensures EachExpandedOnce(q, |Expanded(q, done)|)
  {
    forall s | Expandable(q, s) && Reaches(q, s) ensures s in Expanded(q, done) {
      assert AllExpandable(q, {s});
    }
  }

  /** What holds between two rounds of the search loop. */
  ghost predicate Between(q: Query, universe: set<int>, f: Frontier, best: Option<HeapEntry>, visited: nat,
                          done: set<State>, walks: map<State, Walk>, level: real) {
    && WalksHold(q, f, done, walks) && HeapHolds(f, done, level) && Closed(q, f, done)
    && BestHolds(q, f, done, best)
    && f.dist.Keys <= AllStates(q, universe)
    && visited == |Expanded(q, done)| && (q.maxNodes > 0 ==> visited <= q.maxNodes)
  }

  method DijkstraShortestPath(q: Query, ghost universe: set<int>) returns (r: Result<Answer, Failure>, visited: nat)
    requires q.arith.Lawful() && q.start in universe && Contains(q, universe)
    ensures r.Ok? && r.value.Found? ==>
              exists w :: Cheapest(q, w) && r.value.path == Vertices(q, w) && r.value.cost == Cost(q, w)
    ensures r.Ok? && r.value.NoPath? ==> Unreachable(q)
    ensures r.Ok? && q.start != q.target ==> EachExpandedOnce(q, visited)
    ensures q.start == q.target ==> r == Ok(Found([q.start], 0.0)) && visited == 0
    ensures q.start != q.target ==> (r.Ok? <==> ValidData(q) && NoOverflow(q) && !OverBudget(q))
    ensures r == Err(ResourceExhausted) ==> OverBudget(q)
    ensures r.Err? && r.error != ResourceExhausted ==> exists w :: Explains(q, w, r.error)
    ensures q.start != q.target && ValidData(q) && NoOverflow(q) ==> (r == Err(ResourceExhausted) <==> OverBudget(q))
  {
    if q.start == q.target {
      StartIsTarget(q);
      assert Vertices(q, Here) == [q.start];
      return Ok(Found([q.start], 0.0)), 0;
    }
    var f := Frontier(map[Initial(q) := 0.0], map[], {HeapEntry(0.0, Initial(q))});
    var best: Option<HeapEntry> := None;
    visited := 0;
    ghost var done: set<State>, walks, level := {}, map[Initial(q) := Here], 0.0;
    assert Discovered(q, f, done, walks, Initial(q));
    hide Cheapest, Unreachable, ValidData, NoOverflow, OverBudget, EachExpandedOnce, Contains, Explains,
      Arithmetic.Lawful;
    assert Between(q, universe, f, best, visited, done, walks, level);
    hide Between;
    while f.heap != {}
      invariant Between(q, universe, f, best, visited, done, walks, level)
      decreases |AllStates(q, universe) - done|, |f.heap|
    {
      var failure;
      failure, f, best, visited, done, walks, level := Round(q, universe, f, best, visited, done, walks, level);
      if failure.Some? {
        if failure.value != ResourceExhausted {
          ghost var w :| Explains(q, w, failure.value);
          OnlyBadDataFails(q, w, failure.value);
        }
        return Err(failure.value), visited;
      }
    }
    var answer := Finish(q, f, best, universe, visited, done, walks, level);
    return Ok(answer), visited;
  }

  /** One pop: a stale entry, a target or hop-boundary state, or an expansion. */
  method Round(q: Query, ghost universe: set<int>, f0: Frontier, best0: Option<HeapEntry>, visited0: nat,
               ghost done0: set<State>, ghost walks0: map<State, Walk>, ghost level0: real)
      returns (failure: Option<Failure>, f: Frontier, best: Option<HeapEntry>, visited: nat,
               ghost done: set<State>, ghost walks: map<State, Walk>, ghost level: real)
    requires q.arith.Lawful() && Contains(q, universe)
    requires Between(q, universe, f0, best0, visited0, done0, walks0, level0) && f0.heap != {}
    ensures failure.None? ==> Between(q, universe, f, best, visited, done, walks, level)
    ensures failure.None? ==>
              || |AllStates(q, universe) - done| < |AllStates(q, universe) - done0|
              || (done == done0 && |f.heap| < |f0.heap|)
    ensures failure == Some(ResourceExhausted) ==> OverBudget(q)
    ensures failure.Some? && failure.value != ResourceExhausted ==> exists w :: Explains(q, w, failure.value)
  {
    hide WalksHold, HeapHolds, Closed, BestHolds, AllStates, Contains, Explains, Expanded, Arithmetic.Lawful,
      IsMinimum, OverBudget;
    failure, best, visited, done, walks, level := None, best0, visited0, done0, walks0, level0;
    var e, rest := PopMinimum(f0.heap);
    HeapStateIsKnown(f0, done, level, e);
    f := f0.(heap := rest);
    if e.cost > f0.dist[e.state] {
      AfterStale(q, universe, f0, best, visited, done, walks, level, e);
      return;
    }
    Settle(q, f0, done, walks, level, e);
    BestWithoutHeap(q, f0, f, done0, best0);
    done, level := done + {e.state}, e.cost;
    FewerLeft(AllStates(q, universe), done0, e.state);
    if e.state.vid == q.target {
      if best.None? || e.cost < best.value.cost {
        best := Some(e);
      }
      SettledAtRest(q, universe, f, best0, best, visited, done0, walks, e);
      return;
    }
    if q.maxSteps.Some? && e.state.hops >= q.maxSteps.value {
      SettledAtRest(q, universe, f, best0, best, visited, done0, walks, e);
      return;
    }
    assert done - {e.state} == done0;
    failure, f, visited, walks := ExpandRound(q, universe, f, best, visited, done0, walks, e);
  }

  lemma HeapStateIsKnown(f: Frontier, done: set<State>, level: real, e: HeapEntry)
    requires HeapHolds(f, done, level) && IsMinimum(f.heap, e)
    ensures e in f.heap && e.state in f.dist
  {
  }

  lemma BestWithoutHeap(q: Query, f: Frontier, f': Frontier, done: set<State>, best: Option<HeapEntry>)
    requires BestHolds(q, f, done, best) && f'.dist == f.dist
    ensures BestHolds(q, f', done, best)
  {
  }

  lemma AfterStale(q: Query, universe: set<int>, f: Frontier, best: Option<HeapEntry>, visited: nat,
                   done: set<State>, walks: map<State, Walk>, level: real, e: HeapEntry)
    requires Between(q, universe, f, best, visited, done, walks, level)
    requires IsMinimum(f.heap, e) && e.state in f.dist && e.cost > f.dist[e.state]
    ensures Between(q, universe, f.(heap := f.heap - {e}), best, visited, done, walks, level)
  {
    hide WalksHold, HeapHolds, Closed, BestHolds, AllStates, IsMinimum, Expanded;
    var f' := f.(heap := f.heap - {e});
    DropStale(f, done, level, e);
    ClosedWithoutHeap(q, f, f', done);
    WalksWithoutHeap(q, f, f', done, walks);
    BestWithoutHeap(q, f, f', done, best);
  }

  lemma WalksWithoutHeap(q: Query, f: Frontier, f': Frontier, done: set<State>, walks: map<State, Walk>)
    requires WalksHold(q, f, done, walks) && f'.dist == f.dist && f'.parent == f.parent
    ensures WalksHold(q, f', done, walks)
  {
    forall s | s in f'.dist ensures Discovered(q, f', done, walks, s) {
      assert Discovered(q, f, done, walks, s);
    }
  }

  /** Settling a target or hop-boundary state needs no expansion. */
  lemma {:induction false} SettledAtRest(q: Query, universe: set<int>, f: Frontier, best: Option<HeapEntry>,
                                         best': Option<HeapEntry>,
                      visited: nat, done: set<State>, walks: map<State, Walk>, e: HeapEntry)
    requires WalksHold(q, f, done + {e.state}, walks) && HeapHolds(f, done + {e.state}, e.cost) && Closed(q, f, done)
    requires BestHolds(q, f, done, best) && f.dist.Keys <= AllStates(q, universe) && f.dist[e.state] == e.cost
    requires visited == |Expanded(q, done)| && (q.maxNodes > 0 ==> visited <= q.maxNodes)
    requires e.state in f.dist && !Expandable(q, e.state)
    requires best' == if e.state.vid == q.target && (best.None? || e.cost < best.value.cost) then Some(e) else best
    ensures Between(q, universe, f, best', visited, done + {e.state}, walks, e.cost)
  {
    hide WalksHold, HeapHolds, Closed, BestHolds, AllStates;
    assert Expanded(q, done + {e.state}) == Expanded(q, done);
    ClosedAtRest(q, f, done, e.state);
    BestAtRest(q, f, done, best, best', e);
  }

  lemma BestAtRest(q: Query, f: Frontier, done: set<State>, best: Option<HeapEntry>, best': Option<HeapEntry>,
                   e: HeapEntry)
    requires BestHolds(q, f, done, best) && e.state in f.dist && f.dist[e.state] == e.cost
    requires best' == if e.state.vid == q.target && (best.None? || e.cost < best.value.cost) then Some(e) else best
    ensures BestHolds(q, f, done + {e.state}, best')
  {
  }

  lemma ClosedAtRest(q: Query, f: Frontier, done: set<State>, s: State)
    requires Closed(q, f, done) && s in f.dist && !Expandable(q, s)
    ensures Closed(q, f, done + {s})
  {
    forall t | t in done + {s} && Expandable(q, t) ensures ScannedUpTo(q, f, t, |q.scan(t.vid)|) {
      assert t in done;
    }
  }

  lemma BestAfterExpansion(q: Query, f: Frontier, f': Frontier, done: set<State>, best: Option<HeapEntry>, s: State)
    requires BestHolds(q, f, done, best) && Expandable(q, s) && SameSettled(f, f', done + {s})
    ensures BestHolds(q, f', done + {s}, best)
  {
  }

  lemma OneMoreExpanded(q: Query, done: set<State>, s: State)
    requires s !in done && Expandable(q, s)
    ensures |Expanded(q, done + {s})| == |Expanded(q, done)| + 1
  {
    assert Expanded(q, done + {s}) == Expanded(q, done) + {s};
  }

  method ExpandRound(q: Query, ghost universe: set<int>, f0: Frontier, ghost best: Option<HeapEntry>, visited0: nat,
                     ghost done0: set<State>, ghost walks0: map<State, Walk>, e: HeapEntry)
      returns (failure: Option<Failure>, f: Frontier, visited: nat, ghost walks: map<State, Walk>)
    requires q.arith.Lawful() && Contains(q, universe)
    requires Expanding(q, f0, done0 + {e.state}, walks0, e.cost, e.state) && e.state !in done0
    requires BestHolds(q, f0, done0, best) && f0.dist.Keys <= AllStates(q, universe)
    requires visited0 == |Expanded(q, done0)| && (q.maxNodes > 0 ==> visited0 <= q.maxNodes)
    ensures failure.None? ==> Between(q, universe, f, best, visited, done0 + {e.state}, walks, e.cost)
    ensures failure == Some(ResourceExhausted) ==> OverBudget(q)
    ensures failure.Some? && failure.value != ResourceExhausted ==> exists w :: Explains(q, w, failure.value)
  {
    hide WalksHold, HeapHolds, Closed, BestHolds, SameSettled, AllStates, Contains, Explains, Expanded,
      AllExpandable, Arithmetic.Lawful;
    failure, f, visited, walks := None, f0, visited0, walks0;
    ghost var done := done0 + {e.state};
    OneMoreExpanded(q, done0, e.state);
    if q.maxNodes > 0 && visited >= q.maxNodes {
      ExpandedAreReachable(q, f, done, walks);
      failure := Some(ResourceExhausted);
      return;
    }
    visited := visited + 1;
    var expanded;
    expanded, walks := Expand(q, f, e.state, e.cost, done, walks, universe);
    if expanded.Err? {
      failure := Some(expanded.error);
    } else {
      f := expanded.value;
      BestAfterExpansion(q, f0, f, done0, best, e.state);
    }
  }

  method Finish(q: Query, f: Frontier, best: Option<HeapEntry>, ghost universe: set<int>, ghost visited: nat,
                ghost done: set<State>, ghost walks: map<State, Walk>, ghost level: real)
      returns (answer: Answer)
    requires q.arith.Lawful() && f.heap == {}
    requires Between(q, universe, f, best, visited, done, walks, level)
    ensures answer.Found? ==>
              exists w :: Cheapest(q, w) && answer.path == Vertices(q, w) && answer.cost == Cost(q, w)
    ensures answer.NoPath? ==> Unreachable(q)
    ensures ValidData(q) && NoOverflow(q) && !OverBudget(q) && EachExpandedOnce(q, visited)
  {
    assert f.dist.Keys == done;
    ClosedMeansValid(q, f, done, walks);
    WithinBudget(q, done);
    ExpandedAreReachable(q, f, done, walks);
    ExpandedExactly(q, done);
    if best.None? {
      NothingFound(q, f, done, walks);
      return NoPath;
    }
    var path := Reconstruct(q, f, best.value.state, done, walks);
    BestIsCheapest(q, f, done, walks, best);
    return Found(path, best.value.cost);
  }

  lemma FewerLeft<T>(all: set<T>, done: set<T>, s: T)
    requires s in all && s !in done
    ensures |all - (done + {s})| < |all - done|
  {
    assert all - done == (all - (done + {s})) + {s};
  }

  lemma StartIsTarget(q: Query)
    requires q.arith.Lawful() && q.start == q.target
    ensures Cheapest(q, Here)
  {
    forall w | IsGraphWalk(q, w) ensures 0.0 <= Cost(q, w) { CostNonNegative(q, w); }
  }

  lemma ExpandedAreReachable(q: Query, f: Frontier, done: set<State>, walks: map<State, Walk>)
    requires WalksHold(q, f, done, walks)
    ensures AllExpandable(q, Expanded(q, done))
  {
    forall s | s in Expanded(q, done) ensures Reaches(q, s) {
      assert Discovered(q, f, done, walks, s);
    }
  }

  lemma WithinBudget(q: Query, done: set<State>)
    requires q.maxNodes > 0 ==> |Expanded(q, done)| <= q.maxNodes
    requires forall ss :: AllExpandable(q, ss) ==> ss <= Expanded(q, done)
    ensures !OverBudget(q)
  {
    forall ss | AllExpandable(q, ss) ensures |ss| <= |Expanded(q, done)| {
      SubsetSize(ss, Expanded(q, done));
    }
  }

  lemma SubsetSize<T>(a: set<T>, b: set<T>)
    requires a <= b
    ensures |a| <= |b|
  {
    assert b == a + (b - a);
  }

  lemma NothingFound(q: Query, f: Frontier, done: set<State>, walks: map<State, Walk>)
    requires q.arith.Lawful() && WalksHold(q, f, done, walks) && Closed(q, f, done) && f.dist.Keys == done
    requires BestHolds(q, f, done, None)
    ensures Unreachable(q)
  {
    forall w | IsGraphWalk(q, w) && WithinBound(q, w) ensures End(q, w) != q.target {
      var first := FirstVisit(q, w);
      DistIsOptimal(q, f, done, walks, first);
    }
  }

  lemma BestIsCheapest(q: Query, f: Frontier, done: set<State>, walks: map<State, Walk>, best: Option<HeapEntry>)
    requires q.arith.Lawful() && WalksHold(q, f, done, walks) && Closed(q, f, done) && f.dist.Keys == done
    requires best.Some? && BestHolds(q, f, done, best)
    ensures Cheapest(q, walks[best.value.state]) && Cost(q, walks[best.value.state]) == best.value.cost
  {
    var walk := walks[best.value.state];
    assert Discovered(q, f, done, walks, best.value.state);
    forall w | IsGraphWalk(q, w) && WithinBound(q, w) && End(q, w) == q.target
      ensures Cost(q, walk) <= Cost(q, w)
    {
      var first := FirstVisit(q, w);
      DistIsOptimal(q, f, done, walks, first);
    }
  }
}
