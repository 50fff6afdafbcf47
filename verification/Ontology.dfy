/** Class hierarchies: the depth-capped search for ancestors, and the classes of a vertex. */
module Ontology {
  import opened Prelude

  /** What the store holds for a class name. */
  datatype Metadata = Absent | Corrupt | ClassDef(superclasses: seq<string>, equivalentClasses: seq<string>)

  type Hierarchy = string -> Metadata

  datatype OntologyError =
    | CorruptMetadata(name: string)
    | TooDeep(name: string)
    | CorruptPointer(vid: int)
    | ChainTooLong(vid: int)

  const MAX_CLASS_DEPTH: nat := 16
  const MAX_SAMEAS_DEPTH: nat := 64

  /** The classes directly above a class, in the order they are followed. */
  function Parents(h: Hierarchy, name: string): seq<string> {
    match h(name)
    case ClassDef(supers, equivalents) => supers + equivalents
    case _ => []
  }

  // ===== Reachability =====

  /** The record of `c` names `p` as a superclass or as an equivalent class. */
  ghost predicate IsDirectlyAbove(h: Hierarchy, c: string, p: string) {
    h(c).ClassDef? && (p in h(c).superclasses || p in h(c).equivalentClasses)
  }

  /** The search follows exactly those. */
  lemma ParentsExact(h: Hierarchy, c: string, p: string)
    ensures p in Parents(h, c) <==> IsDirectlyAbove(h, c, p)
  {
  }

  ghost predicate IsChain(h: Hierarchy, chain: seq<string>) {
    chain != [] && forall i {:trigger chain[i]} :: 0 <= i < |chain| - 1 ==> IsDirectlyAbove(h, chain[i], chain[i + 1])
  }

  /** A chain of at most `edges` steps leads from `start` to `name`. */
  ghost predicate LeadsTo(h: Hierarchy, start: string, name: string, edges: nat, chain: seq<string>) {
    chain != [] && IsChain(h, chain) && chain[0] == start && chain[|chain| - 1] == name && |chain| - 1 <= edges
  }

  ghost predicate Reaches(h: Hierarchy, start: string, name: string, edges: nat) {
    exists chain :: LeadsTo(h, start, name, edges, chain)
  }

  ghost predicate Reachable(h: Hierarchy, start: string, name: string) {
    exists edges: nat :: Reaches(h, start, name, edges)
  }

  /** The classes at most `edges` steps away. */
  ghost function Within(h: Hierarchy, start: string, edges: nat): set<string> {
    if edges == 0 then {start} else Within(h, start, edges - 1) + Above(h, Within(h, start, edges - 1))
  }

  /** The parents of a set of classes. */
  ghost function Above(h: Hierarchy, names: set<string>): set<string> {
    set c, p | c in names && p in Parents(h, c) :: p
  }

  lemma {:induction false} WithinIsReaches(h: Hierarchy, start: string, edges: nat, name: string)
    ensures name in Within(h, start, edges) <==> Reaches(h, start, name, edges)
  {
    if name in Within(h, start, edges) { WithinHasChain(h, start, edges, name); }
    if Reaches(h, start, name, edges) {
      var chain :| LeadsTo(h, start, name, edges, chain);
      ChainIsWithin(h, start, name, edges, chain);
    }
  }

  lemma ExtendChain(h: Hierarchy, start: string, c: string, name: string, edges: nat, chain: seq<string>)
    requires LeadsTo(h, start, c, edges, chain) && name in Parents(h, c)
    ensures LeadsTo(h, start, name, edges + 1, chain + [name])
  {
    ParentsExact(h, c, name);
    hide Parents, IsDirectlyAbove;
    var longer := chain + [name];
    forall i {:trigger longer[i]} | 0 <= i < |longer| - 1 ensures IsDirectlyAbove(h, longer[i], longer[i + 1]) {
      if i < |chain| - 1 { assert IsDirectlyAbove(h, chain[i], chain[i + 1]); }
    }
  }

  lemma ShortenChain(h: Hierarchy, start: string, name: string, edges: nat, chain: seq<string>) returns (c: string)
    requires LeadsTo(h, start, name, edges, chain) && |chain| > 1
    ensures LeadsTo(h, start, c, edges - 1, chain[..|chain| - 1]) && name in Parents(h, c)
  {
    hide Parents, IsDirectlyAbove;
    c := chain[|chain| - 2];
    var shorter := chain[..|chain| - 1];
    forall i {:trigger shorter[i]} | 0 <= i < |shorter| - 1 ensures IsDirectlyAbove(h, shorter[i], shorter[i + 1]) {
      assert IsDirectlyAbove(h, chain[i], chain[i + 1]);
    }
    assert IsDirectlyAbove(h, chain[|chain| - 2], chain[|chain| - 2 + 1]);
    ParentsExact(h, c, name);
  }

  lemma {:induction false} WithinHasChain(h: Hierarchy, start: string, edges: nat, name: string)
    requires name in Within(h, start, edges)
    ensures Reaches(h, start, name, edges)
  {
    hide Parents, IsChain;
    if edges == 0 {
      OneClass(h, start);
    } else if name in Within(h, start, edges - 1) {
      WithinHasChain(h, start, edges - 1, name);
      var chain :| LeadsTo(h, start, name, edges - 1, chain);
      assert LeadsTo(h, start, name, edges, chain);
    } else {
      var c :| c in Within(h, start, edges - 1) && name in Parents(h, c);
      WithinHasChain(h, start, edges - 1, c);
      var chain :| LeadsTo(h, start, c, edges - 1, chain);
      ExtendChain(h, start, c, name, edges - 1, chain);
    }
  }

  lemma OneClass(h: Hierarchy, start: string)
    ensures LeadsTo(h, start, start, 0, [start])
  {
  }

  lemma {:induction false} ChainIsWithin(h: Hierarchy, start: string, name: string, edges: nat, chain: seq<string>)
    requires LeadsTo(h, start, name, edges, chain)
    ensures name in Within(h, start, edges)
    decreases edges
  {
    hide Parents, IsChain;
    if |chain| == 1 {
      WithinGrows(h, start, 0, edges);
    } else {
      var c := ShortenChain(h, start, name, edges, chain);
      ChainIsWithin(h, start, c, edges - 1, chain[..|chain| - 1]);
      ParentIsAbove(h, Within(h, start, edges - 1), c, name);
    }
  }

  lemma ParentIsAbove(h: Hierarchy, names: set<string>, c: string, p: string)
    requires c in names && p in Parents(h, c)
    ensures p in Above(h, names)
  {
  }

  lemma {:induction false} WithinGrows(h: Hierarchy, start: string, few: nat, many: nat)
    requires few <= many
    ensures Within(h, start, few) <= Within(h, start, many)
    decreases many
  {
    hide Above;
    if few < many {
      WithinGrows(h, start, few, many - 1);
      assert Within(h, start, many) == Within(h, start, many - 1) + Above(h, Within(h, start, many - 1));
    }
  }

  /** Once a step adds nothing, no later one does. */
  lemma {:induction false} ClosedForEver(h: Hierarchy, start: string, depth: nat, edges: nat)
    requires Above(h, Within(h, start, depth)) <= Within(h, start, depth)
    ensures Within(h, start, edges) <= Within(h, start, depth)
  {
    hide Above;
    if edges <= depth {
      WithinGrows(h, start, edges, depth);
    } else {
      ClosedForEver(h, start, depth, edges - 1);
      AboveMonotone(h, Within(h, start, edges - 1), Within(h, start, depth));
      assert Within(h, start, edges) == Within(h, start, edges - 1) + Above(h, Within(h, start, edges - 1));
    }
  }

  lemma AboveMonotone(h: Hierarchy, a: set<string>, b: set<string>)
    requires a <= b
    ensures Above(h, a) <= Above(h, b)
  {
  }

  // ===== Ancestors =====

  /** Every reachable class lies within 15 steps, and all of their records can be read. */
  ghost predicate Fits(h: Hierarchy, start: string) {
    forall c :: Reachable(h, start, c) ==> Reaches(h, start, c, 15) && h(c) != Corrupt
  }

  /** With each class the set holds every class that its record names. */
  ghost predicate IsClosed(h: Hierarchy, classes: iset<string>) {
    forall c, p :: c in classes && IsDirectlyAbove(h, c, p) ==> p in classes
  }

  /** The least set that holds the class and is closed. */
  ghost predicate IsLeastClosed(h: Hierarchy, start: string, classes: set<string>) {
    && start in classes && IsClosed(h, iset c | c in classes)
    && forall other: iset<string> :: start in other && IsClosed(h, other) ==> forall c :: c in classes ==> c in other
  }

  lemma {:induction false} ClosedHoldsChain(h: Hierarchy, start: string, chain: seq<string>, other: iset<string>,
                                            i: nat)
    requires IsChain(h, chain) && chain[0] == start && start in other && IsClosed(h, other) && i < |chain|
    ensures chain[i] in other
  {
    hide IsDirectlyAbove;
    if i == 0 {
    } else {
      ClosedHoldsChain(h, start, chain, other, i - 1);
      assert IsDirectlyAbove(h, chain[i - 1], chain[i - 1 + 1]);
    }
  }

  lemma ClosedHoldsReachable(h: Hierarchy, start: string, c: string, other: iset<string>)
    requires Reachable(h, start, c) && start in other && IsClosed(h, other)
    ensures c in other
  {
    hide IsChain, IsClosed;
    var edges: nat :| Reaches(h, start, c, edges);
    var chain :| LeadsTo(h, start, c, edges, chain);
    ClosedHoldsChain(h, start, chain, other, |chain| - 1);
  }

  lemma ReachableOneMore(h: Hierarchy, start: string, c: string, p: string)
    requires Reachable(h, start, c) && IsDirectlyAbove(h, c, p)
    ensures Reachable(h, start, p)
  {
    ParentsExact(h, c, p);
    hide IsChain, IsDirectlyAbove, Parents;
    var edges: nat :| Reaches(h, start, c, edges);
    var chain :| LeadsTo(h, start, c, edges, chain);
    ExtendChain(h, start, c, p, edges, chain);
    assert Reaches(h, start, p, edges + 1);
  }

  /** What is reachable is the least closed set. */
  lemma ReachableIsLeast(h: Hierarchy, start: string, classes: set<string>)
    requires forall c :: c in classes <==> Reachable(h, start, c)
    ensures IsLeastClosed(h, start, classes)
  {
    hide Reachable, IsDirectlyAbove;
    ReachesItself(h, start);
    forall c, p | c in classes && IsDirectlyAbove(h, c, p) ensures p in classes {
      ReachableOneMore(h, start, c, p);
    }
    hide IsClosed;
    forall other: iset<string>, c | start in other && IsClosed(h, other) && c in classes ensures c in other {
      ClosedHoldsReachable(h, start, c, other);
    }
  }

  ghost predicate NoRepeat(names: seq<string>) { forall i, j :: 0 <= i < j < |names| ==> names[i] != names[j] }

  ghost function Names(names: seq<string>): set<string> { set c | c in names }

  /** After `depth` rounds: the classes within `depth` steps are seen, the newest of them are the frontier. */
  ghost predicate Searched(h: Hierarchy, start: string, depth: nat, ancestors: seq<string>, seen: set<string>,
                           frontier: seq<string>) {
    && seen == Within(h, start, depth)
    && NoRepeat(ancestors) && Names(ancestors) == seen - {start}
    && Names(frontier) <= seen
    && (forall c :: c in seen ==> c in Names(frontier) || Expanded(h, c, seen))
  }

  /** The class has been read and all its parents seen. */
  ghost predicate Expanded(h: Hierarchy, c: string, seen: set<string>) {
    h(c) != Corrupt && forall p :: p in Parents(h, c) ==> p in seen
  }

  lemma SearchStarts(h: Hierarchy, start: string)
    ensures Searched(h, start, 0, [], {start}, [start])
  {
    assert Names([start]) == {start};
  }

  /**
   * Within a round: the classes of the frontier before `i` are expanded; what is new is next, and above something seen.
   */
  ghost predicate MidRound(h: Hierarchy, start: string, ancestors: seq<string>, seen0: set<string>, seen: set<string>,
                           next: seq<string>, frontier: seq<string>, i: nat)
    requires i <= |frontier|
  {
    && seen == seen0 + Names(next) && seen0 !! Names(next)
    && Names(next) <= Above(h, seen0)
    && start in seen0 && NoRepeat(ancestors) && Names(ancestors) == seen - {start}
    && Names(frontier) <= seen0
    && (forall c :: c in seen0 ==> c in Names(frontier) || Expanded(h, c, seen))
    && (forall j :: 0 <= j < i ==> Expanded(h, frontier[j], seen))
  }

  lemma RoundBegins(h: Hierarchy, start: string, depth: nat, ancestors: seq<string>, seen: set<string>,
                    frontier: seq<string>)
    requires Searched(h, start, depth, ancestors, seen, frontier)
    ensures MidRound(h, start, ancestors, seen, seen, [], frontier, 0)
  {
    WithinGrows(h, start, 0, depth);
    assert Names([]) == {};
  }

  lemma NamesOneMore(names: seq<string>, name: string)
    ensures Names(names + [name]) == Names(names) + {name}
    ensures NoRepeat(names) && name !in Names(names) ==> NoRepeat(names + [name])
  {
  }

  lemma ExpandedStays(h: Hierarchy, c: string, seen: set<string>, more: set<string>)
    requires Expanded(h, c, seen) && seen <= more
    ensures Expanded(h, c, more)
  {
  }

  lemma NewParent(h: Hierarchy, start: string, ancestors: seq<string>, seen0: set<string>, seen: set<string>,
                  next: seq<string>, frontier: seq<string>, i: nat, parent: string)
    requires i < |frontier| && MidRound(h, start, ancestors, seen0, seen, next, frontier, i)
    requires parent in Parents(h, frontier[i]) && parent !in seen
    ensures MidRound(h, start, ancestors + [parent], seen0, seen + {parent}, next + [parent], frontier, i)
  {
    hide NoRepeat, Expanded, Parents;
    NamesOneMore(ancestors, parent);
    NamesOneMore(next, parent);
    assert frontier[i] in Names(frontier);
    ParentIsAbove(h, seen0, frontier[i], parent);
    hide Above, Names;
    forall c | Expanded(h, c, seen) ensures Expanded(h, c, seen + {parent}) {
      ExpandedStays(h, c, seen, seen + {parent});
    }
  }

  lemma FrontierOneMore(h: Hierarchy, start: string, ancestors: seq<string>, seen0: set<string>, seen: set<string>,
                        next: seq<string>, frontier: seq<string>, i: nat)
    requires i < |frontier| && MidRound(h, start, ancestors, seen0, seen, next, frontier, i)
    requires Expanded(h, frontier[i], seen)
    ensures MidRound(h, start, ancestors, seen0, seen, next, frontier, i + 1)
  {
  }

  lemma RoundEnds(h: Hierarchy, start: string, depth: nat, ancestors: seq<string>, seen0: set<string>,
                  seen: set<string>, next: seq<string>, frontier: seq<string>)
    requires MidRound(h, start, ancestors, seen0, seen, next, frontier, |frontier|) && seen0 == Within(h, start, depth)
    ensures Searched(h, start, depth + 1, ancestors, seen, next)
    ensures next == [] <==> Above(h, seen0) <= seen0
    ensures forall c :: c in seen0 ==> h(c) != Corrupt
  {
    hide NoRepeat, Parents;
    forall c | c in seen0 ensures Expanded(h, c, seen) {
      if c in Names(frontier) {
        var j :| 0 <= j < |frontier| && frontier[j] == c;
      }
    }
    assert Above(h, seen0) <= seen;
    if next != [] { assert next[0] in Names(next); }
  }

  /** One round: read every class of the frontier, and collect the parents not seen before. */
  method ExpandFrontier(h: Hierarchy, ghost start: string, ghost depth: nat, ancestors0: seq<string>,
                        seen0: set<string>, frontier: seq<string>)
      returns (e: Option<string>, ancestors: seq<string>, seen: set<string>, next: seq<string>)
    requires Searched(h, start, depth, ancestors0, seen0, frontier)
    ensures e.None? ==> Searched(h, start, depth + 1, ancestors, seen, next)
    ensures e.None? ==> (next == [] <==> Above(h, seen0) <= seen0)
    ensures e.Some? ==> e.value in seen0 && h(e.value) == Corrupt
    ensures e.None? ==> forall c :: c in seen0 ==> h(c) != Corrupt
  {
    ancestors, seen, next := ancestors0, seen0, [];
    RoundBegins(h, start, depth, ancestors, seen, frontier);
    hide Within, Above, NoRepeat;
    for i := 0 to |frontier|
      invariant MidRound(h, start, ancestors, seen0, seen, next, frontier, i)
    {
      var current := frontier[i];
      var def := h(current);
      if def == Corrupt {
        assert current in Names(frontier);
        return Some(current), ancestors, seen, next;
      }
      if def.ClassDef? {
        ancestors, seen, next := Collect(h, start, ancestors, seen0, seen, next, frontier, i);
      }
      FrontierOneMore(h, start, ancestors, seen0, seen, next, frontier, i);
    }
    RoundEnds(h, start, depth, ancestors, seen0, seen, next, frontier);
    return None, ancestors, seen, next;
  }

  method Collect(h: Hierarchy, ghost start: string, ancestors0: seq<string>, ghost seen0: set<string>,
                 seen1: set<string>, next0: seq<string>, frontier: seq<string>, i: nat)
      returns (ancestors: seq<string>, seen: set<string>, next: seq<string>)
    requires i < |frontier| && MidRound(h, start, ancestors0, seen0, seen1, next0, frontier, i)
    requires h(frontier[i]).ClassDef?
    ensures MidRound(h, start, ancestors, seen0, seen, next, frontier, i) && Expanded(h, frontier[i], seen)
  {
    hide MidRound, NoRepeat;
    ancestors, seen, next := ancestors0, seen1, next0;
    var parents := Parents(h, frontier[i]);
    for k := 0 to |parents|
      invariant MidRound(h, start, ancestors, seen0, seen, next, frontier, i)
      invariant forall m :: 0 <= m < k ==> parents[m] in seen
    {
      if parents[k] !in seen {
        NewParent(h, start, ancestors, seen0, seen, next, frontier, i, parents[k]);
        seen := seen + {parents[k]};
        ancestors := ancestors + [parents[k]];
        next := next + [parents[k]];
      }
    }
  }

  lemma ReachableIsWithin(h: Hierarchy, start: string, name: string)
    ensures Reachable(h, start, name) <==> exists edges: nat :: name in Within(h, start, edges)
  {
    hide Reaches, Within;
    if Reachable(h, start, name) {
      var edges: nat :| Reaches(h, start, name, edges);
      WithinIsReaches(h, start, edges, name);
    }
    if edges: nat :| name in Within(h, start, edges) {
      WithinIsReaches(h, start, edges, name);
    }
  }

  /** When a round adds nothing, the classes seen are the classes reachable. */
  lemma SearchIsComplete(h: Hierarchy, start: string, depth: nat)
    requires Above(h, Within(h, start, depth)) <= Within(h, start, depth)
    ensures forall c :: Reachable(h, start, c) <==> c in Within(h, start, depth)
    ensures depth < MAX_CLASS_DEPTH && (forall c :: c in Within(h, start, depth) ==> h(c) != Corrupt) ==> Fits(h, start)
  {
    hide Within, Above, Reaches, Reachable;
    forall c ensures Reachable(h, start, c) <==> c in Within(h, start, depth) {
      ReachableIsWithin(h, start, c);
      if edges: nat :| c in Within(h, start, edges) { ClosedForEver(h, start, depth, edges); }
    }
    if depth < MAX_CLASS_DEPTH {
      forall c | c in Within(h, start, depth) ensures Reaches(h, start, c, MAX_CLASS_DEPTH - 1) {
        WithinGrows(h, start, depth, MAX_CLASS_DEPTH - 1);
        WithinIsReaches(h, start, MAX_CLASS_DEPTH - 1, c);
      }
    }
  }

  lemma CorruptDoesNotFit(h: Hierarchy, start: string, depth: nat, c: string)
    requires c in Within(h, start, depth) && h(c) == Corrupt
    ensures !Fits(h, start) && Reachable(h, start, c)
  {
    hide Within, Reaches;
    ReachableIsWithin(h, start, c);
  }

  lemma DeepDoesNotFit(h: Hierarchy, start: string)
    requires !(Above(h, Within(h, start, MAX_CLASS_DEPTH - 1)) <= Within(h, start, MAX_CLASS_DEPTH - 1))
    ensures !Fits(h, start)
  {
    hide Within, Above, Reaches;
    var last := Within(h, start, MAX_CLASS_DEPTH - 1);
    var c :| c in Above(h, last) && c !in last;
    OneStepMore(h, start, MAX_CLASS_DEPTH - 1, c);
    ReachableIsWithin(h, start, c);
    WithinIsReaches(h, start, MAX_CLASS_DEPTH - 1, c);
  }

  lemma OneStepMore(h: Hierarchy, start: string, n: nat, c: string)
    requires c in Above(h, Within(h, start, n))
    ensures c in Within(h, start, n + 1)
  {
    hide Above;
  }

  method ClassAncestorsOf(h: Hierarchy, name: string) returns (r: Result<seq<string>, OntologyError>)
    ensures r.Ok? <==> Fits(h, name)
    ensures r.Ok? ==> NoRepeat(r.value) && forall c :: c in r.value <==> Reachable(h, name, c) && c != name
    ensures r.Ok? ==> name !in r.value && IsLeastClosed(h, name, {name} + Names(r.value))
    ensures r.Err? ==>
              r.error == TooDeep(name) ||
                (r.error.CorruptMetadata? && Reachable(h, name, r.error.name) && h(r.error.name) == Corrupt)
  {
    hide Within, Above, NoRepeat, Fits, Reachable, Searched, IsLeastClosed;
    var ancestors: seq<string>, seen, frontier := [], {name}, [name];
    SearchStarts(h, name);
    for depth := 0 to MAX_CLASS_DEPTH
      invariant Searched(h, name, depth, ancestors, seen, frontier)
      invariant depth == 0 ==> frontier != []
      invariant depth > 0 ==> (frontier == [] <==> Above(h, Within(h, name, depth - 1)) <= Within(h, name, depth - 1))
      invariant depth > 0 ==> forall c :: c in Within(h, name, depth - 1) ==> h(c) != Corrupt
    {
      if frontier == [] {
        Finished(h, name, depth - 1, ancestors, seen, frontier);
        AnswerIsLeast(h, name, ancestors);
        return Ok(ancestors);
      }
      var e;
      SeenIsWithin(h, name, depth, ancestors, seen, frontier);
      e, ancestors, seen, frontier := ExpandFrontier(h, name, depth, ancestors, seen, frontier);
      if e.Some? {
        CorruptDoesNotFit(h, name, depth, e.value);
        return Err(CorruptMetadata(e.value));
      }
    }
    if frontier == [] {
      Finished(h, name, MAX_CLASS_DEPTH - 1, ancestors, seen, frontier);
      AnswerIsLeast(h, name, ancestors);
      return Ok(ancestors);
    }
    DeepDoesNotFit(h, name);
    return Err(TooDeep(name));
  }

  lemma AnswerIsLeast(h: Hierarchy, start: string, ancestors: seq<string>)
    requires forall c :: c in ancestors <==> Reachable(h, start, c) && c != start
    ensures start !in ancestors && IsLeastClosed(h, start, {start} + Names(ancestors))
  {
    hide Reachable;
    ReachesItself(h, start);
    ReachableIsLeast(h, start, {start} + Names(ancestors));
  }

  lemma SeenIsWithin(h: Hierarchy, start: string, depth: nat, ancestors: seq<string>, seen: set<string>,
                     frontier: seq<string>)
    requires Searched(h, start, depth, ancestors, seen, frontier)
    ensures seen == Within(h, start, depth)
  {
  }

  lemma Finished(h: Hierarchy, start: string, depth: nat, ancestors: seq<string>, seen: set<string>,
                 frontier: seq<string>)
    requires Searched(h, start, depth + 1, ancestors, seen, frontier) && depth < MAX_CLASS_DEPTH
    requires Above(h, Within(h, start, depth)) <= Within(h, start, depth)
    requires forall c :: c in Within(h, start, depth) ==> h(c) != Corrupt
    ensures Fits(h, start) && NoRepeat(ancestors) && forall c :: c in ancestors <==>
              Reachable(h, start, c) && c != start
  {
    SearchIsComplete(h, start, depth);
    assert Within(h, start, depth + 1) == Within(h, start, depth);
    hide Within, Above, Reachable, Fits, NoRepeat, Expanded;
    forall c ensures c in ancestors <==> Reachable(h, start, c) && c != start {
      assert c in ancestors <==> c in Names(ancestors);
    }
  }

  // ===== The classes of a vertex =====

  /** What the direct classes stand for: they and everything above them. */
  ghost predicate InClosure(h: Hierarchy, direct: seq<string>, c: string) {
    exists i :: 0 <= i < |direct| && Reachable(h, direct[i], c)
  }

  /** A class is looked up when nothing before it reaches it. */
  ghost predicate LookedUp(h: Hierarchy, direct: seq<string>, i: int)
    requires 0 <= i < |direct|
  {
    !InClosure(h, direct[..i], direct[i])
  }

  lemma ReachesItself(h: Hierarchy, c: string)
    ensures Reachable(h, c, c)
  {
    OneClass(h, c);
    assert Reaches(h, c, c, 0);
  }

  lemma ReachableThrough(h: Hierarchy, a: string, b: string, c: string)
    requires Reachable(h, a, b) && Reachable(h, b, c)
    ensures Reachable(h, a, c)
  {
    hide IsChain;
    var m: nat :| Reaches(h, a, b, m);
    var n: nat :| Reaches(h, b, c, n);
    var first :| LeadsTo(h, a, b, m, first);
    var second :| LeadsTo(h, b, c, n, second);
    JoinChains(h, a, b, c, m, n, first, second);
    assert Reaches(h, a, c, m + n);
  }

  lemma JoinChains(h: Hierarchy, a: string, b: string, c: string, m: nat, n: nat, first: seq<string>,
                   second: seq<string>)
    requires LeadsTo(h, a, b, m, first) && LeadsTo(h, b, c, n, second)
    ensures LeadsTo(h, a, c, m + n, first + second[1..])
  {
    hide IsDirectlyAbove;
    var whole := first + second[1..];
    forall i {:trigger whole[i]} | 0 <= i < |whole| - 1 ensures IsDirectlyAbove(h, whole[i], whole[i + 1]) {
      if i < |first| - 1 {
        assert IsDirectlyAbove(h, first[i], first[i + 1]);
      } else {
        var j := i - (|first| - 1);
        assert IsDirectlyAbove(h, second[j], second[j + 1]);
        assert whole[i + 1] == second[j + 1] && whole[i] == second[j];
      }
    }
  }

  /** Tags and inferred types with all their ancestors, though classes already in the set are not looked up again. */
  method VertexClassSet(h: Hierarchy, tags: Option<seq<string>>,
                        inferred: seq<string>) returns (r: Result<Option<set<string>>, OntologyError>)
    ensures tags.None? ==> r == Ok(None)
    ensures tags.Some? ==> var direct := tags.value + inferred;
              && (r.Ok? ==> r.value.Some? && forall c :: c in r.value.value <==> InClosure(h, direct, c))
              && (r.Ok? <==> forall i :: 0 <= i < |direct| && LookedUp(h, direct, i) ==> Fits(h, direct[i]))
  {
    hide Fits, Reachable, NoRepeat;
    if tags.None? { return Ok(None); }
    var direct := tags.value + inferred;
    var classes: set<string> := {};
    for i := 0 to |direct|
      invariant forall c :: c in classes <==> InClosure(h, direct[..i], c)
      invariant forall j :: 0 <= j < i && LookedUp(h, direct, j) ==> Fits(h, direct[j])
    {
      ClosureOneMore(h, direct, i);
      if direct[i] !in classes {
        var ancestors := ClassAncestorsOf(h, direct[i]);
        if ancestors.Err? { return Err(ancestors.error); }
        ReachesItself(h, direct[i]);
        classes := classes + {direct[i]} + (set a | a in ancestors.value);
      }
    }
    assert direct[..|direct|] == direct;
    return Ok(Some(classes));
  }

  lemma ClosureOneMore(h: Hierarchy, direct: seq<string>, i: nat)
    requires i < |direct|
    ensures forall c :: InClosure(h, direct[..i + 1], c) <==> InClosure(h, direct[..i], c) || Reachable(h, direct[i], c)
    ensures InClosure(h, direct[..i], direct[i]) ==> forall c :: Reachable(h, direct[i], c) ==>
              InClosure(h, direct[..i], c)
  {
    hide Reachable;
    var before, after := direct[..i], direct[..i + 1];
    forall c ensures InClosure(h, after, c) <==> InClosure(h, before, c) || Reachable(h, direct[i], c) {
      if InClosure(h, before, c) {
        var j :| 0 <= j < i && Reachable(h, before[j], c);
        assert after[j] == before[j];
      }
      if Reachable(h, direct[i], c) { assert after[i] == direct[i]; }
      if InClosure(h, after, c) {
        var j :| 0 <= j < i + 1 && Reachable(h, after[j], c);
        assert j < i ==> before[j] == after[j];
      }
    }
    if InClosure(h, before, direct[i]) {
      var j :| 0 <= j < i && Reachable(h, before[j], direct[i]);
      forall c | Reachable(h, direct[i], c) ensures InClosure(h, before, c) {
        ReachableThrough(h, before[j], direct[i], c);
      }
    }
  }

  // ===== Representatives =====

  /** What the store holds as a vertex's sameAs pointer. */
  datatype Pointer = NoPointer | BadPointer | To(rep: int)

  type Pointers = int -> Pointer

  predicate IsRepresentative(ps: Pointers, vid: int) { ps(vid) == NoPointer || ps(vid) == To(vid) }

  /** The vertex after `n` pointers, if none of them is missing or bad. */
  function Follow(ps: Pointers, vid: int, n: nat): Option<int> {
    if n == 0 then Some(vid)
    else
      match Follow(ps, vid, n - 1)
      case None => None
      case Some(cur) => if ps(cur).To? then Some(ps(cur).rep) else None
  }

  /** The chain ends in a representative after fewer than 64 pointers. */
  ghost predicate EndsAt(ps: Pointers, vid: int, n: nat, rep: int) {
    n < 64 && Follow(ps, vid, n) == Some(rep) && IsRepresentative(ps, rep)
  }

  method RepresentativeOf(ps: Pointers, vid: int) returns (r: Result<int, OntologyError>)
    ensures r.Ok? <==> exists n: nat, rep :: EndsAt(ps, vid, n, rep)
    ensures r.Ok? ==> forall n: nat, rep :: EndsAt(ps, vid, n, rep) ==> r.value == rep
    ensures r.Ok? ==> IsRepresentative(ps, r.value)
  {
    var cur := vid;
    for i := 0 to MAX_SAMEAS_DEPTH
      invariant Follow(ps, vid, i) == Some(cur)
      invariant forall j: nat, rep :: j < i ==> !EndsAt(ps, vid, j, rep)
    {
      FollowOn(ps, vid, i);
      var p := ps(cur);
      if p == NoPointer {
        assert EndsAt(ps, vid, i, cur);
        EndIsUnique(ps, vid, i, cur);
        return Ok(cur);
      }
      if p == BadPointer {
        BadChain(ps, vid, i, cur);
        return Err(CorruptPointer(cur));
      }
      if p.rep == cur {
        assert EndsAt(ps, vid, i, cur);
        EndIsUnique(ps, vid, i, cur);
        return Ok(cur);
      }
      cur := p.rep;
    }
    return Err(ChainTooLong(vid));
  }

  lemma FollowOn(ps: Pointers, vid: int, n: nat)
    ensures Follow(ps, vid, n + 1) == match Follow(ps, vid, n)
                                      case None => None
                                      case Some(cur) => if ps(cur).To? then Some(ps(cur).rep) else None
  {
  }

  /** Beyond a representative the chain stays there, or is gone. */
  lemma {:induction false} StaysAtEnd(ps: Pointers, vid: int, n: nat, rep: int, m: nat)
    requires Follow(ps, vid, n) == Some(rep) && IsRepresentative(ps, rep) && n <= m
    ensures Follow(ps, vid, m) in {None, Some(rep)}
  {
    if n < m { StaysAtEnd(ps, vid, n, rep, m - 1); }
  }

  lemma EndIsUnique(ps: Pointers, vid: int, n: nat, rep: int)
    requires EndsAt(ps, vid, n, rep) && forall j: nat, x :: j < n ==> !EndsAt(ps, vid, j, x)
    ensures forall m: nat, x :: EndsAt(ps, vid, m, x) ==> x == rep
  {
    forall m: nat, x | EndsAt(ps, vid, m, x) ensures x == rep {
      StaysAtEnd(ps, vid, n, rep, m);
    }
  }

  lemma {:induction false} LostForGood(ps: Pointers, vid: int, n: nat, m: nat)
    requires Follow(ps, vid, n) == None && n <= m
    ensures Follow(ps, vid, m) == None
  {
    if n < m { LostForGood(ps, vid, n, m - 1); }
  }

  lemma BadChain(ps: Pointers, vid: int, n: nat, cur: int)
    requires Follow(ps, vid, n) == Some(cur) && ps(cur) == BadPointer && forall j: nat, x :: j < n ==>
              !EndsAt(ps, vid, j, x)
    ensures forall m: nat, x :: !EndsAt(ps, vid, m, x)
  {
    FollowOn(ps, vid, n);
    forall m: nat, x ensures !EndsAt(ps, vid, m, x) {
      if m > n { LostForGood(ps, vid, n + 1, m); }
    }
  }
}
