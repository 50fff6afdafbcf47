/** A graph as the key-value pairs that hold it: vertex and tag keys, forward and reverse edge keys. */
module GraphStore {
  import opened Bytes
  import opened KeyValue
  import opened Text
  import opened Keys
  import opened DegreeCounters

  datatype Vertex = Vertex(tag: string, blob: seq<Byte>)

  datatype Graph = Graph(vertices: map<int, Vertex>, edges: map<EdgeId, seq<Byte>>)

  ghost predicate Numbered(g: Graph) {
    (forall v :: v in g.vertices ==> IsI64(v)) && (forall id :: id in g.edges ==> IsNumbered(id))
  }

  function VertexPrefix(space: string): string { space + ":vertex:" }

  function TagVidPrefix(space: string): string { space + ":tagvid:" }

  /** The key lies in one of the four data keyspaces of the space. */
  ghost predicate IsData(space: string, k: string) {
    VertexPrefix(space) <= k || TagVidPrefix(space) <= k || EdgePrefix(space) <= k || InEdgePrefix(space) <= k
  }

  ghost predicate Has(kv: Store, k: string, bytes: seq<Byte>) { k in kv && kv[k] == bytes }

  ghost predicate HoldsVertex(kv: Store, space: string, v: int, x: Vertex) {
    Has(kv, VertexKey(space, v), x.blob) && Has(kv, TagVidKey(space, x.tag, v), [])
  }

  ghost predicate HoldsEdge(kv: Store, space: string, id: EdgeId, blob: seq<Byte>) {
    Has(kv, KeyOf(space, false, id), blob) && Has(kv, KeyOf(space, true, id), blob)
  }

  ghost predicate IsVertexEntry(space: string, g: Graph, k: string) {
    exists v :: v in g.vertices && (k == VertexKey(space, v) || k == TagVidKey(space, g.vertices[v].tag, v))
  }

  ghost predicate IsEdgeEntry(space: string, g: Graph, k: string) {
    exists id :: id in g.edges && (k == KeyOf(space, false, id) || k == KeyOf(space, true, id))
  }

  /** The store holds the graph, and in the space's data keyspaces nothing else. */
  ghost predicate Represents(kv: Store, space: string, g: Graph) {
    && (forall v :: v in g.vertices ==> HoldsVertex(kv, space, v, g.vertices[v]))
    && (forall id :: id in g.edges ==> HoldsEdge(kv, space, id, g.edges[id]))
    && (forall k :: k in kv && IsData(space, k) ==> IsVertexEntry(space, g, k) || IsEdgeEntry(space, g, k))
  }

  const EMPTY: Graph := Graph(map[], map[])

  // ===== Keys tell entries apart =====

  /** The letter that opens the keyspace name. */
  ghost function Kind(space: string, k: string): char { if |k| > |space| + 1 then k[|space| + 1] else ' ' }

  lemma KindsOfKeys(space: string, v: int, tag: string, id: EdgeId)
    ensures Kind(space, VertexKey(space, v)) == 'v' && Kind(space, TagVidKey(space, tag, v)) == 't'
    ensures Kind(space, KeyOf(space, false, id)) == 'e' && Kind(space, KeyOf(space, true, id)) == 'i'
  {
  }

  lemma VertexKeyInjective(space: string, v: int, w: int)
    requires IsI64(v) && IsI64(w) && VertexKey(space, v) == VertexKey(space, w)
    ensures v == w
  {
    ConcatCancels(VertexPrefix(space), Decimal(v), Decimal(w));
    DecimalInjective(v, w);
  }

  /** Even a tag that contains separators is told apart, by the last one. */
  lemma TagVidKeyInjective(space: string, tag: string, v: int, tag': string, w: int)
    requires IsI64(v) && IsI64(w) && TagVidKey(space, tag, v) == TagVidKey(space, tag', w)
    ensures tag == tag' && v == w
  {
    ConcatCancels(TagVidPrefix(space), tag + ":" + Decimal(v), tag' + ":" + Decimal(w));
    LastSegment(tag, Decimal(v), tag', Decimal(w));
    DecimalInjective(v, w);
  }

  lemma TailInjective(near: int, t: string, far: int, rank: int, near': int, t': string, far': int, rank': int)
    requires IsI64(near) && IsI64(far) && IsI64(rank) && IsI64(near') && IsI64(far') && IsI64(rank')
    requires EdgeTail(near, t, far, rank) == EdgeTail(near', t', far', rank')
    ensures near == near' && t == t' && far == far' && rank == rank'
  {
    var rest := t + ":" + (Decimal(far) + ":" + Decimal(rank));
    var rest' := t' + ":" + (Decimal(far') + ":" + Decimal(rank'));
    hide Decimal, IsI64;
    assert Decimal(near) + ":" <= Decimal(near') + ":" + rest' by {
      assert Decimal(near) + ":" <= Decimal(near) + ":" + rest;
    }
    SegmentPrefix(Decimal(near), Decimal(near'), rest');
    DecimalInjective(near, near');
    ConcatCancels(Decimal(near) + ":", rest, rest');
    assert rest == (t + ":" + Decimal(far)) + ":" + Decimal(rank);
    assert rest' == (t' + ":" + Decimal(far')) + ":" + Decimal(rank');
    LastSegment(t + ":" + Decimal(far), Decimal(rank), t' + ":" + Decimal(far'), Decimal(rank'));
    LastSegment(t, Decimal(far), t', Decimal(far'));
    DecimalInjective(rank, rank');
    DecimalInjective(far, far');
  }

  /** Edge keys determine edges whatever the type contains. */
  lemma EdgeKeyInjective(space: string, isIn: bool, a: EdgeId, b: EdgeId)
    requires IsNumbered(a) && IsNumbered(b) && KeyOf(space, isIn, a) == KeyOf(space, isIn, b)
    ensures a == b
  {
    ConcatCancels(PrefixOf(space, isIn), TailOf(a, isIn), TailOf(b, isIn));
    hide EdgeTail, IsI64;
    if isIn {
      TailInjective(a.dst, a.edgeType, a.src, a.ranking, b.dst, b.edgeType, b.src, b.ranking);
    } else {
      TailInjective(a.src, a.edgeType, a.dst, a.ranking, b.src, b.edgeType, b.dst, b.ranking);
    }
  }

  // ===== Growing the graph =====

  function WithVertex(g: Graph, v: int, x: Vertex): Graph { g.(vertices := g.vertices[v := x]) }

  function WithEdge(g: Graph, id: EdgeId, blob: seq<Byte>): Graph { g.(edges := g.edges[id := blob]) }

  lemma AddVertex(kv: Store, space: string, g: Graph, v: int, x: Vertex)
    requires Represents(kv, space, g) && Numbered(g) && IsI64(v) && v !in g.vertices
    ensures Represents(kv[VertexKey(space, v) := x.blob][TagVidKey(space, x.tag, v) := []], space, WithVertex(g, v, x))
  {
    hide VertexKey, TagVidKey, KeyOf, IsI64, IsData, Kind;
    var kv', g' := kv[VertexKey(space, v) := x.blob][TagVidKey(space, x.tag, v) := []], WithVertex(g, v, x);
    forall w | w in g'.vertices ensures HoldsVertex(kv', space, w, g'.vertices[w]) {
      KindsOfKeys(space, w, g'.vertices[w].tag, EdgeId(0, "", 0, 0));
      KindsOfKeys(space, v, x.tag, EdgeId(0, "", 0, 0));
      if w != v {
        if VertexKey(space, w) == VertexKey(space, v) { VertexKeyInjective(space, w, v); }
        if TagVidKey(space, g.vertices[w].tag, w) == TagVidKey(space, x.tag, v) {
          TagVidKeyInjective(space, g.vertices[w].tag, w, x.tag, v);
        }
      }
    }
    forall id | id in g'.edges ensures HoldsEdge(kv', space, id, g'.edges[id]) {
      KindsOfKeys(space, v, x.tag, id);
    }
    forall k | k in kv' && IsData(space, k) ensures IsVertexEntry(space, g', k) || IsEdgeEntry(space, g', k) {
      VertexEntryStays(space, g, v, x, k);
    }
  }

  lemma VertexEntryStays(space: string, g: Graph, v: int, x: Vertex, k: string)
    requires v !in g.vertices
    ensures IsVertexEntry(space, g, k) || k == VertexKey(space, v) || k == TagVidKey(space, x.tag, v) ==>
              IsVertexEntry(space, WithVertex(g, v, x), k)
    ensures IsEdgeEntry(space, g, k) ==> IsEdgeEntry(space, WithVertex(g, v, x), k)
  {
    hide VertexKey, TagVidKey, KeyOf;
    var g' := WithVertex(g, v, x);
    assert v in g'.vertices && g'.vertices[v] == x;
    if IsVertexEntry(space, g, k) {
      var w :| w in g.vertices && (k == VertexKey(space, w) || k == TagVidKey(space, g.vertices[w].tag, w));
      assert w in g'.vertices && g'.vertices[w] == g.vertices[w];
    }
  }

  lemma AddEdge(kv: Store, space: string, g: Graph, id: EdgeId, blob: seq<Byte>)
    requires Represents(kv, space, g) && Numbered(g) && IsNumbered(id)
    ensures Represents(kv[KeyOf(space, false, id) := blob][KeyOf(space, true, id) := blob], space,
                       WithEdge(g, id, blob))
  {
    hide VertexKey, TagVidKey, KeyOf, IsNumbered, IsData, Kind;
    var kv', g' := kv[KeyOf(space, false, id) := blob][KeyOf(space, true, id) := blob], WithEdge(g, id, blob);
    forall w | w in g'.vertices ensures HoldsVertex(kv', space, w, g'.vertices[w]) {
      KindsOfKeys(space, w, g'.vertices[w].tag, id);
    }
    forall e | e in g'.edges ensures HoldsEdge(kv', space, e, g'.edges[e]) {
      KindsOfKeys(space, 0, "", e);
      KindsOfKeys(space, 0, "", id);
      if e != id {
        if KeyOf(space, false, e) == KeyOf(space, false, id) { EdgeKeyInjective(space, false, e, id); }
        if KeyOf(space, true, e) == KeyOf(space, true, id) { EdgeKeyInjective(space, true, e, id); }
      }
    }
    forall k | k in kv' && IsData(space, k) ensures IsVertexEntry(space, g', k) || IsEdgeEntry(space, g', k) {
      EdgeEntryStays(space, g, id, blob, k);
    }
  }

  lemma EdgeEntryStays(space: string, g: Graph, id: EdgeId, blob: seq<Byte>, k: string)
    ensures IsVertexEntry(space, g, k) ==> IsVertexEntry(space, WithEdge(g, id, blob), k)
    ensures IsEdgeEntry(space, g, k) || k == KeyOf(space, false, id) || k == KeyOf(space, true, id) ==>
              IsEdgeEntry(space, WithEdge(g, id, blob), k)
  {
    hide VertexKey, TagVidKey, KeyOf;
    var g' := WithEdge(g, id, blob);
    assert id in g'.edges;
    if IsEdgeEntry(space, g, k) {
      var e :| e in g.edges && (k == KeyOf(space, false, e) || k == KeyOf(space, true, e));
      assert e in g'.edges;
    }
  }

  // ===== What a represented graph promises =====

  /** Each vertex key has exactly one tag key, and there is no other. */
  lemma OneTagPerVertex(kv: Store, space: string, g: Graph, v: int)
    requires Represents(kv, space, g) && Numbered(g) && IsI64(v)
    ensures VertexKey(space, v) in kv <==> v in g.vertices
    ensures forall tag :: TagVidKey(space, tag, v) in kv <==> v in g.vertices && tag == g.vertices[v].tag
  {
    if VertexKey(space, v) in kv { VertexKeyIsEntry(kv, space, g, v); }
    forall tag ensures TagVidKey(space, tag, v) in kv <==> v in g.vertices && tag == g.vertices[v].tag {
      if TagVidKey(space, tag, v) in kv { TagKeyIsEntry(kv, space, g, tag, v); }
    }
  }

  lemma VertexKeyIsEntry(kv: Store, space: string, g: Graph, v: int)
    requires Represents(kv, space, g) && Numbered(g) && IsI64(v) && VertexKey(space, v) in kv
    ensures v in g.vertices
  {
    var k := VertexKey(space, v);
    assert IsData(space, k);
    hide VertexKey, TagVidKey, KeyOf, IsI64, IsData, Kind, Has;
    if IsEdgeEntry(space, g, k) {
      var id :| id in g.edges && (k == KeyOf(space, false, id) || k == KeyOf(space, true, id));
      KindsOfKeys(space, v, "", id);
    } else {
      var w :| w in g.vertices && (k == VertexKey(space, w) || k == TagVidKey(space, g.vertices[w].tag, w));
      KindsOfKeys(space, v, "", EdgeId(0, "", 0, 0));
      KindsOfKeys(space, w, g.vertices[w].tag, EdgeId(0, "", 0, 0));
      VertexKeyInjective(space, v, w);
    }
  }

  lemma TagKeyIsEntry(kv: Store, space: string, g: Graph, tag: string, v: int)
    requires Represents(kv, space, g) && Numbered(g) && IsI64(v) && TagVidKey(space, tag, v) in kv
    ensures v in g.vertices && tag == g.vertices[v].tag
  {
    var k := TagVidKey(space, tag, v);
    assert IsData(space, k) by { assert TagVidPrefix(space) <= k; }
    hide VertexKey, TagVidKey, KeyOf, IsI64, IsData, Kind, Has;
    if IsEdgeEntry(space, g, k) {
      var id :| id in g.edges && (k == KeyOf(space, false, id) || k == KeyOf(space, true, id));
      KindsOfKeys(space, v, tag, id);
    } else {
      var w :| w in g.vertices && (k == VertexKey(space, w) || k == TagVidKey(space, g.vertices[w].tag, w));
      KindsOfKeys(space, v, tag, EdgeId(0, "", 0, 0));
      KindsOfKeys(space, w, g.vertices[w].tag, EdgeId(0, "", 0, 0));
      TagVidKeyInjective(space, tag, v, g.vertices[w].tag, w);
    }
  }

  /** Forward and reverse edge keys mirror each other, with equal payloads. */
  lemma EdgesMirror(kv: Store, space: string, g: Graph, id: EdgeId)
    requires Represents(kv, space, g) && Numbered(g) && IsNumbered(id)
    ensures KeyOf(space, false, id) in kv <==> KeyOf(space, true, id) in kv
    ensures KeyOf(space, false, id) in kv ==> kv[KeyOf(space, false, id)] == kv[KeyOf(space, true, id)]
    ensures KeyOf(space, false, id) in kv <==> id in g.edges
  {
    EdgeKeyIsEntry(kv, space, g, false, id);
    EdgeKeyIsEntry(kv, space, g, true, id);
  }

  lemma EdgeKeyIsEntry(kv: Store, space: string, g: Graph, isIn: bool, id: EdgeId)
    requires Represents(kv, space, g) && Numbered(g) && IsNumbered(id)
    ensures KeyOf(space, isIn, id) in kv ==> id in g.edges
  {
    var k := KeyOf(space, isIn, id);
    if k in kv {
      assert PrefixOf(space, isIn) <= k;
      EdgeDataIsEdge(kv, space, g, isIn, k);
      var e :| e in g.edges && k == KeyOf(space, isIn, e);
      EdgeKeyInjective(space, isIn, id, e);
    }
  }

  lemma EdgeKind(space: string, isIn: bool, k: string)
    requires PrefixOf(space, isIn) <= k
    ensures IsData(space, k) && Kind(space, k) == if isIn then 'i' else 'e'
  {
    assert k[|space| + 1] == PrefixOf(space, isIn)[|space| + 1];
  }

  lemma EdgeDataIsEdge(kv: Store, space: string, g: Graph, isIn: bool, k: string)
    requires Represents(kv, space, g) && k in kv && PrefixOf(space, isIn) <= k
    ensures exists e :: e in g.edges && k == KeyOf(space, isIn, e)
  {
    hide VertexKey, TagVidKey, KeyOf, IsData, Kind, Has, HoldsEdge, HoldsVertex;
    EdgeKind(space, isIn, k);
    NoVertexEntry(space, g, k);
    var e :| e in g.edges && (k == KeyOf(space, false, e) || k == KeyOf(space, true, e));
    KindsOfKeys(space, 0, "", e);
    assert k == KeyOf(space, isIn, e);
  }

  lemma NoVertexEntry(space: string, g: Graph, k: string)
    requires Kind(space, k) in {'i', 'e'}
    ensures !IsVertexEntry(space, g, k)
  {
    hide VertexKey, TagVidKey;
    forall v | v in g.vertices ensures k != VertexKey(space, v) && k != TagVidKey(space, g.vertices[v].tag, v) {
      KindsOfKeys(space, v, g.vertices[v].tag, EdgeId(0, "", 0, 0));
    }
  }

  /** If no type contains a separator, the edge keyspaces hold the graph's edges. */
  lemma GraphEdgesHeld(kv: Store, space: string, g: Graph)
    requires Represents(kv, space, g) && Numbered(g) && forall id :: id in g.edges ==> IsSegment(id.edgeType)
    ensures HoldsBoth(kv, space, g.edges.Keys)
  {
    EdgesHeldOneWay(kv, space, g, true);
    EdgesHeldOneWay(kv, space, g, false);
  }

  lemma EdgesHeldOneWay(kv: Store, space: string, g: Graph, isIn: bool)
    requires Represents(kv, space, g) && Numbered(g) && forall id :: id in g.edges ==> IsSegment(id.edgeType)
    ensures HoldsIds(kv, space, isIn, g.edges.Keys)
  {
    hide KeyOf, PrefixOf;
    forall id | id in g.edges ensures IsId(id) && KeyOf(space, isIn, id) in kv {
      assert HoldsEdge(kv, space, id, g.edges[id]);
    }
    hide Represents;
    forall k | k in kv && PrefixOf(space, isIn) <= k ensures IsKeyIn(space, isIn, g.edges.Keys, k) {
      EdgeDataIsEdge(kv, space, g, isIn, k);
    }
  }

  /** The graph determines the data keyspaces. */
  lemma SameGraphSameData(a: Store, b: Store, space: string, g: Graph, k: string)
    requires Represents(a, space, g) && Represents(b, space, g) && IsData(space, k)
    ensures SameAt(a, b, k)
  {
    EntryIsHeld(a, b, space, g, k);
    EntryIsHeld(b, a, space, g, k);
  }

  lemma EntryIsHeld(a: Store, b: Store, space: string, g: Graph, k: string)
    requires Represents(a, space, g) && Represents(b, space, g) && IsData(space, k)
    ensures k in a ==> k in b && a[k] == b[k]
  {
    hide VertexKey, TagVidKey, KeyOf, IsData;
    if k in a {
      if IsVertexEntry(space, g, k) {
        var v :| v in g.vertices && (k == VertexKey(space, v) || k == TagVidKey(space, g.vertices[v].tag, v));
        assert HoldsVertex(a, space, v, g.vertices[v]) && HoldsVertex(b, space, v, g.vertices[v]);
      } else {
        var id :| id in g.edges && (k == KeyOf(space, false, id) || k == KeyOf(space, true, id));
        assert HoldsEdge(a, space, id, g.edges[id]) && HoldsEdge(b, space, id, g.edges[id]);
      }
    }
  }

  lemma DataIsNoCounter(space: string, k: string)
    requires IsData(space, k)
    ensures NoCounter(space, k)
  {
    if EdgePrefix(space) <= k {
      EdgeKeysAreNoCounters(space, false, k);
    } else if InEdgePrefix(space) <= k {
      EdgeKeysAreNoCounters(space, true, k);
    } else if VertexPrefix(space) <= k {
      assert k[|space| + 1] == VertexPrefix(space)[|space| + 1];
      assert CounterPrefix(space, true)[|space| + 1] == 'i' && CounterPrefix(space, false)[|space| + 1] == 'o';
    } else {
      assert k[|space| + 1] == TagVidPrefix(space)[|space| + 1];
      assert CounterPrefix(space, true)[|space| + 1] == 'i' && CounterPrefix(space, false)[|space| + 1] == 'o';
    }
  }

  /** Writing counters leaves the graph as it is. */
  lemma CountersKeepGraph(a: Store, b: Store, space: string, g: Graph)
    requires Represents(a, space, g) && forall k :: NoCounter(space, k) ==> SameAt(a, b, k)
    ensures Represents(b, space, g)
  {
    hide VertexKey, TagVidKey, KeyOf, IsData, NoCounter, IsVertexEntry, IsEdgeEntry;
    forall k | IsData(space, k) ensures SameAt(a, b, k) {
      DataIsNoCounter(space, k);
    }
    forall v | v in g.vertices ensures HoldsVertex(b, space, v, g.vertices[v]) {
      KeysAreData(space, v, g.vertices[v].tag, EdgeId(0, "", 0, 0));
      assert SameAt(a, b, VertexKey(space, v)) && SameAt(a, b, TagVidKey(space, g.vertices[v].tag, v));
    }
    forall id | id in g.edges ensures HoldsEdge(b, space, id, g.edges[id]) {
      KeysAreData(space, 0, "", id);
      assert SameAt(a, b, KeyOf(space, false, id)) && SameAt(a, b, KeyOf(space, true, id));
    }
    forall k | k in b && IsData(space, k) ensures IsVertexEntry(space, g, k) || IsEdgeEntry(space, g, k) {
      assert SameAt(a, b, k);
    }
  }

  lemma KeysAreData(space: string, v: int, tag: string, id: EdgeId)
    ensures IsData(space, VertexKey(space, v)) && IsData(space, TagVidKey(space, tag, v))
    ensures IsData(space, KeyOf(space, false, id)) && IsData(space, KeyOf(space, true, id))
  {
    assert VertexPrefix(space) <= VertexKey(space, v) && TagVidPrefix(space) <= TagVidKey(space, tag, v);
    assert EdgePrefix(space) <= KeyOf(space, false, id) && InEdgePrefix(space) <= KeyOf(space, true, id);
  }
}
