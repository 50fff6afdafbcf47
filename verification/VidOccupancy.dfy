/** Which numbers graph data occupies, and what the string-VID mapping makes of a store that represents a graph. */
module VidOccupancy {
  import opened Prelude
  import opened Bytes
  import opened Text
  import opened Keys
  import opened KeyValue
  import opened DegreeCounters
  import opened GraphStore
  import opened VidMapping

  /** The number is a vertex of the graph, or an end of one of its edges. */
  ghost predicate IsUsed(g: Graph, c: int) {
    c in g.vertices || exists id :: id in g.edges && (id.src == c || id.dst == c)
  }

  ghost predicate HasEnd(g: Graph, isIn: bool, c: int) {
    exists id :: id in g.edges && c == if isIn then id.dst else id.src
  }

  /** The prefix under which the edges that leave, or enter, a vertex are scanned. */
  function EndPrefix(space: string, isIn: bool, c: int): string {
    if isIn then InEdgeDstPrefix(space, c) else EdgeSrcPrefix(space, c)
  }

  ghost predicate HasKeyUnder(kv: Store, prefix: string) { exists k :: k in kv && prefix <= k }

  lemma EdgeKeyUnder(space: string, isIn: bool, id: EdgeId)
    ensures EndPrefix(space, isIn, if isIn then id.dst else id.src) <= KeyOf(space, isIn, id)
  {
    hide Decimal, EdgePrefix, InEdgePrefix;
    var near := Decimal(if isIn then id.dst else id.src) + ":";
    assert near <= TailOf(id, isIn);
    PrefixExtends(PrefixOf(space, isIn), near, TailOf(id, isIn));
  }

  lemma UnderEndsThere(space: string, isIn: bool, c: int, id: EdgeId)
    requires IsI64(c) && IsNumbered(id) && EndPrefix(space, isIn, c) <= KeyOf(space, isIn, id)
    ensures c == if isIn then id.dst else id.src
  {
    hide Decimal, IsI64, EdgePrefix, InEdgePrefix;
    var near := if isIn then id.dst else id.src;
    PrefixCancels(PrefixOf(space, isIn), Decimal(c) + ":", TailOf(id, isIn));
    var rest := id.edgeType + ":" + (Decimal(if isIn then id.src else id.dst) + ":" + Decimal(id.ranking));
    assert TailOf(id, isIn) == Decimal(near) + ":" + rest;
    SegmentPrefix(Decimal(c), Decimal(near), rest);
    DecimalInjective(c, near);
  }

  /** A scan under a vertex finds something exactly if an edge has that end. */
  lemma ScanFindsEnds(kv: Store, space: string, g: Graph, isIn: bool, c: int)
    requires Represents(kv, space, g) && Numbered(g) && IsI64(c)
    ensures HasKeyUnder(kv, EndPrefix(space, isIn, c)) <==> HasEnd(g, isIn, c)
  {
    hide KeyOf, EndPrefix, IsI64, Has, Decimal;
    if k :| k in kv && EndPrefix(space, isIn, c) <= k {
      EndIsInKeyspace(space, isIn, c, k);
      EdgeDataIsEdge(kv, space, g, isIn, k);
      var id :| id in g.edges && k == KeyOf(space, isIn, id);
      UnderEndsThere(space, isIn, c, id);
    }
    if id :| id in g.edges && c == if isIn then id.dst else id.src {
      assert HoldsEdge(kv, space, id, g.edges[id]);
      EdgeKeyUnder(space, isIn, id);
      EdgeIsStored(kv, space, isIn, id, g.edges[id]);
    }
  }

  lemma EndIsInKeyspace(space: string, isIn: bool, c: int, k: string)
    requires EndPrefix(space, isIn, c) <= k
    ensures PrefixOf(space, isIn) <= k
  {
    hide Decimal, EdgePrefix, InEdgePrefix;
    assert PrefixOf(space, isIn) <= EndPrefix(space, isIn, c);
  }

  lemma EdgeIsStored(kv: Store, space: string, isIn: bool, id: EdgeId, blob: seq<Byte>)
    requires HoldsEdge(kv, space, id, blob)
    ensures KeyOf(space, isIn, id) in kv
  {
  }

  /** The three checks find a number occupied exactly if the graph uses it. */
  lemma OccupiedExactly(cfg: Config, kv: Store, g: Graph, c: int)
    requires Represents(kv, cfg.space, g) && Numbered(g) && IsI64(c)
    ensures HasVertex(cfg, kv, c) <==> c in g.vertices
    ensures HasOutEdge(cfg, kv, c) <==> HasEnd(g, false, c)
    ensures HasInEdge(cfg, kv, c) <==> HasEnd(g, true, c)
    ensures Occupied(cfg, kv, c) <==> IsUsed(g, c)
  {
    hide Represents, Numbered, IsI64, Decimal, EdgePrefix, InEdgePrefix, VertexKey, TagVidKey;
    OneTagPerVertex(kv, cfg.space, g, c);
    ScanFindsEnds(kv, cfg.space, g, false, c);
    ScanFindsEnds(kv, cfg.space, g, true, c);
    assert HasOutEdge(cfg, kv, c) <==> HasKeyUnder(kv, EndPrefix(cfg.space, false, c));
    assert HasInEdge(cfg, kv, c) <==> HasKeyUnder(kv, EndPrefix(cfg.space, true, c));
    assert HasEnd(g, false, c) ==> IsUsed(g, c);
    assert HasEnd(g, true, c) ==> IsUsed(g, c);
  }

  // ===== Resolving on a represented graph =====

  lemma MappingKeyIsNotData(space: string, key: string)
    requires IsMappingKey(space, key)
    ensures !IsData(space, key)
  {
    assert key[|space| + 1] == 'v' && key[|space| + 2] == 'i';
    assert VertexPrefix(space)[|space| + 2] == 'e';
    assert TagVidPrefix(space)[|space| + 1] == 't';
    assert EdgePrefix(space)[|space| + 1] == 'e';
    assert InEdgePrefix(space)[|space| + 1] == 'i' && InEdgePrefix(space)[|space| + 2] == 'n';
    assert key[|space| + 3] == 'd';
    assert InEdgePrefix(space)[|space| + 3] == '-';
  }

  lemma DataKeysAreData(space: string, v: int, tag: string, id: EdgeId)
    ensures IsData(space, VertexKey(space, v)) && IsData(space, TagVidKey(space, tag, v))
    ensures IsData(space, KeyOf(space, false, id)) && IsData(space, KeyOf(space, true, id))
  {
    assert VertexPrefix(space) <= VertexKey(space, v);
    assert TagVidPrefix(space) <= TagVidKey(space, tag, v);
    assert EdgePrefix(space) <= KeyOf(space, false, id);
    assert InEdgePrefix(space) <= KeyOf(space, true, id);
  }

  /** A mapping entry leaves the represented graph as it is. */
  lemma MappingKeepsGraph(kv: Store, space: string, g: Graph, key: string, bytes: seq<Byte>)
    requires Represents(kv, space, g) && IsMappingKey(space, key)
    ensures Represents(kv[key := bytes], space, g)
  {
    hide IsMappingKey, IsData, VertexKey, TagVidKey, KeyOf, IsVertexEntry, IsEdgeEntry, HoldsVertex, HoldsEdge;
    MappingKeyIsNotData(space, key);
    forall v | v in g.vertices ensures HoldsVertex(kv[key := bytes], space, v, g.vertices[v]) {
      VertexStays(kv, space, v, g.vertices[v], key, bytes);
    }
    forall id | id in g.edges ensures HoldsEdge(kv[key := bytes], space, id, g.edges[id]) {
      EdgeStays(kv, space, id, g.edges[id], key, bytes);
    }
  }

  lemma VertexStays(kv: Store, space: string, v: int, x: Vertex, key: string, bytes: seq<Byte>)
    requires HoldsVertex(kv, space, v, x) && !IsData(space, key)
    ensures HoldsVertex(kv[key := bytes], space, v, x)
  {
    hide IsData, VertexKey, TagVidKey;
    DataKeysAreData(space, v, x.tag, EdgeId(0, "", 0, 0));
  }

  lemma EdgeStays(kv: Store, space: string, id: EdgeId, blob: seq<Byte>, key: string, bytes: seq<Byte>)
    requires HoldsEdge(kv, space, id, blob) && !IsData(space, key)
    ensures HoldsEdge(kv[key := bytes], space, id, blob)
  {
    hide IsData, KeyOf;
    DataKeysAreData(space, 0, "", id);
  }

  /**
   * An undisturbed call on a store that represents a graph: a newly claimed number is no vertex and no end of an edge
   * of the graph, every candidate before it is used or owned by another string, exhaustion means that all are, and the
   * graph stays represented.
   */
  lemma ResolveSparesGraph(cfg: Config, kv: Store, g: Graph, v: Value, phase: Phase, kv': Store)
    requires Represents(kv, cfg.space, g) && Numbered(g) && |v| <= cfg.maxLen && Forward(cfg, kv, v).None?
    requires Outcome(cfg, kv, v, true, phase, kv')
    ensures phase.Returned? ==>
              && phase.answer.Some? && IsSurrogate(phase.answer.value)
              && (Owner(cfg, kv, phase.answer.value) == Some(v) ||
                  (Owner(cfg, kv, phase.answer.value).None? && !IsUsed(g, phase.answer.value)))
              && forall d :: IsSurrogate(d) && ProbeIndex(cfg, v, d) < ProbeIndex(cfg, v, phase.answer.value) ==>
                   IsTaken(cfg, kv, g, v, d)
    ensures phase.Failed? ==> forall d :: IsSurrogate(d) ==> IsTaken(cfg, kv, g, v, d)
    ensures Represents(kv', cfg.space, g)
  {
    hide Represents, Numbered, Occupied, IsUsed, Owner, Forward, ProbeIndex;
    forall d | IsSurrogate(d) ensures Blocked(cfg, kv, v, d) <==> IsTaken(cfg, kv, g, v, d) {
      OccupiedExactly(cfg, kv, g, d);
    }
    if phase.Returned? && phase.answer.Some? {
      var c := phase.answer.value;
      BuildersMakeMappingKeys(cfg.space, v, c);
      MappingKeepsGraph(kv, cfg.space, g, ReverseKey(cfg.space, c), v);
      MappingKeepsGraph(kv[ReverseKey(cfg.space, c) := v], cfg.space, g, ForwardKey(cfg.space, v), EncodeI64(c));
    }
  }

  /** Another string owns the number, or nobody does and the graph uses it. */
  ghost predicate IsTaken(cfg: Config, kv: Store, g: Graph, v: Value, d: int) {
    match Owner(cfg, kv, d)
    case Some(owner) => owner != v
    case None => IsUsed(g, d)
  }

  /** A number without an owner is shown as itself exactly if it is not negative and the graph uses it. */
  lemma DisplayExactly(cfg: Config, kv: Store, g: Graph, i: int)
    requires Represents(kv, cfg.space, g) && Numbered(g) && IsI64(i)
    ensures DisplayVid(cfg, kv, i) ==
              match Owner(cfg, kv, i)
              case Some(value) => if i < 0 then Text(value) else Refused
              case None => if i >= 0 && IsUsed(g, i) then Number(i) else Refused
  {
    OccupiedExactly(cfg, kv, g, i);
  }
}
