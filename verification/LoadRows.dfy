/** What rows of node and edge files make of a graph, row by row and heading by heading. */
module LoadRows {
  import opened Prelude
  import opened Bytes
  import opened Text
  import opened DegreeCounters
  import opened GraphStore

  type Row = seq<string>

  datatype LoadError =
    | NoColumn(name: string)
    | ReservedType
    | EmptyId
    | DuplicateId(id: string)
    | Dangling(src: string, dst: string)
    | EncodeFailed

  datatype LoaderStats = LoaderStats(vertices: nat, tagvidEntries: nat, edges: nat, duplicateIds: nat,
                                     danglingEdges: nat)

  /** How far a load has come. */
  datatype Progress = Progress(ids: map<string, int>, next: int, graph: Graph, stats: LoaderStats)

  const START: Progress := Progress(map[], 1, EMPTY, LoaderStats(0, 0, 0, 0, 0))

  type VertexEncoder = (int, Row) -> Option<seq<Byte>>
  type EdgeEncoder = (EdgeId, Row) -> Option<seq<Byte>>

  /** What one file is loaded as, and from which columns. */
  datatype NodeJob = NodeJob(tag: string, idIdx: nat, encode: VertexEncoder, strict: bool)

  datatype EdgeJob =
    EdgeJob(edgeType: string, srcIdx: nat, dstIdx: nat, rankIdx: Option<nat>, encode: EdgeEncoder, strict: bool)

  /** `record.get(i).unwrap_or("")`. */
  function Cell(row: Row, i: nat): string { if i < |row| then row[i] else "" }

  /** `headers.iter().position(..)`. */
  function Position(headers: seq<string>, name: string): (r: Option<nat>)
    ensures r.Some? ==> r.value < |headers| && headers[r.value] == name && name !in headers[..r.value]
    ensures r.None? ==> name !in headers
  {
    if headers == [] then None
    else if headers[0] == name then Some(0)
    else
      var rest := Position(headers[1..], name);
      if rest.None? then None else Some(rest.value + 1)
  }

  function Ranking(row: Row, rankIdx: Option<nat>): (r: int)
    ensures IsI64(r)
  {
    if rankIdx.None? || rankIdx.value >= |row| then 0
    else
      var parsed := ParseI64(row[rankIdx.value]);
      if parsed.None? then 0 else parsed.value
  }

  function NodeRow(p: Progress, job: NodeJob, row: Row): (Progress, Option<LoadError>) {
    var id := Cell(row, job.idIdx);
    if id == "" then (p, if job.strict then Some(EmptyId) else None)
    else if id in p.ids then
      (p.(stats := p.stats.(duplicateIds := p.stats.duplicateIds + 1)),
       if job.strict then Some(DuplicateId(id)) else None)
    else
      var vid := p.next;
      var named := p.(ids := p.ids[id := vid], next := vid + 1);
      match job.encode(vid, row)
      case None => (named, Some(EncodeFailed))
      case Some(blob) =>
        (named.(graph := WithVertex(p.graph, vid, Vertex(job.tag, blob)),
                stats := p.stats.(vertices := p.stats.vertices + 1, tagvidEntries := p.stats.tagvidEntries + 1)), None)
  }

  function EdgeRow(p: Progress, job: EdgeJob, row: Row)
      : (Progress, Option<LoadError>)
  {
    var src, dst := Cell(row, job.srcIdx), Cell(row, job.dstIdx);
    if src !in p.ids || dst !in p.ids then
      (p.(stats := p.stats.(danglingEdges := p.stats.danglingEdges + 1)),
       if job.strict then Some(Dangling(src, dst)) else None)
    else
      var id := EdgeId(p.ids[src], job.edgeType, p.ids[dst], Ranking(row, job.rankIdx));
      match job.encode(id, row)
      case None => (p, Some(EncodeFailed))
      case Some(blob) => (p.(graph := WithEdge(p.graph, id, blob), stats := p.stats.(edges := p.stats.edges + 1)), None)
  }

  /** The rows up to the first that stops the load. */
  function NodeRows(p: Progress, job: NodeJob, rows: seq<Row>): (Progress, Option<LoadError>) {
    if rows == [] then (p, None)
    else
      var before := NodeRows(p, job, rows[..|rows| - 1]);
      if before.1.Some? then before else NodeRow(before.0, job, rows[|rows| - 1])
  }

  function EdgeRows(p: Progress, job: EdgeJob, rows: seq<Row>)
      : (Progress, Option<LoadError>)
  {
    if rows == [] then (p, None)
    else
      var before := EdgeRows(p, job, rows[..|rows| - 1]);
      if before.1.Some? then before else EdgeRow(before.0, job, rows[|rows| - 1])
  }

  // ===== What every load keeps =====

  ghost predicate Named(p: Progress, v: int) { exists id :: id in p.ids && p.ids[id] == v }

  /** The id map is a bijection onto the vids handed out. */
  ghost predicate Bijective(p: Progress) {
    && p.next >= 1
    && (forall id :: id in p.ids ==> 1 <= p.ids[id] < p.next)
    && (forall a, b :: a in p.ids && b in p.ids && p.ids[a] == p.ids[b] ==> a == b)
    && (forall v :: 1 <= v < p.next ==> Named(p, v))
  }

  /** Vertices and edge endpoints are vids handed out, and the counters count. */
  ghost predicate Grounded(p: Progress) {
    && (forall v :: v in p.graph.vertices ==> 1 <= v < p.next)
    && (forall id :: id in p.graph.edges ==> 1 <= id.src < p.next && 1 <= id.dst < p.next && IsI64(id.ranking))
    && p.stats.vertices == p.stats.tagvidEntries == |p.graph.vertices|
    && |p.graph.edges| <= p.stats.edges
  }

  ghost predicate Sound(p: Progress) { Bijective(p) && Grounded(p) }

  lemma SameNames(p: Progress, q: Progress)
    requires Bijective(p) && q.ids == p.ids && q.next == p.next
    ensures Bijective(q)
  {
    forall v | 1 <= v < q.next ensures Named(q, v) {
      assert Named(p, v);
    }
  }

  lemma OneMoreName(p: Progress, id: string, q: Progress)
    requires Bijective(p) && id !in p.ids && q.ids == p.ids[id := p.next] && q.next == p.next + 1
    ensures Bijective(q)
  {
    forall v | 1 <= v < q.next ensures Named(q, v) {
      if v == p.next {
        assert q.ids[id] == v;
      } else {
        assert Named(p, v);
        var x :| x in p.ids && p.ids[x] == v;
        assert q.ids[x] == v;
      }
    }
  }

  lemma NodeRowKeepsSound(p: Progress, job: NodeJob, row: Row)
    requires Sound(p)
    ensures Sound(NodeRow(p, job, row).0)
  {
    hide Bijective, Cell;
    var q := NodeRow(p, job, row).0;
    var id := Cell(row, job.idIdx);
    if id != "" && id !in p.ids {
      OneMoreName(p, id, q);
      assert p.next !in p.graph.vertices;
    } else {
      SameNames(p, q);
    }
  }

  lemma EdgeRowKeepsSound(p: Progress, job: EdgeJob, row: Row)
    requires Sound(p)
    ensures Sound(EdgeRow(p, job, row).0)
  {
    var q := EdgeRow(p, job, row).0;
    SameNames(p, q);
    EndpointsHandedOut(p, Cell(row, job.srcIdx), Cell(row, job.dstIdx));
    hide Bijective, Cell, Ranking;
  }

  lemma EndpointsHandedOut(p: Progress, src: string, dst: string)
    requires Bijective(p)
    ensures src in p.ids ==> 1 <= p.ids[src] < p.next
    ensures dst in p.ids ==> 1 <= p.ids[dst] < p.next
  {
  }

  lemma SoundIsNumbered(p: Progress)
    requires Sound(p) && p.next <= TWO_63
    ensures Numbered(p.graph) && p.next !in p.graph.vertices && (p.next < TWO_63 ==> IsI64(p.next))
  {
  }

  lemma EndpointsNumbered(p: Progress, id: EdgeId, src: string, dst: string)
    requires Sound(p) && p.next <= TWO_63
    requires src in p.ids && dst in p.ids && id.src == p.ids[src] && id.dst == p.ids[dst] && IsI64(id.ranking)
    ensures IsNumbered(id)
  {
  }

  // ===== What a load makes of its rows =====

  /** Row `i` is the first to mention its id, which is new. */
  ghost predicate IsFirst(ids: map<string, int>, idIdx: nat, rows: seq<Row>, i: int) {
    && 0 <= i < |rows| && Cell(rows[i], idIdx) != "" && Cell(rows[i], idIdx) !in ids
    && forall j :: 0 <= j < i ==> Cell(rows[j], idIdx) != Cell(rows[i], idIdx)
  }

  ghost predicate Mentions(idIdx: nat, rows: seq<Row>, id: string) {
    exists i :: 0 <= i < |rows| && Cell(rows[i], idIdx) == id
  }

  /** Every id mentioned is named, the first row that mentions it makes its vertex, and vids follow first mentions. */
  ghost predicate NodesLoaded(p: Progress, job: NodeJob, rows: seq<Row>, q: Progress) {
    && IdsNamed(p, job.idIdx, rows, q) && VerticesMade(p, job, rows, q) && VidsDealt(p, job.idIdx, rows, q)
    && NoOtherVertices(p, job.idIdx, rows, q)
    && (forall v :: v in p.graph.vertices ==> v in q.graph.vertices && q.graph.vertices[v] == p.graph.vertices[v])
    && q.graph.edges == p.graph.edges && RowsCounted(p, job, rows, q)
  }

  /** The first mentions, and the later ones. */
  ghost function FirstRows(ids: map<string, int>, idIdx: nat, rows: seq<Row>): set<int> {
    set i | 0 <= i < |rows| && IsFirst(ids, idIdx, rows, i)
  }

  ghost function RepeatRows(ids: map<string, int>, idIdx: nat, rows: seq<Row>): set<int> {
    set i | 0 <= i < |rows| && IsRepeat(ids, idIdx, rows, i)
  }

  ghost predicate IsRepeat(ids: map<string, int>, idIdx: nat, rows: seq<Row>, i: int) {
    0 <= i < |rows| && Cell(rows[i], idIdx) != "" && !IsFirst(ids, idIdx, rows, i)
  }

  ghost predicate RowsCounted(p: Progress, job: NodeJob, rows: seq<Row>, q: Progress) {
    var first, repeats := FirstRows(p.ids, job.idIdx, rows), RepeatRows(p.ids, job.idIdx, rows);
    && q.next == p.next + |first|
    && q.stats == p.stats.(vertices := p.stats.vertices + |first|, tagvidEntries := p.stats.tagvidEntries + |first|,
                           duplicateIds := p.stats.duplicateIds + |repeats|)
    && (job.strict ==> |first| == |rows| && forall i :: 0 <= i < |rows| ==> i in first)
  }

  ghost predicate IdsNamed(p: Progress, idIdx: nat, rows: seq<Row>, q: Progress) {
    && (forall id :: id in q.ids <==> id in p.ids || (id != "" && Mentions(idIdx, rows, id)))
    && (forall id :: id in p.ids ==> q.ids[id] == p.ids[id])
  }

  ghost predicate VerticesMade(p: Progress, job: NodeJob, rows: seq<Row>, q: Progress) {
    forall i :: 0 <= i < |rows| && IsFirst(p.ids, job.idIdx, rows, i) ==>
      MadeVertex(job.tag, job.encode, Cell(rows[i], job.idIdx), rows[i], q)
  }

  /** The vid of a new id is the next one plus the number of first mentions before its own. */
  ghost predicate VidsDealt(p: Progress, idIdx: nat, rows: seq<Row>, q: Progress) {
    forall i :: 0 <= i < |rows| && IsFirst(p.ids, idIdx, rows, i) ==>
      IsVidOf(q, Cell(rows[i], idIdx), p.next + |FirstRows(p.ids, idIdx, rows[..i])|)
  }

  ghost predicate IsVidOf(q: Progress, id: string, v: int) { id in q.ids && q.ids[id] == v }

  ghost predicate NoOtherVertices(p: Progress, idIdx: nat, rows: seq<Row>, q: Progress) {
    forall v :: v in q.graph.vertices ==> v in p.graph.vertices || IsNewVertex(p, idIdx, rows, q, v)
  }

  ghost predicate IsNewVertex(p: Progress, idIdx: nat, rows: seq<Row>, q: Progress, v: int) {
    exists i :: 0 <= i < |rows| && IsFirst(p.ids, idIdx, rows, i) && IsVidOf(q, Cell(rows[i], idIdx), v)
  }

  ghost predicate MadeVertex(tag: string, encode: VertexEncoder, id: string, row: Row, q: Progress) {
    && id in q.ids && q.ids[id] in q.graph.vertices
    && encode(q.ids[id], row) == Some(q.graph.vertices[q.ids[id]].blob) && q.graph.vertices[q.ids[id]].tag == tag
  }

  lemma {:induction false} NodeRowsKeepSound(p: Progress, job: NodeJob, rows: seq<Row>)
    requires Sound(p)
    ensures var q := NodeRows(p, job, rows).0; Sound(q) && p.next <= q.next <= p.next + |rows|
  {
    hide Sound, NodeRow;
    if rows == [] {
    } else {
      NodeRowsKeepSound(p, job, rows[..|rows| - 1]);
      NodeRowKeepsSound(NodeRows(p, job, rows[..|rows| - 1]).0, job, rows[|rows| - 1]);
      NodeRowNext(NodeRows(p, job, rows[..|rows| - 1]).0, job, rows[|rows| - 1]);
    }
  }

  /** A finished node load loads the nodes. */
  lemma {:induction false} NodeRowsExact(p: Progress, job: NodeJob, rows: seq<Row>)
    requires Sound(p) && NodeRows(p, job, rows).1.None?
    ensures NodesLoaded(p, job, rows, NodeRows(p, job, rows).0)
  {
    hide Sound, NodesLoaded;
    if rows == [] {
      NoRowsLoaded(p, job);
    } else {
      var prior, row := rows[..|rows| - 1], rows[|rows| - 1];
      NodeRowsExact(p, job, prior);
      NodeRowsKeepSound(p, job, prior);
      assert rows == prior + [row];
      OneMoreNode(p, job, prior, row, NodeRows(p, job, prior).0);
    }
  }

  lemma NoRowsLoaded(p: Progress, job: NodeJob)
    ensures NodesLoaded(p, job, [], p)
  {
    assert FirstRows(p.ids, job.idIdx, []) == {} && RepeatRows(p.ids, job.idIdx, []) == {};
    hide FirstRows, RepeatRows, IsFirst, Cell;
  }

  lemma OneMoreNode(p: Progress, job: NodeJob, rows: seq<Row>, row: Row, q: Progress)
    requires NodesLoaded(p, job, rows, q) && Sound(q)
    requires NodeRow(q, job, row).1.None?
    ensures NodesLoaded(p, job, rows + [row], NodeRow(q, job, row).0)
  {
    hide NodeRow, Mentions, Cell, IsFirst, VerticesMade, VidsDealt, Bijective, IdsNamed, RowsCounted, NoOtherVertices;
    var q' := NodeRow(q, job, row).0;
    NodeRowEffect(q, job, row);
    OneMoreId(p, job, rows, row, q, q');
    OneMoreVertex(p, job, rows, row, q, q');
    OneMoreDealt(p, job, rows, row, q, q');
    NoOtherOneMore(p, job, rows, row, q, q');
    OneMoreCounted(p, job, rows, row, q, q');
    assert Grounded(q) && q.next !in q.graph.vertices;
  }

  /** A row changes nothing but the counters, or names its id and makes its vertex. */
  ghost predicate NodeStep(q: Progress, tag: string, id: string, encode: VertexEncoder, row: Row, q': Progress) {
    if id == "" || id in q.ids then
      && q'.ids == q.ids && q'.next == q.next && q'.graph == q.graph
      && q'.stats == q.stats.(duplicateIds := q.stats.duplicateIds + if id == "" then 0 else 1)
    else
      && q'.ids == q.ids[id := q.next] && q'.next == q.next + 1 && encode(q.next, row).Some?
      && q'.graph == WithVertex(q.graph, q.next, Vertex(tag, encode(q.next, row).value))
      && q'.stats == q.stats.(vertices := q.stats.vertices + 1, tagvidEntries := q.stats.tagvidEntries + 1)
  }

  lemma NodeRowEffect(q: Progress, job: NodeJob, row: Row)
    requires NodeRow(q, job, row).1.None?
    ensures NodeStep(q, job.tag, Cell(row, job.idIdx), job.encode, row, NodeRow(q, job, row).0)
    ensures job.strict ==> Cell(row, job.idIdx) != "" && Cell(row, job.idIdx) !in q.ids
  {
  }

  lemma OneMoreId(p: Progress, job: NodeJob, rows: seq<Row>, row: Row, q: Progress, q': Progress)
    requires IdsNamed(p, job.idIdx, rows, q) && NodeStep(q, job.tag, Cell(row, job.idIdx), job.encode, row, q')
    ensures IdsNamed(p, job.idIdx, rows + [row], q')
  {
    hide Mentions, Cell;
    MentionsOneMore(job.idIdx, rows, row);
  }

  lemma OneMoreVertex(p: Progress, job: NodeJob, rows: seq<Row>, row: Row, q: Progress, q': Progress)
    requires IdsNamed(p, job.idIdx, rows, q) && VerticesMade(p, job, rows, q) && Sound(q)
    requires NodeStep(q, job.tag, Cell(row, job.idIdx), job.encode, row, q')
    ensures VerticesMade(p, job, rows + [row], q')
  {
    hide Cell, Mentions, IsFirst;
    var rows' := rows + [row];
    forall i | 0 <= i < |rows'| && IsFirst(p.ids, job.idIdx, rows', i)
      ensures MadeVertex(job.tag, job.encode, Cell(rows'[i], job.idIdx), rows'[i], q')
    {
      FirstBefore(p.ids, job.idIdx, rows, row, i);
      if i < |rows| {
        var id := Cell(rows[i], job.idIdx);
        assert MadeVertex(job.tag, job.encode, id, rows[i], q);
        assert Bijective(q) && q.ids[id] < q.next;
      }
    }
  }

  lemma FirstSame(ids: map<string, int>, idIdx: nat, rows: seq<Row>, row: Row, i: int)
    requires 0 <= i < |rows|
    ensures IsFirst(ids, idIdx, rows + [row], i) <==> IsFirst(ids, idIdx, rows, i)
    ensures (rows + [row])[..i] == rows[..i]
  {
    hide Cell;
    var all := rows + [row];
    assert forall j :: 0 <= j < |rows| ==> all[j] == rows[j];
  }

  lemma FirstLast(ids: map<string, int>, idIdx: nat, rows: seq<Row>, row: Row)
    ensures var id := Cell(row, idIdx);
            IsFirst(ids, idIdx, rows + [row], |rows|) <==> id != "" && id !in ids && !Mentions(idIdx, rows, id)
  {
    hide Cell;
    var all := rows + [row];
    assert all[|rows|] == row && forall j :: 0 <= j < |rows| ==> all[j] == rows[j];
  }

  lemma FirstRowsOneMore(ids: map<string, int>, idIdx: nat, rows: seq<Row>, row: Row)
    ensures var (before, after) := (FirstRows(ids, idIdx, rows), FirstRows(ids, idIdx, rows + [row]));
            if IsFirst(ids, idIdx, rows + [row], |rows|) then after == before + {|rows|} && |after| == |before| + 1
            else after == before
  {
    hide Cell, IsFirst;
    var all := rows + [row];
    var before, after := FirstRows(ids, idIdx, rows), FirstRows(ids, idIdx, all);
    var last := if IsFirst(ids, idIdx, all, |rows|) then {|rows|} else {};
    forall i ensures i in after <==> i in before + last {
      if 0 <= i < |rows| { FirstSame(ids, idIdx, rows, row, i); }
    }
    assert after == before + last;
  }

  lemma RepeatRowsOneMore(ids: map<string, int>, idIdx: nat, rows: seq<Row>, row: Row)
    ensures var (before, after) := (RepeatRows(ids, idIdx, rows), RepeatRows(ids, idIdx, rows + [row]));
            if Cell(row, idIdx) != "" && !IsFirst(ids, idIdx, rows + [row], |rows|) then
              after == before + {|rows|} && |after| == |before| + 1
            else after == before
  {
    var all := rows + [row];
    assert IsRepeat(ids, idIdx, all, |rows|) <==> Cell(row, idIdx) != "" && !IsFirst(ids, idIdx, all, |rows|);
    hide Cell, IsFirst, IsRepeat;
    forall i | 0 <= i < |rows| ensures IsRepeat(ids, idIdx, all, i) <==> IsRepeat(ids, idIdx, rows, i) {
      RepeatSame(ids, idIdx, rows, row, i);
    }
    var before, after := RepeatRows(ids, idIdx, rows), RepeatRows(ids, idIdx, all);
    if IsRepeat(ids, idIdx, all, |rows|) { assert after == before + {|rows|}; } else { assert after == before; }
  }

  lemma RepeatSame(ids: map<string, int>, idIdx: nat, rows: seq<Row>, row: Row, i: int)
    requires 0 <= i < |rows|
    ensures IsRepeat(ids, idIdx, rows + [row], i) <==> IsRepeat(ids, idIdx, rows, i)
  {
    hide Cell, IsFirst;
    FirstSame(ids, idIdx, rows, row, i);
  }

  lemma OneMoreCounted(p: Progress, job: NodeJob, rows: seq<Row>, row: Row, q: Progress, q': Progress)
    requires IdsNamed(p, job.idIdx, rows, q) && RowsCounted(p, job, rows, q)
    requires NodeStep(q, job.tag, Cell(row, job.idIdx), job.encode, row, q')
    requires job.strict ==> Cell(row, job.idIdx) != "" && Cell(row, job.idIdx) !in q.ids
    ensures RowsCounted(p, job, rows + [row], q')
  {
    hide Cell, Mentions, IsFirst, FirstRows, RepeatRows;
    FirstRowsOneMore(p.ids, job.idIdx, rows, row);
    RepeatRowsOneMore(p.ids, job.idIdx, rows, row);
    FirstLast(p.ids, job.idIdx, rows, row);
  }

  lemma OneMoreDealt(p: Progress, job: NodeJob, rows: seq<Row>, row: Row, q: Progress, q': Progress)
    requires IdsNamed(p, job.idIdx, rows, q) && VidsDealt(p, job.idIdx, rows, q) && RowsCounted(p, job, rows, q)
    requires NodeStep(q, job.tag, Cell(row, job.idIdx), job.encode, row, q')
    ensures VidsDealt(p, job.idIdx, rows + [row], q')
  {
    hide Cell, Mentions, IsFirst, FirstRows, RepeatRows;
    var all := rows + [row];
    FirstLast(p.ids, job.idIdx, rows, row);
    forall i | 0 <= i < |all| && IsFirst(p.ids, job.idIdx, all, i)
      ensures IsVidOf(q', Cell(all[i], job.idIdx), p.next + |FirstRows(p.ids, job.idIdx, all[..i])|)
    {
      if i < |rows| {
        FirstSame(p.ids, job.idIdx, rows, row, i);
        assert IsVidOf(q, Cell(rows[i], job.idIdx), p.next + |FirstRows(p.ids, job.idIdx, rows[..i])|);
      } else {
        assert all[..i] == rows;
      }
    }
  }

  lemma NoOtherOneMore(p: Progress, job: NodeJob, rows: seq<Row>, row: Row, q: Progress, q': Progress)
    requires IdsNamed(p, job.idIdx, rows, q) && NoOtherVertices(p, job.idIdx, rows, q)
    requires NodeStep(q, job.tag, Cell(row, job.idIdx), job.encode, row, q')
    ensures NoOtherVertices(p, job.idIdx, rows + [row], q')
  {
    hide Cell, Mentions, IsFirst;
    var all := rows + [row];
    FirstLast(p.ids, job.idIdx, rows, row);
    forall v | v in q'.graph.vertices && v !in p.graph.vertices
      ensures IsNewVertex(p, job.idIdx, all, q', v)
    {
      if v in q.graph.vertices && IsNewVertex(p, job.idIdx, rows, q, v) {
        var i :| 0 <= i < |rows| && IsFirst(p.ids, job.idIdx, rows, i) && IsVidOf(q, Cell(rows[i], job.idIdx), v);
        FirstSame(p.ids, job.idIdx, rows, row, i);
        assert IsVidOf(q', Cell(all[i], job.idIdx), v);
      } else {
        assert IsVidOf(q', Cell(all[|rows|], job.idIdx), v);
      }
    }
  }

  lemma MentionsOneMore(idIdx: nat, rows: seq<Row>, row: Row)
    ensures forall id :: Mentions(idIdx, rows + [row], id) <==> Mentions(idIdx, rows, id) || Cell(row, idIdx) == id
  {
    var all := rows + [row];
    forall id ensures Mentions(idIdx, all, id) <==> Mentions(idIdx, rows, id) || Cell(row, idIdx) == id {
      if Mentions(idIdx, rows, id) {
        var i :| 0 <= i < |rows| && Cell(rows[i], idIdx) == id;
        assert Cell(all[i], idIdx) == id;
      }
      if Cell(row, idIdx) == id { assert Cell(all[|rows|], idIdx) == id; }
    }
  }

  lemma FirstBefore(ids: map<string, int>, idIdx: nat, rows: seq<Row>, row: Row, i: int)
    requires IsFirst(ids, idIdx, rows + [row], i)
    ensures 0 <= i <= |rows| && Cell((rows + [row])[i], idIdx) != "" && Cell((rows + [row])[i], idIdx) !in ids
    ensures if i < |rows| then IsFirst(ids, idIdx, rows, i) else !Mentions(idIdx, rows, Cell(row, idIdx))
  {
    hide Cell;
    var all := rows + [row];
    forall j | 0 <= j < |rows| ensures all[j] == rows[j] {
    }
  }

  /** Rows a strict load accepts: non-empty new ids, none twice, every vertex encodable. */
  ghost predicate Clean(p: Progress, job: NodeJob, rows: seq<Row>) {
    forall i :: 0 <= i < |rows| ==> IsFirst(p.ids, job.idIdx, rows, i) && job.encode(p.next + i, rows[i]).Some?
  }

  /** A strict load succeeds exactly on clean rows, and then numbers them in order. */
  lemma {:induction false} StrictLoadIff(p: Progress, job: NodeJob, rows: seq<Row>)
    requires Sound(p) && job.strict
    ensures NodeRows(p, job, rows).1.None? <==> Clean(p, job, rows)
    ensures Clean(p, job, rows) ==> NodeRows(p, job, rows).0.next == p.next + |rows|
  {
    hide Clean, Sound, Mentions, IsFirst, NodeRow, NodesLoaded, Cell;
    if rows == [] {
      NothingIsClean(p, job);
    } else {
      var prior, row := rows[..|rows| - 1], rows[|rows| - 1];
      assert rows == prior + [row];
      StrictLoadIff(p, job, prior);
      CleanOneMore(p, job, prior, row);
      if Clean(p, job, prior) {
        NodeRowsExact(p, job, prior);
        LoadedIds(p, job, prior, NodeRows(p, job, prior).0, Cell(row, job.idIdx));
        StrictRow(NodeRows(p, job, prior).0, job, row);
      }
    }
  }

  lemma NothingIsClean(p: Progress, job: NodeJob)
    ensures Clean(p, job, [])
  {
  }

  lemma LoadedIds(p: Progress, job: NodeJob, rows: seq<Row>, q: Progress, id: string)
    requires NodesLoaded(p, job, rows, q)
    ensures id in q.ids <==> id in p.ids || (id != "" && Mentions(job.idIdx, rows, id))
  {
  }

  lemma StrictRow(q: Progress, job: NodeJob, row: Row)
    requires job.strict
    ensures var (q', e) := NodeRow(q, job, row);
            && (e.None? <==>
                Cell(row, job.idIdx) != "" && Cell(row, job.idIdx) !in q.ids && job.encode(q.next, row).Some?)
            && (e.None? ==> q'.next == q.next + 1)
  {
    hide Cell;
  }

  lemma CleanOneMore(p: Progress, job: NodeJob, rows: seq<Row>, row: Row)
    ensures var id := Cell(row, job.idIdx);
            Clean(p, job, rows + [row]) <==>
              Clean(p, job, rows) && id != "" && id !in p.ids && !Mentions(job.idIdx, rows, id) &&
                job.encode(p.next + |rows|, row).Some?
  {
    hide Cell;
    var all := rows + [row];
    if Clean(p, job, all) {
      forall i | 0 <= i < |rows| ensures IsFirst(p.ids, job.idIdx, rows, i) && job.encode(p.next + i, rows[i]).Some? {
        assert IsFirst(p.ids, job.idIdx, all, i) && all[i] == rows[i];
        FirstBefore(p.ids, job.idIdx, rows, row, i);
      }
      assert IsFirst(p.ids, job.idIdx, all, |rows|);
      FirstBefore(p.ids, job.idIdx, rows, row, |rows|);
    }
    if Clean(p, job, rows) && !Mentions(job.idIdx, rows, Cell(row, job.idIdx)) && Cell(row, job.idIdx) != "" &&
       Cell(row, job.idIdx) !in p.ids {
      forall i | 0 <= i < |all| ensures IsFirst(p.ids, job.idIdx, all, i) {
        assert i < |rows| ==> IsFirst(p.ids, job.idIdx, rows, i);
        forall j | 0 <= j < i ensures Cell(all[j], job.idIdx) != Cell(all[i], job.idIdx) {
          assert all[j] == rows[j];
        }
      }
    }
  }

  // ----- Edges -----

  /** The edge a row describes, if both endpoints are known. */
  function Resolve(ids: map<string, int>, job: EdgeJob, row: Row): Option<EdgeId> {
    var src, dst := Cell(row, job.srcIdx), Cell(row, job.dstIdx);
    if src in ids && dst in ids then Some(EdgeId(ids[src], job.edgeType, ids[dst], Ranking(row, job.rankIdx))) else None
  }

  ghost predicate Describes(ids: map<string, int>, job: EdgeJob, rows: seq<Row>, id: EdgeId) {
    exists i :: 0 <= i < |rows| && Resolve(ids, job, rows[i]) == Some(id)
  }

  /**
   * The edges described are added, the last row that describes an edge decides its payload, and every row is counted.
   */
  ghost predicate EdgesLoaded(p: Progress, job: EdgeJob, rows: seq<Row>, q: Progress) {
    && q.ids == p.ids && q.next == p.next && q.graph.vertices == p.graph.vertices
    && (forall id :: id in q.graph.edges <==> id in p.graph.edges || Describes(p.ids, job, rows, id))
    && (forall id :: id in p.graph.edges && !Describes(p.ids, job, rows, id) ==>
          q.graph.edges[id] == p.graph.edges[id])
    && (forall i :: 0 <= i < |rows| ==>
          LastPayload(p.ids, job, rows, i, q))
    && var dangling := DanglingRows(p.ids, job, rows);
       && (job.strict ==> dangling == {}) && q.stats.edges + |dangling| == p.stats.edges + |rows|
       && q.stats == p.stats.(edges := q.stats.edges, danglingEdges := p.stats.danglingEdges + |dangling|)
  }

  /** The rows that describe no edge. */
  ghost function DanglingRows(ids: map<string, int>, job: EdgeJob, rows: seq<Row>): set<int> {
    set i | 0 <= i < |rows| && Resolve(ids, job, rows[i]).None?
  }

  lemma DanglingOneMore(ids: map<string, int>, job: EdgeJob, rows: seq<Row>, row: Row)
    ensures var (before, after) := (DanglingRows(ids, job, rows), DanglingRows(ids, job, rows + [row]));
            if Resolve(ids, job, row).None? then after == before + {|rows|} && |after| == |before| + 1
            else after == before
  {
    hide Resolve;
    var all := rows + [row];
    assert forall i :: 0 <= i < |rows| ==> all[i] == rows[i];
    var before, after := DanglingRows(ids, job, rows), DanglingRows(ids, job, all);
    if Resolve(ids, job, row).None? { assert after == before + {|rows|}; } else { assert after == before; }
  }

  ghost predicate LastPayload(ids: map<string, int>, job: EdgeJob, rows: seq<Row>, i: nat, q: Progress)
    requires i < |rows|
  {
    var id := Resolve(ids, job, rows[i]);
    id.Some? ==>
      && job.encode(id.value, rows[i]).Some?
      && (!Describes(ids, job, rows[i + 1..], id.value) ==>
            id.value in q.graph.edges && job.encode(id.value, rows[i]) == Some(q.graph.edges[id.value]))
  }

  lemma {:induction false} EdgeRowsExact(p: Progress, job: EdgeJob, rows: seq<Row>)
    requires EdgeRows(p, job, rows).1.None?
    ensures EdgesLoaded(p, job, rows, EdgeRows(p, job, rows).0)
  {
    if rows == [] {
    } else {
      hide EdgesLoaded, EdgeRow;
      var prior, row := rows[..|rows| - 1], rows[|rows| - 1];
      EdgeRowsExact(p, job, prior);
      assert rows == prior + [row];
      OneMoreEdge(p, job, prior, row, EdgeRows(p, job, prior).0);
    }
  }

  lemma DescribesOneMore(ids: map<string, int>, job: EdgeJob, rows: seq<Row>, row: Row, id: EdgeId)
    ensures Describes(ids, job, rows + [row], id) <==>
              Describes(ids, job, rows, id) || Resolve(ids, job, row) == Some(id)
  {
    hide Resolve;
    var all := rows + [row];
    if Describes(ids, job, rows, id) {
      var i :| 0 <= i < |rows| && Resolve(ids, job, rows[i]) == Some(id);
      assert all[i] == rows[i];
    }
    if Resolve(ids, job, row) == Some(id) { assert all[|rows|] == row; }
  }

  lemma OneMoreEdge(p: Progress, job: EdgeJob, rows: seq<Row>, row: Row, q: Progress)
    requires EdgesLoaded(p, job, rows, q)
    requires EdgeRow(q, job, row).1.None?
    ensures EdgesLoaded(p, job, rows + [row], EdgeRow(q, job, row).0)
  {
    var q' := EdgeRow(q, job, row).0;
    EdgeRowEffect(q, job, row);
    hide EdgeRow, Describes, Resolve;
    var added := Resolve(p.ids, job, row);
    DanglingOneMore(p.ids, job, rows, row);
    hide DanglingRows;
    forall id ensures Describes(p.ids, job, rows + [row], id) <==>
                        Describes(p.ids, job, rows, id) || added == Some(id)
    {
      DescribesOneMore(p.ids, job, rows, row, id);
    }
    forall i | 0 <= i < |rows + [row]| ensures LastPayload(p.ids, job, rows + [row], i, q') {
      if i < |rows| { assert LastPayload(p.ids, job, rows, i, q); }
      PayloadOneMore(p.ids, job, rows, row, i, q, q');
    }
  }

  /** A row is counted as dangling, or sets the edge it describes. */
  ghost predicate EdgeStep(q: Progress, id: Option<EdgeId>, encode: EdgeEncoder, row: Row, q': Progress) {
    && q'.ids == q.ids && q'.next == q.next
    && match id
       case None =>
         q'.graph == q.graph && q'.stats == q.stats.(danglingEdges := q.stats.danglingEdges + 1)
       case Some(e) =>
         && encode(e, row).Some? && q'.graph == WithEdge(q.graph, e, encode(e, row).value)
         && q'.stats == q.stats.(edges := q.stats.edges + 1)
  }

  lemma EdgeRowEffect(q: Progress, job: EdgeJob, row: Row)
    requires EdgeRow(q, job, row).1.None?
    ensures EdgeStep(q, Resolve(q.ids, job, row), job.encode, row,
                     EdgeRow(q, job, row).0)
    ensures job.strict ==> Resolve(q.ids, job, row).Some?
  {
  }

  lemma PayloadOneMore(ids: map<string, int>, job: EdgeJob, rows: seq<Row>, row: Row,
                       i: nat, q: Progress, q': Progress)
    requires i <= |rows| && (i < |rows| ==> LastPayload(ids, job, rows, i, q))
    requires EdgeStep(q, Resolve(ids, job, row), job.encode, row, q')
    ensures LastPayload(ids, job, rows + [row], i, q')
  {
    hide Describes, Resolve;
    var all := rows + [row];
    if i < |rows| {
      var id := Resolve(ids, job, rows[i]);
      assert all[i] == rows[i] && all[i + 1..] == rows[i + 1..] + [row];
      if id.Some? { DescribesOneMore(ids, job, rows[i + 1..], row, id.value); }
    } else {
      assert all[i] == row;
    }
  }

  // ===== Whole files =====

  lemma {:induction false} EdgeRowsKeepSound(p: Progress, job: EdgeJob, rows: seq<Row>)
    requires Sound(p)
    ensures var q := EdgeRows(p, job, rows).0; Sound(q) && q.next == p.next
  {
    if rows == [] {
    } else {
      hide Sound, Cell, Ranking;
      var prior := rows[..|rows| - 1];
      EdgeRowsKeepSound(p, job, prior);
      EdgeRowKeepsSound(EdgeRows(p, job, prior).0, job, rows[|rows| - 1]);
    }
  }

  function NodeFile(p: Progress, idColumn: string, strict: bool, tag: string, headers: seq<string>,
                    encode: VertexEncoder, rows: seq<Row>)
      : (Progress, Option<LoadError>)
  {
    match Position(headers, idColumn)
    case None => (p, Some(NoColumn(idColumn)))
    case Some(idIdx) => NodeRows(p, NodeJob(tag, idIdx, encode, strict), rows)
  }

  function RankIdx(headers: seq<string>, rankingColumn: Option<string>): Option<nat> {
    if rankingColumn.None? then None else Position(headers, rankingColumn.value)
  }

  function EdgeFile(p: Progress, columns: Columns, strict: bool, edgeType: string, headers: seq<string>,
                    encode: EdgeEncoder, rows: seq<Row>)
      : (Progress, Option<LoadError>)
  {
    if edgeType == "sameAs" then (p, Some(ReservedType))
    else
      var srcIdx, dstIdx := Position(headers, columns.src), Position(headers, columns.dst);
      if srcIdx.None? then (p, Some(NoColumn(columns.src)))
      else if dstIdx.None? then (p, Some(NoColumn(columns.dst)))
      else
        var job := EdgeJob(edgeType, srcIdx.value, dstIdx.value, RankIdx(headers, columns.ranking), encode, strict);
        EdgeRows(p, job, rows)
  }

  datatype Columns = Columns(id: string, src: string, dst: string, ranking: Option<string>)

  // ===== What a file means, column by column =====

  /** Column `i` is the first headed `name`. */
  ghost predicate IsColumn(headers: seq<string>, name: string, i: nat) {
    i < |headers| && headers[i] == name && forall j :: 0 <= j < i ==> headers[j] != name
  }

  /** What a row holds under a heading, which is nothing in a row that is too short. */
  ghost predicate Under(headers: seq<string>, name: string, row: Row, text: string) {
    exists i: nat :: IsColumn(headers, name, i) && if i < |row| then row[i] == text else text == ""
  }

  /** An edge file. */
  datatype EdgeSheet =
    EdgeSheet(edgeType: string, columns: Columns, headers: seq<string>, encode: EdgeEncoder, strict: bool)

  ghost predicate SpellsRanking(s: EdgeSheet, row: Row, r: int) {
    && s.columns.ranking.Some? && IsI64(r)
    && exists text :: Under(s.headers, s.columns.ranking.value, row, text) && Spells(text, r)
  }

  /** The number spelled under the ranking column, or zero when no number is spelled there. */
  ghost predicate HasRanking(s: EdgeSheet, row: Row, r: int) {
    SpellsRanking(s, row, r) || (r == 0 && forall i :: !SpellsRanking(s, row, i))
  }

  /** The text under a heading is an id whose vid is `v`. */
  ghost predicate Refers(ids: map<string, int>, headers: seq<string>, name: string, row: Row, v: int) {
    exists text :: Under(headers, name, row, text) && text in ids && ids[text] == v
  }

  ghost predicate RowNames(s: EdgeSheet, ids: map<string, int>, row: Row, id: EdgeId) {
    && id.edgeType == s.edgeType && HasRanking(s, row, id.ranking)
    && Refers(ids, s.headers, s.columns.src, row, id.src) && Refers(ids, s.headers, s.columns.dst, row, id.dst)
  }

  ghost predicate RowsName(s: EdgeSheet, ids: map<string, int>, rows: seq<Row>, id: EdgeId) {
    exists i :: 0 <= i < |rows| && RowNames(s, ids, rows[i], id)
  }

  /** The endpoints of a row, one of them unknown. */
  ghost predicate RowDangles(s: EdgeSheet, ids: map<string, int>, row: Row, src: string, dst: string) {
    && Under(s.headers, s.columns.src, row, src) && Under(s.headers, s.columns.dst, row, dst)
    && (src !in ids || dst !in ids)
  }

  /** How the payloads come about: the last row that names an edge decides. */
  ghost predicate RowDecides(s: EdgeSheet, ids: map<string, int>, rows: seq<Row>, i: nat, id: EdgeId, q: Progress)
    requires i < |rows|
  {
    RowNames(s, ids, rows[i], id) ==>
      && s.encode(id, rows[i]).Some?
      && (!RowsName(s, ids, rows[i + 1..], id) ==>
            id in q.graph.edges && q.graph.edges[id] == s.encode(id, rows[i]).value)
  }

  /** The rows were read through: each named an edge, which is now in the graph, or was counted as dangling. */
  ghost predicate EdgesRead(p: Progress, s: EdgeSheet, rows: seq<Row>, q: Progress) {
    && q.ids == p.ids && q.next == p.next && q.graph.vertices == p.graph.vertices
    && (forall id :: id in q.graph.edges <==> id in p.graph.edges || RowsName(s, p.ids, rows, id))
    && (forall id :: id in p.graph.edges && !RowsName(s, p.ids, rows, id) ==> q.graph.edges[id] == p.graph.edges[id])
    && (forall i: nat, id | i < |rows| :: RowDecides(s, p.ids, rows, i, id, q))
    && var dangling := set i | 0 <= i < |rows| && IsDangling(s, p.ids, rows[i]);
       && (s.strict ==> dangling == {}) && q.stats.edges + |dangling| == p.stats.edges + |rows|
       && q.stats == p.stats.(edges := q.stats.edges, danglingEdges := p.stats.danglingEdges + |dangling|)
  }

  ghost predicate IsDangling(s: EdgeSheet, ids: map<string, int>, row: Row) {
    exists src, dst :: RowDangles(s, ids, row, src, dst)
  }

  /** The load stopped at row `i`, after reading the rows before it. */
  ghost predicate EdgeStops(p: Progress, s: EdgeSheet, rows: seq<Row>, i: nat, q: Progress, e: LoadError)
    requires i < |rows|
  {
    if e.Dangling? then
      && s.strict && RowDangles(s, p.ids, rows[i], e.src, e.dst) && q.stats.danglingEdges > 0
      && EdgesRead(p, s, rows[..i], q.(stats := q.stats.(danglingEdges := q.stats.danglingEdges - 1)))
    else
      && e.EncodeFailed? && EdgesRead(p, s, rows[..i], q)
      && exists id :: RowNames(s, p.ids, rows[i], id) && s.encode(id, rows[i]).None?
  }

  /** What an edge file does to the load, by how it ends. */
  ghost predicate EdgeFileRead(p: Progress, s: EdgeSheet, rows: seq<Row>, q: Progress, e: Option<LoadError>) {
    if s.edgeType == "sameAs" then e == Some(ReservedType) && q == p
    else if s.columns.src !in s.headers then e == Some(NoColumn(s.columns.src)) && q == p
    else if s.columns.dst !in s.headers then e == Some(NoColumn(s.columns.dst)) && q == p
    else if e.None? then EdgesRead(p, s, rows, q)
    else exists i: nat :: i < |rows| && EdgeStops(p, s, rows, i, q, e.value)
  }

  /** The loader's cells are the ones under the heading. */
  lemma UnderExactly(headers: seq<string>, name: string, row: Row, text: string)
    ensures var i := Position(headers, name); Under(headers, name, row, text) <==> i.Some? && Cell(row, i.value) == text
  {
    var i := Position(headers, name);
    if i.Some? {
      forall j | 0 <= j < i.value ensures headers[j] != name { assert headers[..i.value][j] == headers[j]; }
      assert IsColumn(headers, name, i.value);
    }
    forall j: nat | IsColumn(headers, name, j) ensures i == Some(j) {
      assert headers[j] in headers;
    }
  }

  lemma RankingExactly(s: EdgeSheet, row: Row, r: int)
    ensures HasRanking(s, row, r) <==> Ranking(row, RankIdx(s.headers, s.columns.ranking)) == r
  {
    hide ParseI64, Spells, Under, Position;
    var rank := RankIdx(s.headers, s.columns.ranking);
    if rank.Some? {
      var text := Cell(row, rank.value);
      forall i ensures SpellsRanking(s, row, i) <==> ParseI64(text) == Some(i) {
        ParseExactly(text, i);
        forall t ensures Under(s.headers, s.columns.ranking.value, row, t) <==> t == text {
          UnderExactly(s.headers, s.columns.ranking.value, row, t);
        }
      }
      NothingSpelled();
    } else {
      forall i ensures !SpellsRanking(s, row, i) {
        forall t | s.columns.ranking.Some? ensures !Under(s.headers, s.columns.ranking.value, row, t) {
          UnderExactly(s.headers, s.columns.ranking.value, row, t);
        }
      }
    }
  }

  lemma NothingSpelled()
    ensures ParseI64("") == None
  {
  }

  ghost predicate IsJobOf(job: EdgeJob, s: EdgeSheet) {
    && Position(s.headers, s.columns.src) == Some(job.srcIdx) && Position(s.headers, s.columns.dst) == Some(job.dstIdx)
    && job == EdgeJob(s.edgeType, job.srcIdx, job.dstIdx, RankIdx(s.headers, s.columns.ranking), s.encode, s.strict)
  }

  lemma ResolveExactly(s: EdgeSheet, job: EdgeJob, ids: map<string, int>, row: Row, id: EdgeId)
    requires IsJobOf(job, s)
    ensures RowNames(s, ids, row, id) <==> Resolve(ids, job, row) == Some(id)
  {
    hide HasRanking, Ranking, Position, RankIdx, Under, Cell;
    RankingExactly(s, row, id.ranking);
    forall t ensures Under(s.headers, s.columns.src, row, t) <==> t == Cell(row, job.srcIdx) {
      UnderExactly(s.headers, s.columns.src, row, t);
    }
    forall t ensures Under(s.headers, s.columns.dst, row, t) <==> t == Cell(row, job.dstIdx) {
      UnderExactly(s.headers, s.columns.dst, row, t);
    }
  }

  lemma DanglesExactly(s: EdgeSheet, job: EdgeJob, ids: map<string, int>, row: Row)
    requires IsJobOf(job, s)
    ensures IsDangling(s, ids, row) <==> Resolve(ids, job, row).None?
    ensures Resolve(ids, job, row).None? ==> RowDangles(s, ids, row, Cell(row, job.srcIdx), Cell(row, job.dstIdx))
  {
    hide Ranking, Position, RankIdx, Under, Cell;
    forall t ensures Under(s.headers, s.columns.src, row, t) <==> t == Cell(row, job.srcIdx) {
      UnderExactly(s.headers, s.columns.src, row, t);
    }
    forall t ensures Under(s.headers, s.columns.dst, row, t) <==> t == Cell(row, job.dstIdx) {
      UnderExactly(s.headers, s.columns.dst, row, t);
    }
    if Resolve(ids, job, row).None? { assert RowDangles(s, ids, row, Cell(row, job.srcIdx), Cell(row, job.dstIdx)); }
    if IsDangling(s, ids, row) {
      var src, dst :| RowDangles(s, ids, row, src, dst);
      assert src == Cell(row, job.srcIdx) && dst == Cell(row, job.dstIdx);
    }
  }

  lemma DescribesExactly(s: EdgeSheet, job: EdgeJob, ids: map<string, int>, rows: seq<Row>, id: EdgeId)
    requires IsJobOf(job, s)
    ensures RowsName(s, ids, rows, id) <==> Describes(ids, job, rows, id)
  {
    hide RowNames, Resolve, IsJobOf;
    forall i | 0 <= i < |rows| ensures RowNames(s, ids, rows[i], id) <==> Resolve(ids, job, rows[i]) == Some(id) {
      ResolveExactly(s, job, ids, rows[i], id);
    }
  }

  lemma DanglingExactly(s: EdgeSheet, job: EdgeJob, ids: map<string, int>, rows: seq<Row>)
    requires IsJobOf(job, s)
    ensures (set i | 0 <= i < |rows| && IsDangling(s, ids, rows[i])) == DanglingRows(ids, job, rows)
  {
    hide IsDangling, Resolve, IsJobOf;
    forall i | 0 <= i < |rows| ensures IsDangling(s, ids, rows[i]) <==> Resolve(ids, job, rows[i]).None? {
      DanglesExactly(s, job, ids, rows[i]);
    }
  }

  /** Rows loaded by column number are rows read by heading. */
  lemma LoadedIsRead(p: Progress, s: EdgeSheet, job: EdgeJob, rows: seq<Row>, q: Progress)
    requires IsJobOf(job, s) && EdgesLoaded(p, job, rows, q)
    ensures EdgesRead(p, s, rows, q)
  {
    assert job.strict == s.strict;
    hide IsJobOf, RowsName, Describes, DanglingRows, IsDangling, RowDecides, LastPayload;
    forall id ensures RowsName(s, p.ids, rows, id) <==> Describes(p.ids, job, rows, id) {
      DescribesExactly(s, job, p.ids, rows, id);
    }
    forall i: nat, id | i < |rows| ensures RowDecides(s, p.ids, rows, i, id, q) {
      DecidesExactly(s, job, p.ids, rows, i, id, q);
    }
    DanglingExactly(s, job, p.ids, rows);
  }

  lemma DecidesExactly(s: EdgeSheet, job: EdgeJob, ids: map<string, int>, rows: seq<Row>, i: nat, id: EdgeId,
                       q: Progress)
    requires IsJobOf(job, s) && i < |rows| && LastPayload(ids, job, rows, i, q)
    ensures RowDecides(s, ids, rows, i, id, q)
  {
    assert job.encode == s.encode;
    hide IsJobOf, RowsName, Describes, RowNames, Resolve;
    ResolveExactly(s, job, ids, rows[i], id);
    DescribesExactly(s, job, ids, rows[i + 1..], id);
  }

  /** Where an edge load that fails stops. */
  lemma {:induction false} EdgeRowsStop(p: Progress, job: EdgeJob, rows: seq<Row>) returns (i: nat)
    requires EdgeRows(p, job, rows).1.Some?
    ensures i < |rows| && EdgeRows(p, job, rows[..i]).1.None?
    ensures EdgeRows(p, job, rows) == EdgeRow(EdgeRows(p, job, rows[..i]).0, job, rows[i])
  {
    hide EdgeRow;
    var prior := rows[..|rows| - 1];
    if EdgeRows(p, job, prior).1.Some? {
      i := EdgeRowsStop(p, job, prior);
      assert prior[..i] == rows[..i];
    } else {
      i := |rows| - 1;
    }
  }

  lemma EdgeRowFails(q: Progress, job: EdgeJob, row: Row)
    requires EdgeRow(q, job, row).1.Some?
    ensures var (q', e) := EdgeRow(q, job, row);
            match Resolve(q.ids, job, row)
            case None =>
              && e == Some(Dangling(Cell(row, job.srcIdx), Cell(row, job.dstIdx))) && job.strict
              && q' == q.(stats := q.stats.(danglingEdges := q.stats.danglingEdges + 1))
            case Some(id) => e == Some(EncodeFailed) && job.encode(id, row).None? && q' == q
  {
    hide Cell, Ranking;
  }

  lemma FailedIsStopped(p: Progress, s: EdgeSheet, job: EdgeJob, rows: seq<Row>, i: nat, before: Progress)
    requires IsJobOf(job, s) && i < |rows| && EdgesLoaded(p, job, rows[..i], before)
    requires EdgeRow(before, job, rows[i]).1.Some?
    ensures var (q, e) := EdgeRow(before, job, rows[i]); EdgeStops(p, s, rows, i, q, e.value)
  {
    hide EdgeRow, EdgesRead, RowNames, RowDangles, Resolve, Cell, Position, RankIdx, IsDangling;
    EdgeRowFails(before, job, rows[i]);
    LoadedIsRead(p, s, job, rows[..i], before);
    DanglesExactly(s, job, p.ids, rows[i]);
    var id := Resolve(p.ids, job, rows[i]);
    if id.Some? { ResolveExactly(s, job, p.ids, rows[i], id.value); }
  }

  /** An edge file is read as its headings say. */
  lemma EdgeFileExactly(p: Progress, s: EdgeSheet, rows: seq<Row>)
    ensures var (q, e) := EdgeFile(p, s.columns, s.strict, s.edgeType, s.headers, s.encode, rows);
            EdgeFileRead(p, s, rows, q, e)
  {
    hide EdgeRows, EdgesRead, EdgeStops, RankIdx, EdgesLoaded;
    var srcIdx, dstIdx := Position(s.headers, s.columns.src), Position(s.headers, s.columns.dst);
    if s.edgeType != "sameAs" && srcIdx.Some? && dstIdx.Some? {
      var rankIdx := RankIdx(s.headers, s.columns.ranking);
      var job := EdgeJob(s.edgeType, srcIdx.value, dstIdx.value, rankIdx, s.encode, s.strict);
      if EdgeRows(p, job, rows).1.None? {
        EdgeRowsExact(p, job, rows);
        LoadedIsRead(p, s, job, rows, EdgeRows(p, job, rows).0);
      } else {
        var i := EdgeRowsStop(p, job, rows);
        EdgeRowsExact(p, job, rows[..i]);
        FailedIsStopped(p, s, job, rows, i, EdgeRows(p, job, rows[..i]).0);
      }
    }
  }

  /** A node file. */
  datatype NodeSheet =
    NodeSheet(tag: string, idColumn: string, headers: seq<string>, encode: VertexEncoder, strict: bool)

  ghost predicate HasId(s: NodeSheet, row: Row, id: string) { Under(s.headers, s.idColumn, row, id) }

  ghost predicate RowsMention(s: NodeSheet, rows: seq<Row>, id: string) {
    exists i :: 0 <= i < |rows| && HasId(s, rows[i], id)
  }

  /** Row `i` is the first to hold `id`, a new one. */
  ghost predicate NamesFirst(s: NodeSheet, ids: map<string, int>, rows: seq<Row>, i: int, id: string) {
    && 0 <= i < |rows| && HasId(s, rows[i], id) && id != "" && id !in ids
    && forall j :: 0 <= j < i ==> !HasId(s, rows[j], id)
  }

  ghost predicate IsNaming(s: NodeSheet, ids: map<string, int>, rows: seq<Row>, i: int) {
    exists id :: NamesFirst(s, ids, rows, i, id)
  }

  ghost function Namings(s: NodeSheet, ids: map<string, int>, rows: seq<Row>): set<int> {
    set i | 0 <= i < |rows| && IsNaming(s, ids, rows, i)
  }

  ghost predicate IsRepeating(s: NodeSheet, ids: map<string, int>, rows: seq<Row>, i: int) {
    0 <= i < |rows| && (exists id :: HasId(s, rows[i], id) && id != "") && !IsNaming(s, ids, rows, i)
  }

  /** A new id gets the next vid in row order, and a vertex made of its row. */
  ghost predicate NamingMakes(p: Progress, s: NodeSheet, rows: seq<Row>, i: int, id: string, q: Progress) {
    NamesFirst(s, p.ids, rows, i, id) ==>
      && IsVidOf(q, id, p.next + |Namings(s, p.ids, rows[..i])|)
      && MadeVertex(s.tag, s.encode, id, rows[i], q)
  }

  ghost predicate NamedHere(p: Progress, s: NodeSheet, rows: seq<Row>, q: Progress, v: int) {
    exists i, id :: NamesFirst(s, p.ids, rows, i, id) && IsVidOf(q, id, v)
  }

  /** The rows were read through: each named a new id, repeated one, or held none. */
  ghost predicate NodesRead(p: Progress, s: NodeSheet, rows: seq<Row>, q: Progress) {
    && IdsRead(p, s, rows, q) && VerticesRead(p, s, rows, q) && NodesCounted(p, s, rows, q)
    && q.graph.edges == p.graph.edges
  }

  ghost predicate IdsRead(p: Progress, s: NodeSheet, rows: seq<Row>, q: Progress) {
    && (forall id :: id in q.ids <==> id in p.ids || (id != "" && RowsMention(s, rows, id)))
    && (forall id :: id in p.ids ==> q.ids[id] == p.ids[id])
  }

  ghost predicate VerticesRead(p: Progress, s: NodeSheet, rows: seq<Row>, q: Progress) {
    && (forall i, id :: NamingMakes(p, s, rows, i, id, q))
    && (forall v :: v in q.graph.vertices ==> v in p.graph.vertices || NamedHere(p, s, rows, q, v))
    && (forall v :: v in p.graph.vertices ==> v in q.graph.vertices && q.graph.vertices[v] == p.graph.vertices[v])
  }

  ghost predicate NodesCounted(p: Progress, s: NodeSheet, rows: seq<Row>, q: Progress) {
    var namings := Namings(s, p.ids, rows);
    var repeats := set i | 0 <= i < |rows| && IsRepeating(s, p.ids, rows, i);
    && q.next == p.next + |namings| && (s.strict ==> forall i :: 0 <= i < |rows| ==> i in namings)
    && q.stats == p.stats.(vertices := p.stats.vertices + |namings|,
                           tagvidEntries := p.stats.tagvidEntries + |namings|,
                           duplicateIds := p.stats.duplicateIds + |repeats|)
  }

  /** The load stopped at row `i`, after reading the rows before it; a vertex that cannot be encoded keeps its vid. */
  ghost predicate NodeStops(p: Progress, s: NodeSheet, rows: seq<Row>, i: nat, q: Progress, e: LoadError)
    requires i < |rows|
  {
    if e.EmptyId? then s.strict && HasId(s, rows[i], "") && NodesRead(p, s, rows[..i], q)
    else if e.DuplicateId? then
      && s.strict && HasId(s, rows[i], e.id) && e.id != "" && (e.id in p.ids || RowsMention(s, rows[..i], e.id))
      && q.stats.duplicateIds > 0
      && NodesRead(p, s, rows[..i], q.(stats := q.stats.(duplicateIds := q.stats.duplicateIds - 1)))
    else
      && e.EncodeFailed? && s.encode(q.next - 1, rows[i]).None?
      && exists id :: NamesFirst(s, p.ids, rows, i, id) && IsVidOf(q, id, q.next - 1) &&
                      NodesRead(p, s, rows[..i], q.(ids := q.ids - {id}, next := q.next - 1))
  }

  /** What a node file does to the load, by how it ends. */
  ghost predicate NodeFileRead(p: Progress, s: NodeSheet, rows: seq<Row>, q: Progress, e: Option<LoadError>) {
    if s.idColumn !in s.headers then e == Some(NoColumn(s.idColumn)) && q == p
    else if e.None? then NodesRead(p, s, rows, q)
    else exists i: nat :: i < |rows| && NodeStops(p, s, rows, i, q, e.value)
  }

  ghost predicate IsNodeJobOf(job: NodeJob, s: NodeSheet) {
    Position(s.headers, s.idColumn) == Some(job.idIdx) && job == NodeJob(s.tag, job.idIdx, s.encode, s.strict)
  }

  lemma IdExactly(s: NodeSheet, job: NodeJob, row: Row, id: string)
    requires IsNodeJobOf(job, s)
    ensures HasId(s, row, id) <==> Cell(row, job.idIdx) == id
  {
    UnderExactly(s.headers, s.idColumn, row, id);
  }

  lemma MentionExactly(s: NodeSheet, job: NodeJob, rows: seq<Row>, id: string)
    requires IsNodeJobOf(job, s)
    ensures RowsMention(s, rows, id) <==> Mentions(job.idIdx, rows, id)
  {
    hide HasId, Cell, IsNodeJobOf;
    forall i | 0 <= i < |rows| ensures HasId(s, rows[i], id) <==> Cell(rows[i], job.idIdx) == id {
      IdExactly(s, job, rows[i], id);
    }
  }

  lemma FirstExactly(s: NodeSheet, job: NodeJob, ids: map<string, int>, rows: seq<Row>, i: int, id: string)
    requires IsNodeJobOf(job, s)
    ensures NamesFirst(s, ids, rows, i, id) <==>
              0 <= i < |rows| && IsFirst(ids, job.idIdx, rows, i) && Cell(rows[i], job.idIdx) == id
  {
    hide HasId, Cell, IsNodeJobOf;
    forall j | 0 <= j < |rows| ensures HasId(s, rows[j], id) <==> Cell(rows[j], job.idIdx) == id {
      IdExactly(s, job, rows[j], id);
    }
  }

  lemma NamingExactly(s: NodeSheet, job: NodeJob, ids: map<string, int>, rows: seq<Row>, i: int)
    requires IsNodeJobOf(job, s) && 0 <= i < |rows|
    ensures IsNaming(s, ids, rows, i) <==> IsFirst(ids, job.idIdx, rows, i)
    ensures IsRepeating(s, ids, rows, i) <==> IsRepeat(ids, job.idIdx, rows, i)
  {
    hide HasId, Cell, IsNodeJobOf, NamesFirst, IsFirst;
    var id := Cell(rows[i], job.idIdx);
    FirstExactly(s, job, ids, rows, i, id);
    forall x ensures HasId(s, rows[i], x) <==> x == id { IdExactly(s, job, rows[i], x); }
    assert HasId(s, rows[i], id);
    forall x | NamesFirst(s, ids, rows, i, x) ensures x == id { FirstExactly(s, job, ids, rows, i, x); }
  }

  lemma NamingsExactly(s: NodeSheet, job: NodeJob, ids: map<string, int>, rows: seq<Row>)
    requires IsNodeJobOf(job, s)
    ensures Namings(s, ids, rows) == FirstRows(ids, job.idIdx, rows)
  {
    hide IsNaming, IsFirst, IsNodeJobOf;
    forall i | 0 <= i < |rows| ensures IsNaming(s, ids, rows, i) <==> IsFirst(ids, job.idIdx, rows, i) {
      NamingExactly(s, job, ids, rows, i);
    }
  }

  lemma RepeatsExactly(s: NodeSheet, job: NodeJob, ids: map<string, int>, rows: seq<Row>)
    requires IsNodeJobOf(job, s)
    ensures (set i | 0 <= i < |rows| && IsRepeating(s, ids, rows, i)) == RepeatRows(ids, job.idIdx, rows)
  {
    hide IsRepeating, IsRepeat, IsNodeJobOf;
    forall i | 0 <= i < |rows| ensures IsRepeating(s, ids, rows, i) <==> IsRepeat(ids, job.idIdx, rows, i) {
      NamingExactly(s, job, ids, rows, i);
    }
  }

  lemma MakesExactly(p: Progress, s: NodeSheet, job: NodeJob, rows: seq<Row>, i: int, id: string, q: Progress)
    requires IsNodeJobOf(job, s) && VerticesMade(p, job, rows, q) && VidsDealt(p, job.idIdx, rows, q)
    ensures NamingMakes(p, s, rows, i, id, q)
  {
    assert job.tag == s.tag && job.encode == s.encode;
    hide IsNodeJobOf, IsFirst, NamesFirst, Cell, Namings, FirstRows, MadeVertex, IsVidOf;
    FirstExactly(s, job, p.ids, rows, i, id);
    if NamesFirst(s, p.ids, rows, i, id) { NamingsExactly(s, job, p.ids, rows[..i]); }
  }

  lemma NewVertexExactly(p: Progress, s: NodeSheet, job: NodeJob, rows: seq<Row>, q: Progress, v: int)
    requires IsNodeJobOf(job, s) && IsNewVertex(p, job.idIdx, rows, q, v)
    ensures NamedHere(p, s, rows, q, v)
  {
    hide IsNodeJobOf, IsFirst, NamesFirst, Cell, IsVidOf;
    var i :| 0 <= i < |rows| && IsFirst(p.ids, job.idIdx, rows, i) && IsVidOf(q, Cell(rows[i], job.idIdx), v);
    FirstExactly(s, job, p.ids, rows, i, Cell(rows[i], job.idIdx));
  }

  /** Nodes loaded by column number are nodes read by heading. */
  lemma NodesLoadedAreRead(p: Progress, s: NodeSheet, job: NodeJob, rows: seq<Row>, q: Progress)
    requires IsNodeJobOf(job, s) && NodesLoaded(p, job, rows, q)
    ensures NodesRead(p, s, rows, q)
  {
    hide IsNodeJobOf, VerticesMade, VidsDealt, IdsNamed, NoOtherVertices, RowsCounted;
    hide IdsRead, VerticesRead, NodesCounted;
    IdsExactly(p, s, job, rows, q);
    forall i, id ensures NamingMakes(p, s, rows, i, id, q) { MakesExactly(p, s, job, rows, i, id, q); }
    VerticesExactly(p, s, job, rows, q);
    CountsExactly(p, s, job, rows, q);
  }

  lemma IdsExactly(p: Progress, s: NodeSheet, job: NodeJob, rows: seq<Row>, q: Progress)
    requires IsNodeJobOf(job, s) && IdsNamed(p, job.idIdx, rows, q)
    ensures IdsRead(p, s, rows, q)
  {
    hide IsNodeJobOf, RowsMention, Mentions;
    forall id ensures RowsMention(s, rows, id) <==> Mentions(job.idIdx, rows, id) {
      MentionExactly(s, job, rows, id);
    }
  }

  lemma VerticesExactly(p: Progress, s: NodeSheet, job: NodeJob, rows: seq<Row>, q: Progress)
    requires IsNodeJobOf(job, s) && NoOtherVertices(p, job.idIdx, rows, q)
    requires forall i, id :: NamingMakes(p, s, rows, i, id, q)
    requires forall v ::
               v in p.graph.vertices ==> v in q.graph.vertices && q.graph.vertices[v] == p.graph.vertices[v]
    ensures VerticesRead(p, s, rows, q)
  {
    hide IsNodeJobOf, IsNewVertex, NamedHere, NamingMakes;
    forall v | IsNewVertex(p, job.idIdx, rows, q, v) ensures NamedHere(p, s, rows, q, v) {
      NewVertexExactly(p, s, job, rows, q, v);
    }
  }

  lemma CountsExactly(p: Progress, s: NodeSheet, job: NodeJob, rows: seq<Row>, q: Progress)
    requires IsNodeJobOf(job, s) && RowsCounted(p, job, rows, q)
    ensures NodesCounted(p, s, rows, q)
  {
    hide IsRepeating, IsRepeat, IsNaming, IsFirst, Namings, FirstRows, RepeatRows;
    NamingsExactly(s, job, p.ids, rows);
    RepeatsExactly(s, job, p.ids, rows);
  }

  /** Where a node load that fails stops. */
  lemma {:induction false} NodeRowsStop(p: Progress, job: NodeJob, rows: seq<Row>) returns (i: nat)
    requires NodeRows(p, job, rows).1.Some?
    ensures i < |rows| && NodeRows(p, job, rows[..i]).1.None?
    ensures NodeRows(p, job, rows) == NodeRow(NodeRows(p, job, rows[..i]).0, job, rows[i])
  {
    hide NodeRow;
    var prior := rows[..|rows| - 1];
    if NodeRows(p, job, prior).1.Some? {
      i := NodeRowsStop(p, job, prior);
      assert prior[..i] == rows[..i];
    } else {
      i := |rows| - 1;
    }
  }

  lemma NodeRowFails(q: Progress, job: NodeJob, row: Row)
    requires NodeRow(q, job, row).1.Some?
    ensures var ((q', e), id) := (NodeRow(q, job, row), Cell(row, job.idIdx));
            if id == "" then e == Some(EmptyId) && job.strict && q' == q
            else if id in q.ids then
              && e == Some(DuplicateId(id)) && job.strict
              && q' == q.(stats := q.stats.(duplicateIds := q.stats.duplicateIds + 1))
            else
              && e == Some(EncodeFailed) && job.encode(q.next, row).None?
              && q' == q.(ids := q.ids[id := q.next], next := q.next + 1)
  {
    hide Cell;
  }

  lemma FailedNodeIsStopped(p: Progress, s: NodeSheet, job: NodeJob, rows: seq<Row>, i: nat, before: Progress)
    requires IsNodeJobOf(job, s) && i < |rows| && NodesLoaded(p, job, rows[..i], before)
    requires NodeRow(before, job, rows[i]).1.Some?
    ensures var (q, e) := NodeRow(before, job, rows[i]); NodeStops(p, s, rows, i, q, e.value)
  {
    hide NodeRow, NodesRead, NodesLoaded, NamesFirst, HasId, RowsMention, Mentions, Cell, Position, IsFirst;
    var id := Cell(rows[i], job.idIdx);
    NodeRowFails(before, job, rows[i]);
    NodesLoadedAreRead(p, s, job, rows[..i], before);
    LoadedIds(p, job, rows[..i], before, id);
    IdExactly(s, job, rows[i], id);
    MentionExactly(s, job, rows[..i], id);
    if id != "" && id !in before.ids {
      FirstAt(p.ids, job.idIdx, rows, i);
      FirstExactly(s, job, p.ids, rows, i, id);
      assert before.ids[id := before.next] - {id} == before.ids;
    }
  }

  lemma FirstAt(ids: map<string, int>, idIdx: nat, rows: seq<Row>, i: nat)
    requires i < |rows|
    ensures var id := Cell(rows[i], idIdx);
            id != "" && id !in ids && !Mentions(idIdx, rows[..i], id) ==> IsFirst(ids, idIdx, rows, i)
  {
    hide Cell;
    assert forall j :: 0 <= j < i ==> rows[..i][j] == rows[j];
  }

  /** A node file is read as its headings say. */
  lemma NodeFileExactly(p: Progress, s: NodeSheet, rows: seq<Row>)
    requires Sound(p)
    ensures var (q, e) := NodeFile(p, s.idColumn, s.strict, s.tag, s.headers, s.encode, rows);
            NodeFileRead(p, s, rows, q, e)
  {
    hide NodeRows, NodesRead, NodeStops, NodesLoaded, Sound;
    var idIdx := Position(s.headers, s.idColumn);
    if idIdx.Some? {
      var job := NodeJob(s.tag, idIdx.value, s.encode, s.strict);
      if NodeRows(p, job, rows).1.None? {
        NodeRowsExact(p, job, rows);
        NodesLoadedAreRead(p, s, job, rows, NodeRows(p, job, rows).0);
      } else {
        var i := NodeRowsStop(p, job, rows);
        NodeRowsExact(p, job, rows[..i]);
        FailedNodeIsStopped(p, s, job, rows, i, NodeRows(p, job, rows[..i]).0);
      }
    }
  }

  lemma FirstRow(p: Progress, job: NodeJob, rows: seq<Row>)
    ensures NodeRows(p, job, rows[..0]) == (p, None)
  {
  }

  lemma NodeRowsOneMore(p: Progress, job: NodeJob, rows: seq<Row>, i: nat)
    requires i < |rows| && NodeRows(p, job, rows[..i]).1.None?
    ensures NodeRows(p, job, rows[..i + 1]) ==
              NodeRow(NodeRows(p, job, rows[..i]).0, job, rows[i])
  {
    hide NodeRow;
    assert rows[..i + 1][..i] == rows[..i];
  }

  lemma NodeRowNext(p: Progress, job: NodeJob, row: Row)
    ensures p.next <= NodeRow(p, job, row).0.next <= p.next + 1
  {
  }

  /** Once a load has stopped, the remaining rows do not matter. */
  lemma {:induction false} NodeRowsHalt(p: Progress, job: NodeJob, rows: seq<Row>, i: nat)
    requires i <= |rows|
    ensures var r := NodeRows(p, job, rows[..i]); r.1.Some? ==> NodeRows(p, job, rows) == r
  {
    hide NodeRow;
    if i == |rows| {
      assert rows[..i] == rows;
    } else {
      NodeRowsHalt(p, job, rows[..|rows| - 1], i);
      assert rows[..|rows| - 1][..i] == rows[..i];
    }
  }

  lemma {:induction false} EdgeRowsHalt(p: Progress, job: EdgeJob, rows: seq<Row>, i: nat)
    requires i <= |rows|
    ensures var r := EdgeRows(p, job, rows[..i]);
            r.1.Some? ==> EdgeRows(p, job, rows) == r
  {
    hide EdgeRow;
    if i == |rows| {
      assert rows[..i] == rows;
    } else {
      EdgeRowsHalt(p, job, rows[..|rows| - 1], i);
      assert rows[..|rows| - 1][..i] == rows[..i];
    }
  }

  lemma EdgeRowsOneMore(p: Progress, job: EdgeJob, rows: seq<Row>, i: nat)
    requires i < |rows| && EdgeRows(p, job, rows[..i]).1.None?
    ensures EdgeRows(p, job, rows[..i + 1]) ==
              EdgeRow(EdgeRows(p, job, rows[..i]).0, job, rows[i])
  {
    hide EdgeRow;
    assert rows[..i + 1][..i] == rows[..i];
  }
}
