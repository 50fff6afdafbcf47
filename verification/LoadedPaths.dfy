/** Searching what the bulk loader wrote: a loaded graph is the edge set that the path searches read. */
module LoadedPaths {
  import opened Prelude
  import opened Bytes
  import opened Text
  import opened Keys
  import opened KeyValue
  import opened GraphData
  import opened DegreeCounters
  import opened GraphStore
  import opened EdgeScan
  import opened Hops
  import opened StorePaths

  type Decoder = seq<Byte> -> Option<EdgeData>

  ghost predicate Describes(e: EdgeData, id: EdgeId) {
    e.src == id.src && e.dst == id.dst && e.edgeType == id.edgeType && e.ranking == id.ranking
  }

  /** Every payload decodes to the edge that its keys name. */
  ghost predicate PayloadsDecode(g: Graph, decode: Decoder) {
    forall id :: id in g.edges ==>
      decode(g.edges[id]).Some? && Describes(decode(g.edges[id]).value, id) &&
        IsSegment(id.edgeType) && id.edgeType != ""
  }

  ghost function EdgesOf(g: Graph, decode: Decoder): set<EdgeData>
    requires PayloadsDecode(g, decode)
  {
    set id | id in g.edges :: decode(g.edges[id]).value
  }

  /** The store as a sorted table of keys and decoded payloads. */
  ghost predicate TableOf(rows: seq<Row>, kv: Store, decode: Decoder) {
    IsTable(rows) && forall row :: row in rows <==> row.0 in kv && row.1 == decode(kv[row.0])
  }

  /** The row of an edge in one direction. */
  function RowIn(space: string, isIn: bool, e: EdgeData): Row {
    if isIn then ReverseRow(space, e) else ForwardRow(space, e)
  }

  lemma RowKey(space: string, isIn: bool, e: EdgeData, id: EdgeId)
    requires Describes(e, id)
    ensures RowIn(space, isIn, e) == (KeyOf(space, isIn, id), Some(e))
  {
  }

  lemma EdgeHasRow(kv: Store, space: string, g: Graph, decode: Decoder, rows: seq<Row>, isIn: bool, id: EdgeId)
    requires Represents(kv, space, g) && PayloadsDecode(g, decode) && TableOf(rows, kv, decode) && id in g.edges
    ensures RowIn(space, isIn, decode(g.edges[id]).value) in rows
  {
    assert HoldsEdge(kv, space, id, g.edges[id]);
    hide Represents, IsTable, KeyOf, ForwardRow, ReverseRow;
    RowKey(space, isIn, decode(g.edges[id]).value, id);
  }

  lemma RowHasEdge(kv: Store, space: string, g: Graph, decode: Decoder, rows: seq<Row>, isIn: bool, row: Row)
    requires Represents(kv, space, g) && PayloadsDecode(g, decode) && TableOf(rows, kv, decode)
    requires row in rows && PrefixOf(space, isIn) <= row.0
    ensures exists e :: e in EdgesOf(g, decode) && row == RowIn(space, isIn, e)
  {
    EdgeDataIsEdge(kv, space, g, isIn, row.0);
    var id :| id in g.edges && row.0 == KeyOf(space, isIn, id);
    assert HoldsEdge(kv, space, id, g.edges[id]);
    hide Represents, IsTable, KeyOf, ForwardRow, ReverseRow, PrefixOf;
    RowKey(space, isIn, decode(g.edges[id]).value, id);
    assert decode(g.edges[id]).value in EdgesOf(g, decode);
  }

  /** A store that represents a loaded graph holds the graph's edges, in the sense of the searches. */
  lemma LoadedStoreHolds(kv: Store, space: string, g: Graph, decode: Decoder, rows: seq<Row>)
    requires Represents(kv, space, g) && Numbered(g) && IsSegment(space)
    requires PayloadsDecode(g, decode) && TableOf(rows, kv, decode)
    ensures Holds(rows, space, EdgesOf(g, decode))
  {
    hide Represents, IsTable, ForwardRow, ReverseRow, EdgePrefix, InEdgePrefix;
    forall e | e in EdgesOf(g, decode)
      ensures IsEdge(e) && ForwardRow(space, e) in rows && ReverseRow(space, e) in rows
    {
      var id :| id in g.edges && decode(g.edges[id]).value == e;
      EdgeHasRow(kv, space, g, decode, rows, false, id);
      EdgeHasRow(kv, space, g, decode, rows, true, id);
    }
    forall row | row in rows && EdgePrefix(space) <= row.0
      ensures exists e :: e in EdgesOf(g, decode) && row == ForwardRow(space, e)
    {
      RowHasEdge(kv, space, g, decode, rows, false, row);
    }
    forall row | row in rows && InEdgePrefix(space) <= row.0
      ensures exists e :: e in EdgesOf(g, decode) && row == ReverseRow(space, e)
    {
      RowHasEdge(kv, space, g, decode, rows, true, row);
    }
  }

  /** An edge of the loaded graph of a chosen type leads from `u` to `v`. */
  ghost predicate LoadedLink(g: Graph, types: set<string>, bidirect: bool, u: int, v: int) {
    exists id :: id in g.edges && (types == {} || id.edgeType in types) &&
      ((id.src == u && id.dst == v) || (bidirect && id.dst == u && id.src == v))
  }

  ghost predicate IsLoadedPath(g: Graph, types: set<string>, bidirect: bool, p: seq<int>) {
    p != [] && forall i {:trigger p[i]} :: 0 <= i < |p| - 1 ==> LoadedLink(g, types, bidirect, p[i], p[i + 1])
  }

  lemma LinkedIsLoaded(g: Graph, decode: Decoder, types: set<string>, bidirect: bool, u: int, v: int)
    requires PayloadsDecode(g, decode)
    ensures Linked(EdgesOf(g, decode), types, bidirect, u, v) <==> LoadedLink(g, types, bidirect, u, v)
  {
    if LoadedLink(g, types, bidirect, u, v) {
      var id :| id in g.edges && (types == {} || id.edgeType in types) &&
        ((id.src == u && id.dst == v) || (bidirect && id.dst == u && id.src == v));
      assert decode(g.edges[id]).value in EdgesOf(g, decode);
    }
  }

  /** The paths a search finds in a loaded store are the paths of the loaded graph. */
  lemma SearchesLoadedGraph(kv: Store, space: string, g: Graph, decode: Decoder, rows: seq<Row>, types: set<string>,
                            bidirect: bool, p: seq<int>)
    requires Represents(kv, space, g) && Numbered(g) && IsSegment(space)
    requires PayloadsDecode(g, decode) && TableOf(rows, kv, decode) && p != [] && IsI64(p[0])
    ensures IsPath(ScanOf(rows, space, types, bidirect), p) <==> IsLoadedPath(g, types, bidirect, p)
  {
    hide Represents, Numbered, TableOf, Holds, IsPath, Linked, LoadedLink, PayloadsDecode;
    LoadedStoreHolds(kv, space, g, decode, rows);
    PathsAreEdgePaths(rows, space, EdgesOf(g, decode), types, bidirect, p);
    forall u, v ensures Linked(EdgesOf(g, decode), types, bidirect, u, v) <==> LoadedLink(g, types, bidirect, u, v) {
      LinkedIsLoaded(g, decode, types, bidirect, u, v);
    }
  }
}
