/** The bulk loader: rows become a graph, and sorted batches write that graph's keys to the store. */
module BulkLoader {
  import opened Prelude
  import opened Bytes
  import opened KeyValue
  import opened Text
  import opened Keys
  import opened DegreeCounters
  import opened GraphStore
  import opened SortedBatches
  import opened LoadRows

  /** Pending pairs lie in the data keyspaces. */
  ghost predicate AllData(space: string, pairs: seq<Pair>) {
    forall i :: 0 <= i < |pairs| ==> IsData(space, pairs[i].0)
  }

  /** Two stores agree outside the data keyspaces. */
  ghost predicate SameElsewhere(a: Store, b: Store, space: string) {
    forall k :: !IsData(space, k) ==> SameAt(a, b, k)
  }

  lemma ApplyTwo(kv: Store, pairs: seq<Pair>, a: Pair, b: Pair)
    ensures Apply(kv, pairs + [a] + [b]) == Apply(kv, pairs)[a.0 := a.1][b.0 := b.1]
  {
    assert (pairs + [a] + [b])[..|pairs| + 1] == pairs + [a];
    assert (pairs + [a])[..|pairs|] == pairs;
  }

  lemma DataStaysApart(kv: Store, space: string, pairs: seq<Pair>)
    requires AllData(space, pairs)
    ensures SameElsewhere(kv, Apply(kv, pairs), space)
  {
    hide IsData, Apply;
    forall k | !IsData(space, k) ensures SameAt(kv, Apply(kv, pairs), k) {
      ApplyElsewhere(kv, pairs, k);
    }
  }

  class Loader {
    const store: KvStore
    const space: string
    const batchSize: nat
    const columns: Columns
    const strict: bool
    var idMap: map<string, int>
    var nextVid: int
    var pending: seq<Pair>
    var stats: LoaderStats
    // The graph loaded so far, and the one the store holds.
    ghost var graph: Graph
    ghost var committed: Graph

    ghost function Now(): Progress
      reads this
    {
      Progress(idMap, nextVid, graph, stats)
    }

    /** The store as it will be once the pending pairs are written, one by one and in push order. */
    ghost function View(): Store
      reads this, store
    {
      Apply(store.kv, pending)
    }

    /** The pending pairs complete the graph, and the store alone is already a graph. */
    ghost predicate Valid()
      reads this, store
    {
      && Sound(Now()) && nextVid <= TWO_63
      && Represents(View(), space, graph) && Represents(store.kv, space, committed)
      && AllData(space, pending) && (pending == [] ==> committed == graph)
    }

    /** A full batch is not kept pending. */
    ghost predicate Bounded()
      reads this
    {
      |pending| < batchSize || pending == []
    }

    /** A loader on a space that holds no data. */
    constructor (store: KvStore, space: string, batchSize: nat, columns: Columns, strict: bool)
      requires forall k :: k in store.kv ==> !IsData(space, k)
      ensures Valid() && fresh(this) && this.store == store && this.space == space && this.batchSize == batchSize
      ensures this.columns == columns && this.strict == strict && Now() == START && pending == []
    {
      this.store, this.space, this.batchSize, this.columns, this.strict := store, space, batchSize, columns, strict;
      idMap, nextVid, pending, stats := map[], 1, [], LoaderStats(0, 0, 0, 0, 0);
      graph, committed := EMPTY, EMPTY;
    }

    /** Sort the pending pairs by key and commit them as one batch. */
    method Flush()
      requires Valid()
      modifies this`pending, this`committed, store
      ensures Valid() && pending == [] && committed == graph
      ensures store.kv == old(View()) && SameElsewhere(old(store.kv), store.kv, space)
    {
      hide Represents, Sound, AllData, SameElsewhere, IsStableSort, StableSort;
      DataStaysApart(store.kv, space, pending);
      if pending == [] { return; }
      var batch := pending;
      pending := [];
      SortIsStable(batch);
      SortedBatchSameStore(store.kv, StableSort(batch), batch);
      store.BatchPut(StableSort(batch));
      committed := graph;
      NothingPending(space);
    }

    method MaybeFlush()
      requires Valid()
      modifies this`pending, this`committed, store
      ensures Valid() && View() == old(View()) && SameElsewhere(old(store.kv), store.kv, space)
      ensures Bounded() && (|old(pending)| < batchSize ==> pending == old(pending))
    {
      hide Represents, Sound, AllData;
      if |pending| >= batchSize {
        Flush();
      }
    }

    /** The vid of an original id, a new one if it has none. */
    method AssignVid(id: string) returns (vid: int, isNew: bool)
      modifies this`idMap, this`nextVid
      ensures isNew <==> id !in old(idMap)
      ensures id in idMap && vid == idMap[id]
      ensures isNew ==> vid == old(nextVid) && nextVid == vid + 1 && idMap == old(idMap)[id := vid]
      ensures !isNew ==> idMap == old(idMap) && nextVid == old(nextVid)
    {
      if id in idMap { return idMap[id], false; }
      vid := nextVid;
      nextVid := nextVid + 1;
      idMap := idMap[id := vid];
      isNew := true;
    }

    method Push(k: string, v: seq<Byte>)
      modifies this`pending
      ensures pending == old(pending) + [(k, v)]
    {
      pending := pending + [(k, v)];
    }

    /** One turn of the node loop. */
    method LoadNodeRow(job: NodeJob, row: Row) returns (e: Option<LoadError>)
      requires Valid() && nextVid < TWO_63
      modifies this, store
      ensures Valid() && (Now(), e) == NodeRow(old(Now()), job, row)
      ensures pending == old(pending) || Bounded()
      ensures SameElsewhere(old(store.kv), store.kv, space)
    {
      hide Represents, Sound, IsData, AllData, SameElsewhere, VertexKey, TagVidKey, Cell, Apply;
      SameElsewhereAsItself(store.kv, space);
      NodeRowKeepsSound(Now(), job, row);
      ghost var before := Now();
      var id := Cell(row, job.idIdx);
      if id == "" {
        return if job.strict then Some(EmptyId) else None;
      }
      var vid, isNew := AssignVid(id);
      if !isNew {
        stats := stats.(duplicateIds := stats.duplicateIds + 1);
        return if job.strict then Some(DuplicateId(id)) else None;
      }
      var blob := job.encode(vid, row);
      if blob.None? {
        return Some(EncodeFailed);
      }
      NewVertex(before, store.kv, pending, space, job.tag, blob.value);
      Push(VertexKey(space, vid), blob.value);
      Push(TagVidKey(space, job.tag, vid), []);
      stats := stats.(vertices := stats.vertices + 1, tagvidEntries := stats.tagvidEntries + 1);
      graph := WithVertex(graph, vid, Vertex(job.tag, blob.value));
      MaybeFlush();
      return None;
    }

    /** One turn of the edge loop. */
    method LoadEdgeRow(job: EdgeJob, row: Row) returns (e: Option<LoadError>)
      requires Valid()
      modifies this, store
      ensures Valid() && (Now(), e) == EdgeRow(old(Now()), job, row)
      ensures pending == old(pending) || Bounded()
      ensures SameElsewhere(old(store.kv), store.kv, space)
    {
      hide Represents, Sound, IsData, AllData, SameElsewhere, EdgePrefix, InEdgePrefix, Cell, Ranking, Apply, EdgeTail;
      SameElsewhereAsItself(store.kv, space);
      EdgeRowKeepsSound(Now(), job, row);
      var src, dst := Cell(row, job.srcIdx), Cell(row, job.dstIdx);
      if src !in idMap || dst !in idMap {
        stats := stats.(danglingEdges := stats.danglingEdges + 1);
        return if job.strict then Some(Dangling(src, dst)) else None;
      }
      var srcVid, dstVid, ranking := idMap[src], idMap[dst], Ranking(row, job.rankIdx);
      var id := EdgeId(srcVid, job.edgeType, dstVid, ranking);
      var blob := job.encode(id, row);
      if blob.None? {
        return Some(EncodeFailed);
      }
      NewEdge(Now(), store.kv, pending, space, id, blob.value, src, dst);
      Push(EdgeKey(space, srcVid, job.edgeType, dstVid, ranking), blob.value);
      Push(InEdgeKey(space, dstVid, job.edgeType, srcVid, ranking), blob.value);
      stats := stats.(edges := stats.edges + 1);
      graph := WithEdge(graph, id, blob.value);
      MaybeFlush();
      return None;
    }

    /** Load one node file: what the rows mean, whatever the batch size. */
    method LoadNodeFile(tag: string, headers: seq<string>, encode: VertexEncoder,
                        rows: seq<Row>) returns (e: Option<LoadError>)
      requires Valid() && nextVid + |rows| <= TWO_63
      modifies this, store
      ensures Valid() && (Now(), e) == NodeFile(old(Now()), columns.id, strict, tag, headers, encode, rows)
      ensures NodeFileRead(old(Now()), NodeSheet(tag, columns.id, headers, encode, strict), rows, Now(), e)
      ensures SameElsewhere(old(store.kv), store.kv, space)
      ensures e.None? ==> pending == [] && committed == graph
      ensures old(Bounded()) ==> Bounded()
    {
      hide Represents, Sound, IsData, AllData, SameElsewhere, NodeRow, Apply, Valid, Numbered, NodeFileRead;
      SameElsewhereAsItself(store.kv, space);
      SoundNow();
      NodeFileExactly(Now(), NodeSheet(tag, columns.id, headers, encode, strict), rows);
      var idIdx := Position(headers, columns.id);
      if idIdx.None? { return Some(NoColumn(columns.id)); }
      var job := NodeJob(tag, idIdx.value, encode, strict);
      var i := 0;
      FirstRow(Now(), job, rows);
      ghost var start := Now();
      while i < |rows|
        invariant 0 <= i <= |rows| && Valid() && nextVid + |rows| - i <= TWO_63
        invariant (Now(), None) == NodeRows(start, job, rows[..i]) && (old(Bounded()) ==> Bounded())
        invariant SameElsewhere(old(store.kv), store.kv, space)
      {
        NodeRowsOneMore(start, job, rows, i);
        NodeRowNext(Now(), job, rows[i]);
        NodeRowsHalt(start, job, rows, i + 1);
        ghost var kv := store.kv;
        e := LoadNodeRow(job, rows[i]);
        SameElsewhereTwice(old(store.kv), kv, store.kv, space);
        if e.Some? { return; }
        i := i + 1;
      }
      assert rows[..i] == rows;
      ghost var kv := store.kv;
      Flush();
      SameElsewhereTwice(old(store.kv), kv, store.kv, space);
      return None;
    }

    lemma SoundNow()
      requires Valid()
      ensures Sound(Now()) && nextVid <= TWO_63
    {
    }

    method LoadEdgeFile(edgeType: string, headers: seq<string>, encode: EdgeEncoder,
                        rows: seq<Row>) returns (e: Option<LoadError>)
      requires Valid()
      modifies this, store
      ensures Valid() && (Now(), e) == EdgeFile(old(Now()), columns, strict, edgeType, headers, encode, rows)
      ensures EdgeFileRead(old(Now()), EdgeSheet(edgeType, columns, headers, encode, strict), rows, Now(), e)
      ensures SameElsewhere(old(store.kv), store.kv, space)
      ensures e.None? ==> pending == [] && committed == graph
      ensures old(Bounded()) ==> Bounded()
    {
      hide Represents, Sound, IsData, AllData, SameElsewhere, EdgeRow, Apply, Valid, Numbered, EdgeFileRead;
      EdgeFileExactly(Now(), EdgeSheet(edgeType, columns, headers, encode, strict), rows);
      SameElsewhereAsItself(store.kv, space);
      if edgeType == "sameAs" { return Some(ReservedType); }
      var srcIdx, dstIdx := Position(headers, columns.src), Position(headers, columns.dst);
      if srcIdx.None? { return Some(NoColumn(columns.src)); }
      if dstIdx.None? { return Some(NoColumn(columns.dst)); }
      var job := EdgeJob(edgeType, srcIdx.value, dstIdx.value, RankIdx(headers, columns.ranking), encode, strict);
      var i := 0;
      ghost var start := Now();
      assert rows[..0] == [];
      while i < |rows|
        invariant 0 <= i <= |rows| && Valid()
        invariant (Now(), None) == EdgeRows(start, job, rows[..i]) && (old(Bounded()) ==> Bounded())
        invariant SameElsewhere(old(store.kv), store.kv, space)
      {
        EdgeRowsOneMore(start, job, rows, i);
        EdgeRowsHalt(start, job, rows, i + 1);
        ghost var kv := store.kv;
        e := LoadEdgeRow(job, rows[i]);
        SameElsewhereTwice(old(store.kv), kv, store.kv, space);
        if e.Some? { return; }
        i := i + 1;
      }
      assert rows[..i] == rows;
      ghost var kv := store.kv;
      Flush();
      SameElsewhereTwice(old(store.kv), kv, store.kv, space);
      return None;
    }

    /** Write what is pending, then count degrees in the flushed store. */
    method Finish() returns (final: LoaderStats)
      requires Valid() && |View()| < TWO_63
      modifies this, store
      ensures final == old(stats) && Represents(store.kv, space, old(graph))
      ensures NoSeparators(old(graph)) ==>
                CountsDegrees(store.kv, space, true, old(graph.edges.Keys)) &&
                  CountsDegrees(store.kv, space, false, old(graph.edges.Keys))
    {
      hide Represents, Sound, Scanned, CountsDegrees, HoldsBoth, NoSeparators, Pass, SameElsewhere, IsScan, Numbered,
        GroupsIn;
      ghost var g := graph;
      SoundIsNumbered(Now());
      Flush();
      var kv := store.kv;
      var inStream := ScanKeys(kv, PrefixOf(space, true));
      var outStream := ScanKeys(kv, PrefixOf(space, false));
      ScansAreScanned(kv, space, inStream, outStream);
      if NoSeparators(g) { LoadedEdgesHeld(kv, space, g); }
      var edges, written := BackfillDegreeCounters(store, space, inStream, outStream, g.edges.Keys);
      CountersKeepGraph(kv, store.kv, space, g);
      final := stats;
    }
  }

  lemma ScansAreScanned(kv: Store, space: string, inStream: seq<string>, outStream: seq<string>)
    requires IsScan(kv, PrefixOf(space, true), inStream) && IsScan(kv, PrefixOf(space, false), outStream)
    requires |inStream| < TWO_63 && |outStream| < TWO_63
    ensures Scanned(kv, space, inStream, outStream)
  {
  }

  lemma LoadedEdgesHeld(kv: Store, space: string, g: Graph)
    requires Represents(kv, space, g) && Numbered(g) && NoSeparators(g)
    ensures HoldsBoth(kv, space, g.edges.Keys)
  {
    hide Represents, HoldsBoth;
    GraphEdgesHeld(kv, space, g);
  }

  ghost predicate NoSeparators(g: Graph) { forall id :: id in g.edges ==> IsSegment(id.edgeType) }

  /** Loads of the same graph into the same store end in the same store, whatever their batch sizes. */
  lemma BatchSizeIrrelevant(kv: Store, a: Store, b: Store, space: string, g: Graph)
    requires SameElsewhere(kv, a, space) && SameElsewhere(kv, b, space) && Represents(a, space, g)
    requires Represents(b, space, g)
    ensures a == b
  {
    hide Represents, IsData;
    forall k ensures SameAt(a, b, k) {
      if IsData(space, k) {
        SameGraphSameData(a, b, space, g, k);
      } else {
        assert SameAt(kv, a, k) && SameAt(kv, b, k);
      }
    }
    SameEverywhere(a, b);
  }

  lemma SameElsewhereAsItself(kv: Store, space: string)
    ensures SameElsewhere(kv, kv, space)
  {
  }

  lemma SameElsewhereTwice(a: Store, b: Store, c: Store, space: string)
    requires SameElsewhere(a, b, space) && SameElsewhere(b, c, space)
    ensures SameElsewhere(a, c, space)
  {
    hide IsData;
    forall k | !IsData(space, k) ensures SameAt(a, c, k) {
      assert SameAt(a, b, k) && SameAt(b, c, k);
    }
  }

  /** Pushing a new vertex's two pairs keeps the pending graph in step. */
  lemma NewVertex(p: Progress, kv: Store, pending: seq<Pair>, space: string, tag: string, blob: seq<Byte>)
    requires Sound(p) && p.next < TWO_63 && Represents(Apply(kv, pending), space, p.graph) && AllData(space, pending)
    ensures var pushed := pending + [(VertexKey(space, p.next), blob)] + [(TagVidKey(space, tag, p.next), [])];
            && Represents(Apply(kv, pushed), space, WithVertex(p.graph, p.next, Vertex(tag, blob)))
            && AllData(space, pushed)
  {
    hide Represents, Sound, IsData, Numbered, VertexKey, TagVidKey, Apply, IsI64, Bijective, Grounded;
    SoundIsNumbered(p);
    ApplyTwo(kv, pending, (VertexKey(space, p.next), blob), (TagVidKey(space, tag, p.next), []));
    AddVertex(Apply(kv, pending), space, p.graph, p.next, Vertex(tag, blob));
    KeysAreData(space, p.next, tag, EdgeId(0, "", 0, 0));
  }

  lemma NewEdge(p: Progress, kv: Store, pending: seq<Pair>, space: string, id: EdgeId, blob: seq<Byte>, src: string,
                dst: string)
    requires Sound(p) && p.next <= TWO_63 && Represents(Apply(kv, pending), space, p.graph) && AllData(space, pending)
    requires src in p.ids && dst in p.ids && id.src == p.ids[src] && id.dst == p.ids[dst] && IsI64(id.ranking)
    ensures var pushed := pending + [(KeyOf(space, false, id), blob)] + [(KeyOf(space, true, id), blob)];
            && Represents(Apply(kv, pushed), space, WithEdge(p.graph, id, blob))
            && AllData(space, pushed)
  {
    hide Represents, Sound, IsData, Numbered, KeyOf, Apply, IsNumbered, Bijective, Grounded;
    SoundIsNumbered(p);
    EndpointsNumbered(p, id, src, dst);
    ApplyTwo(kv, pending, (KeyOf(space, false, id), blob), (KeyOf(space, true, id), blob));
    AddEdge(Apply(kv, pending), space, p.graph, id, blob);
    KeysAreData(space, 0, "", id);
  }

  lemma NothingPending(space: string)
    ensures AllData(space, [])
  {
  }
}
