/**
 * Prefix scans over the edge keyspaces, and the neighbour lists that the unweighted
 * searches read from them.  The store is the ordered table of the key-value layer;
 * a payload is given by its decoding, None when it does not decode.
 */
module EdgeScan {
  import opened Prelude
  import opened Bytes
  import opened Text
  import opened Keys
  import opened GraphData
  import opened Hops

  type Row = (string, Option<EdgeData>)

  ghost predicate IsTable(rows: seq<Row>) {
    forall i, j :: 0 <= i < j < |rows| ==> Less(rows[i].0, rows[j].0)
  }

  // ===== Scanning by prefix =====

  /** The rows whose key starts with `prefix`, in key order. */
  function ScanPrefix(rows: seq<Row>, prefix: string): seq<Row> {
    if rows == [] then []
    else (if prefix <= rows[0].0 then [rows[0]] else []) + ScanPrefix(rows[1..], prefix)
  }

  /** The streaming scan: start at the first key not below the prefix, stop at the first that lacks it. */
  method ScanStream(rows: seq<Row>, prefix: string) returns (out: seq<Row>)
    requires IsTable(rows)
    ensures out == ScanPrefix(rows, prefix)
  {
    hide IsTable, Less;
    var i := 0;
    while i < |rows| && Less(rows[i].0, prefix)
      invariant 0 <= i <= |rows|
      invariant ScanPrefix(rows[i..], prefix) == ScanPrefix(rows, prefix)
    {
      BelowPrefix(rows[i].0, prefix);
      assert rows[i..][1..] == rows[i + 1..];
      i := i + 1;
    }
    out := [];
    while i < |rows| && prefix <= rows[i].0
      invariant 0 <= i <= |rows|
      invariant out + ScanPrefix(rows[i..], prefix) == ScanPrefix(rows, prefix)
      invariant i < |rows| ==> !Less(rows[i].0, prefix)
    {
      assert rows[i..][1..] == rows[i + 1..];
      if i + 1 < |rows| {
        NextNotBelow(rows, prefix, i);
      }
      out := out + [rows[i]];
      i := i + 1;
    }
    if i < |rows| {
      SuffixIsTable(rows, i);
      NothingFurther(rows[i..], prefix);
    }
  }

  lemma SuffixIsTable(rows: seq<Row>, i: nat)
    requires IsTable(rows) && i <= |rows|
    ensures IsTable(rows[i..])
  {
  }

  lemma NextNotBelow(rows: seq<Row>, prefix: string, i: nat)
    requires IsTable(rows) && i + 1 < |rows| && prefix <= rows[i].0
    ensures !Less(rows[i + 1].0, prefix)
  {
    NotBelow(prefix, rows[i].0, rows[i + 1].0);
  }

  lemma {:induction false} BelowPrefix(key: string, prefix: string)
    requires Less(key, prefix)
    ensures !(prefix <= key)
  {
    if key != [] && prefix <= key && key[0] == prefix[0] {
      BelowPrefix(key[1..], prefix[1..]);
    }
  }

  lemma {:induction false} PrefixNotAbove(prefix: string, key: string)
    requires prefix <= key
    ensures prefix == key || Less(prefix, key)
  {
    if prefix == [] {
    } else {
      PrefixNotAbove(prefix[1..], key[1..]);
      assert prefix == [prefix[0]] + prefix[1..] && key == [key[0]] + key[1..];
    }
  }

  lemma NotBelow(prefix: string, key: string, next: string)
    requires prefix <= key && Less(key, next)
    ensures !Less(next, prefix)
  {
    PrefixNotAbove(prefix, key);
    LessIrreflexive(prefix);
    if Less(next, prefix) {
      LessTransitive(key, next, prefix);
      if prefix != key { LessTransitive(prefix, key, prefix); }
    }
  }

  /** Once a key at or above the prefix lacks it, so does every later key. */
  lemma {:induction false} NothingFurther(rows: seq<Row>, prefix: string)
    requires IsTable(rows) && rows != [] && !Less(rows[0].0, prefix) && !(prefix <= rows[0].0)
    ensures ScanPrefix(rows, prefix) == []
  {
    if |rows| > 1 {
      var here, next := rows[0].0, rows[1].0;
      LessTotal(here, prefix);
      assert Less(prefix, here) && Less(here, next);
      if prefix <= next { PrefixIsConvex(prefix, prefix, here, next); }
      LessTransitive(prefix, here, next);
      if Less(next, prefix) { LessTransitive(prefix, next, prefix); LessIrreflexive(prefix); }
      NothingFurther(rows[1..], prefix);
    }
  }

  lemma {:induction false} ScanPrefixExact(rows: seq<Row>, prefix: string, row: Row)
    ensures row in ScanPrefix(rows, prefix) <==> row in rows && prefix <= row.0
  {
    if rows == [] {
    } else {
      ScanPrefixExact(rows[1..], prefix, row);
      assert rows == [rows[0]] + rows[1..];
    }
  }

  // ===== Decoding one row =====

  function EdgeTypeFromKey(key: string): Option<string> {
    var parts := Split(key);
    if |parts| > 3 then Some(parts[3]) else None
  }

  /** The payload must decode and agree with the identity that the key spells out. */
  function DecodeQueryEdge(row: Row): Option<EdgeData> {
    match row.1
    case None => None
    case Some(edge) =>
      var parts := Split(row.0);
      if |parts| != 6 || edge.edgeType != parts[3] || edge.edgeType == "" then None
      else
        var first, second, rank := ParseI64(parts[2]), ParseI64(parts[4]), ParseI64(parts[5]);
        if first.None? || second.None? || rank.None? then None
        else
          var matches :=
            if parts[1] == "edge" then first.value == edge.src && second.value == edge.dst
            else if parts[1] == "in-edge" then first.value == edge.dst && second.value == edge.src
            else false;
          if matches && rank.value == edge.ranking then Some(edge) else None
  }

  /** The type is the fourth piece of a key, if it has so many. */
  lemma EdgeTypeExactly(parts: seq<string>)
    requires parts != [] && forall i :: 0 <= i < |parts| ==> IsSegment(parts[i])
    ensures EdgeTypeFromKey(Join(parts)) == if |parts| < 4 then None else Some(parts[3])
  {
    SplitJoin(parts);
  }

  /** The key spells out the identity: its kind, the two ends in the order of that kind, the type and the ranking. */
  ghost predicate SpellsOut(key: string, kind: string, near: int, edgeType: string, far: int, ranking: int) {
    && IsI64(near) && IsI64(far) && IsI64(ranking) && IsSegment(edgeType) && edgeType != ""
    && exists space, x, y, z ::
         && IsSegment(space) && IsSegment(x) && IsSegment(y) && IsSegment(z)
         && key == Join([space, kind, x, edgeType, y, z]) && Spells(x, near) && Spells(y, far) && Spells(z, ranking)
  }

  lemma SpelledOutIff(key: string, kind: string, near: int, edgeType: string, far: int, ranking: int)
    requires IsSegment(kind)
    ensures var parts := Split(key);
            SpellsOut(key, kind, near, edgeType, far, ranking) <==>
              && |parts| == 6 && parts[1] == kind && parts[3] == edgeType && edgeType != ""
              && ParseI64(parts[2]) == Some(near) && ParseI64(parts[4]) == Some(far)
              && ParseI64(parts[5]) == Some(ranking)
  {
    hide Split, Join, ParseI64, Spells;
    var parts := Split(key);
    JoinSplit(key);
    if |parts| == 6 {
      ParseExactly(parts[2], near);
      ParseExactly(parts[4], far);
      ParseExactly(parts[5], ranking);
      assert parts == [parts[0], parts[1], parts[2], parts[3], parts[4], parts[5]];
    }
    if SpellsOut(key, kind, near, edgeType, far, ranking) {
      var space, x, y, z :|
        && IsSegment(space) && IsSegment(x) && IsSegment(y) && IsSegment(z)
        && key == Join([space, kind, x, edgeType, y, z]) && Spells(x, near) && Spells(y, far) && Spells(z, ranking);
      SplitJoin([space, kind, x, edgeType, y, z]);
    }
  }

  /** The strict decoder accepts exactly the rows whose key spells out the identity of their payload. */
  lemma DecodesExactly(row: Row, e: EdgeData)
    ensures DecodeQueryEdge(row) == Some(e) <==>
              && row.1 == Some(e)
              && (SpellsOut(row.0, "edge", e.src, e.edgeType, e.dst, e.ranking) ||
                  SpellsOut(row.0, "in-edge", e.dst, e.edgeType, e.src, e.ranking))
  {
    hide Split, ParseI64, SpellsOut;
    SpelledOutIff(row.0, "edge", e.src, e.edgeType, e.dst, e.ranking);
    SpelledOutIff(row.0, "in-edge", e.dst, e.edgeType, e.src, e.ranking);
    assert "edge" != "in-edge";
  }

  predicate Selected(types: set<string>, edgeType: Option<string>) {
    types == {} || (edgeType.Some? && edgeType.value in types)
  }

  // ===== Collecting neighbours =====

  /** The far end of an edge, seen from the scan's direction. */
  function Far(edge: EdgeData, forward: bool): int { if forward then edge.dst else edge.src }

  /** Fold one row into the list of neighbours found so far; None once a relevant row is corrupt. */
  function AddNeighbor(acc: Option<seq<int>>, row: Row, types: set<string>, forward: bool): Option<seq<int>> {
    if acc.None? || !Selected(types, EdgeTypeFromKey(row.0)) then acc
    else
      match DecodeQueryEdge(row)
      case None => None
      case Some(edge) =>
        if Far(edge, forward) in acc.value then acc else Some(acc.value + [Far(edge, forward)])
  }

  function AddNeighbors(acc: Option<seq<int>>, rows: seq<Row>, types: set<string>, forward: bool): Option<seq<int>>
    decreases |rows|
  {
    if rows == [] then acc else AddNeighbors(AddNeighbor(acc, rows[0], types, forward), rows[1..], types, forward)
  }

  function NeighborVids(rows: seq<Row>, space: string, vid: int, types: set<string>, bidirect: bool): Option<seq<int>> {
    var out := AddNeighbors(Some([]), ScanPrefix(rows, EdgeSrcPrefix(space, vid)), types, true);
    if bidirect then AddNeighbors(out, ScanPrefix(rows, InEdgeDstPrefix(space, vid)), types, false) else out
  }

  lemma {:induction false} CorruptStays(rows: seq<Row>, types: set<string>, forward: bool)
    ensures AddNeighbors(None, rows, types, forward) == None
  {
    if rows != [] { CorruptStays(rows[1..], types, forward); }
  }

  /** One of the two scan loops; `seen` mirrors `neighbors`. */
  method CollectFrom(rows: seq<Row>, types: set<string>, forward: bool, found: seq<int>)
      returns (out: Option<seq<int>>)
    ensures out == AddNeighbors(Some(found), rows, types, forward)
  {
    var neighbors, seen := found, set v | v in found;
    var i := 0;
    while i < |rows|
      invariant 0 <= i <= |rows|
      invariant forall v :: v in seen <==> v in neighbors
      invariant AddNeighbors(Some(neighbors), rows[i..], types, forward) ==
                AddNeighbors(Some(found), rows, types, forward)
    {
      assert rows[i..][0] == rows[i] && rows[i..][1..] == rows[i + 1..];
      if Selected(types, EdgeTypeFromKey(rows[i].0)) {
        var edge := DecodeQueryEdge(rows[i]);
        if edge.None? {
          CorruptStays(rows[i + 1..], types, forward);
          return None;
        }
        var v := Far(edge.value, forward);
        if v !in seen {
          seen, neighbors := seen + {v}, neighbors + [v];
        }
      }
      i := i + 1;
    }
    out := Some(neighbors);
  }

  method CollectNeighborVids(rows: seq<Row>, space: string, vid: int, types: set<string>, bidirect: bool)
      returns (out: Option<seq<int>>)
    requires IsTable(rows)
    ensures out == NeighborVids(rows, space, vid, types, bidirect)
  {
    var forward := ScanStream(rows, EdgeSrcPrefix(space, vid));
    out := CollectFrom(forward, types, true, []);
    if bidirect {
      var reverse := ScanStream(rows, InEdgeDstPrefix(space, vid));
      if out.None? {
        CorruptStays(reverse, types, false);
        return;
      }
      out := CollectFrom(reverse, types, false, out.value);
    }
  }

  // ===== Stores that hold an edge set =====

  ghost predicate IsEdge(e: EdgeData) {
    IsI64(e.src) && IsI64(e.dst) && IsI64(e.ranking) && IsSegment(e.edgeType) && e.edgeType != ""
  }

  function ForwardRow(space: string, e: EdgeData): Row {
    (EdgeKey(space, e.src, e.edgeType, e.dst, e.ranking), Some(e))
  }

  function ReverseRow(space: string, e: EdgeData): Row {
    (InEdgeKey(space, e.dst, e.edgeType, e.src, e.ranking), Some(e))
  }

  /** The two edge keyspaces hold exactly the forward and reverse rows of `edges`. */
  ghost predicate Holds(rows: seq<Row>, space: string, edges: set<EdgeData>) {
    && IsTable(rows) && IsSegment(space)
    && (forall e :: e in edges ==> IsEdge(e) && ForwardRow(space, e) in rows && ReverseRow(space, e) in rows)
    && (forall row :: row in rows && EdgePrefix(space) <= row.0 ==>
          exists e :: e in edges && row == ForwardRow(space, e))
    && (forall row :: row in rows && InEdgePrefix(space) <= row.0 ==>
          exists e :: e in edges && row == ReverseRow(space, e))
  }

  /** The segments of a key: what `split(':')` makes of it. */
  lemma EdgeKeySegments(space: string, kind: string, near: int, edgeType: string, far: int, rank: int)
    requires IsSegment(space) && IsSegment(edgeType) && IsSegment(kind)
    ensures Split(space + ":" + kind + ":" + EdgeTail(near, edgeType, far, rank)) ==
              [space, kind, Decimal(near), edgeType, Decimal(far), Decimal(rank)]
  {
    hide Split, Decimal;
    var rest3 := Decimal(far) + ":" + Decimal(rank);
    var rest2 := edgeType + ":" + rest3;
    var rest1 := EdgeTail(near, edgeType, far, rank);
    SplitSegment(Decimal(rank));
    SplitHead(Decimal(far), Decimal(rank));
    SplitHead(edgeType, rest3);
    SplitHead(Decimal(near), rest2);
    SplitHead(kind, rest1);
    SplitHead(space, kind + ":" + rest1);
    assert space + ":" + kind + ":" + rest1 == space + ":" + (kind + ":" + rest1);
  }

  lemma EdgeKeySplits(space: string, e: EdgeData)
    requires IsSegment(space) && IsEdge(e)
    ensures Split(ForwardRow(space, e).0) ==
              [space, "edge", Decimal(e.src), e.edgeType, Decimal(e.dst), Decimal(e.ranking)]
    ensures Split(ReverseRow(space, e).0) ==
              [space, "in-edge", Decimal(e.dst), e.edgeType, Decimal(e.src), Decimal(e.ranking)]
  {
    EdgeKeySegments(space, "edge", e.src, e.edgeType, e.dst, e.ranking);
    EdgeKeySegments(space, "in-edge", e.dst, e.edgeType, e.src, e.ranking);
    hide Split, EdgeTail, Decimal;
    assert space + ":" + "edge" + ":" == EdgePrefix(space);
    assert space + ":" + "in-edge" + ":" == InEdgePrefix(space);
  }

  lemma EdgeRowsDecode(space: string, e: EdgeData)
    requires IsSegment(space) && IsEdge(e)
    ensures DecodeQueryEdge(ForwardRow(space, e)) == Some(e) && DecodeQueryEdge(ReverseRow(space, e)) == Some(e)
    ensures EdgeTypeFromKey(ForwardRow(space, e).0) == Some(e.edgeType)
    ensures EdgeTypeFromKey(ReverseRow(space, e).0) == Some(e.edgeType)
  {
    EdgeKeySplits(space, e);
    ParseDecimal(e.src);
    ParseDecimal(e.dst);
    ParseDecimal(e.ranking);
    hide Split, ParseI64, Decimal, EdgeKey, InEdgeKey;
    assert "edge" != "in-edge";
  }

  /** An edge key starts with a vertex's prefix exactly when that vertex is its near end. */
  lemma TailPrefix(prefix: string, vid: int, near: int, edgeType: string, far: int, rank: int)
    requires IsI64(vid) && IsI64(near)
    ensures prefix + (Decimal(vid) + ":") <= prefix + EdgeTail(near, edgeType, far, rank) <==> vid == near
  {
    var rest := edgeType + ":" + (Decimal(far) + ":" + Decimal(rank));
    if prefix + (Decimal(vid) + ":") <= prefix + EdgeTail(near, edgeType, far, rank) {
      PrefixCancels(prefix, Decimal(vid) + ":", EdgeTail(near, edgeType, far, rank));
      SegmentPrefix(Decimal(vid), Decimal(near), rest);
      DecimalInjective(vid, near);
    }
  }

  /** The rows that a scan at `vid` reads are the rows of the edges that leave (or enter) it. */
  lemma ScannedRows(rows: seq<Row>, space: string, edges: set<EdgeData>, vid: int, forward: bool, row: Row)
    requires Holds(rows, space, edges) && IsI64(vid)
    ensures row in ScanPrefix(rows, if forward then EdgeSrcPrefix(space, vid) else InEdgeDstPrefix(space, vid)) <==>
              exists e :: e in edges && vid == Far(e, !forward) &&
                row == if forward then ForwardRow(space, e) else ReverseRow(space, e)
  {
    var prefix := if forward then EdgeSrcPrefix(space, vid) else InEdgeDstPrefix(space, vid);
    ScanPrefixExact(rows, prefix, row);
    forall e | e in edges ensures
        (EdgeSrcPrefix(space, vid) <= ForwardRow(space, e).0 <==> vid == e.src) &&
        (InEdgeDstPrefix(space, vid) <= ReverseRow(space, e).0 <==> vid == e.dst)
    {
      TailPrefix(EdgePrefix(space), vid, e.src, e.edgeType, e.dst, e.ranking);
      TailPrefix(InEdgePrefix(space), vid, e.dst, e.edgeType, e.src, e.ranking);
    }
    assert prefix <= row.0 ==> (if forward then EdgePrefix(space) else InEdgePrefix(space)) <= row.0;
  }

  // ===== The neighbours are exactly those of the edge set =====

  /** `row` leads to `v`. */
  ghost predicate LeadsTo(row: Row, types: set<string>, forward: bool, v: int) {
    && Selected(types, EdgeTypeFromKey(row.0)) && DecodeQueryEdge(row).Some?
    && Far(DecodeQueryEdge(row).value, forward) == v
  }

  ghost predicate SomeLeadsTo(rows: seq<Row>, types: set<string>, forward: bool, v: int) {
    exists row :: row in rows && LeadsTo(row, types, forward, v)
  }

  ghost predicate AllDecode(rows: seq<Row>) {
    forall row :: row in rows ==> DecodeQueryEdge(row).Some?
  }

  lemma {:induction false} AddNeighborsExact(acc: seq<int>, rows: seq<Row>, types: set<string>, forward: bool)
    requires NoDup(acc) && AllDecode(rows)
    ensures var out := AddNeighbors(Some(acc), rows, types, forward);
            && out.Some? && NoDup(out.value)
            && forall v :: v in out.value <==> v in acc || SomeLeadsTo(rows, types, forward, v)
    decreases |rows|
  {
    if rows == [] {
    } else {
      var first, rest := rows[0], rows[1..];
      assert rows == [first] + rest && DecodeQueryEdge(first).Some?;
      hide DecodeQueryEdge, EdgeTypeFromKey, Selected;
      var acc' := AddNeighbor(Some(acc), first, types, forward).value;
      assert AllDecode(rest);
      AddNeighborsExact(acc', rest, types, forward);
      var out := AddNeighbors(Some(acc), rows, types, forward);
      forall v ensures v in out.value <==> v in acc || SomeLeadsTo(rows, types, forward, v) {
        assert v in acc' <==> v in acc || LeadsTo(first, types, forward, v);
        assert SomeLeadsTo(rows, types, forward, v) <==>
          LeadsTo(first, types, forward, v) || SomeLeadsTo(rest, types, forward, v);
      }
    }
  }

  /** A row whose key names one of the types, or any row if there are none. */
  ghost predicate IsChosen(types: set<string>, row: Row) {
    types == {} || exists t :: t in types && EdgeTypeFromKey(row.0) == Some(t)
  }

  ghost predicate SomeUnreadable(rows: seq<Row>, types: set<string>) {
    exists row :: row in rows && IsChosen(types, row) && DecodeQueryEdge(row).None?
  }

  /** Whatever the rows, the list fails exactly if a chosen one is unreadable, and else grows by where they lead. */
  lemma {:induction false} AddNeighborsOfAny(acc: seq<int>, rows: seq<Row>, types: set<string>, forward: bool)
    ensures var out := AddNeighbors(Some(acc), rows, types, forward);
            && (out.None? <==> SomeUnreadable(rows, types))
            && (out.Some? ==> forall v :: v in out.value <==> v in acc || SomeLeadsTo(rows, types, forward, v))
    decreases |rows|
  {
    if rows == [] {
    } else {
      var first, rest := rows[0], rows[1..];
      assert rows == [first] + rest && (IsChosen(types, first) <==> Selected(types, EdgeTypeFromKey(first.0)));
      hide DecodeQueryEdge, EdgeTypeFromKey, Selected, IsChosen;
      var out := AddNeighbors(Some(acc), rows, types, forward);
      var acc' := AddNeighbor(Some(acc), first, types, forward);
      if acc'.None? {
        CorruptStays(rest, types, forward);
        assert first in rows;
      } else {
        AddNeighborsOfAny(acc'.value, rest, types, forward);
        assert SomeUnreadable(rows, types) <==> SomeUnreadable(rest, types);
        forall v | out.Some? ensures v in out.value <==> v in acc || SomeLeadsTo(rows, types, forward, v) {
          assert v in acc'.value <==> v in acc || LeadsTo(first, types, forward, v);
          assert SomeLeadsTo(rows, types, forward, v) <==>
            LeadsTo(first, types, forward, v) || SomeLeadsTo(rest, types, forward, v);
        }
      }
    }
  }

  /** `row` is one that the collection at `vid` looks at. */
  ghost predicate IsRead(rows: seq<Row>, space: string, vid: int, types: set<string>, forward: bool, row: Row) {
    && row in rows && IsChosen(types, row)
    && (if forward then EdgeSrcPrefix(space, vid) else InEdgeDstPrefix(space, vid)) <= row.0
  }

  /** Over any store the collection fails exactly if it reads an unreadable row, and else finds where the rows lead. */
  lemma NeighborsOfAnyStore(rows: seq<Row>, space: string, vid: int, types: set<string>, bidirect: bool)
    ensures var out := NeighborVids(rows, space, vid, types, bidirect);
            && (out.None? <==> exists row, forward ::
                  (forward || bidirect) && IsRead(rows, space, vid, types, forward, row) && DecodeQueryEdge(row).None?)
            && (out.Some? ==> forall v :: v in out.value <==> exists row, forward ::
                  && (forward || bidirect) && IsRead(rows, space, vid, types, forward, row)
                  && DecodeQueryEdge(row).Some? && Far(DecodeQueryEdge(row).value, forward) == v)
  {
    hide DecodeQueryEdge, EdgeTypeFromKey, AddNeighbors, EdgeSrcPrefix, InEdgeDstPrefix;
    var forward, reverse := ScanAt(rows, space, vid, true), ScanAt(rows, space, vid, false);
    AddNeighborsOfAny([], forward, types, true);
    var out := AddNeighbors(Some([]), forward, types, true);
    if bidirect {
      if out.Some? {
        AddNeighborsOfAny(out.value, reverse, types, false);
      } else {
        CorruptStays(reverse, types, false);
      }
    }
    ReadIsScanned(rows, space, vid, types, true);
    ReadIsScanned(rows, space, vid, types, false);
  }

  lemma ReadIsScanned(rows: seq<Row>, space: string, vid: int, types: set<string>, forward: bool)
    ensures forall row :: IsRead(rows, space, vid, types, forward, row) <==>
              row in ScanAt(rows, space, vid, forward) && Selected(types, EdgeTypeFromKey(row.0))
  {
    hide EdgeTypeFromKey;
    forall row ensures IsRead(rows, space, vid, types, forward, row) <==>
                       row in ScanAt(rows, space, vid, forward) && Selected(types, EdgeTypeFromKey(row.0)) {
      ScanPrefixExact(rows, if forward then EdgeSrcPrefix(space, vid) else InEdgeDstPrefix(space, vid), row);
    }
  }

  /** Some edge of a chosen type joins `u` to `v`, in its own direction or, if `bidirect`, in either. */
  ghost predicate Linked(edges: set<EdgeData>, types: set<string>, bidirect: bool, u: int, v: int) {
    exists e :: e in edges && Selected(types, Some(e.edgeType)) && Spans(e, bidirect, u, v)
  }

  ghost predicate Spans(e: EdgeData, bidirect: bool, u: int, v: int) {
    (e.src == u && e.dst == v) || (bidirect && e.dst == u && e.src == v)
  }

  /** An edge of a chosen type runs from `u` to `v` in the scan's direction. */
  ghost predicate Directed(edges: set<EdgeData>, types: set<string>, forward: bool, u: int, v: int) {
    exists e :: e in edges && Selected(types, Some(e.edgeType)) && Far(e, !forward) == u && Far(e, forward) == v
  }

  function RowOf(space: string, e: EdgeData, forward: bool): Row {
    if forward then ForwardRow(space, e) else ReverseRow(space, e)
  }

  function ScanAt(rows: seq<Row>, space: string, vid: int, forward: bool): seq<Row> {
    ScanPrefix(rows, if forward then EdgeSrcPrefix(space, vid) else InEdgeDstPrefix(space, vid))
  }

  /** The rows that a scan at `vid` reads, and what each of them decodes to. */
  lemma ScannedEdges(rows: seq<Row>, space: string, edges: set<EdgeData>, vid: int, forward: bool)
    requires Holds(rows, space, edges) && IsI64(vid)
    ensures forall row :: row in ScanAt(rows, space, vid, forward) ==>
              exists e :: e in edges && vid == Far(e, !forward) && row == RowOf(space, e, forward)
    ensures forall e :: e in edges && vid == Far(e, !forward) ==>
              RowOf(space, e, forward) in ScanAt(rows, space, vid, forward)
    ensures forall e :: e in edges ==>
              && DecodeQueryEdge(RowOf(space, e, forward)) == Some(e)
              && EdgeTypeFromKey(RowOf(space, e, forward).0) == Some(e.edgeType)
  {
    forall e | e in edges
      ensures DecodeQueryEdge(RowOf(space, e, forward)) == Some(e)
      ensures EdgeTypeFromKey(RowOf(space, e, forward).0) == Some(e.edgeType)
      ensures vid == Far(e, !forward) ==> RowOf(space, e, forward) in ScanAt(rows, space, vid, forward)
    {
      EdgeRowsDecode(space, e);
      ScannedRows(rows, space, edges, vid, forward, RowOf(space, e, forward));
    }
    forall row | row in ScanAt(rows, space, vid, forward)
      ensures exists e :: e in edges && vid == Far(e, !forward) && row == RowOf(space, e, forward)
    {
      ScannedRows(rows, space, edges, vid, forward, row);
    }
  }

  /** One scan, in terms of the edge set. */
  lemma ScanLeadsTo(rows: seq<Row>, space: string, edges: set<EdgeData>, vid: int, types: set<string>, forward: bool,
                    v: int)
    requires Holds(rows, space, edges) && IsI64(vid)
    ensures AllDecode(ScanAt(rows, space, vid, forward))
    ensures SomeLeadsTo(ScanAt(rows, space, vid, forward), types, forward, v) <==>
              Directed(edges, types, forward, vid, v)
  {
    hide Holds, ScanAt, DecodeQueryEdge, EdgeTypeFromKey, Selected, RowOf;
    var scanned := ScanAt(rows, space, vid, forward);
    ScannedEdges(rows, space, edges, vid, forward);
    forall row | row in scanned ensures DecodeQueryEdge(row).Some? {
      var e :| e in edges && vid == Far(e, !forward) && row == RowOf(space, e, forward);
    }
    if SomeLeadsTo(scanned, types, forward, v) {
      var row :| row in scanned && LeadsTo(row, types, forward, v);
      var e :| e in edges && vid == Far(e, !forward) && row == RowOf(space, e, forward);
      assert Selected(types, Some(e.edgeType)) && Far(e, forward) == v;
    }
    if Directed(edges, types, forward, vid, v) {
      var e :| e in edges && Selected(types, Some(e.edgeType)) && Far(e, !forward) == vid && Far(e, forward) == v;
      assert LeadsTo(RowOf(space, e, forward), types, forward, v);
    }
  }

  /** On a store that holds an edge set the collection never fails and finds exactly the linked vertices. */
  lemma NeighborsExact(rows: seq<Row>, space: string, edges: set<EdgeData>, vid: int, types: set<string>,
                       bidirect: bool)
    requires Holds(rows, space, edges) && IsI64(vid)
    ensures var out := NeighborVids(rows, space, vid, types, bidirect);
            out.Some? && NoDup(out.value) && forall v :: v in out.value <==> Linked(edges, types, bidirect, vid, v)
  {
    var forward, reverse := ScanAt(rows, space, vid, true), ScanAt(rows, space, vid, false);
    forall v ensures SomeLeadsTo(forward, types, true, v) <==> Directed(edges, types, true, vid, v) {
      ScanLeadsTo(rows, space, edges, vid, types, true, v);
    }
    forall v ensures SomeLeadsTo(reverse, types, false, v) <==> Directed(edges, types, false, vid, v) {
      ScanLeadsTo(rows, space, edges, vid, types, false, v);
    }
    ScanLeadsTo(rows, space, edges, vid, types, true, 0);
    ScanLeadsTo(rows, space, edges, vid, types, false, 0);
    AddNeighborsExact([], forward, types, true);
    var out := AddNeighbors(Some([]), forward, types, true);
    if bidirect {
      AddNeighborsExact(out.value, reverse, types, false);
    }
    forall v ensures Linked(edges, types, bidirect, vid, v) <==>
                     Directed(edges, types, true, vid, v) || (bidirect && Directed(edges, types, false, vid, v)) {
      EitherDirection(edges, types, bidirect, vid, v);
    }
    hide Holds, ScanPrefix, Selected, AllDecode, SomeLeadsTo, Linked, Directed, EdgeSrcPrefix, InEdgeDstPrefix;
  }

  lemma EitherDirection(edges: set<EdgeData>, types: set<string>, bidirect: bool, u: int, v: int)
    ensures Linked(edges, types, bidirect, u, v) <==>
            Directed(edges, types, true, u, v) || (bidirect && Directed(edges, types, false, u, v))
  {
    if Linked(edges, types, bidirect, u, v) {
      var e :| e in edges && Selected(types, Some(e.edgeType)) && Spans(e, bidirect, u, v);
      if e.src == u && e.dst == v {
        assert Far(e, false) == u && Far(e, true) == v;
      } else {
        assert Far(e, true) == u && Far(e, false) == v;
      }
    }
  }
}
