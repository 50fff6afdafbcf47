/** The one-pass degree counters: runs of a sorted edge keyspace, one counter per run. */
module DegreeCounters {
  import opened Prelude
  import opened Bytes
  import opened KeyValue
  import opened Text
  import opened Keys

  // ===== Groups and runs =====

  datatype Group = Group(edgeType: string, vid: int)

  datatype Run = Run(group: Group, count: nat)

  /** The group of a scanned key, or None if the loop skips it. */
  function GroupOf(prefix: string, key: string): Option<Group> {
    if !(prefix <= key) then None
    else
      var parts := Split(key[|prefix|..]);
      if |parts| != 4 then None
      else
        match ParseI64(parts[0])
        case None => None
        case Some(vid) => Some(Group(parts[1], vid))
  }

  function GroupsOf(prefix: string, stream: seq<string>): seq<Group> {
    if stream == [] then []
    else
      var before := GroupsOf(prefix, stream[..|stream| - 1]);
      match GroupOf(prefix, stream[|stream| - 1])
      case None => before
      case Some(g) => before + [g]
  }

  /** Maximal runs of equal groups, with their lengths. */
  function Runs(gs: seq<Group>): (rs: seq<Run>)
    ensures rs == [] <==> gs == []
    ensures rs != [] ==> rs[|rs| - 1].group == gs[|gs| - 1] && rs[|rs| - 1].count > 0
  {
    if gs == [] then []
    else
      var before, g := Runs(gs[..|gs| - 1]), gs[|gs| - 1];
      if before != [] && before[|before| - 1].group == g then
        before[..|before| - 1] + [Run(g, before[|before| - 1].count + 1)]
      else before + [Run(g, 1)]
  }

  function Count(gs: seq<Group>, g: Group): nat {
    if gs == [] then 0 else Count(gs[..|gs| - 1], g) + (if gs[|gs| - 1] == g then 1 else 0)
  }

  function Total(rs: seq<Run>): nat {
    if rs == [] then 0 else Total(rs[..|rs| - 1]) + rs[|rs| - 1].count
  }

  /** Equal groups are adjacent. */
  ghost predicate Grouped(gs: seq<Group>) {
    forall i, j, k :: 0 <= i < j < k < |gs| && gs[i] == gs[k] ==> gs[j] == gs[i]
  }

  /** One run per group, as long as the group is large. */
  ghost predicate Tallies(rs: seq<Run>, gs: seq<Group>) {
    && (forall i, j :: 0 <= i < j < |rs| ==> rs[i].group != rs[j].group)
    && (forall i :: 0 <= i < |rs| ==> rs[i].count == Count(gs, rs[i].group))
    && (forall g :: g in gs ==> exists i :: 0 <= i < |rs| && rs[i].group == g)
    && (forall i :: 0 <= i < |rs| ==> rs[i].group in gs)
    && Total(rs) == |gs|
  }

  lemma {:induction false} CountAbsent(gs: seq<Group>, g: Group)
    requires g !in gs
    ensures Count(gs, g) == 0
  {
    if gs == [] {
    } else {
      assert gs[|gs| - 1] in gs;
      CountAbsent(gs[..|gs| - 1], g);
    }
  }

  lemma {:induction false} RunsTally(gs: seq<Group>)
    requires Grouped(gs)
    ensures Tallies(Runs(gs), gs)
  {
    if gs == [] {
      assert Runs(gs) == [];
    } else {
      hide Tallies, Count, Total, Runs;
      var prior, g := gs[..|gs| - 1], gs[|gs| - 1];
      assert gs == prior + [g];
      RunsTally(prior);
      RunsOneMore(prior, g);
      var before := Runs(prior);
      if before != [] && before[|before| - 1].group == g {
        LastRunGrows(before, prior, g);
      } else {
        GroupIsNew(prior, g);
        CountAbsent(prior, g);
        TallyNewRun(before, prior, g);
      }
    }
  }

  lemma GroupIsNew(gs: seq<Group>, g: Group)
    requires Grouped(gs + [g]) && (gs != [] ==> gs[|gs| - 1] != g)
    ensures g !in gs
  {
    var all := gs + [g];
    forall i | 0 <= i < |gs| ensures gs[i] != g {
      assert all[i] == gs[i] && all[|gs|] == g && all[|gs| - 1] == gs[|gs| - 1];
    }
  }

  lemma CountOneMore(gs: seq<Group>, g: Group, x: Group)
    ensures Count(gs + [g], x) == Count(gs, x) + if x == g then 1 else 0
  {
    assert (gs + [g])[..|gs|] == gs;
  }

  lemma TotalOneMore(rs: seq<Run>, r: Run)
    ensures Total(rs + [r]) == Total(rs) + r.count
  {
    assert (rs + [r])[..|rs|] == rs;
  }

  lemma LastRunGrows(rs: seq<Run>, gs: seq<Group>, g: Group)
    requires Tallies(rs, gs) && rs != [] && rs[|rs| - 1].group == g
    ensures Tallies(rs[..|rs| - 1] + [Run(g, rs[|rs| - 1].count + 1)], gs + [g])
  {
    hide Count, Total;
    var before, last := rs[..|rs| - 1], rs[|rs| - 1];
    var rs', gs' := before + [Run(g, last.count + 1)], gs + [g];
    assert before + [last] == rs;
    TotalOneMore(before, last);
    TotalOneMore(before, Run(g, last.count + 1));
    forall i | 0 <= i < |rs'| ensures rs'[i].count == Count(gs', rs'[i].group) && rs'[i].group in gs' {
      assert rs'[i].group == rs[i].group && rs[i].group in gs;
      CountOneMore(gs, g, rs[i].group);
    }
    forall x | x in gs' ensures exists i :: 0 <= i < |rs'| && rs'[i].group == x {
      var i :| 0 <= i < |rs| && rs[i].group == x;
      assert rs'[i].group == x;
    }
  }

  lemma TallyNewRun(rs: seq<Run>, gs: seq<Group>, g: Group)
    requires Tallies(rs, gs) && g !in gs && Count(gs, g) == 0
    ensures Tallies(rs + [Run(g, 1)], gs + [g])
  {
    hide Count, Total;
    var rs', gs' := rs + [Run(g, 1)], gs + [g];
    TotalOneMore(rs, Run(g, 1));
    CountOneMore(gs, g, g);
    forall i | 0 <= i < |rs| ensures rs[i].count == Count(gs', rs[i].group) && rs[i].group in gs {
      CountOneMore(gs, g, rs[i].group);
    }
    forall x | x in gs' ensures exists i :: 0 <= i < |rs'| && rs'[i].group == x {
      if x == g {
        assert rs'[|rs|].group == g;
      } else {
        var i :| 0 <= i < |rs| && rs[i].group == x;
        assert rs'[i].group == x;
      }
    }
  }

  // ===== The streaming loop =====

  const COUNTER_BATCH: nat := 100_000

  function EncodeCount(n: int): seq<Byte>
    requires IsI64(n)
  {
    Reverse(EncodeI64(n))
  }

  function DecodeCount(bytes: seq<Byte>): Option<int> { DecodeI64(Reverse(bytes)) }

  lemma CountRoundTrip(n: int)
    requires IsI64(n)
    ensures DecodeCount(EncodeCount(n)) == Some(n)
  {
    I64RoundTrip(n);
    assert Reverse(Reverse(EncodeI64(n))) == EncodeI64(n);
  }

  /** Eight bytes, the least significant first. */
  lemma CountIsLittleEndian(n: int, k: nat)
    requires 0 <= n < TWO_63 && k < 8
    ensures |EncodeCount(n)| == 8 && EncodeCount(n)[k] == n / Pow256(k) % 256
  {
    hide BigEndian;
    BigEndianExactly(n, 8, k);
  }

  function CounterWrite(space: string, isIn: bool, r: Run): (string, seq<Byte>)
    requires IsI64(r.count)
  {
    (CounterKey(space, isIn, r.group.edgeType, r.group.vid), EncodeCount(r.count))
  }

  function CounterWrites(space: string, isIn: bool, rs: seq<Run>): (ws: seq<(string, seq<Byte>)>)
    requires forall i :: 0 <= i < |rs| ==> IsI64(rs[i].count)
    ensures |ws| == |rs| && forall i :: 0 <= i < |rs| ==> ws[i] == CounterWrite(space, isIn, rs[i])
  {
    if rs == [] then []
    else CounterWrites(space, isIn, rs[..|rs| - 1]) + [CounterWrite(space, isIn, rs[|rs| - 1])]
  }

  lemma {:induction false} RunsAreShort(gs: seq<Group>)
    ensures forall i :: 0 <= i < |Runs(gs)| ==> Runs(gs)[i].count <= |gs|
  {
    if gs != [] { RunsAreShort(gs[..|gs| - 1]); }
  }

  /** Append one counter to the batch, and commit the batch when it is full. */
  method Emit(store: KvStore, batch0: seq<(string, seq<Byte>)>, write: (string, seq<Byte>), written0: nat,
              ghost kv: Store, ghost flushed0: seq<(string, seq<Byte>)>)
      returns (batch: seq<(string, seq<Byte>)>, written: nat, ghost flushed: seq<(string, seq<Byte>)>)
    requires store.kv == Apply(kv, flushed0) && written0 == |flushed0| && |batch0| < 100_000
    modifies store
    ensures store.kv == Apply(kv, flushed) && written == |flushed|
    ensures flushed + batch == (flushed0 + batch0) + [write]
    ensures |batch| < 100_000 && (|batch0| + 1 < 100_000 ==> flushed == flushed0)
  {
    batch, written, flushed := batch0 + [write], written0, flushed0;
    if |batch| >= COUNTER_BATCH {
      written := written + |batch|;
      ApplyInTwo(kv, flushed, batch);
      store.BatchPut(batch);
      flushed, batch := flushed + batch, [];
    }
  }

  method StreamDegreeCounters(store: KvStore, stream: seq<string>, prefix: string, space: string, isIn: bool)
      returns (edges: nat, written: nat)
    requires |stream| < TWO_63
    modifies store
    ensures var rs := Runs(GroupsOf(prefix, stream));
            && edges == |GroupsOf(prefix, stream)| && written == |rs|
            && (forall i :: 0 <= i < |rs| ==> IsI64(rs[i].count))
            && store.kv == Apply(old(store.kv), CounterWrites(space, isIn, rs))
  {
    hide Runs, GroupsOf, GroupOf, CounterWrites, CounterWrite, Open, Apply;
    edges, written := 0, 0;
    var batch: seq<(string, seq<Byte>)> := [];
    var cur: Option<Group> := None;
    var count: nat := 0;
    var i := 0;
    ghost var gs: seq<Group> := [];
    ghost var flushed: seq<(string, seq<Byte>)> := [];
    Beginning(store.kv, stream, prefix, space, isIn);
    while i < |stream|
      invariant 0 <= i <= |stream| && gs == GroupsOf(prefix, stream[..i]) && edges == |gs| <= i
      invariant Open(space, isIn, gs, flushed + batch, cur, count)
      invariant written == |flushed| && store.kv == Apply(old(store.kv), flushed) && |batch| < 100_000
    {
      GroupsOneMore(prefix, stream, i);
      var g := GroupOf(prefix, stream[i]);
      if g.Some? {
        edges := edges + 1;
        OneMoreGroup(space, isIn, gs, g.value, flushed + batch, cur, count);
        if cur == g {
          count := count + 1;
        } else {
          if cur.Some? {
            batch, written, flushed :=
              Emit(store, batch, CounterWrite(space, isIn, Run(cur.value, count)), written, old(store.kv), flushed);
          }
          cur, count := g, 1;
        }
        gs := gs + [g.value];
      }
      i := i + 1;
    }
    assert stream[..i] == stream;
    Finished(space, isIn, gs, flushed + batch, cur, count);
    ghost var ended := flushed + batch;
    if cur.Some? {
      var last := CounterWrite(space, isIn, Run(cur.value, count));
      batch := batch + [last];
      assert flushed + batch == ended + [last];
    }
    ApplyInTwo(old(store.kv), flushed, batch);
    if batch != [] {
      written := written + |batch|;
      store.BatchPut(batch);
    } else {
      assert flushed + batch == flushed;
    }
  }

  lemma Beginning(kv: Store, stream: seq<string>, prefix: string, space: string, isIn: bool)
    ensures GroupsOf(prefix, stream[..0]) == [] && Apply(kv, []) == kv
    ensures Open(space, isIn, [], [] + [], None, 0)
  {
  }

  /** `cur` and `count` are the last run, and `writes` the counters of those before it. */
  ghost predicate Open(space: string, isIn: bool, gs: seq<Group>, writes: seq<(string, seq<Byte>)>, cur: Option<Group>,
                       count: nat) {
    var rs := Runs(gs);
    && (forall i :: 0 <= i < |rs| ==> rs[i].count <= |gs|)
    && |gs| < TWO_63 && IsI64(count)
    && (rs == [] ==> cur == None && writes == [])
    && (rs != [] ==>
          cur.Some? && rs[|rs| - 1] == Run(cur.value, count) && writes == CounterWrites(space, isIn, rs[..|rs| - 1]))
  }

  lemma GroupsOneMore(prefix: string, stream: seq<string>, i: nat)
    requires i < |stream|
    ensures GroupsOf(prefix, stream[..i + 1]) ==
              GroupsOf(prefix, stream[..i]) + (match GroupOf(prefix, stream[i]) case None => [] case Some(g) => [g])
  {
    assert stream[..i + 1][..i] == stream[..i];
  }

  lemma RunsOneMore(gs: seq<Group>, g: Group)
    ensures var rs := Runs(gs);
            Runs(gs + [g]) == if rs != [] && rs[|rs| - 1].group == g
                              then rs[..|rs| - 1] + [Run(g, rs[|rs| - 1].count + 1)] else rs + [Run(g, 1)]
  {
    assert (gs + [g])[..|gs|] == gs;
  }

  /** What one more group does to the open run. */
  lemma OneMoreGroup(space: string, isIn: bool, gs: seq<Group>, g: Group, writes: seq<(string, seq<Byte>)>,
                     cur: Option<Group>, count: nat)
    requires Open(space, isIn, gs, writes, cur, count) && |gs| + 1 < TWO_63
    ensures if cur == Some(g) then Open(space, isIn, gs + [g], writes, cur, count + 1)
            else if cur.None? then Open(space, isIn, gs + [g], writes, Some(g), 1)
            else
              && IsI64(count)
              && Open(space, isIn, gs + [g], writes + [CounterWrite(space, isIn, Run(cur.value, count))], Some(g), 1)
  {
    var rs, rs' := Runs(gs), Runs(gs + [g]);
    RunsOneMore(gs, g);
    RunsAreShort(gs + [g]);
    hide Runs, CounterWrite;
    if cur == Some(g) {
      assert rs'[..|rs'| - 1] == rs[..|rs| - 1];
    } else if cur.None? {
      assert rs'[..0] == [];
    } else {
      assert rs'[..|rs'| - 1] == rs;
    }
  }

  lemma Finished(space: string, isIn: bool, gs: seq<Group>, writes: seq<(string, seq<Byte>)>, cur: Option<Group>,
                 count: nat)
    requires Open(space, isIn, gs, writes, cur, count)
    ensures IsI64(count) && forall i :: 0 <= i < |Runs(gs)| ==> IsI64(Runs(gs)[i].count)
    ensures CounterWrites(space, isIn, Runs(gs)) ==
              if cur.None? then writes else writes + [CounterWrite(space, isIn, Run(cur.value, count))]
  {
  }

  // ===== Keyspaces that hold an edge set =====

  datatype EdgeId = EdgeId(src: int, edgeType: string, dst: int, ranking: int)

  ghost predicate IsId(id: EdgeId) {
    IsI64(id.src) && IsI64(id.dst) && IsI64(id.ranking) && IsSegment(id.edgeType)
  }

  function GroupOfId(id: EdgeId, isIn: bool): Group { Group(id.edgeType, if isIn then id.dst else id.src) }

  function PrefixOf(space: string, isIn: bool): string { if isIn then InEdgePrefix(space) else EdgePrefix(space) }

  function TailOf(id: EdgeId, isIn: bool): string {
    if isIn then EdgeTail(id.dst, id.edgeType, id.src, id.ranking)
    else EdgeTail(id.src, id.edgeType, id.dst, id.ranking)
  }

  function KeyOf(space: string, isIn: bool, id: EdgeId): string { PrefixOf(space, isIn) + TailOf(id, isIn) }

  ghost predicate IsScan(kv: Store, prefix: string, stream: seq<string>) {
    StrictlySorted(stream) && forall k :: k in stream <==> k in kv && prefix <= k
  }

  /** A key in its place among sorted keys. */
  function InsertKey(keys: seq<string>, k: string): seq<string> {
    if keys == [] || Less(k, keys[0]) then [k] + keys else [keys[0]] + InsertKey(keys[1..], k)
  }

  lemma {:induction false} InsertKeySorted(keys: seq<string>, k: string)
    requires StrictlySorted(keys) && k !in keys
    ensures StrictlySorted(InsertKey(keys, k)) && |InsertKey(keys, k)| == |keys| + 1
    ensures forall x :: x in InsertKey(keys, k) <==> x == k || x in keys
  {
    if keys == [] {
    } else if Less(k, keys[0]) {
      var r := [k] + keys;
      forall i, j | 0 <= i < j < |r| ensures Less(r[i], r[j]) {
        if i == 0 && j > 1 { LessTransitive(k, keys[0], keys[j - 1]); }
      }
    } else {
      var head, rest := keys[0], keys[1..];
      var tail := InsertKey(rest, k);
      InsertKeySorted(rest, k);
      LessTotal(k, head);
      assert keys == [head] + rest;
      forall x | x in tail ensures Less(head, x) {
        if x != k {
          var i :| 0 <= i < |rest| && rest[i] == x;
          assert keys[i + 1] == x;
        }
      }
      SortedCons(head, tail);
    }
  }

  lemma SortedCons(head: string, tail: seq<string>)
    requires StrictlySorted(tail) && forall x :: x in tail ==> Less(head, x)
    ensures StrictlySorted([head] + tail)
  {
    var r := [head] + tail;
    forall i, j | 0 <= i < j < |r| ensures Less(r[i], r[j]) {
      assert r[j] == tail[j - 1] && r[j] in tail;
    }
  }

  /** The keys of a keyspace, in key order. */
  method ScanKeys(kv: Store, prefix: string) returns (stream: seq<string>)
    ensures IsScan(kv, prefix, stream) && |stream| <= |kv|
  {
    hide StrictlySorted, Less;
    stream := [];
    SortedNone();
    var rest := kv.Keys;
    while rest != {}
      invariant rest <= kv.Keys && StrictlySorted(stream) && |stream| + |rest| <= |kv.Keys|
      invariant forall k :: k in stream <==> k in kv && k !in rest && prefix <= k
      decreases |rest|
    {
      var k :| k in rest;
      if prefix <= k {
        InsertKeySorted(stream, k);
        stream := InsertKey(stream, k);
      }
      rest := rest - {k};
    }
    assert |kv.Keys| == |kv|;
  }

  lemma SortedNone()
    ensures StrictlySorted([])
  {
  }

  ghost predicate IsKeyIn(space: string, isIn: bool, ids: set<EdgeId>, k: string) {
    exists id :: id in ids && k == KeyOf(space, isIn, id)
  }

  /** The keyspace holds exactly the keys of `ids`. */
  ghost predicate HoldsIds(kv: Store, space: string, isIn: bool, ids: set<EdgeId>) {
    && (forall id :: id in ids ==> IsId(id) && KeyOf(space, isIn, id) in kv)
    && (forall k :: k in kv && PrefixOf(space, isIn) <= k ==> IsKeyIn(space, isIn, ids, k))
  }

  lemma TailSplits(id: EdgeId, isIn: bool)
    requires IsId(id)
    ensures Split(TailOf(id, isIn)) ==
              if isIn then [Decimal(id.dst), id.edgeType, Decimal(id.src), Decimal(id.ranking)]
              else [Decimal(id.src), id.edgeType, Decimal(id.dst), Decimal(id.ranking)]
  {
    var near, far := if isIn then id.dst else id.src, if isIn then id.src else id.dst;
    SplitSegment(Decimal(id.ranking));
    SplitHead(Decimal(far), Decimal(id.ranking));
    SplitHead(id.edgeType, Decimal(far) + ":" + Decimal(id.ranking));
    SplitHead(Decimal(near), id.edgeType + ":" + (Decimal(far) + ":" + Decimal(id.ranking)));
  }

  lemma KeyHasGroup(space: string, isIn: bool, id: EdgeId)
    requires IsId(id)
    ensures GroupOf(PrefixOf(space, isIn), KeyOf(space, isIn, id)) == Some(GroupOfId(id, isIn))
  {
    hide Split, ParseI64, Decimal, TailOf, PrefixOf, IsI64;
    TailSplits(id, isIn);
    ParseDecimal(id.src);
    ParseDecimal(id.dst);
    assert KeyOf(space, isIn, id)[|PrefixOf(space, isIn)|..] == TailOf(id, isIn);
  }

  ghost predicate IsNumbered(id: EdgeId) { IsI64(id.src) && IsI64(id.dst) && IsI64(id.ranking) }

  /** The loop counts an edge exactly when its type has no separator. */
  lemma CountedIffSegment(space: string, isIn: bool, id: EdgeId)
    requires IsNumbered(id)
    ensures GroupOf(PrefixOf(space, isIn),
                    KeyOf(space, isIn, id)) == if IsSegment(id.edgeType) then Some(GroupOfId(id, isIn)) else None
  {
    if IsSegment(id.edgeType) {
      KeyHasGroup(space, isIn, id);
    } else {
      var near, far := Decimal(if isIn then id.dst else id.src), Decimal(if isIn then id.src else id.dst);
      SplitBreaks(id.edgeType);
      SplitSegment(Decimal(id.ranking));
      SplitHead(far, Decimal(id.ranking));
      SplitPieces(id.edgeType, far + ":" + Decimal(id.ranking));
      SplitHead(near, id.edgeType + ":" + (far + ":" + Decimal(id.ranking)));
      hide Split, Decimal, PrefixOf;
      assert KeyOf(space, isIn, id)[|PrefixOf(space, isIn)|..] == TailOf(id, isIn);
    }
  }

  /** Keys determine edges. */
  lemma KeyOfInjective(space: string, isIn: bool, a: EdgeId, b: EdgeId)
    requires IsId(a) && IsId(b) && KeyOf(space, isIn, a) == KeyOf(space, isIn, b)
    ensures a == b
  {
    ConcatCancels(PrefixOf(space, isIn), TailOf(a, isIn), TailOf(b, isIn));
    TailSplits(a, isIn);
    TailSplits(b, isIn);
    var pa, pb := Split(TailOf(a, isIn)), Split(TailOf(b, isIn));
    assert pa[0] == pb[0] && pa[1] == pb[1] && pa[2] == pb[2] && pa[3] == pb[3];
    hide Split, Decimal, TailOf;
    DecimalInjective(a.ranking, b.ranking);
    if isIn {
      DecimalInjective(a.dst, b.dst);
      DecimalInjective(a.src, b.src);
    } else {
      DecimalInjective(a.src, b.src);
      DecimalInjective(a.dst, b.dst);
    }
  }

  // ===== Groups are contiguous =====

  function GroupPrefix(space: string, isIn: bool, g: Group): string {
    PrefixOf(space, isIn) + (Decimal(g.vid) + ":" + (g.edgeType + ":"))
  }

  /** A key starts with a group's prefix exactly when it is in the group. */
  lemma GroupHasPrefix(space: string, isIn: bool, g: Group, id: EdgeId)
    requires IsId(id) && IsI64(g.vid) && IsSegment(g.edgeType)
    ensures GroupPrefix(space, isIn, g) <= KeyOf(space, isIn, id) <==> GroupOfId(id, isIn) == g
  {
    var own := GroupOfId(id, isIn);
    var rest := Decimal(if isIn then id.src else id.dst) + ":" + Decimal(id.ranking);
    assert TailOf(id, isIn) == Decimal(own.vid) + ":" + (own.edgeType + ":" + rest);
    hide Decimal, TailOf, PrefixOf;
    var a, b := Decimal(g.vid) + ":" + (g.edgeType + ":"), Decimal(own.vid) + ":" + (own.edgeType + ":" + rest);
    if GroupPrefix(space, isIn, g) <= KeyOf(space, isIn, id) {
      PrefixCancels(PrefixOf(space, isIn), a, b);
      assert Decimal(g.vid) + ":" <= a;
      SegmentPrefix(Decimal(g.vid), Decimal(own.vid), own.edgeType + ":" + rest);
      DecimalInjective(g.vid, own.vid);
      PrefixCancels(Decimal(g.vid) + ":", g.edgeType + ":", own.edgeType + ":" + rest);
      SegmentPrefix(g.edgeType, own.edgeType, rest);
    }
    if own == g {
      assert own.edgeType + ":" + rest == (own.edgeType + ":") + rest;
      PrefixExtends(Decimal(g.vid) + ":", g.edgeType + ":", own.edgeType + ":" + rest);
      PrefixExtends(PrefixOf(space, isIn), a, b);
    }
  }

  /** `stream[i]` is the key of `list[i]`. */
  ghost predicate Names(space: string, isIn: bool, stream: seq<string>, list: seq<EdgeId>) {
    |list| == |stream| && forall i :: 0 <= i < |list| ==> IsId(list[i]) && stream[i] == KeyOf(space, isIn, list[i])
  }

  function GroupsOfIds(list: seq<EdgeId>, isIn: bool): (gs: seq<Group>)
    ensures |gs| == |list| && forall i :: 0 <= i < |list| ==> gs[i] == GroupOfId(list[i], isIn)
  {
    if list == [] then [] else GroupsOfIds(list[..|list| - 1], isIn) + [GroupOfId(list[|list| - 1], isIn)]
  }

  lemma {:induction false} StreamGroups(space: string, isIn: bool, stream: seq<string>, list: seq<EdgeId>)
    requires Names(space, isIn, stream, list)
    ensures GroupsOf(PrefixOf(space, isIn), stream) == GroupsOfIds(list, isIn)
  {
    if stream == [] {
    } else {
      var n := |stream| - 1;
      StreamGroups(space, isIn, stream[..n], list[..n]);
      KeyHasGroup(space, isIn, list[n]);
    }
  }

  /** In a sorted stream of edge keys, equal groups are adjacent. */
  lemma SortedIsGrouped(space: string, isIn: bool, stream: seq<string>, list: seq<EdgeId>)
    requires Names(space, isIn, stream, list) && StrictlySorted(stream)
    ensures Grouped(GroupsOfIds(list, isIn))
  {
    var gs := GroupsOfIds(list, isIn);
    hide KeyOf, GroupPrefix, Less;
    forall i, j, k | 0 <= i < j < k < |gs| && gs[i] == gs[k] ensures gs[j] == gs[i] {
      GroupHasPrefix(space, isIn, gs[i], list[i]);
      GroupHasPrefix(space, isIn, gs[i], list[j]);
      GroupHasPrefix(space, isIn, gs[i], list[k]);
      PrefixIsConvex(GroupPrefix(space, isIn, gs[i]), stream[i], stream[j], stream[k]);
    }
  }

  // ===== Exact counts =====

  ghost predicate NoRepeat(list: seq<EdgeId>) {
    forall i, j :: 0 <= i < j < |list| ==> list[i] != list[j]
  }

  ghost function InGroup(ids: set<EdgeId>, isIn: bool, g: Group): set<EdgeId> {
    set id | id in ids && GroupOfId(id, isIn) == g
  }

  ghost function IdSet(list: seq<EdgeId>): set<EdgeId> { set id | id in list }

  lemma IdSetGrows(list: seq<EdgeId>)
    requires NoRepeat(list) && list != []
    ensures var prior, id := list[..|list| - 1], list[|list| - 1];
            NoRepeat(prior) && id !in IdSet(prior) && IdSet(list) == IdSet(prior) + {id}
  {
    var prior, id := list[..|list| - 1], list[|list| - 1];
    assert list == prior + [id];
  }

  lemma GroupGrows(ids: set<EdgeId>, id: EdgeId, isIn: bool, g: Group)
    requires id !in ids
    ensures |InGroup(ids + {id}, isIn, g)| == |InGroup(ids, isIn, g)| + if GroupOfId(id, isIn) == g then 1 else 0
  {
    if GroupOfId(id, isIn) == g {
      assert InGroup(ids + {id}, isIn, g) == InGroup(ids, isIn, g) + {id};
    } else {
      assert InGroup(ids + {id}, isIn, g) == InGroup(ids, isIn, g);
    }
  }

  lemma {:induction false} CountIsCardinality(list: seq<EdgeId>, isIn: bool, g: Group)
    requires NoRepeat(list)
    ensures Count(GroupsOfIds(list, isIn), g) == |InGroup(IdSet(list), isIn, g)|
  {
    if list == [] {
      assert InGroup(IdSet(list), isIn, g) == {};
    } else {
      hide InGroup, IdSet, NoRepeat, GroupOfId;
      var prior, id := list[..|list| - 1], list[|list| - 1];
      IdSetGrows(list);
      CountIsCardinality(prior, isIn, g);
      GroupGrows(IdSet(prior), id, isIn, g);
      assert GroupsOfIds(list, isIn)[..|prior|] == GroupsOfIds(prior, isIn);
    }
  }

  lemma {:induction false} IdSetSize(list: seq<EdgeId>)
    requires NoRepeat(list)
    ensures |IdSet(list)| == |list|
  {
    if list == [] {
    } else {
      IdSetGrows(list);
      IdSetSize(list[..|list| - 1]);
    }
  }

  /** The edges behind a scan of the keyspace, in key order. */
  lemma {:induction false} NameKeys(space: string, isIn: bool, stream: seq<string>,
                                    ids: set<EdgeId>) returns (list: seq<EdgeId>)
    requires forall i :: 0 <= i < |stream| ==> IsKeyIn(space, isIn, ids, stream[i])
    requires forall id :: id in ids ==> IsId(id)
    ensures Names(space, isIn, stream, list) && forall i :: 0 <= i < |list| ==> list[i] in ids
    decreases |stream|
  {
    hide KeyOf, IsId;
    if stream == [] {
      list := [];
    } else {
      var n := |stream| - 1;
      list := NameKeys(space, isIn, stream[..n], ids);
      assert IsKeyIn(space, isIn, ids, stream[n]);
      var id :| id in ids && stream[n] == KeyOf(space, isIn, id);
      list := list + [id];
    }
  }

  lemma ScanNames(kv: Store, space: string, isIn: bool, ids: set<EdgeId>,
                  stream: seq<string>) returns (list: seq<EdgeId>)
    requires HoldsIds(kv, space, isIn, ids) && IsScan(kv, PrefixOf(space, isIn), stream)
    ensures Names(space, isIn, stream, list) && NoRepeat(list) && IdSet(list) == ids
  {
    list := NameKeys(space, isIn, stream, ids);
    forall i, j | 0 <= i < j < |list| ensures list[i] != list[j] {
      LessIrreflexive(stream[i]);
    }
    forall id | id in ids ensures id in list {
      assert KeyOf(space, isIn, id) in stream;
      var i :| 0 <= i < |stream| && stream[i] == KeyOf(space, isIn, id);
      KeyOfInjective(space, isIn, id, list[i]);
    }
  }

  /** The runs of a scan: one per non-empty group, as long as the group is large, and all edges in some run. */
  ghost predicate RunsOf(rs: seq<Run>, isIn: bool, ids: set<EdgeId>) {
    && (forall i, j :: 0 <= i < j < |rs| ==> rs[i].group != rs[j].group)
    && (forall i :: 0 <= i < |rs| ==>
          rs[i].count == |InGroup(ids, isIn, rs[i].group)| && Inhabited(ids, isIn, rs[i].group))
    && (forall id :: id in ids ==> HasRun(rs, GroupOfId(id, isIn)))
    && Total(rs) == |ids|
  }

  ghost predicate HasRun(rs: seq<Run>, g: Group) { exists i :: 0 <= i < |rs| && rs[i].group == g }

  ghost predicate Inhabited(ids: set<EdgeId>, isIn: bool, g: Group) {
    exists id :: id in ids && IsId(id) && GroupOfId(id, isIn) == g
  }

  lemma RunIsGroup(rs: seq<Run>, isIn: bool, list: seq<EdgeId>, i: nat)
    requires Tallies(rs, GroupsOfIds(list, isIn)) && NoRepeat(list) && forall k :: 0 <= k < |list| ==> IsId(list[k])
    requires i < |rs|
    ensures rs[i].count == |InGroup(IdSet(list), isIn, rs[i].group)| && Inhabited(IdSet(list), isIn, rs[i].group)
  {
    var gs := GroupsOfIds(list, isIn);
    hide InGroup, Count, NoRepeat, IsId, GroupOfId, Total;
    CountIsCardinality(list, isIn, rs[i].group);
    var k :| 0 <= k < |gs| && gs[k] == rs[i].group;
    assert list[k] in IdSet(list);
  }

  lemma EdgeHasRun(rs: seq<Run>, isIn: bool, list: seq<EdgeId>, id: EdgeId)
    requires Tallies(rs, GroupsOfIds(list, isIn)) && id in list
    ensures HasRun(rs, GroupOfId(id, isIn))
  {
    var gs := GroupsOfIds(list, isIn);
    hide Count, GroupOfId, Total;
    var k :| 0 <= k < |list| && list[k] == id;
    assert gs[k] in gs;
  }

  lemma TalliesAreRunsOf(rs: seq<Run>, isIn: bool, list: seq<EdgeId>)
    requires Tallies(rs, GroupsOfIds(list, isIn)) && NoRepeat(list) && forall i :: 0 <= i < |list| ==> IsId(list[i])
    ensures RunsOf(rs, isIn, IdSet(list))
  {
    IdSetSize(list);
    assert |GroupsOfIds(list, isIn)| == |list|;
    hide InGroup, Count, NoRepeat, IsId, GroupOfId, Inhabited, HasRun, GroupsOfIds, Total;
    forall i | 0 <= i < |rs|
      ensures rs[i].count == |InGroup(IdSet(list), isIn, rs[i].group)| && Inhabited(IdSet(list), isIn, rs[i].group)
    {
      RunIsGroup(rs, isIn, list, i);
    }
    forall id | id in IdSet(list) ensures HasRun(rs, GroupOfId(id, isIn)) {
      EdgeHasRun(rs, isIn, list, id);
    }
  }

  lemma ScanRuns(kv: Store, space: string, isIn: bool, ids: set<EdgeId>, stream: seq<string>)
    requires HoldsIds(kv, space, isIn, ids) && IsScan(kv, PrefixOf(space, isIn), stream)
    ensures RunsOf(Runs(GroupsOf(PrefixOf(space, isIn), stream)), isIn, ids)
    ensures |GroupsOf(PrefixOf(space, isIn), stream)| == |ids| == |stream|
  {
    hide Runs, GroupsOf, HoldsIds, IsScan, KeyOf, PrefixOf, Count, Tallies, RunsOf, NoRepeat, Grouped, IdSet, IsId;
    var list := ScanNames(kv, space, isIn, ids, stream);
    StreamGroups(space, isIn, stream, list);
    ScanIsSorted(kv, PrefixOf(space, isIn), stream);
    SortedIsGrouped(space, isIn, stream, list);
    RunsTally(GroupsOfIds(list, isIn));
    IdSetSize(list);
    TalliesAreRunsOf(Runs(GroupsOfIds(list, isIn)), isIn, list);
  }

  lemma ScanIsSorted(kv: Store, prefix: string, stream: seq<string>)
    requires IsScan(kv, prefix, stream)
    ensures StrictlySorted(stream)
  {
  }

  // ===== The store afterwards =====

  lemma CounterKeyInjective(space: string, isIn: bool, a: Group, b: Group)
    requires IsI64(a.vid) && IsI64(b.vid) && IsSegment(a.edgeType) && IsSegment(b.edgeType)
    requires CounterKey(space, isIn, a.edgeType, a.vid) == CounterKey(space, isIn, b.edgeType, b.vid)
    ensures a == b
  {
    ConcatCancels(CounterPrefix(space, isIn), a.edgeType + ":" + Decimal(a.vid), b.edgeType + ":" + Decimal(b.vid));
    SplitHead(a.edgeType, Decimal(a.vid));
    SplitHead(b.edgeType, Decimal(b.vid));
    SplitSegment(Decimal(a.vid));
    SplitSegment(Decimal(b.vid));
    var pa, pb := Split(a.edgeType + ":" + Decimal(a.vid)), Split(b.edgeType + ":" + Decimal(b.vid));
    assert pa[0] == pb[0] && pa[1] == pb[1];
    DecimalInjective(a.vid, b.vid);
  }

  /** The count stored for a group, if any. */
  function CounterAt(kv: Store, space: string, isIn: bool, g: Group): Option<int> {
    var k := CounterKey(space, isIn, g.edgeType, g.vid);
    if k in kv then DecodeCount(kv[k]) else None
  }

  ghost predicate Countable(rs: seq<Run>) {
    forall i :: 0 <= i < |rs| ==> IsI64(rs[i].count)
  }

  /** The counter of every edge's group holds the size of that group. */
  lemma CountersExact(kv: Store, space: string, isIn: bool, ids: set<EdgeId>, rs: seq<Run>, id: EdgeId)
    requires RunsOf(rs, isIn, ids) && Countable(rs) && id in ids
    ensures CounterAt(Apply(kv, CounterWrites(space, isIn, rs)), space, isIn, GroupOfId(id, isIn)) ==
              Some(|InGroup(ids, isIn, GroupOfId(id, isIn))|)
  {
    hide Apply, CounterKey, EncodeCount, DecodeCount, InGroup, CounterWrites, IsI64;
    var ws := CounterWrites(space, isIn, rs);
    assert HasRun(rs, GroupOfId(id, isIn));
    var i :| 0 <= i < |rs| && rs[i].group == GroupOfId(id, isIn);
    forall j | i < j < |ws| ensures ws[j].0 != ws[i].0 {
      if ws[j].0 == ws[i].0 { CounterKeyInjective(space, isIn, rs[i].group, rs[j].group); }
    }
    ApplyLookup(kv, ws, i);
    CountRoundTrip(rs[i].count);
  }

  /** A key is written only if it is the counter of a group with an edge. */
  lemma CountersTouchOnlyGroups(kv: Store, space: string, isIn: bool, ids: set<EdgeId>, rs: seq<Run>, k: string)
    requires RunsOf(rs, isIn, ids) && Countable(rs)
    requires forall id :: id in ids ==>
              k != CounterKey(space, isIn, GroupOfId(id, isIn).edgeType, GroupOfId(id, isIn).vid)
    ensures SameAt(kv, Apply(kv, CounterWrites(space, isIn, rs)), k)
  {
    hide Apply, CounterKey, EncodeCount, InGroup, CounterWrites, IsI64, IsId;
    var ws := CounterWrites(space, isIn, rs);
    forall j | 0 <= j < |ws| ensures ws[j].0 != k {
      assert Inhabited(ids, isIn, rs[j].group);
    }
    ApplyElsewhere(kv, ws, k);
  }

  // ===== Both directions, and again =====

  /** What one pass makes of the store. */
  ghost function Pass(kv: Store, space: string, isIn: bool, stream: seq<string>): Store
    requires |stream| < TWO_63
  {
    var rs := Runs(GroupsOf(PrefixOf(space, isIn), stream));
    PassIsCountable(PrefixOf(space, isIn), stream);
    Apply(kv, CounterWrites(space, isIn, rs))
  }

  lemma PassIsCountable(prefix: string, stream: seq<string>)
    requires |stream| < TWO_63
    ensures Countable(Runs(GroupsOf(prefix, stream)))
  {
    RunsAreShort(GroupsOf(prefix, stream));
    GroupsAreFew(prefix, stream);
  }

  lemma {:induction false} GroupsAreFew(prefix: string, stream: seq<string>)
    ensures |GroupsOf(prefix, stream)| <= |stream|
  {
    if stream != [] { GroupsAreFew(prefix, stream[..|stream| - 1]); }
  }

  /** The key is not a degree counter of the space. */
  ghost predicate NoCounter(space: string, k: string) {
    !(CounterPrefix(space, true) <= k) && !(CounterPrefix(space, false) <= k)
  }

  lemma PassWritesCounters(kv: Store, space: string, isIn: bool, stream: seq<string>, k: string)
    requires |stream| < TWO_63 && !(CounterPrefix(space, isIn) <= k)
    ensures SameAt(kv, Pass(kv, space, isIn, stream), k)
  {
    PassIsCountable(PrefixOf(space, isIn), stream);
    var rs := Runs(GroupsOf(PrefixOf(space, isIn), stream));
    hide Runs, GroupsOf, EncodeCount;
    ApplyElsewhere(kv, CounterWrites(space, isIn, rs), k);
  }

  lemma CounterPrefixesDiffer(space: string, isIn: bool, k: string)
    requires CounterPrefix(space, isIn) <= k
    ensures !(CounterPrefix(space, !isIn) <= k)
  {
    assert k[|space| + 1] == CounterPrefix(space, isIn)[|space| + 1];
  }

  /** Neither pass disturbs the keyspace the other scans. */
  lemma ScanSurvives(kv: Store, space: string, isIn: bool, stream: seq<string>, other: bool, scan: seq<string>)
    requires |stream| < TWO_63
    ensures IsScan(kv, PrefixOf(space, other), scan) <==>
              IsScan(Pass(kv, space, isIn, stream), PrefixOf(space, other), scan)
  {
    hide Pass, StrictlySorted, PrefixOf;
    var kv', prefix := Pass(kv, space, isIn, stream), PrefixOf(space, other);
    forall k ensures k in kv && prefix <= k <==> k in kv' && prefix <= k {
      if prefix <= k {
        EdgeKeysAreNoCounters(space, other, k);
        PassWritesCounters(kv, space, isIn, stream, k);
      }
    }
  }

  lemma EdgeKeysAreNoCounters(space: string, isIn: bool, k: string)
    requires PrefixOf(space, isIn) <= k
    ensures NoCounter(space, k)
  {
    assert k[|space| + 1] == PrefixOf(space, isIn)[|space| + 1];
    if isIn { assert k[|space| + 3] == PrefixOf(space, isIn)[|space| + 3]; }
    assert CounterPrefix(space, true)[|space| + 3] == 'd' && CounterPrefix(space, false)[|space| + 1] == 'o';
  }

  /** Every counter of the direction is the size of its group, for every group that has an edge. */
  ghost predicate CountsDegrees(kv: Store, space: string, isIn: bool, ids: set<EdgeId>) {
    forall id :: id in ids ==>
      CounterAt(kv, space, isIn, GroupOfId(id, isIn)) == Some(|InGroup(ids, isIn, GroupOfId(id, isIn))|)
  }

  lemma PassCounts(kv: Store, space: string, isIn: bool, ids: set<EdgeId>, stream: seq<string>)
    requires HoldsIds(kv, space, isIn, ids) && IsScan(kv, PrefixOf(space, isIn), stream) && |stream| < TWO_63
    ensures CountsDegrees(Pass(kv, space, isIn, stream), space, isIn, ids)
  {
    hide HoldsIds, IsScan, Runs, GroupsOf, RunsOf, Countable, CounterAt, InGroup, GroupOfId, CounterWrites, Apply;
    ScanRuns(kv, space, isIn, ids, stream);
    PassIsCountable(PrefixOf(space, isIn), stream);
    forall id | id in ids
      ensures CounterAt(Pass(kv, space, isIn, stream), space, isIn,
                        GroupOfId(id, isIn)) == Some(|InGroup(ids, isIn, GroupOfId(id, isIn))|)
    {
      CountersExact(kv, space, isIn, ids, Runs(GroupsOf(PrefixOf(space, isIn), stream)), id);
    }
  }

  lemma OtherPassKeepsCounts(kv: Store, space: string, isIn: bool, ids: set<EdgeId>, stream: seq<string>)
    requires |stream| < TWO_63 && CountsDegrees(kv, space, !isIn, ids)
    ensures CountsDegrees(Pass(kv, space, isIn, stream), space, !isIn, ids)
  {
    hide Pass, InGroup, DecodeCount;
    forall id | id in ids
      ensures var g := GroupOfId(id, !isIn);
              CounterAt(Pass(kv, space, isIn, stream), space, !isIn, g) == CounterAt(kv, space, !isIn, g)
    {
      var g := GroupOfId(id, !isIn);
      var k := CounterKey(space, !isIn, g.edgeType, g.vid);
      CounterPrefixesDiffer(space, !isIn, k);
      PassWritesCounters(kv, space, isIn, stream, k);
    }
  }

  /** The groups that have an edge. */
  ghost function GroupsIn(ids: set<EdgeId>, isIn: bool): set<Group> { set id | id in ids :: GroupOfId(id, isIn) }

  lemma {:induction false} DistinctRuns(rs: seq<Run>)
    requires forall i, j :: 0 <= i < j < |rs| ==> rs[i].group != rs[j].group
    ensures |(set r | r in rs :: r.group)| == |rs|
  {
    if rs == [] {
    } else {
      var prior, last := rs[..|rs| - 1], rs[|rs| - 1];
      DistinctRuns(prior);
      assert rs == prior + [last];
      assert (set r | r in rs :: r.group) == (set r | r in prior :: r.group) + {last.group};
    }
  }

  lemma RunsAreGroups(rs: seq<Run>, isIn: bool, ids: set<EdgeId>)
    requires RunsOf(rs, isIn, ids)
    ensures |rs| == |GroupsIn(ids, isIn)|
  {
    hide InGroup, GroupOfId;
    DistinctRuns(rs);
    var gs := set r | r in rs :: r.group;
    forall g | g in gs ensures g in GroupsIn(ids, isIn) {
      var i :| 0 <= i < |rs| && rs[i].group == g;
      assert Inhabited(ids, isIn, rs[i].group);
    }
    forall g | g in GroupsIn(ids, isIn) ensures g in gs {
      assert HasRun(rs, g);
    }
    assert gs == GroupsIn(ids, isIn);
  }

  /** Each stream is a scan of one of the edge keyspaces. */
  ghost predicate Scanned(kv: Store, space: string, inStream: seq<string>, outStream: seq<string>) {
    && IsScan(kv, PrefixOf(space, true), inStream) && IsScan(kv, PrefixOf(space, false), outStream)
    && |inStream| < TWO_63 && |outStream| < TWO_63
  }

  /** Both edge keyspaces hold the edges. */
  ghost predicate HoldsBoth(kv: Store, space: string, ids: set<EdgeId>) {
    HoldsIds(kv, space, true, ids) && HoldsIds(kv, space, false, ids)
  }

  /** The whole backfill, in-edges first. The second scan sees the store after the first pass. */
  method BackfillDegreeCounters(store: KvStore, space: string, inStream: seq<string>, outStream: seq<string>,
                                ghost ids: set<EdgeId>)
      returns (edges: nat, written: nat)
    requires Scanned(store.kv, space, inStream, outStream)
    modifies store
    ensures store.kv == Pass(Pass(old(store.kv), space, true, inStream), space, false, outStream)
    ensures forall k :: NoCounter(space, k) ==> SameAt(old(store.kv), store.kv, k)
    ensures HoldsBoth(old(store.kv), space, ids) ==>
              && edges == |ids| && written == |GroupsIn(ids, true)| + |GroupsIn(ids, false)|
              && CountsDegrees(store.kv, space, true, ids) && CountsDegrees(store.kv, space, false, ids)
  {
    hide HoldsIds, IsScan, Runs, GroupsOf, RunsOf, CountsDegrees, CounterWrites, Apply, GroupsIn, InEdgePrefix,
      EdgePrefix, SameAt;
    ghost var kv0 := store.kv;
    var inWritten, outWritten, outEdges;
    edges, inWritten := StreamDegreeCounters(store, inStream, InEdgePrefix(space), space, true);
    ghost var kv1 := store.kv;
    assert kv1 == Pass(kv0, space, true, inStream);
    outEdges, outWritten := StreamDegreeCounters(store, outStream, EdgePrefix(space), space, false);
    assert store.kv == Pass(kv1, space, false, outStream);
    written := inWritten + outWritten;
    NoCounterIsTouched(kv0, space, inStream, outStream);
    if HoldsBoth(kv0, space, ids) { BackfillCounts(kv0, space, inStream, outStream, ids); }
  }

  lemma BackfillCounts(kv: Store, space: string, inStream: seq<string>, outStream: seq<string>, ids: set<EdgeId>)
    requires Scanned(kv, space, inStream, outStream) && HoldsBoth(kv, space, ids)
    ensures var done := Pass(Pass(kv, space, true, inStream), space, false, outStream);
            CountsDegrees(done, space, true, ids) && CountsDegrees(done, space, false, ids)
    ensures |GroupsOf(PrefixOf(space, true), inStream)| == |ids|
    ensures |Runs(GroupsOf(PrefixOf(space, true), inStream))| == |GroupsIn(ids, true)|
    ensures |Runs(GroupsOf(PrefixOf(space, false), outStream))| == |GroupsIn(ids, false)|
  {
    hide HoldsIds, IsScan, Runs, GroupsOf, RunsOf, CountsDegrees, GroupsIn, Pass, PrefixOf;
    ScanRuns(kv, space, true, ids, inStream);
    RunsAreGroups(Runs(GroupsOf(PrefixOf(space, true), inStream)), true, ids);
    PassCounts(kv, space, true, ids, inStream);
    var kv1 := Pass(kv, space, true, inStream);
    PassKeepsScanned(kv, space, true, inStream, ids, inStream, outStream);
    ScanRuns(kv1, space, false, ids, outStream);
    RunsAreGroups(Runs(GroupsOf(PrefixOf(space, false), outStream)), false, ids);
    PassCounts(kv1, space, false, ids, outStream);
    OtherPassKeepsCounts(kv1, space, false, ids, outStream);
  }

  lemma NoCounterIsTouched(kv: Store, space: string, inStream: seq<string>, outStream: seq<string>)
    requires |inStream| < TWO_63 && |outStream| < TWO_63
    ensures forall k :: NoCounter(space, k) ==>
              SameAt(kv, Pass(Pass(kv, space, true, inStream), space, false, outStream), k)
  {
    hide Pass;
    forall k | NoCounter(space, k)
      ensures SameAt(kv, Pass(Pass(kv, space, true, inStream), space, false, outStream), k)
    {
      PassWritesCounters(kv, space, true, inStream, k);
      PassWritesCounters(Pass(kv, space, true, inStream), space, false, outStream, k);
    }
  }

  lemma PassKeepsScanned(kv: Store, space: string, isIn: bool, stream: seq<string>, ids: set<EdgeId>,
                         inStream: seq<string>, outStream: seq<string>)
    requires |stream| < TWO_63 && Scanned(kv, space, inStream, outStream) && HoldsBoth(kv, space, ids)
    ensures var kv' := Pass(kv, space, isIn, stream);
            Scanned(kv', space, inStream, outStream) && HoldsBoth(kv', space, ids)
  {
    ScanSurvives(kv, space, isIn, stream, true, inStream);
    ScanSurvives(kv, space, isIn, stream, false, outStream);
    SameScanSameEdges(kv, Pass(kv, space, isIn, stream), space, true, ids, inStream);
    SameScanSameEdges(kv, Pass(kv, space, isIn, stream), space, false, ids, outStream);
  }

  lemma SameScanSameEdges(kv: Store, kv': Store, space: string, isIn: bool, ids: set<EdgeId>, stream: seq<string>)
    requires HoldsIds(kv, space, isIn, ids) && IsScan(kv, PrefixOf(space, isIn), stream)
    requires IsScan(kv', PrefixOf(space, isIn), stream)
    ensures HoldsIds(kv', space, isIn, ids)
  {
    hide IsKeyIn, PrefixOf, TailOf, IsId;
    forall id | id in ids ensures KeyOf(space, isIn, id) in kv' {
      assert KeyOf(space, isIn, id) in stream;
    }
    forall k | k in kv' && PrefixOf(space, isIn) <= k ensures IsKeyIn(space, isIn, ids, k) {
      assert k in stream;
    }
  }

  // ----- Safe to re-run -----

  lemma {:induction false} ApplyAgain(kv: Store, writes: seq<(string, seq<Byte>)>)
    requires forall i :: 0 <= i < |writes| ==> writes[i].0 in kv && kv[writes[i].0] == writes[i].1
    ensures Apply(kv, writes) == kv
  {
    if writes == [] {
    } else {
      ApplyAgain(kv, writes[..|writes| - 1]);
      assert writes[|writes| - 1].0 in kv;
    }
  }

  /** A store in which a pass has nothing left to do. */
  ghost predicate Settled(kv: Store, space: string, isIn: bool, stream: seq<string>)
    requires |stream| < TWO_63
  {
    Pass(kv, space, isIn, stream) == kv
  }

  ghost predicate DistinctKeys(writes: seq<(string, seq<Byte>)>) {
    forall i, j :: 0 <= i < j < |writes| ==> writes[i].0 != writes[j].0
  }

  lemma CounterKeysDistinct(space: string, isIn: bool, ids: set<EdgeId>, rs: seq<Run>)
    requires RunsOf(rs, isIn, ids) && Countable(rs)
    ensures DistinctKeys(CounterWrites(space, isIn, rs))
  {
    hide CounterKey, EncodeCount, InGroup, IsI64;
    var ws := CounterWrites(space, isIn, rs);
    forall i, j | 0 <= i < j < |ws| ensures ws[i].0 != ws[j].0 {
      if ws[j].0 == ws[i].0 { CounterKeyInjective(space, isIn, rs[i].group, rs[j].group); }
    }
  }

  /** If another store agrees on the counters of the direction, the same pass changes nothing there. */
  lemma PassIsSettled(kv: Store, kv': Store, space: string, isIn: bool, ids: set<EdgeId>, stream: seq<string>)
    requires HoldsIds(kv, space, isIn, ids) && IsScan(kv, PrefixOf(space, isIn), stream) && |stream| < TWO_63
    requires forall k :: CounterPrefix(space, isIn) <= k ==> SameAt(Pass(kv, space, isIn, stream), kv', k)
    ensures Settled(kv', space, isIn, stream)
  {
    hide HoldsIds, IsScan, Runs, GroupsOf, RunsOf, Apply, EncodeCount, CounterWrites;
    ScanRuns(kv, space, isIn, ids, stream);
    PassIsCountable(PrefixOf(space, isIn), stream);
    var rs := Runs(GroupsOf(PrefixOf(space, isIn), stream));
    var ws := CounterWrites(space, isIn, rs);
    CounterKeysDistinct(space, isIn, ids, rs);
    forall i | 0 <= i < |ws| ensures ws[i].0 in kv' && kv'[ws[i].0] == ws[i].1 {
      ApplyLookup(kv, ws, i);
      assert ws[i] == CounterWrite(space, isIn, rs[i]);
      assert CounterPrefix(space, isIn) <= ws[i].0;
      assert SameAt(Pass(kv, space, isIn, stream), kv', ws[i].0);
    }
    ApplyAgain(kv', ws);
  }

  /** Backfilling a backfilled store changes nothing. */
  lemma BackfillAgain(kv: Store, space: string, ids: set<EdgeId>, inStream: seq<string>, outStream: seq<string>)
    requires Scanned(kv, space, inStream, outStream) && HoldsBoth(kv, space, ids)
    ensures var done := Pass(Pass(kv, space, true, inStream), space, false, outStream);
            && Scanned(done, space, inStream, outStream) && HoldsBoth(done, space, ids)
            && Pass(Pass(done, space, true, inStream), space, false, outStream) == done
  {
    hide Pass, HoldsIds, IsScan;
    var kv1 := Pass(kv, space, true, inStream);
    var done := Pass(kv1, space, false, outStream);
    PassKeepsScanned(kv, space, true, inStream, ids, inStream, outStream);
    PassKeepsScanned(kv1, space, false, outStream, ids, inStream, outStream);
    forall k | CounterPrefix(space, true) <= k ensures SameAt(kv1, done, k) {
      CounterPrefixesDiffer(space, true, k);
      PassWritesCounters(kv1, space, false, outStream, k);
    }
    PassIsSettled(kv, done, space, true, ids, inStream);
    PassIsSettled(kv1, done, space, false, ids, outStream);
  }
}
