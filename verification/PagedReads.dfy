/** Complete-or-error paged reads: the client loops over cursors, one partition at a time. */
module PagedReads {
  import opened Prelude
  import opened Bytes

  type Cursor = seq<Byte>

  datatype Reply<E> = Fail | Page(entries: seq<E>, nextCursor: Cursor, hasMore: bool)

  /** What the server of a partition answers to request number `i`. */
  type Server<!E> = (nat, Cursor, nat) -> Reply<E>

  datatype QueryError =
    | Transport
    | InvalidResponse(message: string)
    | ScanBudgetExceeded(partId: nat, cap: nat)

  const PAGE: nat := 1024

  function LookupPageLimit(cap: nat, alreadyRead: nat): (limit: nat)
    ensures limit <= 1024 && (cap > 0 ==> limit <= cap)
    ensures cap == 0 || alreadyRead < cap ==> limit >= 1
    ensures cap > 0 && alreadyRead <= cap ==> alreadyRead + limit <= cap
    ensures limit < 1024 ==> cap > 0 && alreadyRead + limit >= cap
  {
    if cap == 0 then PAGE
    else
      var room := if alreadyRead <= cap then cap - alreadyRead else 0;
      if room < PAGE then room else PAGE
  }

  /** The page is consistent with its flags, and its cursor is one not seen before. */
  ghost predicate Acceptable(len: nat, requested: nat, hasMore: bool, cursor: Cursor, seen: set<Cursor>) {
    && len <= requested
    && (hasMore ==> len > 0 && cursor != [] && cursor !in seen)
    && (!hasMore ==> cursor == [])
  }

  method ValidateLookupPage(len: nat, requested: nat, hasMore: bool, cursor: Cursor, seen: set<Cursor>)
      returns (r: Option<QueryError>, seen': set<Cursor>)
    ensures r.None? <==> Acceptable(len, requested, hasMore, cursor, seen)
    ensures r.None? ==> seen' == if hasMore then seen + {cursor} else seen
    ensures r.Some? ==>
              r.value == InvalidResponse(if Acceptable(len, requested, hasMore, cursor, {})
                                         then "index pagination did not advance"
                                         else "invalid index pagination response")
  {
    seen' := seen;
    if len > requested || (hasMore && (len == 0 || cursor == [])) || (!hasMore && cursor != []) {
      return Some(InvalidResponse("invalid index pagination response")), seen';
    }
    if hasMore {
      if cursor in seen { return Some(InvalidResponse("index pagination did not advance")), seen'; }
      seen' := seen + {cursor};
    }
    return None, seen';
  }

  // ===== The run against any server =====

  /** Where the run stands before request `i`: the cursor it sends and how much it has read. */
  ghost function At<E>(server: Server<E>, cap: nat, i: nat): (Cursor, nat)
    decreases i, 0
  {
    if i == 0 then ([], 0)
    else
      match ReplyAt(server, cap, i - 1)
      case Fail => ([], 0)
      case Page(entries, next, more) => (next, At(server, cap, i - 1).1 + |entries|)
  }

  ghost function ReplyAt<E>(server: Server<E>, cap: nat, i: nat): Reply<E>
    decreases i, 1
  {
    var (cursor, read) := At(server, cap, i);
    server(i, cursor, LookupPageLimit(cap, read))
  }

  /** The entries of the first `n` replies. */
  ghost function Gathered<E>(server: Server<E>, cap: nat, n: nat): seq<E> {
    if n == 0 then []
    else
      Gathered(server, cap, n - 1) +
      (match ReplyAt(server, cap, n - 1) case Fail => [] case Page(entries, _, _) => entries)
  }

  /** The server does not promise more for ever: by request `n` it has failed or finished. */
  ghost predicate Stops<E>(server: Server<E>, cap: nat, n: nat) {
    exists i :: 0 <= i <= n && !More(ReplyAt(server, cap, i))
  }

  ghost predicate More<E>(r: Reply<E>) { r.Page? && r.hasMore }

  /** The request sizes are what the page limit leaves after the entries read so far, and each is for something. */
  ghost predicate Asked<E>(server: Server<E>, cap: nat, sizes: seq<nat>) {
    forall i :: 0 <= i < |sizes| ==>
      sizes[i] == LookupPageLimit(cap, At(server, cap, i).1) && 1 <= sizes[i] <= 1024
  }

  /** Each of the first `n` replies promised more. */
  ghost predicate MoreBefore<E>(server: Server<E>, cap: nat, n: int) {
    forall i :: 0 <= i < n ==> More(ReplyAt(server, cap, i))
  }

  ghost predicate AllIn<E>(entries: seq<E>, partOf: E -> nat, partId: nat) {
    forall i :: 0 <= i < |entries| ==> partOf(entries[i]) == partId
  }

  // ===== Honest servers =====

  /** The cursor of a position: nothing at the start, the mark of the position later. */
  ghost function CursorOf(mark: nat -> Cursor, p: nat): Cursor { if p == 0 then [] else mark(p) }

  ghost predicate Marks(mark: nat -> Cursor, n: nat) {
    && (forall p :: 0 < p < n ==> mark(p) != [])
    && (forall p, q :: 0 < p < q < n ==> mark(p) != mark(q))
  }

  /** A server that answers from a fixed list, in order, with pages of any admissible length. */
  ghost predicate Honest<E>(server: Server<E>, entries: seq<E>, mark: nat -> Cursor) {
    && Marks(mark, |entries|)
    && forall i: nat, p: nat, limit: nat :: p <= |entries| && (p == |entries| ==> p == 0) && 1 <= limit <= PAGE ==>
         HonestReply(server(i, CursorOf(mark, p), limit), entries, mark, p, limit)
  }

  ghost predicate HonestReply<E>(r: Reply<E>, entries: seq<E>, mark: nat -> Cursor, p: nat, limit: nat)
    requires p <= |entries|
  {
    && r.Page? && |r.entries| <= limit && p + |r.entries| <= |entries|
    && r.entries == entries[p..p + |r.entries|]
    && (r.hasMore <==> p + |r.entries| < |entries|)
    && (r.hasMore ==> |r.entries| > 0)
    && r.nextCursor == if r.hasMore then mark(p + |r.entries|) else []
  }

  /** The client has read the first entries, and its cursor and the cursors it has seen are marks up to there. */
  ghost predicate InStep<E>(entries: seq<E>, mark: nat -> Cursor, got: seq<E>, cursor: Cursor, seen: set<Cursor>) {
    && got <= entries && (got == entries ==> got == []) && cursor == CursorOf(mark, |got|)
    && forall c :: c in seen ==> exists p :: 0 < p <= |got| && c == mark(p)
  }

  // ===== Index lookup =====

  /** Reading one partition of an index. `patience` bounds an unlimited read; `sizes` records what was asked for. */
  method LookupPartition<E>(server: Server<E>, partOf: E -> nat, partId: nat, cap: nat, ghost patience: nat,
                            ghost entries: seq<E>, ghost mark: nat -> Cursor)
      returns (r: Result<seq<E>, QueryError>, ghost sizes: seq<nat>)
    requires cap == 0 ==> Stops(server, cap, patience)
    ensures r.Ok? ==> AllIn(r.value, partOf, partId) && (cap > 0 ==> |r.value| <= cap)
    ensures r.Ok? ==>
              |sizes| > 0 && r.value == Gathered(server, cap, |sizes|) && !More(ReplyAt(server, cap, |sizes| - 1))
    ensures Asked(server, cap, sizes) && |sizes| > 0 && MoreBefore(server, cap, |sizes| - 1)
    ensures cap > 0 ==> |sizes| <= cap
    ensures Honest(server, entries, mark) && AllIn(entries, partOf, partId) ==> r == Complete(entries, partId, cap)
  {
    hide AllIn, At, ReplyAt, Honest, HonestReply, InStep, Asked, MoreBefore, Stops, Gathered;
    ghost var honest := Honest(server, entries, mark) && AllIn(entries, partOf, partId);
    var cursor: Cursor, seen: set<Cursor>, vids: seq<E> := [], {}, [];
    var i := 0;
    sizes := [];
    NothingReadYet(server, cap, partOf, partId);
    GatheredOneMore(server, cap, 0);
    InStepAtFirst(entries, mark);
    while true
      invariant |sizes| == i && (cap > 0 ==> i <= |vids| < cap)
      invariant Asked(server, cap, sizes) && MoreBefore(server, cap, i)
      invariant At(server, cap, i) == (cursor, |vids|) && vids == Gathered(server, cap, i)
      invariant AllIn(vids, partOf, partId)
      invariant cap == 0 ==> i <= patience
      invariant honest ==> InStep(entries, mark, vids, cursor, seen)
      decreases if cap > 0 then cap - |vids| else patience - i
    {
      var limit := LookupPageLimit(cap, |vids|);
      AskOneMore(server, cap, sizes);
      sizes := sizes + [limit];
      var reply := server(i, cursor, limit);
      NextRequest(server, cap, i);
      GatheredOneMore(server, cap, i);
      if honest { HonestStep(server, entries, mark, vids, cursor, seen, i, limit, partOf, partId); }
      if reply.Fail? { return Err(Transport), sizes; }
      var e;
      e, seen := ValidateLookupPage(|reply.entries|, limit, reply.hasMore, reply.nextCursor, seen);
      if e.Some? { return Err(e.value), sizes; }
      var belong := BelongTo(reply.entries, partOf, partId);
      if !belong { return Err(InvalidResponse("index VID belongs to another partition")), sizes; }
      AllInConcat(vids, reply.entries, partOf, partId);
      vids := vids + reply.entries;
      if cap > 0 && (|vids| > cap || (|vids| == cap && reply.hasMore)) {
        return Err(ScanBudgetExceeded(partId, cap)), sizes;
      }
      if !reply.hasMore {
        assert honest ==> vids == entries;
        return Ok(vids), sizes;
      }
      OneMorePromised(server, cap, i, patience);
      cursor := reply.nextCursor;
      i := i + 1;
    }
  }

  /** Whether every entry of a page is of the partition. */
  method BelongTo<E>(entries: seq<E>, partOf: E -> nat, partId: nat) returns (ok: bool)
    ensures ok <==> AllIn(entries, partOf, partId)
  {
    for k := 0 to |entries|
      invariant AllIn(entries[..k], partOf, partId)
    {
      if partOf(entries[k]) != partId { return false; }
      AllInOneMore(entries, partOf, partId, k);
    }
    assert entries[..|entries|] == entries;
    return true;
  }

  lemma AskOneMore<E>(server: Server<E>, cap: nat, sizes: seq<nat>)
    requires Asked(server, cap, sizes) && (cap > 0 ==> At(server, cap, |sizes|).1 < cap)
    ensures Asked(server, cap, sizes + [LookupPageLimit(cap, At(server, cap, |sizes|).1)])
  {
    hide At, LookupPageLimit;
  }

  /** After one more promise, a read that is known to stop has patience left. */
  lemma OneMorePromised<E>(server: Server<E>, cap: nat, i: nat, patience: nat)
    requires MoreBefore(server, cap, i) && More(ReplyAt(server, cap, i)) && (cap == 0 ==> Stops(server, cap, patience))
    ensures MoreBefore(server, cap, i + 1) && (cap == 0 ==> i < patience)
  {
    hide ReplyAt, More;
  }

  lemma GatheredOneMore<E>(server: Server<E>, cap: nat, i: nat)
    ensures Gathered(server, cap, 0) == []
    ensures var r := ReplyAt(server, cap, i);
            r.Page? ==> Gathered(server, cap, i + 1) == Gathered(server, cap, i) + r.entries
  {
    hide ReplyAt;
  }

  /** All of the entries when the budget allows them, an error otherwise. */
  function Complete<E>(entries: seq<E>, partId: nat, cap: nat): Result<seq<E>, QueryError> {
    if cap == 0 || |entries| <= cap then Ok(entries) else Err(ScanBudgetExceeded(partId, cap))
  }

  lemma InStepAtFirst<E>(entries: seq<E>, mark: nat -> Cursor)
    ensures InStep(entries, mark, [], [], {})
  {
  }

  /** An honest page is accepted, and leaves the client in step or finished. */
  lemma HonestStep<E>(server: Server<E>, entries: seq<E>, mark: nat -> Cursor, got: seq<E>, cursor: Cursor,
                      seen: set<Cursor>,
                      i: nat, limit: nat, partOf: E -> nat, partId: nat)
    requires Honest(server, entries, mark) && AllIn(entries, partOf, partId)
    requires InStep(entries, mark, got, cursor, seen) && 1 <= limit <= PAGE
    ensures var r := server(i, cursor, limit);
            && r.Page? && Acceptable(|r.entries|, limit, r.hasMore, r.nextCursor, seen)
            && AllIn(r.entries, partOf, partId)
            && got + r.entries <= entries
            && (r.hasMore <==> |got + r.entries| < |entries|)
            && (r.hasMore ==> InStep(entries, mark, got + r.entries, r.nextCursor, seen + {r.nextCursor}))
  {
    var p, r := |got|, server(i, cursor, limit);
    assert HonestReply(r, entries, mark, p, limit);
    var got' := got + r.entries;
    assert got == entries[..p] && got' == entries[..p + |r.entries|];
    forall k | 0 <= k < |r.entries| ensures partOf(r.entries[k]) == partId {
      assert r.entries[k] == entries[p + k];
    }
    if r.hasMore { FreshMark(entries, mark, got, got', seen); }
  }

  lemma FreshMark<E>(entries: seq<E>, mark: nat -> Cursor, got: seq<E>, got': seq<E>, seen: set<Cursor>)
    requires Marks(mark, |entries|) && |got| < |got'| < |entries|
    requires forall c :: c in seen ==> exists p :: 0 < p <= |got| && c == mark(p)
    ensures mark(|got'|) != [] && mark(|got'|) !in seen
    ensures forall c :: c in seen + {mark(|got'|)} ==> exists p :: 0 < p <= |got'| && c == mark(p)
  {
  }

  lemma NothingReadYet<E>(server: Server<E>, cap: nat, partOf: E -> nat, partId: nat)
    ensures At(server, cap, 0) == ([], 0) && AllIn([], partOf, partId)
    ensures Asked(server, cap, []) && MoreBefore(server, cap, 0)
  {
  }

  lemma NextRequest<E>(server: Server<E>, cap: nat, i: nat)
    ensures var (cursor, read) := At(server, cap, i);
            ReplyAt(server, cap, i) == server(i, cursor, LookupPageLimit(cap, read))
    ensures var r := ReplyAt(server, cap, i); r.Page? ==>
              At(server, cap, i + 1) == (r.nextCursor, At(server, cap, i).1 + |r.entries|)
  {
  }

  lemma AllInOneMore<E>(entries: seq<E>, partOf: E -> nat, partId: nat, k: nat)
    requires k < |entries| && AllIn(entries[..k], partOf, partId) && partOf(entries[k]) == partId
    ensures AllIn(entries[..k + 1], partOf, partId)
  {
  }

  lemma AllInConcat<E>(a: seq<E>, b: seq<E>, partOf: E -> nat, partId: nat)
    requires AllIn(a, partOf, partId) && AllIn(b, partOf, partId)
    ensures AllIn(a + b, partOf, partId)
  {
  }

  // ----- Honest servers stop -----

  lemma {:induction false} HonestRun<E>(server: Server<E>, cap: nat, entries: seq<E>, mark: nat -> Cursor, i: nat)
    requires Honest(server, entries, mark) && cap == 0
    requires forall j :: 0 <= j < i ==> More(ReplyAt(server, cap, j))
    ensures var (cursor, read) := At(server, cap, i);
            i <= read <= |entries| && cursor == CursorOf(mark, read) && (read == |entries| ==> read == 0)
  {
    if i == 0 {
    } else {
      HonestRun(server, cap, entries, mark, i - 1);
      var (cursor, read) := At(server, cap, i - 1);
      assert More(ReplyAt(server, cap, i - 1));
      assert HonestReply(server(i - 1, cursor, LookupPageLimit(cap, read)), entries, mark, read,
                         LookupPageLimit(cap, read));
    }
  }

  /** An honest server needs at most one request per entry, and one more. */
  lemma HonestStops<E>(server: Server<E>, entries: seq<E>, mark: nat -> Cursor)
    requires Honest(server, entries, mark)
    ensures Stops(server, 0, |entries|)
  {
    hide Honest;
    if forall j :: 0 <= j <= |entries| ==> More(ReplyAt(server, 0, j)) {
      HonestRun(server, 0, entries, mark, |entries| + 1);
    }
  }

  // ===== Every partition =====

  function Flatten<E>(parts: seq<seq<E>>): seq<E> {
    if parts == [] then [] else Flatten(parts[..|parts| - 1]) + parts[|parts| - 1]
  }

  lemma FlattenOneMore<E>(parts: seq<seq<E>>, part: seq<E>)
    ensures Flatten(parts + [part]) == Flatten(parts) + part
  {
    assert (parts + [part])[..|parts|] == parts;
  }

  /** Partition `i + 1` is served from `lists[i]`, whose entries all belong to it. */
  ghost predicate AllHonest<E>(servers: nat -> Server<E>, partOf: E -> nat, lists: seq<seq<E>>,
                               marks: nat -> nat -> Cursor) {
    forall i :: 0 <= i < |lists| ==> Honest(servers(i + 1), lists[i], marks(i + 1)) && AllIn(lists[i], partOf, i + 1)
  }

  /** What an arbitrary set of servers can make of an Ok result. */
  ghost predicate WellPartitioned<E>(parts: seq<seq<E>>, partOf: E -> nat, cap: nat) {
    forall i :: 0 <= i < |parts| ==> AllIn(parts[i], partOf, i + 1) && (cap > 0 ==> |parts[i]| <= cap)
  }

  /** The whole index, or the first partition that is over budget. */
  ghost predicate CompleteAll<E>(lists: seq<seq<E>>, cap: nat, r: Result<seq<E>, QueryError>) {
    if cap == 0 || forall i :: 0 <= i < |lists| ==> |lists[i]| <= cap then r == Ok(Flatten(lists))
    else exists i: nat :: IsFirstOver(lists, cap, i) && r == Err(ScanBudgetExceeded(i + 1, cap))
  }

  ghost predicate IsFirstOver<E>(lists: seq<seq<E>>, cap: nat, i: nat) {
    i < |lists| && |lists[i]| > cap && forall j :: 0 <= j < i ==> |lists[j]| <= cap
  }

  /** All partitions are read, then the results joined in partition order; the first error wins. */
  method ExecuteLookup<E>(servers: nat -> Server<E>, n: nat, partOf: E -> nat, cap: nat,
                          ghost patience: nat, ghost lists: seq<seq<E>>, ghost marks: nat -> nat -> Cursor)
      returns (r: Result<seq<E>, QueryError>, ghost parts: seq<seq<E>>)
    requires |lists| == n && (cap == 0 ==> forall p :: 1 <= p <= n ==> Stops(servers(p), cap, patience))
    ensures r.Ok? ==> |parts| == n && WellPartitioned(parts, partOf, cap) && r.value == Flatten(parts)
    ensures AllHonest(servers, partOf, lists, marks) ==> CompleteAll(lists, cap, r)
  {
    hide Stops, AllIn, Honest, Asked, MoreBefore, Gathered, More, ReplyAt, LookupPageLimit, Flatten, WellPartitioned,
      CompleteAll, PartRead, Complete;
    ghost var honest := AllHonest(servers, partOf, lists, marks);
    var results: seq<Result<seq<E>, QueryError>> := [];
    for i := 0 to n
      invariant |results| == i
      invariant forall j :: 0 <= j < i ==> PartRead(results[j], partOf, j + 1, cap)
      invariant honest ==> forall j :: 0 <= j < i ==> results[j] == Complete(lists[j], j + 1, cap)
    {
      var result, _ := LookupPartition(servers(i + 1), partOf, i + 1, cap, patience, lists[i], marks(i + 1));
      PartIsRead(result, partOf, i + 1, cap);
      results := results + [result];
    }
    r, parts := Merge(results);
    if r.Ok? { PartsAreWell(results, parts, partOf, cap); }
    if honest { MergeIsComplete(results, lists, cap, r, parts); }
  }

  /** What an arbitrary server can make of an Ok result. */
  ghost predicate PartRead<E>(result: Result<seq<E>, QueryError>, partOf: E -> nat, partId: nat, cap: nat) {
    result.Ok? ==> AllIn(result.value, partOf, partId) && (cap > 0 ==> |result.value| <= cap)
  }

  lemma PartIsRead<E>(result: Result<seq<E>, QueryError>, partOf: E -> nat, partId: nat, cap: nat)
    requires result.Ok? ==> AllIn(result.value, partOf, partId) && (cap > 0 ==> |result.value| <= cap)
    ensures PartRead(result, partOf, partId, cap)
  {
  }

  /** The results joined, or the first error among them. */
  method Merge<E>(results: seq<Result<seq<E>, QueryError>>)
      returns (r: Result<seq<E>, QueryError>, ghost parts: seq<seq<E>>)
    ensures |parts| <= |results| && forall j :: 0 <= j < |parts| ==> results[j] == Ok(parts[j])
    ensures r.Ok? ==> |parts| == |results| && r.value == Flatten(parts)
    ensures r.Err? ==> |parts| < |results| && results[|parts|].Err? && r.error == results[|parts|].error
  {
    var vids: seq<E> := [];
    parts := [];
    for i := 0 to |results|
      invariant |parts| == i && vids == Flatten(parts)
      invariant forall j :: 0 <= j < i ==> results[j] == Ok(parts[j])
    {
      if results[i].Err? { return Err(results[i].error), parts; }
      FlattenOneMore(parts, results[i].value);
      vids := vids + results[i].value;
      parts := parts + [results[i].value];
    }
    return Ok(vids), parts;
  }

  lemma PartsAreWell<E>(results: seq<Result<seq<E>, QueryError>>, parts: seq<seq<E>>, partOf: E -> nat, cap: nat)
    requires |parts| == |results| && forall j :: 0 <= j < |parts| ==> results[j] == Ok(parts[j])
    requires forall j :: 0 <= j < |results| ==> PartRead(results[j], partOf, j + 1, cap)
    ensures WellPartitioned(parts, partOf, cap)
  {
    hide AllIn;
    forall i | 0 <= i < |parts| ensures AllIn(parts[i], partOf, i + 1) && (cap > 0 ==> |parts[i]| <= cap) {
      assert PartRead(results[i], partOf, i + 1, cap);
    }
  }

  /** Of complete parts the join is complete. */
  lemma MergeIsComplete<E>(results: seq<Result<seq<E>, QueryError>>, lists: seq<seq<E>>, cap: nat,
                           r: Result<seq<E>, QueryError>, parts: seq<seq<E>>)
    requires |results| == |lists| && forall j :: 0 <= j < |lists| ==> results[j] == Complete(lists[j], j + 1, cap)
    requires |parts| <= |results| && forall j :: 0 <= j < |parts| ==> results[j] == Ok(parts[j])
    requires r.Ok? ==> |parts| == |results| && r.value == Flatten(parts)
    requires r.Err? ==> |parts| < |results| && results[|parts|].Err? && r.error == results[|parts|].error
    ensures CompleteAll(lists, cap, r)
  {
    hide Flatten;
    if r.Ok? {
      assert forall j :: 0 <= j < |lists| ==> Complete(lists[j], j + 1, cap) == Ok(parts[j]);
      assert parts == lists;
    } else {
      assert results[|parts|] == Complete(lists[|parts|], |parts| + 1, cap);
      assert IsFirstOver(lists, cap, |parts|);
    }
  }

  // ===== Scan =====

  /** `limit` zero means no limit. */
  function First<E>(s: seq<E>, limit: nat): seq<E> { if limit == 0 || |s| <= limit then s else s[..limit] }

  lemma FirstExactly<E>(s: seq<E>, limit: nat)
    ensures First(s, limit) <= s
    ensures |First(s, limit)| == if 0 < limit < |s| then limit else |s|
  {
  }

  /** Scanning one partition; stops once the limit is reached. */
  method ScanPartition<E>(server: Server<E>, limit: nat, ghost patience: nat, ghost entries: seq<E>,
                          ghost mark: nat -> Cursor)
      returns (r: Result<seq<E>, QueryError>)
    requires limit == 0 ==> Stops(server, limit, patience)
    ensures r.Ok? && limit > 0 ==> |r.value| <= limit
    ensures Honest(server, entries, mark) ==> r == Ok(First(entries, limit))
  {
    hide At, ReplyAt, Honest, HonestReply, InStep;
    ghost var honest := Honest(server, entries, mark);
    var cursor: Cursor, seen: set<Cursor>, vertices: seq<E> := [], {}, [];
    var i := 0;
    NothingReadYet(server, limit, _ => 0, 0);
    InStepAtFirst(entries, mark);
    while true
      invariant limit > 0 ==> |vertices| < limit
      invariant At(server, limit, i) == (cursor, |vertices|)
      invariant forall j :: 0 <= j < i ==> More(ReplyAt(server, limit, j))
      invariant limit == 0 ==> i <= patience
      invariant honest ==> InStep(entries, mark, vertices, cursor, seen)
      decreases if limit > 0 then limit - |vertices| else patience - i
    {
      var room: nat := if limit == 0 then PAGE else limit - |vertices|;
      var pageLimit := if room < PAGE then room else PAGE;
      assert pageLimit == LookupPageLimit(limit, |vertices|);
      var reply := server(i, cursor, pageLimit);
      NextRequest(server, limit, i);
      if honest { HonestScanStep(server, entries, mark, vertices, cursor, seen, i, pageLimit); }
      if reply.Fail? { return Err(Transport); }
      var e;
      e, seen := ValidateLookupPage(|reply.entries|, pageLimit, reply.hasMore, reply.nextCursor, seen);
      if e.Some? { return Err(e.value); }
      vertices := vertices + reply.entries;
      if !reply.hasMore || (limit > 0 && |vertices| >= limit) {
        assert honest ==> vertices == First(entries, limit);
        return Ok(vertices);
      }
      cursor := reply.nextCursor;
      i := i + 1;
    }
  }

  lemma HonestScanStep<E>(server: Server<E>, entries: seq<E>, mark: nat -> Cursor, got: seq<E>, cursor: Cursor,
                          seen: set<Cursor>, i: nat, limit: nat)
    requires Honest(server, entries, mark)
    requires InStep(entries, mark, got, cursor, seen) && 1 <= limit <= PAGE
    ensures var r := server(i, cursor, limit);
            && r.Page? && Acceptable(|r.entries|, limit, r.hasMore, r.nextCursor, seen)
            && got + r.entries <= entries
            && (r.hasMore <==> |got + r.entries| < |entries|)
            && (r.hasMore ==> InStep(entries, mark, got + r.entries, r.nextCursor, seen + {r.nextCursor}))
  {
    hide Honest, InStep;
    HonestStep(server, entries, mark, got, cursor, seen, i, limit, _ => 0, 0);
  }

  function Firsts<E>(lists: seq<seq<E>>, limit: nat): seq<seq<E>> {
    seq(|lists|, i requires 0 <= i < |lists| => First(lists[i], limit))
  }

  /** Cutting every part first does not change where the whole is cut. */
  lemma {:induction false} FirstOfFirsts<E>(lists: seq<seq<E>>, limit: nat)
    ensures First(Flatten(Firsts(lists, limit)), limit) == First(Flatten(lists), limit)
    ensures |Flatten(Firsts(lists, limit))| <= |Flatten(lists)|
  {
    hide First, Flatten;
    if lists == [] {
      assert Firsts(lists, limit) == lists;
    } else {
      var prior, last := lists[..|lists| - 1], lists[|lists| - 1];
      FirstOfFirsts(prior, limit);
      assert lists == prior + [last];
      assert Firsts(lists, limit) == Firsts(prior, limit) + [First(last, limit)];
      FlattenOneMore(prior, last);
      FlattenOneMore(Firsts(prior, limit), First(last, limit));
      FirstOfSum(Flatten(Firsts(prior, limit)), Flatten(prior), last, limit);
    }
  }

  lemma FirstOfSum<E>(a: seq<E>, all: seq<E>, b: seq<E>, limit: nat)
    requires First(a, limit) == First(all, limit) && |a| <= |all|
    ensures First(a + First(b, limit), limit) == First(all + b, limit) && |a + First(b, limit)| <= |all + b|
  {
  }

  /** A scan with a limit is the beginning of the scan without one, however the servers cut their pages. */
  method ExecuteScan<E>(servers: nat -> Server<E>, n: nat, limit: nat, ghost patience: nat, ghost lists: seq<seq<E>>,
                        ghost marks: nat -> nat -> Cursor)
      returns (r: Result<seq<E>, QueryError>)
    requires |lists| == n && (limit == 0 ==> forall p :: 1 <= p <= n ==> Stops(servers(p), limit, patience))
    ensures r.Ok? && limit > 0 ==> |r.value| <= limit
    ensures (forall i :: 0 <= i < n ==> Honest(servers(i + 1), lists[i], marks(i + 1))) ==>
              r == Ok(First(Flatten(lists), limit))
  {
    hide Stops, Honest;
    ghost var honest := forall i :: 0 <= i < n ==> Honest(servers(i + 1), lists[i], marks(i + 1));
    var results: seq<Result<seq<E>, QueryError>> := [];
    for i := 0 to n
      invariant |results| == i
      invariant honest ==> forall j :: 0 <= j < i ==> results[j] == Ok(First(lists[j], limit))
    {
      var result := ScanPartition(servers(i + 1), limit, patience, lists[i], marks(i + 1));
      results := results + [result];
    }
    var vertices: seq<E> := [];
    ghost var parts := Firsts(lists, limit);
    for i := 0 to n
      invariant honest ==> vertices == Flatten(parts[..i])
    {
      if results[i].Err? { return Err(results[i].error); }
      FlattenOneMore(parts[..i], parts[i]);
      assert parts[..i] + [parts[i]] == parts[..i + 1];
      vertices := vertices + results[i].value;
    }
    assert parts[..n] == parts;
    FirstOfFirsts(lists, limit);
    if limit > 0 && |vertices| > limit { vertices := vertices[..limit]; }
    return Ok(vertices);
  }
}
