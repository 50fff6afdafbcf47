/** The storage side of a paged index read: keyset pagination over the sorted keys of an index. */
module KeysetServer {
  import opened Prelude
  import opened Text
  import opened PagedReads

  /** The first `probe` keys that are not below `start`. */
  function ScanRange(keys: seq<string>, start: string, probe: nat): seq<string> {
    if keys == [] || probe == 0 then []
    else if Less(keys[0], start) then ScanRange(keys[1..], start, probe)
    else [keys[0]] + ScanRange(keys[1..], start, probe - 1)
  }

  function Take<T>(s: seq<T>, n: nat): seq<T> { if |s| <= n then s else s[..n] }

  function Map<E>(keys: seq<string>, entryOf: string -> E): (es: seq<E>)
    ensures |es| == |keys| && forall i :: 0 <= i < |keys| ==> es[i] == entryOf(keys[i])
  {
    if keys == [] then [] else [entryOf(keys[0])] + Map(keys[1..], entryOf)
  }

  /** One page after the key in the cursor; one key more than the page is probed for. */
  function ServePage<E>(keys: seq<string>, entryOf: string -> E, encode: string -> Cursor,
                        decode: Cursor -> Option<string>,
                        cursor: Cursor, limit: nat): Reply<E>
  {
    var last := decode(cursor);
    if cursor != [] && last.None? then Fail
    else
      var start := if cursor == [] then "" else last.value + "\0";
      var size := if limit == 0 then PAGE else limit;
      var found := ScanRange(keys, start, size + 1);
      var page := Take(found, size);
      var more := |found| > size;
      Page(Map(page, entryOf), if more then encode(page[|page| - 1]) else [], more)
  }

  /** An index page without a limit has 1024 entries. */
  lemma DefaultPage<E>(keys: seq<string>, entryOf: string -> E, encode: string -> Cursor,
                       decode: Cursor -> Option<string>, cursor: Cursor)
    ensures ServePage(keys, entryOf, encode, decode, cursor, 0) ==
              ServePage(keys, entryOf, encode, decode, cursor, 1024)
  {
  }

  /** Appending a zero excludes exactly the key itself and what lies below it. */
  lemma {:induction false} ZeroIsSuccessor(last: string, k: string)
    ensures Less(k, last + "\0") <==> !Less(last, k)
  {
    if last != [] && k != [] {
      assert (last + "\0")[1..] == last[1..] + "\0";
      ZeroIsSuccessor(last[1..], k[1..]);
    }
  }

  lemma {:induction false} RangeFrom(keys: seq<string>, start: string, probe: nat, p: nat)
    requires p <= |keys| && (forall i :: 0 <= i < p ==> Less(keys[i], start))
    requires (forall i :: p <= i < |keys| ==> !Less(keys[i], start))
    ensures ScanRange(keys, start, probe) == Take(keys[p..], probe)
  {
    if keys != [] && probe > 0 {
      if p > 0 {
        RangeFrom(keys[1..], start, probe, p - 1);
        assert keys[1..][p - 1..] == keys[p..];
      } else {
        RangeFrom(keys[1..], start, probe - 1, 0);
        assert keys[1..][0..] == keys[1..] && keys[0..] == keys;
      }
    }
  }

  /** The range that starts after the `p`-th key is the rest of the list. */
  lemma RangeAfter(keys: seq<string>, p: nat, probe: nat)
    requires StrictlySorted(keys) && p <= |keys|
    ensures ScanRange(keys, if p == 0 then "" else keys[p - 1] + "\0", probe) == Take(keys[p..], probe)
  {
    hide ScanRange;
    if p == 0 {
      RangeFrom(keys, "", probe, 0);
    } else {
      var start := keys[p - 1] + "\0";
      forall i | 0 <= i < |keys| ensures Less(keys[i], start) <==> i < p {
        ZeroIsSuccessor(keys[p - 1], keys[i]);
        LessIrreflexive(keys[i]);
        if i < p - 1 && Less(keys[p - 1], keys[i]) {
          LessTransitive(keys[i], keys[p - 1], keys[i]);
        }
      }
      RangeFrom(keys, start, probe, p);
    }
  }

  /** Cursors can be read back, and are never empty. */
  ghost predicate IsCodec(encode: string -> Cursor, decode: Cursor -> Option<string>) {
    forall k :: encode(k) != [] && decode(encode(k)) == Some(k)
  }

  ghost function MarkOf(keys: seq<string>, encode: string -> Cursor): nat -> Cursor {
    p => if 0 < p <= |keys| then encode(keys[p - 1]) else []
  }

  ghost function IndexServer<E>(keys: seq<string>, entryOf: string -> E, encode: string -> Cursor,
                                decode: Cursor -> Option<string>): Server<E> {
    (i: nat, cursor: Cursor, limit: nat) => ServePage(keys, entryOf, encode, decode, cursor, limit)
  }

  /** Keyset pagination is an honest server of its keys. */
  lemma KeysetIsHonest<E>(keys: seq<string>, entryOf: string -> E, encode: string -> Cursor,
                          decode: Cursor -> Option<string>)
    requires StrictlySorted(keys) && IsCodec(encode, decode)
    ensures Honest(IndexServer(keys, entryOf, encode, decode), Map(keys, entryOf), MarkOf(keys, encode))
  {
    hide Map, ServePage, Marks, HonestReply, MarkOf, CursorOf, StrictlySorted, IsCodec;
    var server := IndexServer(keys, entryOf, encode, decode);
    var entries, mark := Map(keys, entryOf), MarkOf(keys, encode);
    MarksAreDistinct(keys, encode, decode);
    forall i: nat, p: nat, limit: nat | p <= |entries| && (p == |entries| ==> p == 0) && 1 <= limit <= PAGE
      ensures HonestReply(server(i, CursorOf(mark, p), limit), entries, mark, p, limit)
    {
      PageIsHonest(keys, entryOf, encode, decode, p, limit);
    }
  }

  lemma MarksAreDistinct(keys: seq<string>, encode: string -> Cursor, decode: Cursor -> Option<string>)
    requires StrictlySorted(keys) && IsCodec(encode, decode)
    ensures Marks(MarkOf(keys, encode), |keys|)
  {
    var mark := MarkOf(keys, encode);
    forall p, q | 0 < p < q < |keys| ensures mark(p) != mark(q) {
      LessIrreflexive(keys[p - 1]);
      assert Less(keys[p - 1], keys[q - 1]);
      assert decode(encode(keys[p - 1])) == Some(keys[p - 1]) && decode(encode(keys[q - 1])) == Some(keys[q - 1]);
    }
  }

  lemma ReadBack(encode: string -> Cursor, decode: Cursor -> Option<string>, k: string)
    requires IsCodec(encode, decode)
    ensures encode(k) != [] && decode(encode(k)) == Some(k)
  {
  }

  lemma PageContents<E>(keys: seq<string>, entryOf: string -> E, encode: string -> Cursor,
                        decode: Cursor -> Option<string>, p: nat, limit: nat)
    requires StrictlySorted(keys) && IsCodec(encode, decode) && p <= |keys| && 1 <= limit <= PAGE
    ensures var end := if p + limit < |keys| then p + limit else |keys|;
            ServePage(keys, entryOf, encode, decode, CursorOf(MarkOf(keys, encode), p), limit) ==
              Page(Map(keys[p..end], entryOf), if end < |keys| then encode(keys[end - 1]) else [], end < |keys|)
  {
    hide ScanRange, StrictlySorted, Map, IsCodec, Less;
    RangeAfter(keys, p, limit + 1);
    if p > 0 { ReadBack(encode, decode, keys[p - 1]); }
    var end := if p + limit < |keys| then p + limit else |keys|;
    var page := Take(Take(keys[p..], limit + 1), limit);
    assert page == keys[p..end];
  }

  lemma MapSlice<E>(keys: seq<string>, entryOf: string -> E, p: nat, end: nat)
    requires p <= end <= |keys|
    ensures Map(keys[p..end], entryOf) == Map(keys, entryOf)[p..end]
  {
    hide Map;
  }

  lemma PageIsHonest<E>(keys: seq<string>, entryOf: string -> E, encode: string -> Cursor,
                        decode: Cursor -> Option<string>, p: nat, limit: nat)
    requires StrictlySorted(keys) && IsCodec(encode, decode) && p <= |keys| && (p == |keys| ==> p == 0)
    requires 1 <= limit <= PAGE
    ensures HonestReply(ServePage(keys, entryOf, encode, decode, CursorOf(MarkOf(keys, encode), p), limit),
                        Map(keys, entryOf), MarkOf(keys, encode), p, limit)
  {
    hide StrictlySorted, IsCodec, Map, ServePage, CursorOf;
    var end := if p + limit < |keys| then p + limit else |keys|;
    PageContents(keys, entryOf, encode, decode, p, limit);
    MapSlice(keys, entryOf, p, end);
  }

  // ===== The vertex scan =====

  /** The pages of a vertex scan are those of a keyset server over the kept keys. */
  lemma ScanIsKeyset<E>(keys: seq<string>, keep: string -> bool, entryOf: string -> E, encode: string -> Cursor,
                        decode: Cursor -> Option<string>)
    requires StrictlySorted(keys) && IsCodec(encode, decode)
    ensures Honest(IndexServer(Filter(keys, keep), entryOf, encode, decode), Map(Filter(keys, keep), entryOf),
                   MarkOf(Filter(keys, keep), encode))
  {
    hide Honest, StrictlySorted, IsCodec;
    FilterSorted(keys, keep);
    KeysetIsHonest(Filter(keys, keep), entryOf, encode, decode);
  }

  function Filter(keys: seq<string>, keep: string -> bool): seq<string> {
    if keys == [] then [] else (if keep(keys[0]) then [keys[0]] else []) + Filter(keys[1..], keep)
  }

  lemma {:induction false} FilterConcat(a: seq<string>, b: seq<string>, keep: string -> bool)
    ensures Filter(a + b, keep) == Filter(a, keep) + Filter(b, keep)
  {
    if a == [] {
      assert a + b == b;
    } else {
      assert (a + b)[1..] == a[1..] + b;
      FilterConcat(a[1..], b, keep);
    }
  }

  lemma {:induction false} FilterMembers(keys: seq<string>, keep: string -> bool)
    ensures forall k :: k in Filter(keys, keep) <==> k in keys && keep(k)
  {
    if keys != [] { FilterMembers(keys[1..], keep); }
  }

  lemma {:induction false} FilterSorted(keys: seq<string>, keep: string -> bool)
    requires StrictlySorted(keys)
    ensures StrictlySorted(Filter(keys, keep))
  {
    if keys == [] {
    } else {
      FilterSorted(keys[1..], keep);
      FilterMembers(keys[1..], keep);
      var rest := Filter(keys[1..], keep);
      forall j | 0 <= j < |rest| ensures Less(keys[0], rest[j]) {
        assert rest[j] in rest;
        var i :| 0 <= i < |keys[1..]| && keys[1..][i] == rest[j];
        assert keys[i + 1] == rest[j];
      }
    }
  }

  /** Keeping and starting later commute. */
  lemma {:induction false} FilterRange(keys: seq<string>, keep: string -> bool, start: string, p: nat)
    requires p <= |keys| && (forall i :: 0 <= i < p ==> Less(keys[i], start))
    requires (forall i :: p <= i < |keys| ==> !Less(keys[i], start))
    ensures forall probe: nat :: ScanRange(Filter(keys, keep), start, probe) == Take(Filter(keys[p..], keep), probe)
  {
    var low, high := Filter(keys[..p], keep), Filter(keys[p..], keep);
    FilterConcat(keys[..p], keys[p..], keep);
    assert keys[..p] + keys[p..] == keys;
    FilterMembers(keys[..p], keep);
    FilterMembers(keys[p..], keep);
    hide Less, Filter;
    var all := Filter(keys, keep);
    forall i | 0 <= i < |low| ensures Less(all[i], start) {
      assert all[i] == low[i] && low[i] in low;
    }
    forall i | |low| <= i < |all| ensures !Less(all[i], start) {
      assert all[i] == high[i - |low|] && high[i - |low|] in high;
    }
    forall probe: nat ensures ScanRange(all, start, probe) == Take(high, probe) {
      RangeFrom(all, start, probe, |low|);
      assert all[|low|..] == high;
    }
  }

  const CHUNK: nat := 256

  /** A request without a limit gets a page of a thousand. */
  function PageSize(limit: nat): (size: nat)
    ensures size > 0
  {
    if limit == 0 then 1000 else limit
  }

  ghost predicate StartsAt(keys: seq<string>, start: string, p: nat) {
    p <= |keys| && (forall i :: 0 <= i < p ==> Less(keys[i], start)) &&
      (forall i :: p <= i < |keys| ==> !Less(keys[i], start))
  }

  lemma StartsAfter(keys: seq<string>, p: nat)
    requires StrictlySorted(keys) && 0 < p <= |keys|
    ensures StartsAt(keys, keys[p - 1] + "\0", p)
  {
    forall i | 0 <= i < |keys| ensures Less(keys[i], keys[p - 1] + "\0") <==> i < p {
      ZeroIsSuccessor(keys[p - 1], keys[i]);
      LessIrreflexive(keys[i]);
      if i < p - 1 && Less(keys[p - 1], keys[i]) {
        LessTransitive(keys[i], keys[p - 1], keys[i]);
      }
    }
  }

  lemma {:induction false} StartsSomewhere(keys: seq<string>, start: string) returns (p: nat)
    requires StrictlySorted(keys)
    ensures StartsAt(keys, start, p)
  {
    p := 0;
    while p < |keys| && Less(keys[p], start)
      invariant p <= |keys| && forall i :: 0 <= i < p ==> Less(keys[i], start)
    {
      p := p + 1;
    }
    forall i | p <= i < |keys| ensures !Less(keys[i], start) {
      if i > p && Less(keys[i], start) { LessTransitive(keys[p], keys[i], start); }
    }
  }

  /** The page a vertex scan answers with: the kept keys from `start` on, read in chunks and cut after a page. */
  method ScanVertices(keys: seq<string>, keep: string -> bool, start0: string, limit: nat)
      returns (page: seq<string>, hasMore: bool)
    requires StrictlySorted(keys)
    ensures var size := if limit == 0 then 1000 else limit;
            var found := ScanRange(Filter(keys, keep), start0, size + 1);
            page == Take(found, size) && (hasMore <==> |found| > size)
  {
    var size := PageSize(limit);
    hide StrictlySorted, ScanRange, Less, StartsAt, Filter;
    var start := start0;
    page, hasMore := [], false;
    ghost var p := StartsSomewhere(keys, start0);
    ghost var p0 := p;
    ExpectedPage(keys, keep, start0, p0, size);
    while true
      invariant p0 <= p <= |keys| && StartsAt(keys, start, p)
      invariant page == Filter(keys[p0..p], keep) && |page| <= size && !hasMore
      decreases |keys| - p
    {
      var entries := ScanRange(keys, start, CHUNK);
      ChunkAt(keys, start, p);
      for j := 0 to |entries|
        invariant page == Filter(keys[p0..p + j], keep) && |page| <= size
        invariant if j == 0 then StartsAt(keys, start, p) else start == keys[p + j - 1] + "\0"
      {
        var key := entries[j];
        start := key + "\0";
        KeptOneMore(keys, keep, p0, p + j);
        if keep(key) {
          if |page| == size {
            CutHere(keys, keep, p0, p + j);
            PageIsCut(Filter(keys[p0..], keep), page, key);
            return page, true;
          }
          page := page + [key];
        }
      }
      if |entries| > 0 { StartsAfter(keys, p + |entries|); }
      p := p + |entries|;
      if |entries| < CHUNK {
        assert keys[p0..p] == keys[p0..];
        return page, false;
      }
    }
  }

  /**
   * The whole answer to a scan request.  It is that of the keyset server over the kept keys, so at every cursor that a
   * scan hands out it is an honest reply.
   */
  method ServeScan<E>(keys: seq<string>, keep: string -> bool, entryOf: string -> E, encode: string -> Cursor,
                      decode: Cursor -> Option<string>, cursor: Cursor, limit: nat) returns (r: Reply<E>)
    requires StrictlySorted(keys)
    ensures r == ServePage(Filter(keys, keep), entryOf, encode, decode, cursor, if limit == 0 then 1000 else limit)
    ensures IsCodec(encode, decode) && 1 <= limit <= PAGE ==>
              var kept := Filter(keys, keep);
              forall p: nat ::
                p <= |kept| && (p == |kept| ==> p == 0) && cursor == CursorOf(MarkOf(kept, encode), p) ==>
                  HonestReply(r, Map(kept, entryOf), MarkOf(kept, encode), p, limit)
  {
    hide StrictlySorted, Map, Filter, ScanRange, IsCodec, HonestReply, MarkOf, CursorOf;
    if cursor != [] && decode(cursor).None? {
      r := Fail;
    } else {
      var start := if cursor == [] then "" else decode(cursor).value + "\0";
      var page, hasMore := ScanVertices(keys, keep, start, limit);
      r := Page(Map(page, entryOf), if hasMore then encode(page[|page| - 1]) else [], hasMore);
    }
    if IsCodec(encode, decode) && 1 <= limit <= PAGE {
      ScanIsHonest(keys, keep, entryOf, encode, decode, cursor, limit);
    }
  }

  lemma ScanIsHonest<E>(keys: seq<string>, keep: string -> bool, entryOf: string -> E, encode: string -> Cursor,
                        decode: Cursor -> Option<string>, cursor: Cursor, limit: nat)
    requires StrictlySorted(keys) && IsCodec(encode, decode) && 1 <= limit <= PAGE
    ensures var kept := Filter(keys, keep);
            forall p: nat :: p <= |kept| && (p == |kept| ==> p == 0) && cursor == CursorOf(MarkOf(kept, encode), p) ==>
              HonestReply(ServePage(kept, entryOf, encode, decode, cursor, limit), Map(kept, entryOf),
                          MarkOf(kept, encode), p, limit)
  {
    hide ServePage, HonestReply, CursorOf, MarkOf, StrictlySorted, IsCodec, Map, Filter;
    var kept := Filter(keys, keep);
    FilterSorted(keys, keep);
    forall p: nat | p <= |kept| && (p == |kept| ==> p == 0) && cursor == CursorOf(MarkOf(kept, encode), p)
      ensures HonestReply(ServePage(kept, entryOf, encode, decode, cursor, limit), Map(kept, entryOf),
                          MarkOf(kept, encode), p, limit)
    {
      PageIsHonest(kept, entryOf, encode, decode, p, limit);
    }
  }

  lemma ExpectedPage(keys: seq<string>, keep: string -> bool, start: string, p: nat, limit: nat)
    requires StartsAt(keys, start, p)
    ensures ScanRange(Filter(keys, keep), start, limit + 1) == Take(Filter(keys[p..], keep), limit + 1)
    ensures Filter(keys[p..p], keep) == []
  {
    FilterRange(keys, keep, start, p);
  }

  lemma ChunkAt(keys: seq<string>, start: string, p: nat)
    requires StartsAt(keys, start, p)
    ensures ScanRange(keys, start, CHUNK) == Take(keys[p..], CHUNK)
  {
    RangeFrom(keys, start, CHUNK, p);
  }

  lemma KeptOneMore(keys: seq<string>, keep: string -> bool, p0: nat, q: nat)
    requires p0 <= q < |keys|
    ensures Filter(keys[p0..q + 1], keep) == Filter(keys[p0..q], keep) + if keep(keys[q]) then [keys[q]] else []
  {
    FilterConcat(keys[p0..q], [keys[q]], keep);
    assert keys[p0..q + 1] == keys[p0..q] + [keys[q]];
    assert Filter([keys[q]], keep) == if keep(keys[q]) then [keys[q]] else [];
  }

  lemma PageIsCut(kept: seq<string>, page: seq<string>, next: string)
    requires page + [next] <= kept
    ensures var found := Take(kept, |page| + 1); Take(found, |page|) == page && |found| > |page|
  {
    assert kept[..|page| + 1] == page + [next];
  }

  /** What is kept up to a point begins what is kept in all. */
  lemma CutHere(keys: seq<string>, keep: string -> bool, p0: nat, q: nat)
    requires p0 <= q < |keys|
    ensures Filter(keys[p0..q + 1], keep) <= Filter(keys[p0..], keep)
  {
    FilterConcat(keys[p0..q + 1], keys[q + 1..], keep);
    assert keys[p0..] == keys[p0..q + 1] + keys[q + 1..];
  }
}
