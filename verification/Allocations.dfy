/** Who owns which partition, and which partition owns which vertex. */
module Allocations {
  import opened Prelude

  datatype Host = Host(name: string, port: nat)

  datatype PartAllocation = PartAllocation(spaceId: nat, partId: nat, hosts: seq<Host>)

  datatype AllocError = InvalidConfig | NoPartitionHosts(partId: nat)

  const MAX_PORT: nat := 65535

  /** `blank` says which names are empty once trimmed. */
  predicate ValidHost(h: Host, blank: string -> bool) { !blank(h.name) && 0 < h.port <= MAX_PORT }

  predicate ValidAllocation(a: PartAllocation, spaceId: nat, blank: string -> bool) {
    a.spaceId == spaceId && a.hosts != [] && forall h :: h in a.hosts ==> ValidHost(h, blank)
  }

  /** The allocation is of the space and has hosts, each with a name and a 16-bit port other than zero. */
  ghost predicate IsServed(a: PartAllocation, spaceId: nat, blank: string -> bool) {
    && a.spaceId == spaceId && |a.hosts| > 0
    && forall i :: 0 <= i < |a.hosts| ==> !blank(a.hosts[i].name) && 1 <= a.hosts[i].port <= 65535
  }

  lemma ServedExactly(a: PartAllocation, spaceId: nat, blank: string -> bool)
    ensures ValidAllocation(a, spaceId, blank) <==> IsServed(a, spaceId, blank)
  {
    assert forall i :: 0 <= i < |a.hosts| ==> a.hosts[i] in a.hosts;
  }

  /** The allocations name every partition, and nothing more is wrong with any of them. */
  ghost predicate Covers(allocs: seq<PartAllocation>, spaceId: nat, n: nat, blank: string -> bool) {
    && spaceId > 0 && n > 0 && |allocs| == n
    && (forall a :: a in allocs ==> IsServed(a, spaceId, blank))
    && (forall p :: 1 <= p <= n ==> Names(allocs, p))
  }

  ghost predicate Names(allocs: seq<PartAllocation>, p: nat) { exists i :: 0 <= i < |allocs| && allocs[i].partId == p }

  // ===== Sorting by partition =====

  ghost predicate SortedByPart(s: seq<PartAllocation>) {
    forall i, j :: 0 <= i < j < |s| ==> s[i].partId <= s[j].partId
  }

  function Insert(s: seq<PartAllocation>, a: PartAllocation): (r: seq<PartAllocation>)
    ensures |r| == |s| + 1
  {
    if s == [] || s[|s| - 1].partId <= a.partId then s + [a] else Insert(s[..|s| - 1], a) + [s[|s| - 1]]
  }

  /** `sort_by_key` on the partition. */
  function SortByPart(s: seq<PartAllocation>): (r: seq<PartAllocation>)
    ensures |r| == |s|
  {
    if s == [] then [] else Insert(SortByPart(s[..|s| - 1]), s[|s| - 1])
  }

  lemma {:induction false} InsertMembers(s: seq<PartAllocation>, a: PartAllocation)
    ensures multiset(Insert(s, a)) == multiset(s) + multiset{a}
  {
    if s != [] && s[|s| - 1].partId > a.partId {
      InsertMembers(s[..|s| - 1], a);
      assert s == s[..|s| - 1] + [s[|s| - 1]];
    }
  }

  lemma {:induction false} InsertSorts(s: seq<PartAllocation>, a: PartAllocation)
    requires SortedByPart(s)
    ensures SortedByPart(Insert(s, a))
    ensures s != [] && a.partId <= s[|s| - 1].partId ==> Insert(s, a)[|s|].partId == s[|s| - 1].partId
  {
    if s != [] && s[|s| - 1].partId > a.partId {
      var prior, last := s[..|s| - 1], s[|s| - 1];
      InsertSorts(prior, a);
      var r := Insert(prior, a);
      assert r[|prior|].partId <= last.partId by { LastIsLargest(prior, a); }
    }
  }

  lemma LastIsLargest(s: seq<PartAllocation>, a: PartAllocation)
    ensures var r := Insert(s, a); r[|s|] == a || (s != [] && r[|s|] == s[|s| - 1])
  {
  }

  /** The allocations of one partition, in order. */
  ghost function OfPart(s: seq<PartAllocation>, p: nat): seq<PartAllocation> {
    if s == [] then []
    else OfPart(s[..|s| - 1], p) + (if s[|s| - 1].partId == p then [s[|s| - 1]] else [])
  }

  lemma {:induction false} InsertIsStable(s: seq<PartAllocation>, a: PartAllocation, p: nat)
    ensures OfPart(Insert(s, a), p) == OfPart(s, p) + if a.partId == p then [a] else []
  {
    var r := Insert(s, a);
    if s == [] || s[|s| - 1].partId <= a.partId {
      assert r[..|s|] == s;
    } else {
      var prior, last := s[..|s| - 1], s[|s| - 1];
      InsertIsStable(prior, a, p);
      assert r[..|s|] == Insert(prior, a) && r[|s|] == last;
    }
  }

  lemma OfPartOneMore(s: seq<PartAllocation>, a: PartAllocation, p: nat)
    ensures OfPart(s + [a], p) == OfPart(s, p) + if a.partId == p then [a] else []
  {
    assert (s + [a])[..|s|] == s;
  }

  /** What sorting promises: allocations of one partition keep their order. */
  ghost predicate IsSortOf(r: seq<PartAllocation>, s: seq<PartAllocation>) {
    SortedByPart(r) && multiset(r) == multiset(s) && forall p :: OfPart(r, p) == OfPart(s, p)
  }

  lemma InsertKeepsSort(r: seq<PartAllocation>, s: seq<PartAllocation>, a: PartAllocation)
    requires IsSortOf(r, s)
    ensures IsSortOf(Insert(r, a), s + [a])
  {
    hide Insert, SortedByPart, OfPart;
    InsertSorts(r, a);
    InsertMembers(r, a);
    forall p ensures OfPart(Insert(r, a), p) == OfPart(s + [a], p) {
      InsertIsStable(r, a, p);
      OfPartOneMore(s, a, p);
    }
  }

  lemma SortUnfolds(s: seq<PartAllocation>)
    ensures s == [] ==> IsSortOf(SortByPart(s), s)
    ensures s != [] ==> SortByPart(s) == Insert(SortByPart(s[..|s| - 1]), s[|s| - 1])
  {
  }

  lemma {:induction false} SortSorts(s: seq<PartAllocation>)
    ensures IsSortOf(SortByPart(s), s)
  {
    hide IsSortOf, SortByPart, Insert;
    SortUnfolds(s);
    if s == [] {
    } else {
      var prior, last := s[..|s| - 1], s[|s| - 1];
      SortSorts(prior);
      InsertKeepsSort(SortByPart(prior), prior, last);
      assert s == prior + [last];
    }
  }

  // ===== Validation =====

  /** Position `i` holds partition `i + 1`. */
  ghost predicate InPlace(s: seq<PartAllocation>) {
    forall i :: 0 <= i < |s| ==> s[i].partId == i + 1
  }

  /** The first allocation that is out of place or not served. */
  ghost predicate IsFirstFault(s: seq<PartAllocation>, spaceId: nat, blank: string -> bool, i: nat) {
    && i < |s| && !(s[i].partId == i + 1 && IsServed(s[i], spaceId, blank))
    && forall j :: 0 <= j < i ==> s[j].partId == j + 1 && IsServed(s[j], spaceId, blank)
  }

  /** An allocation in its place without hosts has an error of its own. */
  ghost function FaultOf(a: PartAllocation, spaceId: nat, i: nat): AllocError {
    if a.spaceId == spaceId && a.partId == i + 1 && a.hosts == [] then NoPartitionHosts(i + 1) else InvalidConfig
  }

  method ValidateAllocations(spaceId: nat, n: nat, allocs: seq<PartAllocation>, blank: string -> bool)
      returns (r: Result<seq<PartAllocation>, AllocError>)
    ensures r.Ok? <==> Covers(allocs, spaceId, n, blank)
    ensures r.Ok? ==> |r.value| == n && InPlace(r.value) && multiset(r.value) == multiset(allocs)
    ensures r.Err? ==>
              if spaceId == 0 || n == 0 || |allocs| != n then r.error == InvalidConfig
              else exists s, i :: IsSortOf(s, allocs) && IsFirstFault(s, spaceId, blank, i) &&
                                  r.error == FaultOf(s[i], spaceId, i)
  {
    hide SortByPart, IsServed, IsSortOf, Covers, ValidHost;
    NeedsCount(allocs, spaceId, n, blank);
    if spaceId == 0 || n == 0 || |allocs| != n { return Err(InvalidConfig); }
    var s := SortByPart(allocs);
    SortSorts(allocs);
    for i := 0 to |s|
      invariant forall j :: 0 <= j < i ==> s[j].partId == j + 1 && IsServed(s[j], spaceId, blank)
    {
      var a := s[i];
      ServedExactly(a, spaceId, blank);
      FaultMeansUncovered(s, allocs, spaceId, n, blank, i);
      if a.spaceId != spaceId || a.partId != i + 1 { return Err(InvalidConfig); }
      if a.hosts == [] { return Err(NoPartitionHosts(a.partId)); }
      if exists k :: 0 <= k < |a.hosts| && !ValidHost(a.hosts[k], blank) { return Err(InvalidConfig); }
    }
    InPlaceCovers(s, allocs, spaceId, n, blank);
    return Ok(s);
  }

  lemma NeedsCount(allocs: seq<PartAllocation>, spaceId: nat, n: nat, blank: string -> bool)
    ensures Covers(allocs, spaceId, n, blank) ==> spaceId > 0 && n > 0 && |allocs| == n
  {
  }

  lemma FaultMeansUncovered(s: seq<PartAllocation>, allocs: seq<PartAllocation>, spaceId: nat, n: nat,
                            blank: string -> bool, i: nat)
    requires IsSortOf(s, allocs) && |s| == n && i < n
    ensures !(s[i].partId == i + 1 && IsServed(s[i], spaceId, blank)) ==> !Covers(allocs, spaceId, n, blank)
  {
    hide IsServed, OfPart, Covers, SortedByPart;
    SameMembers(s, allocs);
    if Covers(allocs, spaceId, n, blank) { SortedCoverInPlace(s, allocs, spaceId, n, blank); }
  }

  lemma SameMembers(a: seq<PartAllocation>, b: seq<PartAllocation>)
    requires multiset(a) == multiset(b)
    ensures |a| == |b| && forall x :: x in a <==> x in b
  {
    assert forall x :: x in a <==> x in multiset(a);
    assert forall x :: x in b <==> x in multiset(b);
    assert |a| == |multiset(a)| && |b| == |multiset(b)|;
  }

  lemma InPlaceCovers(s: seq<PartAllocation>, allocs: seq<PartAllocation>, spaceId: nat, n: nat, blank: string -> bool)
    requires spaceId > 0 && n > 0 && |s| == |allocs| == n && InPlace(s) && IsSortOf(s, allocs)
    requires forall i :: 0 <= i < n ==> IsServed(s[i], spaceId, blank)
    ensures Covers(allocs, spaceId, n, blank) && multiset(s) == multiset(allocs)
  {
    hide IsServed, OfPart, SortedByPart;
    SameMembers(s, allocs);
    forall p | 1 <= p <= n ensures Names(allocs, p) {
      assert s[p - 1] in s && s[p - 1].partId == p;
      var i :| 0 <= i < n && allocs[i] == s[p - 1];
    }
  }

  function PartIds(s: seq<PartAllocation>): set<nat> { set a | a in s :: a.partId }

  function UpTo(n: nat): (r: set<nat>)
    ensures |r| == n && forall p: nat :: p in r <==> 1 <= p <= n
  {
    if n == 0 then {} else UpTo(n - 1) + {n}
  }

  lemma {:induction false} FewerIds(s: seq<PartAllocation>)
    ensures |PartIds(s)| <= |s|
    ensures (exists i, j :: 0 <= i < j < |s| && s[i].partId == s[j].partId) ==> |PartIds(s)| < |s|
  {
    if s == [] {
    } else {
      var prior, last := s[..|s| - 1], s[|s| - 1];
      FewerIds(prior);
      assert s == prior + [last];
      assert PartIds(s) == PartIds(prior) + {last.partId};
      if i, j :| 0 <= i < j < |s| && s[i].partId == s[j].partId {
        if j == |s| - 1 {
          assert prior[i] in prior && prior[i].partId == last.partId;
          assert PartIds(s) == PartIds(prior);
        } else {
          assert prior[i].partId == prior[j].partId;
        }
      }
    }
  }

  /** As many allocations as partitions, naming all of them, name each once: sorted, they are in place. */
  lemma SortedCoverInPlace(s: seq<PartAllocation>, allocs: seq<PartAllocation>, spaceId: nat, n: nat,
                           blank: string -> bool)
    requires Covers(allocs, spaceId, n, blank) && SortedByPart(s) && |s| == n && forall x :: x in s <==> x in allocs
    ensures InPlace(s) && forall i :: 0 <= i < n ==> IsServed(s[i], spaceId, blank)
  {
    hide IsServed;
    forall p | p in UpTo(n) ensures p in PartIds(s) {
      assert Names(allocs, p);
      var i :| 0 <= i < |allocs| && allocs[i].partId == p;
      assert allocs[i] in s;
    }
    FewerIds(s);
    SubsetSize(UpTo(n), PartIds(s));
    assert PartIds(s) == UpTo(n);
    forall i | 0 <= i < n ensures 1 <= s[i].partId <= n {
      assert s[i].partId in PartIds(s);
    }
    forall i | 0 <= i < n ensures s[i].partId == i + 1 {
      StrictSteps(s, 0, i);
      StrictSteps(s, i, n - 1);
    }
  }

  lemma SubsetSize(a: set<nat>, b: set<nat>)
    requires a <= b && |b| <= |a|
    ensures a == b
  {
    assert b == a + (b - a);
    assert |b| == |a| + |b - a|;
  }

  lemma {:induction false} StrictSteps(s: seq<PartAllocation>, i: nat, j: nat)
    requires i <= j < |s| && SortedByPart(s) && forall x, y :: 0 <= x < y < |s| ==> s[x].partId != s[y].partId
    ensures s[j].partId - s[i].partId >= j - i
    decreases j - i
  {
    if i < j {
      StrictSteps(s, i, j - 1);
      assert s[j - 1].partId <= s[j].partId && s[j - 1].partId != s[j].partId;
    }
  }

  // ===== Grouping vertices by partition =====

  function Members(vids: seq<int>, partOf: int -> nat, p: nat): seq<int> {
    if vids == [] then []
    else Members(vids[..|vids| - 1], partOf, p) + (if partOf(vids[|vids| - 1]) == p then [vids[|vids| - 1]] else [])
  }

  /** How many of the first `n` vids belong to partition `p`. */
  ghost function Before(vids: seq<int>, partOf: int -> nat, p: nat, n: nat): nat
    requires n <= |vids|
  {
    |set i | 0 <= i < n && partOf(vids[i]) == p|
  }

  lemma BeforeOneMore(vids: seq<int>, partOf: int -> nat, p: nat, n: nat)
    requires n < |vids|
    ensures Before(vids, partOf, p, n + 1) == Before(vids, partOf, p, n) + if partOf(vids[n]) == p then 1 else 0
  {
    var before := set i | 0 <= i < n && partOf(vids[i]) == p;
    var after := set i | 0 <= i < n + 1 && partOf(vids[i]) == p;
    assert after == if partOf(vids[n]) == p then before + {n} else before;
  }

  /** The members of a partition are its vids in the order given. */
  lemma {:induction false} MembersInOrder(vids: seq<int>, partOf: int -> nat, p: nat, n: nat, i: nat)
    requires i <= n <= |vids|
    ensures |Members(vids[..n], partOf, p)| == Before(vids, partOf, p, n)
    ensures i < n && partOf(vids[i]) == p ==>
              Before(vids, partOf, p, i) < Before(vids, partOf, p, n) &&
                Members(vids[..n], partOf, p)[Before(vids, partOf, p, i)] == vids[i]
    decreases n
  {
    if n > 0 {
      hide Before;
      BeforeOneMore(vids, partOf, p, n - 1);
      assert vids[..n][..n - 1] == vids[..n - 1];
      MembersInOrder(vids, partOf, p, n - 1, if i < n then i else n - 1);
    }
  }

  ghost predicate GroupedRight(groups: map<nat, seq<int>>, vids: seq<int>, partOf: int -> nat) {
    && (forall p :: p in groups <==> Members(vids, partOf, p) != [])
    && (forall p :: p in groups ==> groups[p] == Members(vids, partOf, p))
  }

  method GroupVidsByPartition(vids: seq<int>, partOf: int -> nat) returns (groups: map<nat, seq<int>>)
    ensures GroupedRight(groups, vids, partOf)
  {
    groups := map[];
    for i := 0 to |vids|
      invariant GroupedRight(groups, vids[..i], partOf)
    {
      assert vids[..i + 1][..i] == vids[..i];
      var p := partOf(vids[i]);
      groups := groups[p := (if p in groups then groups[p] else []) + [vids[i]]];
    }
    assert vids[..|vids|] == vids;
  }

  lemma {:induction false} MembersCount(vids: seq<int>, partOf: int -> nat, p: nat, v: int)
    ensures multiset(Members(vids, partOf, p))[v] == if partOf(v) == p then multiset(vids)[v] else 0
  {
    if vids == [] {
    } else {
      MembersCount(vids[..|vids| - 1], partOf, p, v);
      assert vids == vids[..|vids| - 1] + [vids[|vids| - 1]];
    }
  }

  /**
   * Grouping conserves the vertices: each sits in the group of its partition as often as it was given, and in no other.
   */
  lemma GroupingConserves(groups: map<nat, seq<int>>, vids: seq<int>, partOf: int -> nat, v: int)
    requires GroupedRight(groups, vids, partOf)
    ensures forall p :: p in groups ==> multiset(groups[p])[v] == if p == partOf(v) then multiset(vids)[v] else 0
    ensures v in vids ==> partOf(v) in groups && v in groups[partOf(v)]
  {
    forall p | p in groups ensures multiset(groups[p])[v] == if p == partOf(v) then multiset(vids)[v] else 0 {
      MembersCount(vids, partOf, p, v);
    }
    MembersCount(vids, partOf, partOf(v), v);
    if v in vids {
      assert v in multiset(vids);
      assert v in multiset(Members(vids, partOf, partOf(v)));
    }
  }

  /** In its group each vertex stands behind those of its partition that were given before it, and no others. */
  lemma GroupingKeepsOrder(groups: map<nat, seq<int>>, vids: seq<int>, partOf: int -> nat, i: nat)
    requires GroupedRight(groups, vids, partOf) && i < |vids|
    ensures var p := partOf(vids[i]);
            && p in groups && |groups[p]| == Before(vids, partOf, p, |vids|)
            && Before(vids, partOf, p, i) < |groups[p]| && groups[p][Before(vids, partOf, p, i)] == vids[i]
  {
    hide Before, Members;
    MembersInOrder(vids, partOf, partOf(vids[i]), |vids|, i);
    assert vids[..|vids|] == vids;
  }

  /** Every group is sent to the host of its own partition. */
  lemma GroupsAreRouted(allocs: seq<PartAllocation>, groups: map<nat, seq<int>>, vids: seq<int>, partOf: int -> nat,
                        p: nat)
    requires InPlace(allocs) && GroupedRight(groups, vids, partOf) && p in groups
    requires forall v :: 1 <= partOf(v) <= |allocs|
    ensures 1 <= p <= |allocs| && allocs[p - 1].partId == p && forall v :: v in groups[p] ==> partOf(v) == p
  {
    var v := groups[p][0];
    forall w | w in groups[p] ensures partOf(w) == p {
      MembersCount(vids, partOf, p, w);
      assert w in multiset(groups[p]);
    }
    assert v in groups[p];
  }
}
