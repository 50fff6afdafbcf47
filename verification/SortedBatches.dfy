/** Batches in key order, and why writing one is writing its pairs one by one. */
module SortedBatches {
  import opened Prelude
  import opened Bytes
  import opened Text
  import opened KeyValue

  type Pair = (string, seq<Byte>)

  /** The pairs of one key, in order. */
  function OfKey(pairs: seq<Pair>, k: string): seq<Pair> {
    if pairs == [] then []
    else OfKey(pairs[..|pairs| - 1], k) + (if pairs[|pairs| - 1].0 == k then [pairs[|pairs| - 1]] else [])
  }

  ghost predicate SortedByKey(pairs: seq<Pair>) {
    forall i, j :: 0 <= i < j < |pairs| ==> !Less(pairs[j].0, pairs[i].0)
  }

  /** `sorted` is `pairs` in key order, pairs of equal keys keeping their order. */
  ghost predicate IsStableSort(sorted: seq<Pair>, pairs: seq<Pair>) {
    SortedByKey(sorted) && multiset(sorted) == multiset(pairs) && forall k :: OfKey(sorted, k) == OfKey(pairs, k)
  }

  /** Where a pair belongs: after every pair whose key is not greater. */
  function Place(sorted: seq<Pair>, pair: Pair): (i: nat)
    ensures i <= |sorted|
    ensures forall j :: i <= j < |sorted| ==> Less(pair.0, sorted[j].0)
    ensures i > 0 ==> !Less(pair.0, sorted[i - 1].0)
  {
    if sorted != [] && Less(pair.0, sorted[|sorted| - 1].0) then Place(sorted[..|sorted| - 1], pair) else |sorted|
  }

  function Placed(sorted: seq<Pair>, pair: Pair): seq<Pair> {
    var i := Place(sorted, pair);
    sorted[..i] + [pair] + sorted[i..]
  }

  /** `slice::sort_by` on the keys. */
  function StableSort(pairs: seq<Pair>): seq<Pair> {
    if pairs == [] then [] else Placed(StableSort(pairs[..|pairs| - 1]), pairs[|pairs| - 1])
  }

  lemma {:induction false} OfKeyConcat(a: seq<Pair>, b: seq<Pair>, k: string)
    ensures OfKey(a + b, k) == OfKey(a, k) + OfKey(b, k)
  {
    if b == [] {
      assert a + b == a;
    } else {
      OfKeyConcat(a, b[..|b| - 1], k);
      assert (a + b)[..|a + b| - 1] == a + b[..|b| - 1];
    }
  }

  lemma {:induction false} OfKeyAbsent(pairs: seq<Pair>, k: string)
    requires forall i :: 0 <= i < |pairs| ==> pairs[i].0 != k
    ensures OfKey(pairs, k) == []
  {
    if pairs != [] { OfKeyAbsent(pairs[..|pairs| - 1], k); }
  }

  lemma PlaceKeepsOrder(sorted: seq<Pair>, pair: Pair)
    requires SortedByKey(sorted)
    ensures var i := Place(sorted, pair); SortedByKey(sorted[..i] + [pair] + sorted[i..])
  {
    var i := Place(sorted, pair);
    var out := sorted[..i] + [pair] + sorted[i..];
    forall x, y | 0 <= x < y < |out| ensures !Less(out[y].0, out[x].0) {
      if y == i {
        if Less(pair.0, sorted[x].0) {
          NotLessThenLess(sorted[i - 1].0, sorted[x].0, pair.0);
        }
      } else if x == i {
        if Less(out[y].0, pair.0) {
          LessTransitive(pair.0, out[y].0, pair.0);
          LessIrreflexive(pair.0);
        }
      }
    }
  }

  /** `p < x` and `x` not above `y` gives `p < y`. */
  lemma NotLessThenLess(y: string, x: string, p: string)
    requires Less(p, x) && !Less(y, x)
    ensures Less(p, y)
  {
    LessTotal(y, x);
    if y != x { LessTransitive(p, x, y); }
  }

  lemma OfKeyOne(pair: Pair, k: string)
    ensures OfKey([pair], k) == if pair.0 == k then [pair] else []
  {
    assert [pair][..0] == [];
    assert OfKey([pair][..0], k) == [];
  }

  /** A pair may pass pairs of other keys. */
  lemma PassOthers(a: seq<Pair>, b: seq<Pair>, pair: Pair, k: string)
    requires forall i :: 0 <= i < |b| ==> b[i].0 != pair.0
    ensures OfKey(a + [pair] + b, k) == OfKey(a + b + [pair], k)
  {
    hide OfKey;
    OfKeyConcat(a + [pair], b, k);
    OfKeyConcat(a, [pair], k);
    OfKeyConcat(a, b, k);
    OfKeyConcat(a + b, [pair], k);
    OfKeyOne(pair, k);
    if k == pair.0 { OfKeyAbsent(b, k); }
    var one := OfKey([pair], k);
    assert OfKey(a, k) + one + OfKey(b, k) == OfKey(a, k) + OfKey(b, k) + one;
  }

  lemma PlaceKeepsKeys(sorted: seq<Pair>, pair: Pair, k: string)
    ensures var i := Place(sorted, pair);
            OfKey(sorted[..i] + [pair] + sorted[i..], k) == OfKey(sorted, k) + OfKey([pair], k)
  {
    hide OfKey;
    var i := Place(sorted, pair);
    LessIrreflexive(pair.0);
    assert sorted[..i] + sorted[i..] == sorted;
    PassOthers(sorted[..i], sorted[i..], pair, k);
    OfKeyConcat(sorted, [pair], k);
  }

  lemma PlacedIsStable(sorted: seq<Pair>, prior: seq<Pair>, pair: Pair)
    requires IsStableSort(sorted, prior)
    ensures IsStableSort(Placed(sorted, pair), prior + [pair])
  {
    hide OfKey, SortedByKey, Less, Place;
    PlaceKeepsOrder(sorted, pair);
    SameElements(sorted, Place(sorted, pair), pair);
    forall k ensures OfKey(Placed(sorted, pair), k) == OfKey(prior + [pair], k) {
      PlaceKeepsKeys(sorted, pair, k);
      OfKeyConcat(prior, [pair], k);
    }
  }

  lemma {:induction false} SortIsStable(pairs: seq<Pair>)
    ensures IsStableSort(StableSort(pairs), pairs)
  {
    if pairs == [] {
      assert StableSort(pairs) == [];
    } else {
      hide IsStableSort, Placed;
      SortIsStable(pairs[..|pairs| - 1]);
      PlacedIsStable(StableSort(pairs[..|pairs| - 1]), pairs[..|pairs| - 1], pairs[|pairs| - 1]);
      assert pairs[..|pairs| - 1] + [pairs[|pairs| - 1]] == pairs;
    }
  }

  lemma SameElements(sorted: seq<Pair>, i: nat, pair: Pair)
    requires i <= |sorted|
    ensures multiset(sorted[..i] + [pair] + sorted[i..]) == multiset(sorted) + multiset{pair}
  {
    assert sorted[..i] + sorted[i..] == sorted;
  }

  /** Writing pairs leaves at each key the last pair of that key. */
  lemma {:induction false} LastOfKey(kv: Store, pairs: seq<Pair>, k: string)
    ensures var own := OfKey(pairs, k);
            if own == [] then SameAt(kv, Apply(kv, pairs), k)
            else k in Apply(kv, pairs) && Apply(kv, pairs)[k] == own[|own| - 1].1
  {
    if pairs != [] { LastOfKey(kv, pairs[..|pairs| - 1], k); }
  }

  /** A batch in key order writes what the pairs write one by one. */
  lemma SortedBatchSameStore(kv: Store, sorted: seq<Pair>, pairs: seq<Pair>)
    requires IsStableSort(sorted, pairs)
    ensures Apply(kv, sorted) == Apply(kv, pairs)
  {
    hide Apply;
    forall k ensures SameAt(Apply(kv, sorted), Apply(kv, pairs), k) {
      LastOfKey(kv, sorted, k);
      LastOfKey(kv, pairs, k);
    }
    SameEverywhere(Apply(kv, sorted), Apply(kv, pairs));
  }

  lemma SameEverywhere(a: Store, b: Store)
    requires forall k :: SameAt(a, b, k)
    ensures a == b
  {
    forall k ensures k in a <==> k in b {
      assert SameAt(a, b, k);
    }
    forall k | k in a ensures k in b && a[k] == b[k] {
      assert SameAt(a, b, k);
    }
  }
}
