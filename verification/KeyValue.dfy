/** The byte-keyed store, as the clients of its get, put and batch calls see it. */
module KeyValue {
  import opened Bytes

  type Store = map<string, seq<Byte>>

  class KvStore {
    var kv: Store

    constructor (kv: Store)
      ensures this.kv == kv
    {
      this.kv := kv;
    }

    /** One transaction: the pairs are inserted in order. */
    method BatchPut(batch: seq<(string, seq<Byte>)>)
      modifies this
      ensures kv == Apply(old(kv), batch)
    {
      var i := 0;
      assert batch[..0] == [];
      while i < |batch|
        invariant 0 <= i <= |batch|
        invariant kv == Apply(old(kv), batch[..i])
      {
        ApplyOneMore(old(kv), batch, i);
        kv := kv[batch[i].0 := batch[i].1];
        i := i + 1;
      }
      assert batch[..i] == batch;
    }
  }

  /** Writing pairs one by one. */
  function Apply(kv: Store, writes: seq<(string, seq<Byte>)>): Store {
    if writes == [] then kv
    else Apply(kv, writes[..|writes| - 1])[writes[|writes| - 1].0 := writes[|writes| - 1].1]
  }

  lemma ApplyOneMore(kv: Store, writes: seq<(string, seq<Byte>)>, i: nat)
    requires i < |writes|
    ensures Apply(kv, writes[..i + 1]) == Apply(kv, writes[..i])[writes[i].0 := writes[i].1]
  {
    assert writes[..i + 1][..i] == writes[..i];
  }

  lemma {:induction false} ApplyInTwo(kv: Store, a: seq<(string, seq<Byte>)>, b: seq<(string, seq<Byte>)>)
    ensures Apply(kv, a + b) == Apply(Apply(kv, a), b)
  {
    if b == [] {
      assert a + b == a;
    } else {
      ApplyInTwo(kv, a, b[..|b| - 1]);
      assert (a + b)[..|a + b| - 1] == a + b[..|b| - 1];
    }
  }

  ghost predicate SameAt(a: Store, b: Store, k: string) { (k in a <==> k in b) && (k in a ==> a[k] == b[k]) }

  /** A pair that no later pair overwrites is what the store holds. */
  lemma {:induction false} ApplyLookup(kv: Store, writes: seq<(string, seq<Byte>)>, i: nat)
    requires i < |writes| && forall j :: i < j < |writes| ==> writes[j].0 != writes[i].0
    ensures writes[i].0 in Apply(kv, writes) && Apply(kv, writes)[writes[i].0] == writes[i].1
  {
    if i < |writes| - 1 { ApplyLookup(kv, writes[..|writes| - 1], i); }
  }

  lemma {:induction false} ApplyElsewhere(kv: Store, writes: seq<(string, seq<Byte>)>, k: string)
    requires forall j :: 0 <= j < |writes| ==> writes[j].0 != k
    ensures (k in Apply(kv, writes) <==> k in kv) && (k in kv ==> Apply(kv, writes)[k] == kv[k])
  {
    if writes != [] { ApplyElsewhere(kv, writes[..|writes| - 1], k); }
  }
}
