/** Python's `OrderedDict` with string keys, as a sequence of key/value pairs in
    insertion order. Assigning to a present key replaces its value where it
    stands; assigning to a new key appends it. */
module Ordered {
  import opened Seqs

  type ODict<V> = seq<(string, V)>

  function Keys<V>(d: ODict<V>): (ks: seq<string>)
    ensures |ks| == |d|
    ensures forall i :: 0 <= i < |d| ==> ks[i] == d[i].0
  {
    seq(|d|, i requires 0 <= i < |d| => d[i].0)
  }

  lemma KeysSnoc<V>(d: ODict<V>, kv: (string, V))
    ensures Keys(d + [kv]) == Keys(d) + [kv.0]
  {
  }

  lemma KeysLast<V>(d: ODict<V>)
    requires |d| > 0
    ensures Keys(d) == Keys(d[..|d| - 1]) + [d[|d| - 1].0]
  {
  }

  predicate HasKey<V>(d: ODict<V>, k: string)
  {
    k in Keys(d)
  }

  /** `d[k]`: the value stored under the first entry with key `k`. */
  function Get<V>(d: ODict<V>, k: string): V
    requires HasKey(d, k)
  {
    d[FirstIndex(Keys(d), k)].1
  }

  /** `d[k] = v`. */
  function Put<V>(d: ODict<V>, k: string, v: V): (r: ODict<V>)
    ensures Keys(r) == if HasKey(d, k) then Keys(d) else Keys(d) + [k]
    ensures !HasKey(d, k) ==> r == d + [(k, v)]
    ensures HasKey(r, k) && Get(r, k) == v
    ensures forall k' :: k' != k && HasKey(d, k') ==> Get(r, k') == Get(d, k')
  {
    if HasKey(d, k) then
      var i := FirstIndex(Keys(d), k);
      var r := d[i := (k, v)];
      assert Keys(r) == Keys(d);
      r
    else
      var r := d + [(k, v)];
      KeysSnoc(d, (k, v));
      assert forall k' :: HasKey(d, k') ==> FirstIndex(Keys(r), k') == FirstIndex(Keys(d), k') by {
        forall k' | HasKey(d, k') {
          FirstIndexPrefix(Keys(d), [k], k');
        }
      }
      r
  }

  /** Assigns each pair of `kvs` into `d`, first to last. */
  function PutAll<V>(d: ODict<V>, kvs: ODict<V>): ODict<V>
  {
    if |kvs| == 0 then d
    else
      var last := kvs[|kvs| - 1];
      Put(PutAll(d, kvs[..|kvs| - 1]), last.0, last.1)
  }

  lemma PutAllSnoc<V>(d: ODict<V>, kvs: ODict<V>, kv: (string, V))
    ensures PutAll(d, kvs + [kv]) == Put(PutAll(d, kvs), kv.0, kv.1)
  {
    assert (kvs + [kv])[..|kvs|] == kvs;
  }

  /** Filling an empty dictionary keeps each key once, where it was first assigned. */
  lemma {:induction false} PutAllKeys<V>(kvs: ODict<V>)
    ensures Keys(PutAll([], kvs)) == Dedup(Keys(kvs))
  {
    if |kvs| > 0 {
      var p, last := kvs[..|kvs| - 1], kvs[|kvs| - 1];
      PutAllKeys(p);
      var d := PutAll([], p);
      assert Keys(PutAll([], kvs)) == if last.0 in Keys(d) then Keys(d) else Keys(d) + [last.0] by {
        assert PutAll([], kvs) == Put(d, last.0, last.1);
      }
      KeysLast(kvs);
      DedupSnoc(Keys(p), last.0);
    }
  }

  /** With distinct keys, filling an empty dictionary reproduces the pairs in order. */
  lemma {:induction false} PutAllDistinct<V>(kvs: ODict<V>)
    requires NoDup(Keys(kvs))
    ensures PutAll([], kvs) == kvs
  {
    if |kvs| > 0 {
      var p := kvs[..|kvs| - 1];
      assert p + [kvs[|kvs| - 1]] == kvs;
      KeysSnoc(p, kvs[|kvs| - 1]);
      assert NoDup(Keys(p));
      PutAllDistinct(p);
      assert kvs[|kvs| - 1].0 !in Keys(p);
      assert p + [kvs[|kvs| - 1]] == kvs;
    }
  }

  /** A key keeps the value of its last assignment: a later assignment to the
      same key overwrites the earlier value in place. */
  lemma {:induction false} PutAllLastWins<V>(kvs: ODict<V>, i: nat)
    requires i < |kvs|
    requires forall j :: i < j < |kvs| ==> kvs[j].0 != kvs[i].0
    ensures HasKey(PutAll([], kvs), kvs[i].0) && Get(PutAll([], kvs), kvs[i].0) == kvs[i].1
  {
    var p, last := kvs[..|kvs| - 1], kvs[|kvs| - 1];
    assert PutAll([], kvs) == Put(PutAll([], p), last.0, last.1);
    if i < |kvs| - 1 {
      assert p[i] == kvs[i];
      PutAllLastWins(p, i);
    }
  }
}
