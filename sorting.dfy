/** Python's `sorted(xs, key=...)` on string keys, as a stable insertion sort. */
module Sorting {
  import opened Seqs
  import opened Strings

  /** Keys are in ascending order (Python's `<=` on strings). */
  predicate SortedBy<T>(s: seq<T>, key: T -> string)
  {
    forall i, j :: 0 <= i < j < |s| ==> StrLe(key(s[i]), key(s[j]))
  }

  /** Inserts `x` before the first element whose key is not smaller than its own,
      so that `x` stays ahead of the equal keys that came after it in the input. */
  function Insert<T>(x: T, s: seq<T>, key: T -> string): (r: seq<T>)
    ensures multiset(r) == multiset(s) + multiset{x}
  {
    if |s| == 0 then [x]
    else if StrLe(key(x), key(s[0])) then [x] + s
    else
      assert s == [s[0]] + s[1..];
      [s[0]] + Insert(x, s[1..], key)
  }

  lemma {:induction false} InsertSorted<T>(x: T, s: seq<T>, key: T -> string)
    requires SortedBy(s, key)
    ensures SortedBy(Insert(x, s, key), key)
  {
    if |s| > 0 {
      if StrLe(key(x), key(s[0])) {
        forall j | 1 <= j < |s| + 1
          ensures StrLe(key(x), key(([x] + s)[j]))
        {
          if j > 1 {
            StrLeTransitive(key(x), key(s[0]), key(s[j - 1]));
          }
        }
      } else {
        StrLeTotal(key(x), key(s[0]));
        InsertSorted(x, s[1..], key);
        var t := Insert(x, s[1..], key);
        forall j | 0 <= j < |t|
          ensures StrLe(key(s[0]), key(t[j]))
        {
          assert t[j] in multiset(t);
          if t[j] != x {
            assert t[j] in multiset(s[1..]);
            var k :| 0 <= k < |s[1..]| && s[1..][k] == t[j];
            assert s[k + 1] == t[j];
          }
        }
      }
    }
  }

  /** `sorted(xs, key=key)`: the same elements, keys ascending. */
  function SortBy<T>(xs: seq<T>, key: T -> string): (r: seq<T>)
    ensures multiset(r) == multiset(xs)
    ensures SortedBy(r, key)
  {
    if |xs| == 0 then []
    else
      assert xs == [xs[0]] + xs[1..];
      var rest := SortBy(xs[1..], key);
      InsertSorted(xs[0], rest, key);
      Insert(xs[0], rest, key)
  }

  /** Strings in ascending order. */
  predicate Ascending(ks: seq<string>)
  {
    forall i, j :: 0 <= i < j < |ks| ==> StrLe(ks[i], ks[j])
  }

  /** Deduplicating an ascending sequence leaves it ascending. */
  lemma {:induction false} DedupAscending(ks: seq<string>)
    requires Ascending(ks)
    ensures Ascending(Dedup(ks))
  {
    if |ks| > 0 {
      var p, x := ks[..|ks| - 1], ks[|ks| - 1];
      assert Ascending(p);
      DedupAscending(p);
      var d := Dedup(p);
      assert Dedup(ks) == if x in p then d else d + [x] by {
        assert p + [x] == ks;
        DedupSnoc(p, x);
      }
      forall i | 0 <= i < |d|
        ensures StrLe(d[i], x)
      {
        assert d[i] in p;
        var k :| 0 <= k < |p| && p[k] == d[i];
        assert ks[k] == d[i];
      }
    }
  }
}
