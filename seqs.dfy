/** Sequence facts shared by the name engine and the ordered dictionaries:
    duplicate-free sequences and "keep the first occurrence" deduplication. */
module Seqs {

  /** No element occurs twice in `s`. */
  predicate NoDup<T(==)>(s: seq<T>)
  {
    forall i, j :: 0 <= i < j < |s| ==> s[i] != s[j]
  }

  /** Position of the first occurrence of `x` in `s`. */
  function FirstIndex<T(==)>(s: seq<T>, x: T): (i: nat)
    requires x in s
    ensures i < |s| && s[i] == x
    ensures forall k :: 0 <= k < i ==> s[k] != x
  {
    if s[0] == x then 0 else 1 + FirstIndex(s[1..], x)
  }

  /** The elements of `s`, each kept only where it first occurs, in the order of `s`.
      Defined by adding one element at a time, as a left-to-right scan with a
      "seen" set does. */
  function Dedup<T(==,!new)>(s: seq<T>): (r: seq<T>)
    ensures NoDup(r)
    ensures forall x :: x in r <==> x in s
    ensures |r| <= |s|
  {
    if |s| == 0 then []
    else
      var d := Dedup(s[..|s| - 1]);
      assert s == s[..|s| - 1] + [s[|s| - 1]];
      if s[|s| - 1] in d then d else d + [s[|s| - 1]]
  }

  /** Appending one element: it survives exactly when it has not been seen. */
  lemma DedupSnoc<T(!new)>(s: seq<T>, x: T)
    ensures Dedup(s + [x]) == if x in s then Dedup(s) else Dedup(s) + [x]
  {
    assert (s + [x])[..|s + [x]| - 1] == s;
  }

  /** Extending a prefix of `b` by one element. */
  lemma AppendSlice<T>(a: seq<T>, b: seq<T>, j: nat)
    requires j < |b|
    ensures a + b[..j + 1] == (a + b[..j]) + [b[j]]
  {
    assert b[..j + 1] == b[..j] + [b[j]];
  }

  lemma DedupRepeated<T(!new)>(x: T)
    ensures Dedup([x, x]) == [x]
  {
    assert [x, x] == [x] + [x];
    assert [x] == [] + [x];
    DedupSnoc([], x);
    DedupSnoc([x], x);
  }

  lemma HeadTail<T>(s: seq<T>)
    requires |s| > 0
    ensures [s[0]] + s[1..] == s
  {
  }

  lemma LastOfSnoc<T>(a: seq<T>, x: T)
    ensures (a + [x])[|a|] == x
  {
  }

  /** The first element always survives, in first place. */
  lemma {:induction false} DedupHead<T(!new)>(s: seq<T>)
    requires |s| > 0
    ensures |Dedup(s)| > 0 && Dedup(s)[0] == s[0]
  {
    if |s| > 1 {
      var p := s[..|s| - 1];
      DedupHead(p);
      assert p[0] == s[0];
    }
  }

  lemma {:induction false} FirstIndexPrefix<T>(a: seq<T>, b: seq<T>, x: T)
    requires x in a
    ensures FirstIndex(a + b, x) == FirstIndex(a, x)
  {
    if a[0] != x {
      assert (a + b)[1..] == a[1..] + b;
      FirstIndexPrefix(a[1..], b, x);
    }
  }

  /** Survivors keep the order of their first occurrences. */
  lemma {:induction false} DedupOrder<T(!new)>(s: seq<T>)
    ensures forall i, j :: 0 <= i < j < |Dedup(s)| ==>
      FirstIndex(s, Dedup(s)[i]) < FirstIndex(s, Dedup(s)[j])
  {
    if |s| > 0 {
      var p, x := s[..|s| - 1], s[|s| - 1];
      assert s == p + [x];
      DedupOrder(p);
      var d := Dedup(p);
      forall y | y in p
        ensures FirstIndex(s, y) == FirstIndex(p, y)
      {
        FirstIndexPrefix(p, [x], y);
      }
      if x !in p {
        assert FirstIndex(s, x) == |p|;
        forall i, j | 0 <= i < j < |Dedup(s)|
          ensures FirstIndex(s, Dedup(s)[i]) < FirstIndex(s, Dedup(s)[j])
        {
          assert Dedup(s)[i] == d[i] && Dedup(s)[i] in p;
          if j < |d| {
            assert Dedup(s)[j] == d[j] && Dedup(s)[j] in p;
          }
        }
      }
    }
  }

  /** A sequence without duplicates is its own deduplication. */
  lemma {:induction false} DedupOfNoDup<T(!new)>(s: seq<T>)
    requires NoDup(s)
    ensures Dedup(s) == s
  {
    if |s| > 0 {
      var p := s[..|s| - 1];
      assert NoDup(p);
      DedupOfNoDup(p);
      assert s[|s| - 1] !in p;
      assert p + [s[|s| - 1]] == s;
    }
  }

  /** In a duplicate-free sequence every element occurs at most once. */
  lemma {:induction false} NoDupCount<T>(s: seq<T>, x: T)
    requires NoDup(s)
    ensures multiset(s)[x] <= 1
  {
    if |s| > 0 {
      var p := s[..|s| - 1];
      assert p + [s[|s| - 1]] == s;
      assert NoDup(p);
      NoDupCount(p, x);
      if s[|s| - 1] == x {
        assert x !in p;
      }
    }
  }

  /** Reordering keeps a sequence free of duplicates. */
  lemma NoDupPermutation<T>(xs: seq<T>, ys: seq<T>)
    requires NoDup(xs)
    requires multiset(xs) == multiset(ys)
    ensures NoDup(ys)
  {
    forall i, j | 0 <= i < j < |ys|
      ensures ys[i] != ys[j]
    {
      if ys[i] == ys[j] {
        assert ys == ys[..j] + [ys[j]] + ys[j + 1..];
        assert ys[i] in multiset(ys[..j]);
        NoDupCount(xs, ys[i]);
        assert false;
      }
    }
  }

  /** `f` applied to each element, in order. */
  function Image<T, U>(xs: seq<T>, f: T -> U): (r: seq<U>)
    ensures |r| == |xs|
    ensures forall i :: 0 <= i < |xs| ==> r[i] == f(xs[i])
  {
    seq(|xs|, i requires 0 <= i < |xs| => f(xs[i]))
  }

  /** Reordering keeps the images under `f` distinct. */
  lemma ImagePermutation<T, U>(xs: seq<T>, ys: seq<T>, f: T -> U)
    requires NoDup(Image(xs, f))
    requires multiset(xs) == multiset(ys)
    ensures NoDup(Image(ys, f))
  {
    assert NoDup(xs) by {
      forall i, j | 0 <= i < j < |xs|
        ensures xs[i] != xs[j]
      {
        assert Image(xs, f)[i] != Image(xs, f)[j];
      }
    }
    NoDupPermutation(xs, ys);
    forall i, j | 0 <= i < j < |ys|
      ensures f(ys[i]) != f(ys[j])
    {
      assert ys[i] in multiset(xs) && ys[j] in multiset(xs);
      var a :| 0 <= a < |xs| && xs[a] == ys[i];
      var b :| 0 <= b < |xs| && xs[b] == ys[j];
      assert Image(xs, f)[a] == f(ys[i]) && Image(xs, f)[b] == f(ys[j]);
    }
  }

  /** A sequence with a repeated element loses at least one element to
      deduplication. */
  lemma {:induction false} DedupShorter<T(!new)>(s: seq<T>)
    requires !NoDup(s)
    ensures |Dedup(s)| < |s|
  {
    var p, x := s[..|s| - 1], s[|s| - 1];
    assert s == p + [x];
    DedupSnoc(p, x);
    if NoDup(p) {
      var i, j :| 0 <= i < j < |s| && s[i] == s[j];
      assert j == |s| - 1;
      assert p[i] == x;
    } else {
      DedupShorter(p);
    }
  }
}
