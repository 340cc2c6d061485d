/** The string operations the name engine takes from Python's `str`:
    `replace(pat, "")`, `split("_")`, `"_".join(...)`, and the ordering `<=`
    that `sorted` uses on string keys. */
module Strings {

  /** The separator that `split` and `join` use on names. */
  const Sep: char := '_'

  /** `pat` occurs in `s` starting at index `i`. */
  predicate OccursAt(s: string, pat: string, i: nat)
  {
    i + |pat| <= |s| && s[i..i + |pat|] == pat
  }

  predicate Contains(s: string, pat: string)
  {
    exists i: nat | i <= |s| :: OccursAt(s, pat, i)
  }

  /** `s.replace(pat, "")`: scanning from the left, every non-overlapping
      occurrence of `pat` is cut out, wherever it stands in `s`. */
  function DeleteAll(s: string, pat: string): (r: string)
    requires |pat| > 0
    ensures |r| <= |s|
    decreases |s|
  {
    if |s| < |pat| then s
    else if s[..|pat|] == pat then DeleteAll(s[|pat|..], pat)
    else [s[0]] + DeleteAll(s[1..], pat)
  }

  /** Where `pat` does not occur, nothing is deleted. */
  lemma {:induction false} DeleteAllAbsent(s: string, pat: string)
    requires |pat| > 0 && !Contains(s, pat)
    ensures DeleteAll(s, pat) == s
  {
    if |s| >= |pat| {
      assert !OccursAt(s, pat, 0);
      assert s[..|pat|] != pat;
      forall i: nat
        ensures !OccursAt(s[1..], pat, i)
      {
        if OccursAt(s[1..], pat, i) {
          assert s[1..][i..i + |pat|] == s[i + 1..i + 1 + |pat|];
          assert OccursAt(s, pat, i + 1);
        }
      }
      DeleteAllAbsent(s[1..], pat);
      assert s == [s[0]] + s[1..];
    }
  }

  /** A stretch that lacks the first character of `pat` cannot start an
      occurrence, so it passes through unchanged. */
  lemma {:induction false} DeleteAllKeeps(a: string, b: string, pat: string)
    requires |pat| > 0 && pat[0] !in a
    ensures DeleteAll(a + b, pat) == a + DeleteAll(b, pat)
  {
    if |a| > 0 {
      assert (a + b)[1..] == a[1..] + b;
      DeleteAllKeeps(a[1..], b, pat);
      assert a == [a[0]] + a[1..];
    } else {
      assert a + b == b;
    }
  }

  /** An occurrence at the front is cut out. */
  lemma DeleteAllCuts(b: string, pat: string)
    requires |pat| > 0
    ensures DeleteAll(pat + b, pat) == DeleteAll(b, pat)
  {
    assert (pat + b)[..|pat|] == pat && (pat + b)[|pat|..] == b;
  }

  /** An occurrence is cut out wherever it stands, not only at the end: in
      `a + pat + b` the part before it is kept and the part after it is
      processed on. */
  lemma DeleteAllCutsInside(a: string, b: string, pat: string)
    requires |pat| > 0 && pat[0] !in a
    ensures DeleteAll(a + pat + b, pat) == a + DeleteAll(b, pat)
  {
    DeleteAllKeeps(a, pat + b, pat);
    DeleteAllCuts(b, pat);
    assert a + pat + b == a + (pat + b);
  }

  /** `s.split("_")`: the maximal runs between separators, empty runs included;
      the empty string splits into one empty piece. */
  function Split(s: string): (r: seq<string>)
    ensures |r| >= 1
    ensures forall i :: 0 <= i < |r| ==> Sep !in r[i]
  {
    if |s| == 0 then [""]
    else
      var rest := Split(s[1..]);
      if s[0] == Sep then [""] + rest else [[s[0]] + rest[0]] + rest[1..]
  }

  /** `"_".join(ts)`. */
  function Join(ts: seq<string>): string
  {
    if |ts| == 0 then ""
    else if |ts| == 1 then ts[0]
    else ts[0] + [Sep] + Join(ts[1..])
  }

  /** Joining the pieces of a split gives the string back. */
  lemma {:induction false} JoinSplit(s: string)
    ensures Join(Split(s)) == s
  {
    if |s| > 0 {
      var rest := Split(s[1..]);
      JoinSplit(s[1..]);
      if s[0] == Sep {
        assert Join(Split(s)) == "" + [Sep] + Join(rest);
      } else if |rest| > 1 {
        assert Join(rest) == rest[0] + [Sep] + Join(rest[1..]);
        assert Split(s)[1..] == rest[1..];
      }
      assert s == [s[0]] + s[1..];
    }
  }

  lemma {:induction false} SplitSeparated(a: string, b: string)
    requires Sep !in a
    ensures Split(a + [Sep] + b) == [a] + Split(b)
  {
    if |a| > 0 {
      assert (a + [Sep] + b)[1..] == a[1..] + [Sep] + b;
      SplitSeparated(a[1..], b);
      assert [a[0]] + a[1..] == a;
    }
  }

  lemma {:induction false} SplitPlain(a: string)
    requires Sep !in a
    ensures Split(a) == [a]
  {
    if |a| > 0 {
      SplitPlain(a[1..]);
      assert [a[0]] + a[1..] == a;
    }
  }

  /** Splitting a join of separator-free pieces gives the pieces back. */
  lemma {:induction false} SplitJoin(ts: seq<string>)
    requires |ts| > 0
    requires forall i :: 0 <= i < |ts| ==> Sep !in ts[i]
    ensures Split(Join(ts)) == ts
  {
    if |ts| == 1 {
      SplitPlain(ts[0]);
    } else {
      SplitJoin(ts[1..]);
      SplitSeparated(ts[0], Join(ts[1..]));
      assert ts == [ts[0]] + ts[1..];
    }
  }

  /** Python's `<=` on strings: code point by code point, a proper prefix first. */
  predicate StrLe(a: string, b: string)
  {
    |a| == 0 || (|b| > 0 && (a[0] < b[0] || (a[0] == b[0] && StrLe(a[1..], b[1..]))))
  }

  lemma {:induction false} StrLeTotal(a: string, b: string)
    ensures StrLe(a, b) || StrLe(b, a)
  {
    if |a| > 0 && |b| > 0 && a[0] == b[0] {
      StrLeTotal(a[1..], b[1..]);
    }
  }

  lemma {:induction false} StrLeTransitive(a: string, b: string, c: string)
    requires StrLe(a, b) && StrLe(b, c)
    ensures StrLe(a, c)
  {
    if |a| > 0 && a[0] == b[0] && b[0] == c[0] {
      StrLeTransitive(a[1..], b[1..], c[1..]);
    }
  }
}
