/**
  The array built-ins the catalog code is written with: `filter`, `slice(0, n)`,
  and `[...new Set(xs)]` (the distinct elements in first-occurrence order).
*/
module Seqs {
  import opened Basics

  // ---------------------------------------------------------------- subsequences

  /** `r` can be obtained from `s` by deleting elements, keeping the order of the rest. */
  predicate IsSubsequence<T(==,!new)>(r: seq<T>, s: seq<T>)
    decreases |s|
  {
    if r == [] then true
    else if s == [] then false
    else (r[0] == s[0] && IsSubsequence(r[1..], s[1..])) || IsSubsequence(r, s[1..])
  }

  // ---------------------------------------------------------------- filter

  /** `Array.prototype.filter`: the elements that pass `keep`, in their original order. */
  function Filter<T(==,!new)>(s: seq<T>, keep: T -> bool): (r: seq<T>)
    ensures |r| <= |s|
    ensures forall x :: x in r <==> x in s && keep(x)
    decreases |s|
  {
    if s == [] then [] else (if keep(s[0]) then [s[0]] else []) + Filter(s[1..], keep)
  }

  /** `filter` keeps each passing element as often as the input holds it. */
  lemma {:induction false} FilterCounts<T(!new)>(s: seq<T>, keep: T -> bool)
    ensures forall x :: multiset(Filter(s, keep))[x] == if keep(x) then multiset(s)[x] else 0
    decreases |s|
  {
    if s != [] {
      FilterCounts(s[1..], keep);
      assert s == [s[0]] + s[1..];
    }
  }

  lemma {:induction false} FilterIsSubsequence<T(!new)>(s: seq<T>, keep: T -> bool)
    ensures IsSubsequence(Filter(s, keep), s)
    decreases |s|
  {
    if s != [] {
      FilterIsSubsequence(s[1..], keep);
      var r := Filter(s, keep);
      if keep(s[0]) {
        assert r == [s[0]] + Filter(s[1..], keep);
        assert r[0] == s[0] && r[1..] == Filter(s[1..], keep);
      } else {
        assert r == Filter(s[1..], keep);
      }
    }
  }

  /** Two filters in a row are one filter by the conjunction of their tests. */
  lemma {:induction false} FilterThenFilter<T(!new)>(s: seq<T>, first: T -> bool, second: T -> bool, both: T -> bool)
    requires forall x :: both(x) == (first(x) && second(x))
    ensures Filter(Filter(s, first), second) == Filter(s, both)
    decreases |s|
  {
    if s != [] {
      FilterThenFilter(s[1..], first, second, both);
      var once := Filter(s, first);
      if first(s[0]) {
        assert once == [s[0]] + Filter(s[1..], first);
        assert once != [] && once[0] == s[0] && once[1..] == Filter(s[1..], first);
        assert Filter(once, second) == (if second(s[0]) then [s[0]] else []) + Filter(once[1..], second);
      } else {
        assert once == Filter(s[1..], first);
      }
    }
  }

  /** Filters whose tests agree on every element give the same result. */
  lemma {:induction false} FilterSameTest<T(!new)>(s: seq<T>, a: T -> bool, b: T -> bool)
    requires forall x :: x in s ==> a(x) == b(x)
    ensures Filter(s, a) == Filter(s, b)
    decreases |s|
  {
    if s != [] {
      FilterSameTest(s[1..], a, b);
    }
  }

  /** A filter whose test holds everywhere keeps the whole sequence. */
  lemma {:induction false} FilterKeepsAll<T(!new)>(s: seq<T>, keep: T -> bool)
    requires forall x :: x in s ==> keep(x)
    ensures Filter(s, keep) == s
    decreases |s|
  {
    if s != [] {
      FilterKeepsAll(s[1..], keep);
    }
  }

  /** A filter whose test fails everywhere keeps nothing. */
  lemma {:induction false} FilterKeepsNone<T(!new)>(s: seq<T>, keep: T -> bool)
    requires forall x :: x in s ==> !keep(x)
    ensures Filter(s, keep) == []
    decreases |s|
  {
    if s != [] {
      FilterKeepsNone(s[1..], keep);
    }
  }

  /** Filtering twice by the same test is filtering once. */
  lemma FilterIdempotent<T(!new)>(s: seq<T>, keep: T -> bool)
    ensures Filter(Filter(s, keep), keep) == Filter(s, keep)
  {
    FilterKeepsAll(Filter(s, keep), keep);
  }

  // ---------------------------------------------------------------- slice

  /** `s.slice(0, n)`: the first `n` elements, or all of them when there are fewer. */
  function Take<T>(s: seq<T>, n: nat): (r: seq<T>)
    ensures |r| == Min(n, |s|)
    ensures r == s[..|r|]
  {
    if |s| <= n then s else s[..n]
  }

  // ---------------------------------------------------------------- distinct

  /** Index of the first occurrence of `x` in `s`. */
  function FirstIndex<T(==,!new)>(s: seq<T>, x: T): (i: nat)
    requires x in s
    ensures i < |s| && s[i] == x && x !in s[..i]
    decreases |s|
  {
    if s[0] == x then 0
    else
      var j := FirstIndex(s[1..], x);
      assert s[..j + 1] == [s[0]] + s[1..][..j];
      j + 1
  }

  /** The first occurrence is found in any prefix that already contains the element. */
  lemma FirstIndexInPrefix<T(!new)>(s: seq<T>, n: nat, x: T)
    requires n <= |s| && x in s[..n]
    ensures FirstIndex(s, x) == FirstIndex(s[..n], x)
  {
    var i := FirstIndex(s[..n], x);
    var j := FirstIndex(s, x);
    assert s[..n][..i] == s[..i];
  }

  /**
    `[...new Set(s)]`: each element once, at the place it first occurs. A `Set`
    keeps insertion order and ignores an element it already holds, so the
    result is built by adding the elements of `s` one at a time.
  */
  function Distinct<T(==,!new)>(s: seq<T>): (r: seq<T>)
    ensures forall x :: x in r <==> x in s
    ensures forall i, j :: 0 <= i < j < |r| ==> r[i] != r[j]
    ensures |r| <= |s|
    decreases |s|
  {
    if s == [] then []
    else
      var init := s[..|s| - 1];
      var last := s[|s| - 1];
      assert s == init + [last];
      var r := Distinct(init);
      if last in r then r else r + [last]
  }

  /** The distinct elements come out in the order of their first occurrences. */
  lemma {:induction false} DistinctInFirstOccurrenceOrder<T(!new)>(s: seq<T>)
    ensures forall i, j :: 0 <= i < j < |Distinct(s)| ==> FirstIndex(s, Distinct(s)[i]) < FirstIndex(s, Distinct(s)[j])
    decreases |s|
  {
    if s != [] {
      var n := |s| - 1;
      var init := s[..n];
      var last := s[n];
      var r := Distinct(init);
      DistinctInFirstOccurrenceOrder(init);
      forall x | x in init ensures FirstIndex(s, x) == FirstIndex(init, x) && FirstIndex(s, x) < n {
        FirstIndexInPrefix(s, n, x);
      }
      if last !in r {
        assert last !in init;
        assert FirstIndex(s, last) == n;
        var d := r + [last];
        forall k | 0 <= k < |d| ensures d[k] in s {
          if k < |r| {
            assert s[FirstIndex(init, r[k])] == d[k];
          }
        }
        forall i, j | 0 <= i < j < |d| ensures FirstIndex(s, d[i]) < FirstIndex(s, d[j]) {
          assert d[i] == r[i] && d[i] in init;
          if j < |r| {
            assert d[j] == r[j];
          }
        }
      }
    }
  }
}
