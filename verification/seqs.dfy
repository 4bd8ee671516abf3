/** Order-preserving subsequences and the filter that produces them (`Array.prototype.filter`). */
module Seqs {

  /** `a` is obtained from `b` by deleting some elements and keeping the order of the rest. */
  ghost predicate IsSubseq<T>(a: seq<T>, b: seq<T>)
    decreases |b|
  {
    if |a| == 0 then true
    else if |b| == 0 then false
    else (a[0] == b[0] && IsSubseq(a[1..], b[1..])) || IsSubseq(a, b[1..])
  }

  /** The elements of `s` that `keep` accepts, in their original order. */
  function Filter<T>(s: seq<T>, keep: T -> bool): (r: seq<T>)
    ensures |r| <= |s|
    ensures forall x :: x in r ==> x in s && keep(x)
  {
    if |s| == 0 then []
    else
      var rest := Filter(s[1..], keep);
      if keep(s[0]) then [s[0]] + rest else rest
  }

  /** `Filter` keeps the order of the elements it keeps. */
  lemma {:induction false} FilterIsSubseq<T>(s: seq<T>, keep: T -> bool)
    ensures IsSubseq(Filter(s, keep), s)
  {
    if |s| > 0 {
      FilterIsSubseq(s[1..], keep);
      var rest := Filter(s[1..], keep);
      if keep(s[0]) {
        assert ([s[0]] + rest)[1..] == rest;
      }
    }
  }

  /** `Filter` keeps every accepted element as often as it occurs in `s`, and no rejected one. */
  lemma {:induction false} FilterCounts<T>(s: seq<T>, keep: T -> bool)
    ensures forall x :: x in s ==> multiset(Filter(s, keep))[x] == if keep(x) then multiset(s)[x] else 0
    ensures forall x :: x in s && keep(x) ==> x in Filter(s, keep)
  {
    if |s| > 0 {
      FilterCounts(s[1..], keep);
      var rest := Filter(s[1..], keep);
      assert s == [s[0]] + s[1..];
      assert multiset(s) == multiset{s[0]} + multiset(s[1..]);
      if keep(s[0]) {
        assert multiset([s[0]] + rest) == multiset{s[0]} + multiset(rest);
      }
      forall x | x in s && keep(x)
        ensures x in Filter(s, keep)
      {
        assert multiset(s)[x] > 0;
      }
    }
  }

  /** Filtering with a predicate every element satisfies gives back the sequence itself. */
  lemma {:induction false} FilterKeepsAll<T>(s: seq<T>, keep: T -> bool)
    requires forall i :: 0 <= i < |s| ==> keep(s[i])
    ensures Filter(s, keep) == s
  {
    if |s| > 0 {
      FilterKeepsAll(s[1..], keep);
    }
  }
}
