/** Generic facts about lists used by several components. */
module Sequences {

  /** No element occurs twice. */
  predicate Distinct<T(==)>(s: seq<T>) {
    forall i, j :: 0 <= i < j < |s| ==> s[i] != s[j]
  }

  /** `xs` is `ys` with some elements left out, order kept. */
  predicate IsSubsequence<T(==)>(xs: seq<T>, ys: seq<T>) {
    if xs == [] then true
    else if ys == [] then false
    else if xs[0] == ys[0] then IsSubsequence(xs[1..], ys[1..])
    else IsSubsequence(xs, ys[1..])
  }

  /** Putting an element in front of the larger list keeps a subsequence a subsequence. */
  lemma {:induction false} SubsequenceOfTail<T>(xs: seq<T>, y: T, ys: seq<T>)
    requires IsSubsequence(xs, ys)
    ensures IsSubsequence(xs, [y] + ys)
    decreases |xs| + |ys| + 1
  {
    assert ([y] + ys)[1..] == ys;
    if xs != [] && xs[0] == y {
      DropHead(xs, ys);
    }
  }

  /** Leaving out the first element of a subsequence keeps it a subsequence. */
  lemma {:induction false} DropHead<T>(xs: seq<T>, ys: seq<T>)
    requires xs != [] && IsSubsequence(xs, ys)
    ensures IsSubsequence(xs[1..], ys)
    decreases |xs| + |ys|
  {
    assert [ys[0]] + ys[1..] == ys;
    if xs[0] == ys[0] {
      SubsequenceOfTail(xs[1..], ys[0], ys[1..]);
    } else {
      DropHead(xs, ys[1..]);
      SubsequenceOfTail(xs[1..], ys[0], ys[1..]);
    }
  }

  /** The set of ids in a list of ids. */
  function Elements(s: seq<int>): (r: set<int>)
    ensures forall x :: x in r <==> x in s
  {
    set x | x in s
  }

  /** A list without repeats has as many elements as its set does. */
  lemma {:induction false} DistinctCardinality(s: seq<int>)
    requires Distinct(s)
    ensures |Elements(s)| == |s|
  {
    if s != [] {
      assert Distinct(s[1..]) by {
        forall i, j | 0 <= i < j < |s[1..]|
          ensures s[1..][i] != s[1..][j]
        {
          assert s[1..][i] == s[i + 1] && s[1..][j] == s[j + 1];
        }
      }
      DistinctCardinality(s[1..]);
      assert s[0] !in s[1..] by {
        forall k | 0 <= k < |s[1..]|
          ensures s[1..][k] != s[0]
        {
          assert s[1..][k] == s[k + 1];
        }
      }
      assert Elements(s) == {s[0]} + Elements(s[1..]) by {
        assert s == [s[0]] + s[1..];
      }
    }
  }

  /** A subset as large as its superset is the whole superset. */
  lemma SubsetOfEqualSize(a: set<int>, b: set<int>)
    requires a <= b && |a| == |b|
    ensures a == b
  {
    assert |b - a| == |b| - |a|;
  }

  /** A list without repeats drawn from another list without repeats is as long as it exactly when it
      holds all of its elements. */
  lemma SameSizeSublist(sub: seq<int>, s: seq<int>)
    requires Distinct(sub) && Distinct(s)
    requires forall x :: x in sub ==> x in s
    ensures |sub| == |s| <==> forall x :: x in s ==> x in sub
  {
    var a, b := Elements(sub), Elements(s);
    DistinctCardinality(sub);
    DistinctCardinality(s);
    assert a <= b;
    if |sub| == |s| {
      SubsetOfEqualSize(a, b);
    }
    if forall x :: x in s ==> x in sub {
      assert a == b;
    }
  }

  /** The ids 0 .. n-1. */
  function Below(n: nat): (r: set<int>)
    ensures forall x :: x in r <==> 0 <= x < n
    ensures |r| == n
  {
    if n == 0 then {} else
      assert n - 1 !in Below(n - 1);
      Below(n - 1) + {n - 1}
  }

  /** A list of distinct ids all below `n` has at most `n` elements. */
  lemma DistinctBelow(s: seq<int>, n: nat)
    requires Distinct(s)
    requires forall k :: 0 <= k < |s| ==> 0 <= s[k] < n
    ensures |s| <= n
  {
    DistinctCardinality(s);
    var a, b := Elements(s), Below(n);
    assert a <= b;
    assert |b - a| == |b| - |a|;
  }
}
