/**
 * Toggle-membership selection lists of the web client: `selectedDocuments`
 * (project-detail.component.ts, `toggleDocument`) and `currentText.projectIds`
 * (text-editor.component.ts, `toggleProject`). Both look the id up with
 * `indexOf`, `push` it when absent and `splice(index, 1)` it when present.
 */
module Membership {
  import opened Sequences

  /** The position `indexOf` finds: the first occurrence. */
  function FirstIndex(s: seq<int>, x: int): (i: nat)
    requires x in s
    ensures i < |s| && s[i] == x && x !in s[..i]
  {
    if s[0] == x then 0
    else
      var i := 1 + FirstIndex(s[1..], x);
      assert s[..i] == [s[0]] + s[1..][..i - 1];
      i
  }

  /** The list after one toggle of `x`. */
  function Toggled(s: seq<int>, x: int): (r: seq<int>)
    ensures |r| == if x in s then |s| - 1 else |s| + 1
  {
    if x in s then s[..FirstIndex(s, x)] + s[FirstIndex(s, x) + 1..] else s + [x]
  }

  /** `Array.prototype.indexOf`: the first index holding `x`, or -1. */
  method IndexOf(s: seq<int>, x: int) returns (index: int)
    ensures x !in s ==> index == -1
    ensures x in s ==> index == FirstIndex(s, x)
  {
    index := 0;
    while index < |s|
      invariant 0 <= index <= |s|
      invariant x !in s[..index]
    {
      if s[index] == x {
        FirstIndexUnique(s, x, index);
        return;
      }
      assert s[..index + 1] == s[..index] + [s[index]];
      index := index + 1;
    }
    assert s[..index] == s;
    index := -1;
  }

  /** The first occurrence is the only index with `s[i] == x` and nothing equal to `x` before it. */
  lemma FirstIndexUnique(s: seq<int>, x: int, i: nat)
    requires i < |s| && s[i] == x && x !in s[..i]
    ensures FirstIndex(s, x) == i
  {
    var f := FirstIndex(s, x);
    assert forall j :: 0 <= j < i ==> s[j] == s[..i][j] != x;
    assert forall j :: 0 <= j < f ==> s[j] == s[..f][j] != x;
  }

  /** A toggle adds `x` once when absent and takes one copy away when present; nothing else changes. */
  lemma ToggledContents(s: seq<int>, x: int)
    ensures x !in s ==> multiset(Toggled(s, x)) == multiset(s) + multiset{x}
    ensures x in s ==> multiset(Toggled(s, x)) == multiset(s) - multiset{x}
  {
    if x in s {
      var i := FirstIndex(s, x);
      assert s == s[..i] + [s[i]] + s[i + 1..];
      assert multiset(s) == multiset(s[..i]) + multiset{x} + multiset(s[i + 1..]);
    }
  }

  /** On a list without repeats: after a toggle, `x` is present exactly when it was absent,
      and every other id keeps its membership. */
  lemma ToggledMembership(s: seq<int>, x: int)
    requires Distinct(s)
    ensures x in Toggled(s, x) <==> x !in s
    ensures forall y :: y != x ==> (y in Toggled(s, x) <==> y in s)
  {
    ToggledContents(s, x);
    var t := Toggled(s, x);
    if x in s {
      DistinctCount(s, FirstIndex(s, x));
    }
    assert forall y :: y in t <==> multiset(t)[y] > 0;
    assert forall y :: y in s <==> multiset(s)[y] > 0;
  }

  /** A toggle never introduces a repeat. */
  lemma ToggledDistinct(s: seq<int>, x: int)
    requires Distinct(s)
    ensures Distinct(Toggled(s, x))
  {
    var t := Toggled(s, x);
    if x in s {
      var i := FirstIndex(s, x);
      assert forall k :: 0 <= k < |t| ==> t[k] == if k < i then s[k] else s[k + 1];
    } else {
      assert forall k :: 0 <= k < |s| ==> t[k] == s[k];
    }
  }

  /** In a list without repeats, the element at `i` occurs once. */
  lemma DistinctCount(s: seq<int>, i: nat)
    requires Distinct(s) && i < |s|
    ensures multiset(s)[s[i]] == 1
  {
    assert s == s[..i] + [s[i]] + s[i + 1..];
    assert forall k :: 0 <= k < i ==> s[..i][k] == s[k] != s[i];
    assert forall k :: i < k < |s| ==> s[i + 1..][k - i - 1] == s[k] != s[i];
    assert s[i] !in s[..i] && s[i] !in s[i + 1..];
    assert multiset(s) == multiset(s[..i]) + multiset{s[i]} + multiset(s[i + 1..]);
  }

  /** Toggling an absent id twice gives back exactly the same list. */
  lemma ToggleTwiceAbsent(s: seq<int>, x: int)
    requires x !in s
    ensures Toggled(Toggled(s, x), x) == s
  {
    var t := s + [x];
    FirstIndexUnique(t, x, |s|);
    assert t[..|s|] == s;
  }

  /** On a list without repeats, toggling any id twice restores every id's membership. */
  lemma ToggleTwiceMembership(s: seq<int>, x: int)
    requires Distinct(s)
    ensures forall y :: y in Toggled(Toggled(s, x), x) <==> y in s
  {
    ToggledMembership(s, x);
    ToggledDistinct(s, x);
    ToggledMembership(Toggled(s, x), x);
  }
}
