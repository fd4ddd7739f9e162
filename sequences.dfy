/**
 * Order-preserving selection on sequences (`a` is `b` with some elements left out) and the
 * position map Python's `{x: i for i, x in enumerate(xs)}` builds, and the first position satisfying a test.
 */
module Sequences {
  import opened Wrappers

  ghost predicate IsSubsequence<T>(a: seq<T>, b: seq<T>)
    decreases |b|
  {
    a == [] || (b != [] && ((a[0] == b[0] && IsSubsequence(a[1..], b[1..])) || IsSubsequence(a, b[1..])))
  }

  lemma {:induction false} SubsequenceExtend<T>(a: seq<T>, b: seq<T>, x: T)
    requires IsSubsequence(a, b)
    ensures IsSubsequence(a, b + [x])
    decreases |b|
  {
    if a != [] {
      assert (b + [x])[1..] == b[1..] + [x];
      if a[0] == b[0] && IsSubsequence(a[1..], b[1..]) {
        SubsequenceExtend(a[1..], b[1..], x);
      } else {
        SubsequenceExtend(a, b[1..], x);
      }
    }
  }

  lemma {:induction false} SubsequenceAppend<T>(a: seq<T>, b: seq<T>, x: T)
    requires IsSubsequence(a, b)
    ensures IsSubsequence(a + [x], b + [x])
    decreases |b|
  {
    if a == [] {
      EmptySubsequence(b);
      assert [x][1..] == [];
      if b == [] {
        assert IsSubsequence([x][1..], ([] + [x])[1..]);
      } else {
        assert (b + [x])[1..] == b[1..] + [x];
        SubsequenceAppend(a, b[1..], x);
      }
    } else {
      assert (a + [x])[1..] == a[1..] + [x];
      assert (b + [x])[1..] == b[1..] + [x];
      if a[0] == b[0] && IsSubsequence(a[1..], b[1..]) {
        SubsequenceAppend(a[1..], b[1..], x);
      } else {
        SubsequenceAppend(a, b[1..], x);
      }
    }
  }

  /** Element `i` of a sequence is element `i - 1` of its tail. */
  lemma TailIndex<T>(s: seq<T>, i: nat)
    requires 1 <= i < |s|
    ensures s[1..][i - 1] == s[i]
  {
  }

  /** A non-empty sequence is its front followed by its last element. */
  lemma SnocSplit<T>(xs: seq<T>)
    requires xs != []
    ensures xs[..|xs| - 1] + [xs[|xs| - 1]] == xs
  {
  }

  lemma EmptySubsequence<T>(b: seq<T>)
    ensures IsSubsequence([], b)
  {
  }

  lemma {:induction false} SubsequenceReflexive<T>(a: seq<T>)
    ensures IsSubsequence(a, a)
    decreases |a|
  {
    if a != [] {
      SubsequenceReflexive(a[1..]);
    }
  }

  /** `{x: i for i, x in enumerate(xs)}`: each value maps to a position holding it, a later duplicate overwriting. */
  function IndexMap<K>(xs: seq<K>): (m: map<K, nat>)
    ensures forall k :: k in m ==> m[k] < |xs|
  {
    if xs == [] then map[]
    else IndexMap(xs[..|xs| - 1])[xs[|xs| - 1] := |xs| - 1]
  }

  /** Every value is a key, each key maps to a position holding it, and no later position holds it. */
  lemma {:induction false} IndexMapSpec<K>(xs: seq<K>)
    ensures forall i :: 0 <= i < |xs| ==> xs[i] in IndexMap(xs)
    ensures forall k :: k in IndexMap(xs) ==> xs[IndexMap(xs)[k]] == k
    ensures forall k, j :: k in IndexMap(xs) && IndexMap(xs)[k] < j < |xs| ==> xs[j] != k
  {
    if xs != [] {
      var n := |xs| - 1;
      var init := xs[..n];
      IndexMapSpec(init);
      var m := IndexMap(init);
      var m' := IndexMap(xs);
      assert m' == m[xs[n] := n];
      forall i | 0 <= i < |xs| ensures xs[i] in m' {
        if i < n { assert init[i] == xs[i]; }
      }
      forall k | k in m' ensures xs[m'[k]] == k {
        if k != xs[n] { assert init[m[k]] == xs[m[k]]; }
      }
      forall k, j | k in m' && m'[k] < j < |xs| ensures xs[j] != k {
        if k != xs[n] && j < n { assert init[j] == xs[j]; }
      }
    }
  }

  /** The position of the first element that satisfies `p`, if any. */
  function FirstWhere<T>(s: seq<T>, p: T -> bool): (r: Option<nat>)
    ensures r.Some? ==> r.value < |s| && p(s[r.value]) && forall j :: 0 <= j < r.value ==> !p(s[j])
    ensures r.None? ==> forall j :: 0 <= j < |s| ==> !p(s[j])
  {
    if s == [] then None
    else if p(s[0]) then Some(0)
    else
      match FirstWhere(s[1..], p)
      case None => None
      case Some(j) => Some(j + 1)
  }

  /** A position that satisfies `p` with none before it is the one `FirstWhere` finds. */
  lemma FirstWhereAt<T>(s: seq<T>, p: T -> bool, i: nat)
    requires i < |s| && p(s[i])
    requires forall j :: 0 <= j < i ==> !p(s[j])
    ensures FirstWhere(s, p) == Some(i)
  {
  }

  /** The first position past the head that satisfies `p` is found by the scan of the tail. */
  lemma FirstWhereTail<T>(s: seq<T>, p: T -> bool, i: nat)
    requires 1 <= i < |s| && p(s[i])
    requires forall j :: 1 <= j < i ==> !p(s[j])
    ensures FirstWhere(s[1..], p) == Some(i - 1)
  {
    var t := s[1..];
    forall j | 0 <= j < i - 1
      ensures !p(t[j])
    {
      assert t[j] == s[j + 1];
    }
    assert t[i - 1] == s[i];
    FirstWhereAt(t, p, i - 1);
  }

  /** The scan `for x in s: if p(x): return ...`, as a position. */
  method FindFirst<T>(s: seq<T>, p: T -> bool) returns (r: Option<nat>)
    ensures r == FirstWhere(s, p)
  {
    var i := 0;
    while i < |s|
      invariant 0 <= i <= |s|
      invariant forall j :: 0 <= j < i ==> !p(s[j])
    {
      if p(s[i]) {
        return Some(i);
      }
      i := i + 1;
    }
    return None;
  }

  /** The position of the last element equal to `x`, or -1 when there is none. */
  function LastPos<T(==)>(s: seq<T>, x: T): (i: int)
    ensures -1 <= i < |s|
    ensures i >= 0 ==> s[i] == x
    decreases |s|
  {
    if s == [] then -1
    else if s[|s| - 1] == x then |s| - 1
    else LastPos(s[..|s| - 1], x)
  }

  /** No element after the one `LastPos` finds equals `x`, and -1 means `x` is absent. */
  lemma {:induction false} LastPosSpec<T>(s: seq<T>, x: T)
    ensures var i := LastPos(s, x);
      (i >= 0 ==> forall j :: i < j < |s| ==> s[j] != x) && (i == -1 <==> x !in s)
    decreases |s|
  {
    if s != [] && s[|s| - 1] != x {
      var n := |s| - 1;
      LastPosSpec(s[..n], x);
      assert forall j :: 0 <= j < n ==> s[..n][j] == s[j];
      assert x in s ==> x in s[..n] by {
        if x in s {
          var j :| 0 <= j < |s| && s[j] == x;
          assert s[..n][j] == x;
        }
      }
    }
  }
}
