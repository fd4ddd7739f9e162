/**
 * Python's `sorted(xs, key=f)` for a date-valued key: a stable sort, written as insertion sort.
 */
module Sorting {
  import opened Calendar

  /** Ascending by key. */
  ghost predicate SortedBy<T>(s: seq<T>, key: T -> Date) {
    forall i, j :: 0 <= i < j < |s| ==> DateLe(key(s[i]), key(s[j]))
  }

  /** The elements of `s` whose key is `k`, in the order of `s`. */
  function WithKey<T>(s: seq<T>, k: Date, key: T -> Date): seq<T> {
    if s == [] then []
    else (if key(s[0]) == k then [s[0]] else []) + WithKey(s[1..], k, key)
  }

  /** Places `x` before the first element whose key is not smaller than its own. */
  function InsertBy<T>(x: T, s: seq<T>, key: T -> Date): (r: seq<T>)
    ensures multiset(r) == multiset(s) + multiset{x}
  {
    if s == [] then [x]
    else if DateLe(key(x), key(s[0])) then [x] + s
    else
      assert s == [s[0]] + s[1..];
      [s[0]] + InsertBy(x, s[1..], key)
  }

  lemma {:induction false} InsertBySorted<T>(x: T, s: seq<T>, key: T -> Date)
    requires SortedBy(s, key)
    ensures SortedBy(InsertBy(x, s, key), key)
    decreases |s|
  {
    var r := InsertBy(x, s, key);
    if s == [] {
    } else if DateLe(key(x), key(s[0])) {
      forall i, j | 0 <= i < j < |r| ensures DateLe(key(r[i]), key(r[j])) {
        if i == 0 && j > 1 {
          assert r[j] == s[j - 1];
          assert DateLe(key(s[0]), key(s[j - 1]));
        }
      }
    } else {
      var rest := InsertBy(x, s[1..], key);
      assert r == [s[0]] + rest;
      assert SortedBy(s[1..], key);
      InsertBySorted(x, s[1..], key);
      assert AllFrom(key(s[0]), s[1..], key) by {
        forall i | 0 <= i < |s| - 1 ensures DateLe(key(s[0]), key(s[1..][i])) {
          assert s[1..][i] == s[i + 1];
        }
      }
      InsertByBound(x, s[1..], key, key(s[0]));
      forall i, j | 0 <= i < j < |r| ensures DateLe(key(r[i]), key(r[j])) {
        if i == 0 {
          assert r[j] == rest[j - 1];
        } else {
          assert r[i] == rest[i - 1] && r[j] == rest[j - 1];
        }
      }
    }
  }

  /** Every key is at least `b`. */
  ghost predicate AllFrom<T>(b: Date, s: seq<T>, key: T -> Date) {
    forall i :: 0 <= i < |s| ==> DateLe(b, key(s[i]))
  }

  /** Inserting an element whose key is at least `b` keeps every key at least `b`. */
  lemma {:induction false} InsertByBound<T>(x: T, s: seq<T>, key: T -> Date, b: Date)
    requires AllFrom(b, s, key) && DateLe(b, key(x))
    ensures AllFrom(b, InsertBy(x, s, key), key)
    decreases |s|
  {
    if s != [] && !DateLe(key(x), key(s[0])) {
      assert AllFrom(b, s[1..], key) by {
        forall i | 0 <= i < |s| - 1 ensures DateLe(b, key(s[1..][i])) {
          assert s[1..][i] == s[i + 1];
        }
      }
      InsertByBound(x, s[1..], key, b);
      var r := InsertBy(x, s, key);
      forall i | 0 <= i < |r| ensures DateLe(b, key(r[i])) {
        if i > 0 {
          assert r[i] == InsertBy(x, s[1..], key)[i - 1];
        }
      }
    }
  }

  /** The elements with key `k` of a sequence with a first element. */
  lemma WithKeyCons<T>(y: T, t: seq<T>, k: Date, key: T -> Date)
    ensures WithKey([y] + t, k, key) == (if key(y) == k then [y] else []) + WithKey(t, k, key)
  {
    assert ([y] + t)[1..] == t;
  }

  /** Prefixes of which one is empty can be swapped. */
  lemma SwapEmpty<T>(a: seq<T>, b: seq<T>, w: seq<T>)
    requires a == [] || b == []
    ensures a + (b + w) == b + (a + w)
  {
    if a == [] {
      assert a + (b + w) == b + w == b + (a + w);
    } else {
      assert a + (b + w) == a + w == b + (a + w);
    }
  }

  lemma {:induction false} InsertByStable<T>(x: T, s: seq<T>, k: Date, key: T -> Date)
    ensures WithKey(InsertBy(x, s, key), k, key) == (if key(x) == k then [x] else []) + WithKey(s, k, key)
    decreases |s|
  {
    var hx := if key(x) == k then [x] else [];
    if s == [] {
      WithKeyCons(x, [], k, key);
      assert [x] + [] == [x];
    } else if DateLe(key(x), key(s[0])) {
      WithKeyCons(x, s, k, key);
    } else {
      var rest := InsertBy(x, s[1..], key);
      var hs := if key(s[0]) == k then [s[0]] else [];
      var w := WithKey(s[1..], k, key);
      assert InsertBy(x, s, key) == [s[0]] + rest;
      InsertByStable(x, s[1..], k, key);
      WithKeyCons(s[0], rest, k, key);
      assert WithKey(InsertBy(x, s, key), k, key) == hs + (hx + w);
      assert WithKey(s, k, key) == hs + w;
      assert hs == [] || hx == [];
      SwapEmpty(hs, hx, w);
    }
  }

  /**
   * `sorted(s, key=key)`: a permutation of `s`, ascending by key, and the elements sharing a key keep
   * their relative order.
   */
  function SortBy<T>(s: seq<T>, key: T -> Date): (r: seq<T>)
    ensures multiset(r) == multiset(s)
    ensures SortedBy(r, key)
    ensures forall k :: WithKey(r, k, key) == WithKey(s, k, key)
  {
    if s == [] then []
    else
      assert s == [s[0]] + s[1..];
      var rest := SortBy(s[1..], key);
      InsertBySorted(s[0], rest, key);
      forall k ensures WithKey(InsertBy(s[0], rest, key), k, key) == WithKey(s, k, key) {
        InsertByStable(s[0], rest, k, key);
      }
      InsertBy(s[0], rest, key)
  }
}
