/**
 * Counting with dictionaries, as summarize_orders does it: `d[k] = d.get(k, 0) + 1` on three
 * dictionaries (per status, per status and category, per category) and a running total.
 */
module Tallies {
  import opened Wrappers

  /** `d.get(k, 0)`. */
  function Get<K(!new)>(m: map<K, nat>, k: K): nat {
    if k in m then m[k] else 0
  }

  /** `d[k] = d.get(k, 0) + 1`. */
  function Bump<K(!new)>(m: map<K, nat>, k: K): (r: map<K, nat>)
    ensures r.Keys == m.Keys + {k}
    ensures forall x :: Get(r, x) == Get(m, x) + (if x == k then 1 else 0)
  {
    m[k := Get(m, k) + 1]
  }

  /** The sum of the values of a dictionary. */
  ghost function MapSum<K(!new)>(m: map<K, nat>): nat
    decreases |m.Keys|
  {
    if m == map[] then 0
    else
      var k :| k in m;
      m[k] + MapSum(m - {k})
  }

  /** The sum does not depend on which key is taken out first. */
  lemma {:induction false} MapSumRemove<K(!new)>(m: map<K, nat>, k: K)
    requires k in m
    ensures MapSum(m) == m[k] + MapSum(m - {k})
    decreases |m.Keys|
  {
    var j :| j in m && MapSum(m) == m[j] + MapSum(m - {j});
    if j != k {
      var mj := m - {j};
      var mk := m - {k};
      assert |mj.Keys| < |m.Keys| by {
        assert mj.Keys < m.Keys;
      }
      MapSumRemove(mj, k);
      assert |mk.Keys| < |m.Keys| by {
        assert mk.Keys < m.Keys;
      }
      MapSumRemove(mk, j);
      assert mj - {k} == mk - {j};
    }
  }

  /** Adding one to a key adds one to the sum. */
  lemma MapSumBump<K(!new)>(m: map<K, nat>, k: K)
    ensures MapSum(Bump(m, k)) == MapSum(m) + 1
  {
    var r := Bump(m, k);
    MapSumRemove(r, k);
    assert r - {k} == m - {k};
    if k in m {
      MapSumRemove(m, k);
    } else {
      assert m - {k} == m;
    }
  }

  /** A dictionary of zeros sums to zero. */
  lemma {:induction false} MapSumZeros<K(!new)>(m: map<K, nat>)
    requires forall k :: k in m ==> m[k] == 0
    ensures MapSum(m) == 0
    decreases |m.Keys|
  {
    if m != map[] {
      var k :| k in m;
      MapSumRemove(m, k);
      assert (m - {k}).Keys < m.Keys;
      MapSumZeros(m - {k});
    }
  }

  /** The four accumulators of the loop. */
  datatype Tally<K(!new)> = Tally(perStatus: map<K, nat>, pivot: map<K, map<K, nat>>, totals: map<K, nat>, grand: nat)

  /**
   * One counted row with status `s` and category `j`: `per_status[s] += 1`,
   * `per_status_by_jenis.setdefault(s, {})[j] += 1`, `totals_by_jenis[j] += 1`, `grand_total += 1`.
   */
  function Step<K(!new)>(t: Tally<K>, s: K, j: K): Tally<K> {
    var inner := if s in t.pivot then t.pivot[s] else map[];
    Tally(Bump(t.perStatus, s), t.pivot[s := Bump(inner, j)], Bump(t.totals, j), t.grand + 1)
  }

  /** The accumulators after counting `entries` (status, category) in order, starting from `init`. */
  function Fold<K(!new)>(init: Tally<K>, entries: seq<(K, K)>): Tally<K> {
    if entries == [] then init
    else
      var e := entries[|entries| - 1];
      Step(Fold(init, entries[..|entries| - 1]), e.0, e.1)
  }

  /** The number of entries with status `s`. */
  function CountStatus<K(==)>(entries: seq<(K, K)>, s: K): nat {
    if entries == [] then 0
    else CountStatus(entries[..|entries| - 1], s) + (if entries[|entries| - 1].0 == s then 1 else 0)
  }

  /** The number of entries with category `j`. */
  function CountJenis<K(==)>(entries: seq<(K, K)>, j: K): nat {
    if entries == [] then 0
    else CountJenis(entries[..|entries| - 1], j) + (if entries[|entries| - 1].1 == j then 1 else 0)
  }

  /** The number of entries with status `s` and category `j`. */
  function CountCell<K(==)>(entries: seq<(K, K)>, s: K, j: K): nat {
    if entries == [] then 0
    else CountCell(entries[..|entries| - 1], s, j) + (if entries[|entries| - 1] == (s, j) then 1 else 0)
  }

  /** The totals agree with one another: the running total is each of the three sums. */
  ghost predicate Balanced<K(!new)>(t: Tally<K>) {
    MapSum(t.perStatus) == t.grand
    && MapSum(t.totals) == t.grand
    && t.pivot.Keys == t.perStatus.Keys
    && forall s :: s in t.pivot ==> MapSum(t.pivot[s]) == t.perStatus[s]
  }

  /** A step keeps the accumulators balanced. */
  lemma StepBalanced<K(!new)>(t: Tally<K>, s: K, j: K)
    requires Balanced(t)
    ensures Balanced(Step(t, s, j))
  {
    var t' := Step(t, s, j);
    assert MapSum(t'.perStatus) == t'.grand by {
      MapSumBump(t.perStatus, s);
    }
    assert MapSum(t'.totals) == t'.grand by {
      MapSumBump(t.totals, j);
    }
    StepPivotRows(t, s, j);
  }

  /** After a step, each status's row of the pivot still sums to that status's count. */
  lemma StepPivotRows<K(!new)>(t: Tally<K>, s: K, j: K)
    requires t.pivot.Keys == t.perStatus.Keys
    requires forall x :: x in t.pivot ==> MapSum(t.pivot[x]) == t.perStatus[x]
    ensures Step(t, s, j).pivot.Keys == Step(t, s, j).perStatus.Keys
    ensures forall x :: x in Step(t, s, j).pivot ==> MapSum(Step(t, s, j).pivot[x]) == Step(t, s, j).perStatus[x]
  {
    var t' := Step(t, s, j);
    var inner := if s in t.pivot then t.pivot[s] else map[];
    forall x | x in t'.pivot ensures MapSum(t'.pivot[x]) == t'.perStatus[x] {
      if x == s {
        MapSumBump(inner, j);
        if s !in t.pivot {
          assert inner == map[];
          assert s !in t.perStatus;
        }
        assert Get(t'.perStatus, s) == Get(t.perStatus, s) + 1;
      } else {
        assert Get(t'.perStatus, x) == Get(t.perStatus, x);
      }
    }
  }

  /** Counting from balanced accumulators gives balanced accumulators, and the total grows by the count. */
  lemma {:induction false} FoldBalanced<K(!new)>(init: Tally<K>, entries: seq<(K, K)>)
    requires Balanced(init)
    ensures Balanced(Fold(init, entries))
    ensures Fold(init, entries).grand == init.grand + |entries|
  {
    if entries != [] {
      var e := entries[|entries| - 1];
      FoldBalanced(init, entries[..|entries| - 1]);
      StepBalanced(Fold(init, entries[..|entries| - 1]), e.0, e.1);
    }
  }

  /** Each accumulator holds, per key, what it started with plus the number of matching entries. */
  lemma {:induction false} FoldCounts<K(!new)>(init: Tally<K>, entries: seq<(K, K)>, s: K, j: K)
    ensures Get(Fold(init, entries).perStatus, s) == Get(init.perStatus, s) + CountStatus(entries, s)
    ensures Get(Fold(init, entries).totals, j) == Get(init.totals, j) + CountJenis(entries, j)
    ensures Get(if s in Fold(init, entries).pivot then Fold(init, entries).pivot[s] else map[], j)
         == Get(if s in init.pivot then init.pivot[s] else map[], j) + CountCell(entries, s, j)
  {
    if entries != [] {
      var prefix := entries[..|entries| - 1];
      FoldCounts(init, prefix, s, j);
      var e := entries[|entries| - 1];
      StepCounts(Fold(init, prefix), e.0, e.1, s, j);
    }
  }

  /** One step adds one to the counts of its own status, category and cell, and nothing elsewhere. */
  lemma StepCounts<K(!new)>(t: Tally<K>, a: K, b: K, s: K, j: K)
    ensures var t' := Step(t, a, b);
      Get(t'.perStatus, s) == Get(t.perStatus, s) + (if a == s then 1 else 0)
      && Get(t'.totals, j) == Get(t.totals, j) + (if b == j then 1 else 0)
      && Get(if s in t'.pivot then t'.pivot[s] else map[], j)
         == Get(if s in t.pivot then t.pivot[s] else map[], j) + (if (a, b) == (s, j) then 1 else 0)
  {
    var inner := if a in t.pivot then t.pivot[a] else map[];
    assert Get(Bump(inner, b), j) == Get(inner, j) + (if b == j then 1 else 0);
  }

  /** A status is a key exactly when it started as one or some entry carries it. */
  lemma {:induction false} FoldStatusKey<K(!new)>(init: Tally<K>, entries: seq<(K, K)>, s: K)
    ensures s in Fold(init, entries).perStatus <==>
      s in init.perStatus || exists i :: 0 <= i < |entries| && entries[i].0 == s
  {
    if entries != [] {
      var n := |entries| - 1;
      FoldStatusKey(init, entries[..n], s);
      StepKeys(Fold(init, entries[..n]), entries[n].0, entries[n].1);
      CarriesSnoc(entries, s, true);
    }
  }

  /** A category is a key exactly when it started as one or some entry carries it. */
  lemma {:induction false} FoldJenisKey<K(!new)>(init: Tally<K>, entries: seq<(K, K)>, j: K)
    ensures j in Fold(init, entries).totals <==>
      j in init.totals || exists i :: 0 <= i < |entries| && entries[i].1 == j
  {
    if entries != [] {
      var n := |entries| - 1;
      FoldJenisKey(init, entries[..n], j);
      StepKeys(Fold(init, entries[..n]), entries[n].0, entries[n].1);
      CarriesSnoc(entries, j, false);
    }
  }

  /** One step adds its status and its category as keys and no other. */
  lemma StepKeys<K(!new)>(t: Tally<K>, s: K, j: K)
    ensures Step(t, s, j).perStatus.Keys == t.perStatus.Keys + {s}
    ensures Step(t, s, j).totals.Keys == t.totals.Keys + {j}
  {
  }

  /** Some entry carries `k` (as status, or as category) exactly when the last one or an earlier one does. */
  lemma CarriesSnoc<K>(entries: seq<(K, K)>, k: K, status: bool)
    requires entries != []
    ensures var n := |entries| - 1;
      (exists i :: 0 <= i < |entries| && (if status then entries[i].0 else entries[i].1) == k) <==>
      (exists i :: 0 <= i < n && (if status then entries[..n][i].0 else entries[..n][i].1) == k)
      || (if status then entries[n].0 else entries[n].1) == k
  {
    var n := |entries| - 1;
    if exists i :: 0 <= i < |entries| && (if status then entries[i].0 else entries[i].1) == k {
      var i :| 0 <= i < |entries| && (if status then entries[i].0 else entries[i].1) == k;
      if i < n {
        assert entries[..n][i] == entries[i];
      }
    }
    if exists i :: 0 <= i < n && (if status then entries[..n][i].0 else entries[..n][i].1) == k {
      var i :| 0 <= i < n && (if status then entries[..n][i].0 else entries[..n][i].1) == k;
      assert entries[i] == entries[..n][i];
    }
  }

  /** The (status, category) pairs of the rows `entry` counts, in row order. */
  function Picks<R, K>(data: seq<R>, entry: R -> Option<(K, K)>): seq<(K, K)> {
    if data == [] then []
    else
      var last := data[|data| - 1];
      Picks(data[..|data| - 1], entry) + (if entry(last).Some? then [entry(last).value] else [])
  }

  /** Every pair comes from a counted row. */
  lemma {:induction false} PicksFrom<R, K>(data: seq<R>, entry: R -> Option<(K, K)>, i: nat)
    requires i < |Picks(data, entry)|
    ensures exists k :: 0 <= k < |data| && entry(data[k]) == Some(Picks(data, entry)[i])
  {
    var n := |data| - 1;
    var prefix := Picks(data[..n], entry);
    if i < |prefix| {
      PicksFrom(data[..n], entry, i);
      var k :| 0 <= k < n && entry(data[..n][k]) == Some(prefix[i]);
      assert data[..n][k] == data[k];
    } else {
      assert entry(data[n]) == Some(Picks(data, entry)[i]);
    }
  }

  /** The number of counted rows: as many pairs as rows `entry` accepts. */
  function CountedRows<R, K>(data: seq<R>, entry: R -> Option<(K, K)>): (n: nat)
    ensures n <= |data|
  {
    if data == [] then 0
    else CountedRows(data[..|data| - 1], entry) + (if entry(data[|data| - 1]).Some? then 1 else 0)
  }

  lemma {:induction false} PicksLength<R, K>(data: seq<R>, entry: R -> Option<(K, K)>)
    ensures |Picks(data, entry)| == CountedRows(data, entry)
  {
    if data != [] {
      PicksLength(data[..|data| - 1], entry);
    }
  }

  /** The counting loop: one step per row that `entry` accepts, skipping the others. */
  method CountRows<R, K(!new)>(data: seq<R>, entry: R -> Option<(K, K)>, init: Tally<K>) returns (t: Tally<K>)
    ensures t == Fold(init, Picks(data, entry))
  {
    t := init;
    var i := 0;
    while i < |data|
      invariant 0 <= i <= |data|
      invariant t == Fold(init, Picks(data[..i], entry))
    {
      var e := entry(data[i]);
      PicksSnoc(data, i, entry);
      if e.Some? {
        FoldSnoc(init, Picks(data[..i], entry), e.value);
        t := Step(t, e.value.0, e.value.1);
      }
      i := i + 1;
    }
    assert data[..i] == data;
  }

  lemma PicksSnoc<R, K>(data: seq<R>, i: nat, entry: R -> Option<(K, K)>)
    requires i < |data|
    ensures entry(data[i]).Some? ==> Picks(data[..i + 1], entry) == Picks(data[..i], entry) + [entry(data[i]).value]
    ensures entry(data[i]).None? ==> Picks(data[..i + 1], entry) == Picks(data[..i], entry)
  {
    assert data[..i + 1][..i] == data[..i];
  }

  lemma FoldSnoc<K(!new)>(init: Tally<K>, entries: seq<(K, K)>, e: (K, K))
    ensures Fold(init, entries + [e]) == Step(Fold(init, entries), e.0, e.1)
  {
    assert (entries + [e])[..|entries|] == entries;
  }
}
