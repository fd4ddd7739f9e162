/**
 * `sorted(d.items(), key=lambda x: (-x[1], x[0]))` on a dictionary of counts: the entries by count,
 * largest first, equal counts by name in Python's string order.
 */
module Ranking {
  import opened Text

  /** `a` comes before `b`: a larger count, or the same count and a smaller name. */
  predicate RankBefore(a: (string, nat), b: (string, nat)) {
    a.1 > b.1 || (a.1 == b.1 && StrLess(a.0, b.0))
  }

  lemma RankIrreflexive(a: (string, nat))
    ensures !RankBefore(a, a)
  {
    StrLessIrreflexive(a.0);
  }

  lemma RankTransitive(a: (string, nat), b: (string, nat), c: (string, nat))
    requires RankBefore(a, b) && RankBefore(b, c)
    ensures RankBefore(a, c)
  {
    if a.1 == b.1 && b.1 == c.1 {
      StrLessTransitive(a.0, b.0, c.0);
    }
  }

  /** Entries with different names are always ordered one way or the other. */
  lemma RankTotal(a: (string, nat), b: (string, nat))
    requires a.0 != b.0
    ensures RankBefore(a, b) || RankBefore(b, a)
  {
    StrLessTotal(a.0, b.0);
  }

  lemma RankAsymmetric(a: (string, nat), b: (string, nat))
    requires RankBefore(a, b)
    ensures !RankBefore(b, a)
  {
    if RankBefore(b, a) {
      RankTransitive(a, b, a);
      RankIrreflexive(a);
    }
  }

  /** Strictly ascending in the ranking order. */
  predicate Ranked(s: seq<(string, nat)>) {
    forall i, j :: 0 <= i < j < |s| ==> RankBefore(s[i], s[j])
  }

  /** `s` lists exactly the entries of `m`, in ranking order. */
  ghost predicate Ranks(s: seq<(string, nat)>, m: map<string, nat>) {
    Ranked(s) && forall p :: p in s <==> p.0 in m && p.1 == m[p.0]
  }

  /** `p` put in its place in a ranked sequence. */
  function InsertRanked(p: (string, nat), s: seq<(string, nat)>): seq<(string, nat)> {
    if s == [] then [p]
    else if RankBefore(p, s[0]) then [p] + s
    else [s[0]] + InsertRanked(p, s[1..])
  }

  lemma {:induction false} InsertRankedSpec(p: (string, nat), s: seq<(string, nat)>)
    requires Ranked(s)
    requires forall q :: q in s ==> q.0 != p.0
    ensures Ranked(InsertRanked(p, s))
    ensures forall q :: q in InsertRanked(p, s) <==> q == p || q in s
    ensures |InsertRanked(p, s)| == |s| + 1
  {
    if s != [] && !RankBefore(p, s[0]) {
      var rest := InsertRanked(p, s[1..]);
      assert Ranked(s[1..]);
      InsertRankedSpec(p, s[1..]);
      RankTotal(p, s[0]);
      forall j | 0 <= j < |rest| ensures RankBefore(s[0], rest[j]) {
        if rest[j] != p {
          assert rest[j] in s[1..];
          var k :| 0 <= k < |s| - 1 && s[1..][k] == rest[j];
          assert s[k + 1] == rest[j];
        }
      }
      assert s == [s[0]] + s[1..];
    } else if s != [] {
      forall j | 1 <= j <= |s| ensures RankBefore(p, ([p] + s)[j]) {
        if j > 1 {
          RankTransitive(p, s[0], s[j - 1]);
        }
      }
    }
  }

  /** Two ranked listings of the same entries are the same listing. */
  lemma {:induction false} RankedUnique(a: seq<(string, nat)>, b: seq<(string, nat)>)
    requires Ranked(a) && Ranked(b)
    requires forall p :: p in a <==> p in b
    ensures a == b
    decreases |a| + |b|, if a == [] then 1 else 0
  {
    if a == [] {
      if b != [] {
        RankedUnique(b, a);
      }
    } else {
      assert a[0] in b;
      assert b != [];
      if a[0] != b[0] {
        assert b[0] in a;
        var i :| 0 <= i < |a| && a[i] == b[0];
        var j :| 0 <= j < |b| && b[j] == a[0];
        assert RankBefore(a[0], b[0]);
        assert RankBefore(b[0], a[0]);
        RankAsymmetric(a[0], b[0]);
      }
      forall p ensures p in a[1..] <==> p in b[1..] {
        if p in a[1..] {
          var i :| 1 <= i < |a| && a[i] == p;
          RankIrreflexive(a[0]);
          assert p != a[0];
          assert p in b;
        }
        if p in b[1..] {
          var i :| 1 <= i < |b| && b[i] == p;
          RankIrreflexive(b[0]);
          assert p != b[0];
          assert p in a;
        }
      }
      assert Ranked(a[1..]) && Ranked(b[1..]);
      RankedUnique(a[1..], b[1..]);
      assert a == [a[0]] + a[1..] && b == [b[0]] + b[1..];
    }
  }

  /** Building the ranked listing of a dictionary's entries, one entry at a time. */
  method RankEntries(m: map<string, nat>) returns (s: seq<(string, nat)>)
    ensures Ranks(s, m)
    ensures |s| == |m|
  {
    s := [];
    var rest := m;
    while rest != map[]
      invariant rest.Keys <= m.Keys
      invariant forall k :: k in rest ==> rest[k] == m[k]
      invariant Ranked(s)
      invariant forall p :: p in s <==> p.0 in m && p.0 !in rest && p.1 == m[p.0]
      invariant |s| + |rest| == |m|
      decreases |rest|
    {
      var k :| k in rest;
      InsertRankedSpec((k, rest[k]), s);
      s := InsertRanked((k, rest[k]), s);
      assert (rest - {k}).Keys == rest.Keys - {k};
      rest := rest - {k};
    }
  }
}
