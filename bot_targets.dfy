/**
 * Where the bot sends its messages: the admin chat ids of `ADMIN_CHAT_IDS`, the report targets of
 * `ADMIN_TARGETS` (a chat id, optionally `:topic`), both lists separated by commas or newlines, and the
 * de-duplication of the targets before the scheduled report goes out. The environment is a parameter.
 */
module BotTargets {
  import opened Wrappers
  import opened Text
  import opened Sequences
  import opened BotOutput

  /** A chat id and, for a forum topic, its thread id. */
  type Target = (int, Option<int>)

  /** `raw.replace("\n", ",").split(",")`. */
  function Pieces(raw: string): seq<string> {
    Split(ReplaceChar(raw, '\n', ','), ',')
  }

  /** The items of a list: each piece stripped, blank pieces skipped, and what `read` accepts, in order. */
  function Readings<T>(pieces: seq<string>, read: string -> Option<T>): seq<T>
    decreases |pieces|
  {
    if pieces == [] then []
    else Readings(pieces[..|pieces| - 1], read) + ReadOne(pieces[|pieces| - 1], read)
  }

  lemma ReadingsSnoc<T>(pieces: seq<string>, i: nat, read: string -> Option<T>)
    requires i < |pieces|
    ensures Readings(pieces[..i + 1], read) == Readings(pieces[..i], read) + ReadOne(pieces[i], read)
  {
    assert pieces[..i + 1][..i] == pieces[..i];
  }

  /** What one piece contributes: nothing when blank or unreadable, else the one item read. */
  function ReadOne<T>(piece: string, read: string -> Option<T>): seq<T> {
    var s := Strip(piece);
    if s == [] then []
    else
      match read(s)
      case Some(x) => [x]
      case None => []
  }

  /** `int(s)`, with a `ValueError` skipping the piece. */
  function AdminId(s: string): Option<int> {
    ParseInt(s)
  }

  /** `(int(a.strip()), int(b.strip()))` around the first `:`, or `(int(s), None)` without one. */
  function TargetOf(s: string): Option<Target> {
    if ':' in s then
      var i := IndexOf(s, ':');
      var a := ParseInt(Strip(s[..i]));
      var b := ParseInt(Strip(s[i + 1..]));
      if a.Some? && b.Some? then Some((a.value, Some(b.value))) else None
    else
      match ParseInt(s)
      case Some(n) => Some((n, None))
      case None => None
  }

  /** `os.getenv("ADMIN_TARGETS", "") or os.getenv("ADMIN_CHAT_IDS", "")`. */
  function TargetsSource(targetsEnv: string, chatIdsEnv: string): string {
    if targetsEnv != "" then targetsEnv else chatIdsEnv
  }

  /**
   * The loop both list readers run: strip each piece, skip it when blank, and append what `read`
   * makes of it, skipping the piece when `read` refuses it (the `ValueError` branch).
   */
  method ReadPieces<T>(parts: seq<string>, read: string -> Option<T>) returns (xs: seq<T>)
    ensures xs == Readings(parts, read)
  {
    xs := [];
    var i := 0;
    while i < |parts|
      invariant 0 <= i <= |parts|
      invariant xs == Readings(parts[..i], read)
    {
      ReadingsSnoc(parts, i, read);
      var s := Strip(parts[i]);
      if s != [] {
        var x := read(s);
        if x.Some? {
          xs := xs + [x.value];
        }
      }
      i := i + 1;
    }
    assert parts[..i] == parts;
  }

  /** `_get_admin_ids`: the loop over the pieces of `ADMIN_CHAT_IDS`. */
  method ParseAdminIds(raw: string) returns (ids: seq<int>)
    ensures ids == Readings(Pieces(raw), AdminId)
  {
    ids := ReadPieces(Pieces(raw), AdminId);
  }

  /** `_get_targets`: the loop over the pieces of `ADMIN_TARGETS`, or of `ADMIN_CHAT_IDS` when it is empty. */
  method ParseTargets(targetsEnv: string, chatIdsEnv: string) returns (targets: seq<Target>)
    ensures targets == Readings(Pieces(TargetsSource(targetsEnv, chatIdsEnv)), TargetOf)
  {
    var raw := if targetsEnv != "" then targetsEnv else chatIdsEnv;
    targets := ReadPieces(Pieces(raw), TargetOf);
  }

  /** The key of the target de-duplication: the whole `(chat, topic)` pair, as `t not in seen` compares it. */
  function TargetKey(t: Target): Target {
    t
  }

  /** `if t not in seen: seen.add(t); targets.append(t)`. */
  method DedupTargets(raw: seq<Target>) returns (targets: seq<Target>)
    ensures targets == Dedup(raw, TargetKey)
  {
    targets := DedupBy(raw, TargetKey);
  }

  // ----- What the lists promise -----

  /** Every item read comes from a non-blank piece that `read` accepts, stripped. */
  lemma {:induction false} ReadingsSound<T>(pieces: seq<string>, read: string -> Option<T>)
    ensures forall x :: x in Readings(pieces, read) ==>
      exists i :: 0 <= i < |pieces| && Strip(pieces[i]) != [] && read(Strip(pieces[i])) == Some(x)
    decreases |pieces|
  {
    if pieces != [] {
      var n := |pieces| - 1;
      ReadingsSound(pieces[..n], read);
      forall x | x in Readings(pieces, read)
        ensures exists i :: 0 <= i < |pieces| && Strip(pieces[i]) != [] && read(Strip(pieces[i])) == Some(x)
      {
        if x in Readings(pieces[..n], read) {
          var i :| 0 <= i < n && Strip(pieces[..n][i]) != [] && read(Strip(pieces[..n][i])) == Some(x);
          assert pieces[..n][i] == pieces[i];
        } else {
          assert Strip(pieces[n]) != [] && read(Strip(pieces[n])) == Some(x);
        }
      }
    }
  }

  /** Each element shown as text. */
  function ShowEach<T>(xs: seq<T>, show: T -> string): (r: seq<string>)
    ensures |r| == |xs|
    ensures forall i :: 0 <= i < |xs| ==> r[i] == show(xs[i])
  {
    seq(|xs|, i requires 0 <= i < |xs| => show(xs[i]))
  }

  /** A non-blank piece that `strip` leaves as it is. */
  predicate Trimmed(s: string) {
    s != [] && Strip(s) == s
  }

  /** Reading back pieces that are already trimmed, non-blank and readable gives the elements back. */
  lemma {:induction false} ReadingsShown<T>(xs: seq<T>, show: T -> string, read: string -> Option<T>)
    requires forall i :: 0 <= i < |xs| ==> Trimmed(show(xs[i]))
    requires forall i :: 0 <= i < |xs| ==> read(show(xs[i])) == Some(xs[i])
    ensures Readings(ShowEach(xs, show), read) == xs
    decreases |xs|
  {
    if xs != [] {
      var n := |xs| - 1;
      var p := ShowEach(xs, show);
      assert Readings(p[..n], read) == xs[..n] by {
        assert p[..n] == ShowEach(xs[..n], show);
        ReadingsShown(xs[..n], show, read);
      }
      assert ReadOne(p[n], read) == [xs[n]] by {
        ReadOneShown(p[n], read, xs[n]);
      }
      ReadingsLast(p, read);
      SnocSplit(xs);
    }
  }

  lemma ReadingsLast<T>(pieces: seq<string>, read: string -> Option<T>)
    requires pieces != []
    ensures Readings(pieces, read) == Readings(pieces[..|pieces| - 1], read) + ReadOne(pieces[|pieces| - 1], read)
  {
  }

  /** A clean, non-blank piece that reads as `x` contributes just `x`. */
  lemma ReadOneShown<T>(piece: string, read: string -> Option<T>, x: T)
    requires Trimmed(piece) && read(piece) == Some(x)
    ensures ReadOne(piece, read) == [x]
  {
  }

  /** A character absent from every part and the separator is absent from the joined text. */
  lemma {:induction false} JoinLacks(parts: seq<string>, sep: string, c: char)
    requires c !in sep
    requires forall i :: 0 <= i < |parts| ==> c !in parts[i]
    ensures c !in Join(parts, sep)
    decreases |parts|
  {
    if |parts| > 1 {
      JoinLacks(parts[1..], sep, c);
      assert forall x: string, y: string :: c in x + y ==> c in x || c in y by {
        forall x: string, y: string | c in x + y ensures c in x || c in y {
          var k :| 0 <= k < |x + y| && (x + y)[k] == c;
          if k < |x| { assert x[k] == c; } else { assert y[k - |x|] == c; }
        }
      }
    }
  }

  lemma ReplaceConcat(a: string, b: string, x: char, y: char)
    ensures ReplaceChar(a + b, x, y) == ReplaceChar(a, x, y) + ReplaceChar(b, x, y)
  {
  }

  /** A list written one item per line reads like the same list written with commas. */
  lemma {:induction false} NewlinesAsCommas(parts: seq<string>)
    requires forall i :: 0 <= i < |parts| ==> '\n' !in parts[i]
    ensures ReplaceChar(Join(parts, "\n"), '\n', ',') == ReplaceChar(Join(parts, ","), '\n', ',')
    decreases |parts|
  {
    if |parts| > 1 {
      NewlinesAsCommas(parts[1..]);
      ReplaceConcat(parts[0] + "\n", Join(parts[1..], "\n"), '\n', ',');
      ReplaceConcat(parts[0] + ",", Join(parts[1..], ","), '\n', ',');
      ReplaceConcat(parts[0], "\n", '\n', ',');
      ReplaceConcat(parts[0], ",", '\n', ',');
    }
  }

  /** Pieces of a comma-joined list of items free of commas and newlines are those items. */
  lemma PiecesOfJoin(parts: seq<string>)
    requires parts != []
    requires forall i :: 0 <= i < |parts| ==> ',' !in parts[i] && '\n' !in parts[i]
    ensures Pieces(Join(parts, ",")) == parts
  {
    JoinLacks(parts, ",", '\n');
    assert ReplaceChar(Join(parts, ","), '\n', ',') == Join(parts, ",");
    SplitJoin(parts, ',');
  }

  /** `str(n)` has no separator, colon or surrounding space, and is never empty. */
  lemma ShowIntPlain(n: int)
    ensures ShowInt(n) != [] && Strip(ShowInt(n)) == ShowInt(n)
    ensures ',' !in ShowInt(n) && '\n' !in ShowInt(n) && ':' !in ShowInt(n)
  {
    ShowIntShape(n);
    var s := ShowInt(n);
    assert !IsSpace(s[0]) && !IsSpace(s[|s| - 1]);
  }

  /** A target as it is written in `ADMIN_TARGETS`. */
  function ShowTarget(t: Target): string {
    match t.1
    case None => ShowInt(t.0)
    case Some(k) => ShowInt(t.0) + ":" + ShowInt(k)
  }

  /** `a:b` with a colon-free `a` splits at that colon. */
  lemma ColonSplit(a: string, b: string)
    requires ':' !in a
    ensures ':' in a + ":" + b
    ensures IndexOf(a + ":" + b, ':') == |a|
    ensures (a + ":" + b)[..|a|] == a && (a + ":" + b)[|a| + 1..] == b
  {
    IndexOfAfterPrefix(a, ':', b);
    var s := a + ":" + b;
    assert s[..|a|] == a && s[|a| + 1..] == b;
  }

  lemma ShowTopicPlain(a: string, b: string)
    requires a != [] && b != [] && !IsSpace(a[0]) && !IsSpace(b[|b| - 1])
    requires ',' !in a && ',' !in b && '\n' !in a && '\n' !in b
    ensures Strip(a + ":" + b) == a + ":" + b
    ensures ',' !in a + ":" + b && '\n' !in a + ":" + b
  {
    var s := a + ":" + b;
    assert s[0] == a[0] && s[|s| - 1] == b[|b| - 1];
    assert !IsSpace(s[0]) && !IsSpace(s[|s| - 1]);
    InJoined(a, b, ':', ',');
    InJoined(a, b, ':', '\n');
  }

  /** A target written as text is a single trimmed piece and reads back as itself. */
  lemma ShowTargetRead(t: Target)
    ensures ShowTarget(t) != [] && Strip(ShowTarget(t)) == ShowTarget(t)
    ensures ',' !in ShowTarget(t) && '\n' !in ShowTarget(t)
    ensures TargetOf(ShowTarget(t)) == Some(t)
  {
    ShowIntPlain(t.0);
    ParseShowInt(t.0);
    if t.1.Some? {
      var a := ShowInt(t.0);
      var b := ShowInt(t.1.value);
      ShowIntPlain(t.1.value);
      ParseShowInt(t.1.value);
      ColonSplit(a, b);
      ShowTopicPlain(a, b);
    }
  }

  /** Chat ids written with commas, or one per line, read back as the same ids in the same order. */
  lemma AdminIdsRoundTrip(ids: seq<int>, sep: string)
    requires sep == "," || sep == "\n"
    ensures Readings(Pieces(Join(ShowEach(ids, ShowInt), sep)), AdminId) == ids
  {
    var shown := ShowEach(ids, ShowInt);
    forall i | 0 <= i < |ids|
      ensures shown[i] != [] && Strip(shown[i]) == shown[i] && ',' !in shown[i] && '\n' !in shown[i]
      ensures AdminId(shown[i]) == Some(ids[i])
    {
      ShowIntPlain(ids[i]);
      ParseShowInt(ids[i]);
    }
    ReadingsShown(ids, ShowInt, AdminId);
    if ids == [] {
      assert Pieces(Join(shown, sep)) == [""];
    } else {
      NewlinesAsCommas(shown);
      PiecesOfJoin(shown);
    }
  }

  /** Targets written with commas, or one per line, read back as the same targets in the same order. */
  lemma TargetsRoundTrip(ts: seq<Target>, sep: string)
    requires sep == "," || sep == "\n"
    ensures Readings(Pieces(Join(ShowEach(ts, ShowTarget), sep)), TargetOf) == ts
  {
    var shown := ShowEach(ts, ShowTarget);
    forall i | 0 <= i < |ts|
      ensures shown[i] != [] && Strip(shown[i]) == shown[i] && ',' !in shown[i] && '\n' !in shown[i]
      ensures TargetOf(shown[i]) == Some(ts[i])
    {
      ShowTargetRead(ts[i]);
    }
    ReadingsShown(ts, ShowTarget, TargetOf);
    if ts == [] {
      assert Pieces(Join(shown, sep)) == [""];
    } else {
      NewlinesAsCommas(shown);
      PiecesOfJoin(shown);
    }
  }

  /** The de-duplicated targets: each target once, all of them, in the order first listed. */
  lemma DedupTargetsSpec(raw: seq<Target>)
    ensures var out := Dedup(raw, TargetKey);
      (forall i, j :: 0 <= i < j < |out| ==> out[i] != out[j])
      && (forall t :: t in out <==> t in raw)
      && IsSubsequence(out, raw)
  {
    var out := Dedup(raw, TargetKey);
    DedupDistinct(raw, TargetKey);
    DedupKeys(raw, TargetKey);
    DedupSubsequence(raw, TargetKey);
    forall t ensures t in out <==> t in raw {
      assert t in out ==> TargetKey(t) in KeySet(out, TargetKey);
      assert t in raw ==> TargetKey(t) in KeySet(raw, TargetKey);
    }
  }
}
