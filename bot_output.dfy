/**
 * The reply-building loops of bot.py: the `(ORDER_ID, NO_SC)` de-duplication (and the target
 * de-duplication of the scheduled report), the greedy message chunker with its budgets, the
 * `/summarybranch` splitting, `_days_between` and `_highlight`.
 */
module BotOutput {
  import opened Wrappers
  import opened Text
  import opened Calendar
  import opened Sequences
  import opened SheetCore

  // ----- De-duplication -----

  /** The keys of the elements of `s`. */
  function KeySet<T(==), K(==)>(s: seq<T>, key: T -> K): set<K> {
    set x | x in s :: key(x)
  }

  lemma KeySetAppend<T, K>(s: seq<T>, x: T, key: T -> K)
    ensures KeySet(s + [x], key) == KeySet(s, key) + {key(x)}
  {
    assert forall y :: y in s + [x] <==> y in s || y == x;
  }

  /** The elements of `xs` whose key has not been seen before, in order. */
  function Dedup<T(==), K(==)>(xs: seq<T>, key: T -> K): seq<T> {
    if xs == [] then []
    else
      var d := Dedup(xs[..|xs| - 1], key);
      var x := xs[|xs| - 1];
      if key(x) in KeySet(d, key) then d else d + [x]
  }

  /** `seen, dedup = set(), []; for r in xs: if key in seen: continue; seen.add(key); dedup.append(r)`. */
  method DedupBy<T(==), K(==)>(xs: seq<T>, key: T -> K) returns (out: seq<T>)
    ensures out == Dedup(xs, key)
  {
    var seen: set<K> := {};
    out := [];
    var i := 0;
    while i < |xs|
      invariant 0 <= i <= |xs|
      invariant out == Dedup(xs[..i], key)
      invariant seen == KeySet(out, key)
    {
      assert xs[..i + 1][..i] == xs[..i];
      var k := key(xs[i]);
      if k !in seen {
        KeySetAppend(out, xs[i], key);
        seen := seen + {k};
        out := out + [xs[i]];
      }
      i := i + 1;
    }
    assert xs[..i] == xs;
  }

  /** No key is lost and none is added. */
  lemma {:induction false} DedupKeys<T, K>(xs: seq<T>, key: T -> K)
    ensures KeySet(Dedup(xs, key), key) == KeySet(xs, key)
  {
    if xs != [] {
      var n := |xs| - 1;
      DedupKeys(xs[..n], key);
      KeySetAppend(xs[..n], xs[n], key);
      assert xs[..n] + [xs[n]] == xs;
      var d := Dedup(xs[..n], key);
      if key(xs[n]) !in KeySet(d, key) {
        KeySetAppend(d, xs[n], key);
      }
    }
  }

  /** The kept elements have pairwise distinct keys. */
  lemma {:induction false} DedupDistinct<T, K>(xs: seq<T>, key: T -> K)
    ensures forall i, j :: 0 <= i < j < |Dedup(xs, key)| ==> key(Dedup(xs, key)[i]) != key(Dedup(xs, key)[j])
  {
    if xs != [] {
      var n := |xs| - 1;
      DedupDistinct(xs[..n], key);
      var d := Dedup(xs[..n], key);
      if key(xs[n]) !in KeySet(d, key) {
        forall i | 0 <= i < |d| ensures key(d[i]) != key(xs[n]) {
          assert d[i] in d;
        }
      }
    }
  }

  /** The result keeps input order: it is the input with some elements left out. */
  lemma {:induction false} DedupSubsequence<T, K>(xs: seq<T>, key: T -> K)
    ensures IsSubsequence(Dedup(xs, key), xs)
  {
    if xs == [] {
      EmptySubsequence(xs);
    } else {
      var n := |xs| - 1;
      DedupSubsequence(xs[..n], key);
      assert xs[..n] + [xs[n]] == xs;
      var d := Dedup(xs[..n], key);
      if key(xs[n]) in KeySet(d, key) {
        SubsequenceExtend(d, xs[..n], xs[n]);
      } else {
        SubsequenceAppend(d, xs[..n], xs[n]);
      }
    }
  }

  /** Each kept element is the first one in the input with its key. */
  lemma {:induction false} DedupFirst<T, K>(xs: seq<T>, key: T -> K, k: nat)
    requires k < |Dedup(xs, key)|
    ensures exists i :: (0 <= i < |xs| && xs[i] == Dedup(xs, key)[k] &&
                         forall j :: 0 <= j < i ==> key(xs[j]) != key(xs[i]))
  {
    var n := |xs| - 1;
    var d := Dedup(xs[..n], key);
    if k < |d| {
      DedupFirst(xs[..n], key, k);
      var i :| 0 <= i < n && xs[..n][i] == d[k] && forall j :: 0 <= j < i ==> key(xs[..n][j]) != key(xs[..n][i]);
      assert xs[i] == Dedup(xs, key)[k];
      assert forall j :: 0 <= j < i ==> xs[..n][j] == xs[j];
    } else {
      DedupKeys(xs[..n], key);
      forall j | 0 <= j < n ensures key(xs[j]) != key(xs[n]) {
        assert xs[..n][j] == xs[j];
        assert xs[j] in xs[..n];
      }
    }
  }

  /** A sequence whose keys are already distinct is left unchanged. */
  lemma {:induction false} DedupDistinctUnchanged<T, K>(xs: seq<T>, key: T -> K)
    requires forall i, j :: 0 <= i < j < |xs| ==> key(xs[i]) != key(xs[j])
    ensures Dedup(xs, key) == xs
  {
    if xs != [] {
      var n := |xs| - 1;
      var p := xs[..n];
      assert forall i, j :: 0 <= i < j < |p| ==> key(p[i]) != key(p[j]) by {
        forall i, j | 0 <= i < j < |p| ensures key(p[i]) != key(p[j]) {
          assert p[i] == xs[i] && p[j] == xs[j];
        }
      }
      DedupDistinctUnchanged(p, key);
      assert key(xs[n]) !in KeySet(p, key) by {
        forall y | y in p ensures key(y) != key(xs[n]) {
          var j :| 0 <= j < n && p[j] == y;
          assert xs[j] == y;
        }
      }
      assert p + [xs[n]] == xs;
    }
  }

  /** De-duplicating twice is de-duplicating once. */
  lemma DedupIdempotent<T, K>(xs: seq<T>, key: T -> K)
    ensures Dedup(Dedup(xs, key), key) == Dedup(xs, key)
  {
    DedupDistinct(xs, key);
    DedupDistinctUnchanged(Dedup(xs, key), key);
  }

  /** The key the replies de-duplicate by. */
  function OrderKey(o: Order): (string, string) {
    (o.orderId, o.noSc)
  }

  /** The de-duplication of the query results before they are rendered. */
  method DedupOrders(results: seq<Order>) returns (out: seq<Order>)
    ensures out == Dedup(results, OrderKey)
  {
    out := DedupBy(results, OrderKey);
  }

  /** `shown, more = dedup[:10], max(0, len(dedup) - 10)`: the /search page and the count left over. */
  function SearchPage(dedup: seq<Order>): (r: (seq<Order>, nat))
    ensures r.0 <= dedup && |r.0| <= 10
    ensures |r.0| + r.1 == |dedup|
    ensures r.0 == dedup[..if |dedup| <= 10 then |dedup| else 10]
  {
    if |dedup| <= 10 then (dedup, 0) else (dedup[..10], |dedup| - 10)
  }

  // ----- The chunker -----

  /** The messages sent so far and the buffer being filled. */
  datatype ChunkState = ChunkState(chunks: seq<string>, buf: string)

  /** One pass of `if len(buf) + len(line) + len(sep) > budget: flush; buf = line else append`. */
  function ChunkStep(st: ChunkState, line: string, budget: int, sep: string): ChunkState {
    if |st.buf| + |line| + |sep| > budget then ChunkState(st.chunks + [st.buf], line)
    else ChunkState(st.chunks, if st.buf == "" then line else st.buf + sep + line)
  }

  /** The state after the lines, starting from `buf = title`. */
  function ChunkFold(title: string, lines: seq<string>, budget: int, sep: string): ChunkState {
    if lines == [] then ChunkState([], title)
    else ChunkStep(ChunkFold(title, lines[..|lines| - 1], budget, sep), lines[|lines| - 1], budget, sep)
  }

  /** The messages: the flushed chunks, then `buf` when it is not empty. */
  function Chunks(title: string, lines: seq<string>, budget: int, sep: string): seq<string> {
    var st := ChunkFold(title, lines, budget, sep);
    if st.buf != "" then st.chunks + [st.buf] else st.chunks
  }

  /** The chunk loop. */
  method Chunk(title: string, lines: seq<string>, budget: int, sep: string) returns (chunks: seq<string>)
    ensures chunks == Chunks(title, lines, budget, sep)
  {
    chunks := [];
    var buf := title;
    var i := 0;
    while i < |lines|
      invariant 0 <= i <= |lines|
      invariant ChunkState(chunks, buf) == ChunkFold(title, lines[..i], budget, sep)
    {
      assert lines[..i + 1][..i] == lines[..i];
      var line := lines[i];
      if |buf| + |line| + |sep| > budget {
        chunks := chunks + [buf];
        buf := line;
      } else {
        buf := (buf + (if buf != "" then sep else "")) + line;
      }
      i := i + 1;
    }
    assert lines[..i] == lines;
    if buf != "" {
      chunks := chunks + [buf];
    }
  }

  /** The title as a list of pieces: none when it is empty. */
  function Lead(title: string): seq<string> {
    if title == "" then [] else [title]
  }

  lemma JoinGrowLast(cs: seq<string>, x: string, sep: string, y: string)
    ensures Join(cs + [x + sep + y], sep) == Join(cs + [x], sep) + sep + y
  {
    if cs == [] {
      assert [] + [x + sep + y] == [x + sep + y];
    } else {
      JoinAppend(cs, x + sep + y, sep);
      JoinAppend(cs, x, sep);
    }
  }

  /**
   * While the lines are non-empty and the first line fits when the title is empty, the buffer is never
   * empty once something has been read, and the chunks plus the buffer joined with `sep` are the title
   * and the lines joined with `sep`.
   */
  lemma {:induction false} ChunkFoldJoin(title: string, lines: seq<string>, budget: int, sep: string)
    requires forall i :: 0 <= i < |lines| ==> lines[i] != ""
    requires title == "" && lines != [] ==> |lines[0]| + |sep| <= budget
    ensures var st := ChunkFold(title, lines, budget, sep);
      if Lead(title) + lines == [] then st == ChunkState([], "")
      else st.buf != "" && Join(st.chunks + [st.buf], sep) == Join(Lead(title) + lines, sep)
  {
    if lines != [] {
      var n := |lines| - 1;
      var prefix := lines[..n];
      var line := lines[n];
      ChunkFoldJoin(title, prefix, budget, sep);
      var st := ChunkFold(title, prefix, budget, sep);
      assert Lead(title) + lines == (Lead(title) + prefix) + [line];
      if Lead(title) + prefix == [] {
        assert prefix == [] && title == "";
        assert lines[0] == line;
      } else {
        JoinAppend(Lead(title) + prefix, line, sep);
        if |st.buf| + |line| + |sep| > budget {
          JoinAppend(st.chunks + [st.buf], line, sep);
        } else {
          JoinGrowLast(st.chunks, st.buf, sep, line);
        }
      }
    }
  }

  /** No line is split, lost or reordered: the messages joined with `sep` are the title and the lines so joined. */
  lemma ChunksJoin(title: string, lines: seq<string>, budget: int, sep: string)
    requires forall i :: 0 <= i < |lines| ==> lines[i] != ""
    requires title == "" && lines != [] ==> |lines[0]| + |sep| <= budget
    ensures Join(Chunks(title, lines, budget, sep), sep) == Join(Lead(title) + lines, sep)
  {
    ChunkFoldJoin(title, lines, budget, sep);
  }

  /** What a chunk may be: within the budget, or the title alone, or one line alone. */
  predicate ChunkFits(c: string, title: string, lines: seq<string>, budget: int) {
    |c| <= budget || c == title || c in lines
  }

  lemma {:induction false} ChunkFoldFits(title: string, lines: seq<string>, budget: int, sep: string)
    requires 0 <= budget
    ensures var st := ChunkFold(title, lines, budget, sep);
      ChunkFits(st.buf, title, lines, budget)
      && forall k :: 0 <= k < |st.chunks| ==> ChunkFits(st.chunks[k], title, lines, budget)
  {
    if lines != [] {
      var n := |lines| - 1;
      ChunkFoldFits(title, lines[..n], budget, sep);
      assert forall c :: c in lines[..n] ==> c in lines;
    }
  }

  /** A chunk longer than the budget is the title or a single line. */
  lemma ChunksFit(title: string, lines: seq<string>, budget: int, sep: string)
    requires 0 <= budget
    ensures forall c :: c in Chunks(title, lines, budget, sep) ==> ChunkFits(c, title, lines, budget)
  {
    ChunkFoldFits(title, lines, budget, sep);
  }

  /** Flushed chunks are never taken back. */
  lemma {:induction false} ChunkFoldGrows(title: string, lines: seq<string>, k: nat, budget: int, sep: string)
    requires k <= |lines|
    ensures ChunkFold(title, lines[..k], budget, sep).chunks <= ChunkFold(title, lines, budget, sep).chunks
  {
    if k < |lines| {
      var n := |lines| - 1;
      assert lines[..n][..k] == lines[..k];
      ChunkFoldGrows(title, lines[..n], k, budget, sep);
    } else {
      assert lines[..k] == lines;
    }
  }

  /** With no title and a first line longer than the budget less the separator, the first message is empty. */
  lemma ChunksEmptyFirst(lines: seq<string>, budget: int, sep: string)
    requires lines != [] && |lines[0]| + |sep| > budget
    ensures Chunks("", lines, budget, sep) != [] && Chunks("", lines, budget, sep)[0] == ""
  {
    ChunkFoldGrows("", lines, 1, budget, sep);
    assert lines[..1][..0] == [];
  }

  /** The budgets and separators of the handlers. */
  const ItemSep: string := "\n\n"
  const PendingBudget: int := 3500
  const SearchBudget: int := 3800
  const SummaryLimit: int := 3500
  const SummaryBudget: int := 3000

  /** /pending, /pendingdate, /pendingmonth and the scheduled report: the title, then the items, at most 3500. */
  method PendingMessages(title: string, items: seq<string>) returns (chunks: seq<string>)
    ensures chunks == Chunks(title, items, PendingBudget, ItemSep)
  {
    chunks := Chunk(title, items, PendingBudget, ItemSep);
  }

  /** /search: the items alone, at most 3800. */
  method SearchMessages(items: seq<string>) returns (chunks: seq<string>)
    ensures chunks == Chunks("", items, SearchBudget, ItemSep)
  {
    chunks := Chunk("", items, SearchBudget, ItemSep);
  }

  /**
   * /summarybranch: the whole text when it is at most 3500 characters; otherwise the title, then the
   * rest re-split at its newlines and chunked at 3000 with "\n".
   */
  function SummaryPlan(title: string, rest: seq<string>): seq<string> {
    var text := Join([title] + rest, "\n");
    if |text| > SummaryLimit then [title] + Chunks("", Split(Join(rest, "\n"), '\n'), SummaryBudget, "\n")
    else [text]
  }

  method SummaryMessages(title: string, rest: seq<string>) returns (messages: seq<string>)
    ensures messages == SummaryPlan(title, rest)
    ensures var text := Join([title] + rest, "\n");
      |text| <= SummaryLimit ==> messages == [text]
    ensures |Join([title] + rest, "\n")| > SummaryLimit ==>
      messages[0] == title
      && (forall k :: 1 <= k < |messages| ==> |messages[k]| <= SummaryBudget || messages[k] in SplitAll(rest, '\n'))
      && NonBlank(SplitAll(messages[1..], '\n')) == NonBlank(SplitAll(rest, '\n'))
  {
    SummaryPlanFits(title, rest);
    if |Join([title] + rest, "\n")| > SummaryLimit {
      SummaryPlanKeeps(title, rest);
    }
    var text := Join([title] + rest, "\n");
    if |text| <= SummaryLimit {
      return [text];
    }
    var pieces := Split(Join(rest, "\n"), '\n');
    var chunks := Chunk("", pieces, SummaryBudget, "\n");
    messages := [title] + chunks;
  }

  /** The non-empty strings of `xs`, in order. */
  function NonBlank(xs: seq<string>): (r: seq<string>)
    ensures forall k :: 0 <= k < |r| ==> r[k] != ""
  {
    if xs == [] then [] else (if xs[0] == "" then [] else [xs[0]]) + NonBlank(xs[1..])
  }

  lemma {:induction false} NonBlankAppend(a: seq<string>, b: seq<string>)
    ensures NonBlank(a + b) == NonBlank(a) + NonBlank(b)
  {
    if a == [] {
      assert a + b == b;
    } else {
      var h := if a[0] == "" then [] else [a[0]];
      var ab := a + b;
      assert ab[0] == a[0] && ab[1..] == a[1..] + b;
      calc {
        NonBlank(ab);
        h + NonBlank(a[1..] + b);
        == { NonBlankAppend(a[1..], b); }
        h + (NonBlank(a[1..]) + NonBlank(b));
        (h + NonBlank(a[1..])) + NonBlank(b);
        NonBlank(a) + NonBlank(b);
      }
    }
  }

  /** The lines of every message, one after the other: each message split at `c`. */
  function SplitAll(cs: seq<string>, c: char): seq<string> {
    if cs == [] then [] else SplitAll(cs[..|cs| - 1], c) + Split(cs[|cs| - 1], c)
  }

  lemma SplitAllSnoc(cs: seq<string>, x: string, c: char)
    ensures SplitAll(cs + [x], c) == SplitAll(cs, c) + Split(x, c)
  {
    assert (cs + [x])[..|cs|] == cs;
  }

  /** Splitting the newline-join of the lines is splitting each line. */
  lemma {:induction false} SplitJoinAll(cs: seq<string>, c: char)
    requires cs != []
    ensures Split(Join(cs, [c]), c) == SplitAll(cs, c)
  {
    var n := |cs| - 1;
    if n == 0 {
      assert SplitAll(cs, c) == SplitAll([], c) + Split(cs[0], c);
    } else {
      var init, x := cs[..n], cs[n];
      assert cs == init + [x];
      JoinAppend(init, x, [c]);
      SplitConcat(Join(init, [c]), x, c);
      SplitJoinAll(init, c);
      SplitAllSnoc(init, x, c);
    }
  }

  /**
   * With a one-character separator and lines free of it, the non-empty lines of the chunks and the
   * buffer are the non-empty lines read so far: only blank lines can go missing.
   */
  lemma {:induction false} ChunkFoldKeeps(lines: seq<string>, budget: int, c: char)
    requires forall i :: 0 <= i < |lines| ==> c !in lines[i]
    ensures var st := ChunkFold("", lines, budget, [c]);
      NonBlank(SplitAll(st.chunks + [st.buf], c)) == NonBlank(lines)
  {
    if lines == [] {
      assert SplitAll([""], c) == SplitAll([], c) + Split("", c);
    } else {
      var n := |lines| - 1;
      var prefix, line := lines[..n], lines[n];
      var pre := ChunkFold("", prefix, budget, [c]);
      var st := ChunkStep(pre, line, budget, [c]);
      assert st == ChunkFold("", lines, budget, [c]);
      assert forall i :: 0 <= i < |prefix| ==> c !in prefix[i] by {
        forall i | 0 <= i < |prefix| ensures c !in prefix[i] { assert prefix[i] == lines[i]; }
      }
      calc {
        NonBlank(SplitAll(st.chunks + [st.buf], c));
        == { ChunkStepKeeps(pre.chunks, pre.buf, line, budget, c); }
        NonBlank(SplitAll(pre.chunks + [pre.buf], c)) + NonBlank([line]);
        == { ChunkFoldKeeps(prefix, budget, c); }
        NonBlank(prefix) + NonBlank([line]);
        == { NonBlankAppend(prefix, [line]); }
        NonBlank(prefix + [line]);
        == { assert prefix + [line] == lines; }
        NonBlank(lines);
      }
    }
  }

  /** One step of the chunker adds the line, when it is not empty, to the non-empty lines held. */
  lemma ChunkStepKeeps(cs: seq<string>, b: string, line: string, budget: int, c: char)
    requires c !in line
    ensures var st := ChunkStep(ChunkState(cs, b), line, budget, [c]);
      NonBlank(SplitAll(st.chunks + [st.buf], c)) == NonBlank(SplitAll(cs + [b], c)) + NonBlank([line])
  {
    assert Split(line, c) == [line];
    if |b| + |line| + 1 > budget {
      KeepsFlush(cs, b, line, c);
    } else if b == "" {
      KeepsStart(cs, line, c);
    } else {
      KeepsGrow(cs, b, line, c);
    }
  }

  lemma KeepsFlush(cs: seq<string>, b: string, line: string, c: char)
    requires Split(line, c) == [line]
    ensures NonBlank(SplitAll(cs + [b] + [line], c)) == NonBlank(SplitAll(cs + [b], c)) + NonBlank([line])
  {
    SplitAllSnoc(cs + [b], line, c);
    NonBlankAppend(SplitAll(cs + [b], c), [line]);
  }

  lemma KeepsStart(cs: seq<string>, line: string, c: char)
    requires Split(line, c) == [line]
    ensures NonBlank(SplitAll(cs + [line], c)) == NonBlank(SplitAll(cs + [""], c)) + NonBlank([line])
  {
    var head := SplitAll(cs, c);
    assert Split("", c) == [""];
    calc {
      NonBlank(SplitAll(cs + [line], c));
      == { SplitAllSnoc(cs, line, c); NonBlankAppend(head, [line]); }
      NonBlank(head) + NonBlank([line]);
      == { assert NonBlank([""]) == []; NonBlankAppend(head, [""]); SplitAllSnoc(cs, "", c); }
      NonBlank(SplitAll(cs + [""], c)) + NonBlank([line]);
    }
  }

  lemma KeepsGrow(cs: seq<string>, b: string, line: string, c: char)
    requires Split(line, c) == [line]
    ensures NonBlank(SplitAll(cs + [b + [c] + line], c)) == NonBlank(SplitAll(cs + [b], c)) + NonBlank([line])
  {
    var head := SplitAll(cs, c);
    calc {
      SplitAll(cs + [b + [c] + line], c);
      == { SplitAllSnoc(cs, b + [c] + line, c); }
      head + Split(b + [c] + line, c);
      == { SplitConcat(b, line, c); }
      head + (Split(b, c) + [line]);
      (head + Split(b, c)) + [line];
      == { SplitAllSnoc(cs, b, c); }
      SplitAll(cs + [b], c) + [line];
    }
    NonBlankAppend(SplitAll(cs + [b], c), [line]);
  }

  /** The messages of the chunker carry every non-empty line once, in order. */
  lemma ChunksKeep(lines: seq<string>, budget: int, c: char)
    requires forall i :: 0 <= i < |lines| ==> c !in lines[i]
    ensures NonBlank(SplitAll(Chunks("", lines, budget, [c]), c)) == NonBlank(lines)
  {
    ChunkFoldKeeps(lines, budget, c);
    var st := ChunkFold("", lines, budget, [c]);
    if st.buf == "" {
      SplitAllSnoc(st.chunks, "", c);
      NonBlankAppend(SplitAll(st.chunks, c), [""]);
    }
  }

  /**
   * A long summary sends the title first; the later messages hold the non-empty lines of the rest,
   * each once and in order.
   */
  lemma SummaryPlanKeeps(title: string, rest: seq<string>)
    requires |Join([title] + rest, "\n")| > SummaryLimit
    ensures SummaryPlan(title, rest)[0] == title
    ensures NonBlank(SplitAll(SummaryPlan(title, rest)[1..], '\n')) == NonBlank(SplitAll(rest, '\n'))
  {
    var pieces := Split(Join(rest, "\n"), '\n');
    assert "\n" == ['\n'];
    ChunksKeep(pieces, SummaryBudget, '\n');
    assert SummaryPlan(title, rest)[1..] == Chunks("", pieces, SummaryBudget, "\n");
    if rest == [] {
      assert NonBlank(pieces) == [];
    } else {
      SplitJoinAll(rest, '\n');
    }
  }

  /**
   * Every message of a summary stays within its limit: a short summary is one message of at most 3500
   * characters, and after the title of a long one each message is at most 3000 characters or a single
   * line of the rest.
   */
  lemma SummaryPlanFits(title: string, rest: seq<string>)
    ensures var text := Join([title] + rest, "\n");
      |text| <= SummaryLimit ==> SummaryPlan(title, rest) == [text]
    ensures var plan := SummaryPlan(title, rest);
      |Join([title] + rest, "\n")| > SummaryLimit ==>
        plan[0] == title
        && forall k :: 1 <= k < |plan| ==> |plan[k]| <= SummaryBudget || plan[k] in SplitAll(rest, '\n')
  {
    if |Join([title] + rest, "\n")| > SummaryLimit {
      var pieces := Split(Join(rest, "\n"), '\n');
      var plan := SummaryPlan(title, rest);
      assert plan == [title] + Chunks("", pieces, SummaryBudget, "\n");
      ChunksFitPieces(rest);
      forall k | 1 <= k < |plan|
        ensures |plan[k]| <= SummaryBudget || plan[k] in SplitAll(rest, '\n')
      {
        assert plan[k] == Chunks("", pieces, SummaryBudget, "\n")[k - 1];
      }
    }
  }

  /** The chunks of the rest are at most 3000 characters, or a single line of it. */
  lemma ChunksFitPieces(rest: seq<string>)
    ensures var chunks := Chunks("", Split(Join(rest, "\n"), '\n'), SummaryBudget, "\n");
      forall c :: c in chunks ==> |c| <= SummaryBudget || c in SplitAll(rest, '\n')
  {
    var pieces := Split(Join(rest, "\n"), '\n');
    ChunksFit("", pieces, SummaryBudget, "\n");
    if rest == [] {
      assert pieces == [""];
    } else {
      assert "\n" == ['\n'];
      SplitJoinAll(rest, '\n');
    }
  }

  /**
   * A blank line that reaches the summary chunker while the buffer holds exactly 3000 characters is
   * dropped: here the blank line between "b" and "d" is not in any message.
   */
  lemma SummaryChunksDropBlank(a: string)
    requires |a| == 2998
    ensures Chunks("", [a, "b", "", "d"], SummaryBudget, "\n") == [a + "\nb", "d"]
    ensures Join(Chunks("", [a, "b", "", "d"], SummaryBudget, "\n"), "\n") != Join([a, "b", "", "d"], "\n")
  {
    var lines := [a, "b", "", "d"];
    assert lines[..3][..2][..1][..0] == [];
    assert lines[..3][..2][..1] == lines[..1] && lines[..1][0] == a;
    assert ChunkFold("", lines[..1], SummaryBudget, "\n") == ChunkState([], a);
    assert lines[..3][..2] == lines[..2] && lines[..2][1] == "b";
    assert ChunkFold("", lines[..2], SummaryBudget, "\n") == ChunkState([], a + "\n" + "b");
    assert a + "\n" + "b" == a + "\nb";
    assert lines[..3][2] == "";
    assert ChunkFold("", lines[..3], SummaryBudget, "\n") == ChunkState([a + "\nb"], "");
    assert lines[3] == "d";
    assert ChunkFold("", lines, SummaryBudget, "\n") == ChunkState([a + "\nb"], "d");
    assert Join(["d"], "\n") == "d";
    assert Join(lines[3..], "\n") == "d" by { assert lines[3..] == ["d"]; }
    assert Join(lines[2..], "\n") == "" + "\n" + "d" by { assert lines[2..][1..] == lines[3..]; }
    assert Join(lines[1..], "\n") == "b" + "\n" + Join(lines[2..], "\n") by { assert lines[1..][1..] == lines[2..]; }
    assert |Join(lines, "\n")| == |a| + 5;
  }

  // ----- Display helpers -----

  /** `_days_between(a, b)`: "<n>d" for the days from `a` to `b`, "-" when either is absent or `b` is earlier. */
  function DaysBetween(a: Option<CivilDate>, b: Option<CivilDate>): string {
    if a.None? || b.None? then "-"
    else
      var d := Ordinal(b.value) - Ordinal(a.value);
      if d >= 0 then ShowInt(d) + "d" else "-"
  }

  /**
   * The result is "-" exactly when a date is absent or `b` is before `a`; otherwise it reads back as the
   * number of days from `a` to `b`, which is 0 only for the same day.
   */
  lemma DaysBetweenSpec(a: Option<CivilDate>, b: Option<CivilDate>)
    ensures DaysBetween(a, b) == "-" <==> a.None? || b.None? || DateLess(b.value, a.value)
    ensures DaysBetween(a, b) != "-" ==>
      var r := DaysBetween(a, b);
      |r| >= 2 && r[|r| - 1] == 'd' && ParseInt(r[..|r| - 1]) == Some(Ordinal(b.value) - Ordinal(a.value))
      && (r == "0d" <==> a == b)
  {
    if a.Some? && b.Some? {
      OrdinalOrder(b.value, a.value);
      var d := Ordinal(b.value) - Ordinal(a.value);
      if d >= 0 {
        var r := ShowInt(d) + "d";
        ShowIntShape(d);
        assert r[..|r| - 1] == ShowInt(d);
        ParseShowInt(d);
        if r == "0d" {
          assert ShowInt(d) == "0";
          assert DigitsValue("0") == 0;
        }
      }
    }
  }

  lemma LowerSlice(s: string, i: nat, j: nat)
    requires i <= j <= |s|
    ensures Lower(s)[i..j] == Lower(s[i..j])
  {
  }

  /** `_highlight(text, query)`: the first case-insensitive match of the query in bold, everything escaped. */
  function Highlight(text: string, query: string): string {
    if text == "" || query == "" then Escape(text)
    else MarkFound(text, |query|, Find(Lower(text), Lower(query)))
  }

  /** The text escaped, with the `n` characters from the found index `i` in bold (none when `i` is -1). */
  function MarkFound(text: string, n: nat, i: int): string
    requires -1 <= i && (i >= 0 ==> i + n <= |text|)
  {
    if i == -1 then Escape(text) else Marked(text, i, i + n)
  }

  /** Without a case-insensitive match (or with an empty text or query) the text is only escaped. */
  lemma HighlightPlain(text: string, query: string)
    requires text == "" || query == "" || !Contains(Lower(text), Lower(query))
    ensures Highlight(text, query) == Escape(text)
  {
    if text != "" && query != "" {
      FindSpec(Lower(text), Lower(query));
    }
  }

  /**
   * When `i` is the first position where the query occurs in the text up to case, the highlight
   * puts exactly `text[i..i + |query|]` in bold; by EscapeThree, dropping the two tags gives the
   * escaped text back.
   */
  lemma HighlightMarksFirst(text: string, query: string, i: int)
    requires text != "" && query != ""
    requires OccursAt(Lower(text), Lower(query), i)
    requires forall j :: 0 <= j < i ==> !OccursAt(Lower(text), Lower(query), j)
    ensures i + |query| <= |text| && Lower(text[i..i + |query|]) == Lower(query)
    ensures Highlight(text, query) == Marked(text, i, i + |query|)
  {
    var lt, lq := Lower(text), Lower(query);
    FindSpec(lt, lq);
    var k := Find(lt, lq);
    assert k >= 0;
    assert !(k < i) && !(i < k);
    OccursLowered(text, query, i);
    HighlightAt(text, query, i);
  }

  /** An occurrence of the lowered query in the lowered text is a stretch equal to the query up to case. */
  lemma OccursLowered(text: string, query: string, i: int)
    requires OccursAt(Lower(text), Lower(query), i)
    ensures Lower(text[i..i + |query|]) == Lower(query)
  {
    LowerSlice(text, i, i + |query|);
  }

  /** With a match at the first position `i`, the highlight marks `text[i..i + |query|]`. */
  lemma HighlightAt(text: string, query: string, i: nat)
    requires text != "" && query != "" && i == Find(Lower(text), Lower(query)) && i + |query| <= |text|
    ensures Highlight(text, query) == Marked(text, i, i + |query|)
  {
    assert Highlight(text, query) == MarkFound(text, |query|, i);
  }

  /** The escaped text with `text[i..e]` wrapped in bold tags. */
  function Marked(text: string, i: nat, e: nat): string
    requires i <= e <= |text|
  {
    Escape(text[..i]) + "<b>" + Escape(text[i..e]) + "</b>" + Escape(text[e..])
  }

  lemma EscapeThree(text: string, i: nat, e: nat)
    requires i <= e <= |text|
    ensures Escape(text[..i]) + Escape(text[i..e]) + Escape(text[e..]) == Escape(text)
  {
    FlatMapConcat(text[..i], text[i..e], EscapeChar);
    assert text[..i] + text[i..e] == text[..e];
    FlatMapConcat(text[..e], text[e..], EscapeChar);
    assert text[..e] + text[e..] == text;
  }
}
