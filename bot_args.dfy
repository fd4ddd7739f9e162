/**
 * The bot's argument parsers: the free-form `/pending` arguments, the `/pendingmonth` month, the
 * `/summarybranch` branch and month, and the window of the scheduled two-month report.
 * "Today" and the `dateutil` parser of `_parse_date_arg` are parameters.
 */
module BotArgs {
  import opened Wrappers
  import opened Text
  import opened Calendar
  import opened Sequences
  import opened SheetCore
  import opened SheetQueries
  import opened Tallies
  import opened SheetSummary

  // ----- /pending: one token at a time -----

  /** What the `/pending` loop has gathered so far. */
  datatype PendingArgs = PendingArgs(branchTokens: seq<string>, keyword: Option<string>,
                                     start: Option<CivilDate>, end: Option<CivilDate>,
                                     year: Option<int>, month: Option<int>)

  const NoPendingArgs := PendingArgs([], None, None, None, None, None)

  /** `re.match(r"^\d{4}[-/]\d{2}$", a)` on a stripped token. */
  predicate IsMonthToken(a: string) {
    |a| == 7 && IsDigits(a[..4]) && (a[4] == '-' || a[4] == '/') && IsDigits(a[5..])
  }

  /** `a.lower().startswith("kw:")`. */
  predicate IsKeywordToken(a: string) {
    |a| >= 3 && LowerChar(a[0]) == 'k' && LowerChar(a[1]) == 'w' && a[2] == ':'
  }

  /** The four ways the loop treats a token, tested in the loop's order. */
  datatype TokenKind = KeywordToken | MonthToken | DateToken | WordToken

  function KindOf(token: string, parseArg: DateParser): (k: TokenKind)
    ensures k == KeywordToken ==> |Strip(token)| >= 3
    ensures k == MonthToken ==> IsMonthToken(Strip(token))
  {
    var a := Strip(token);
    if IsKeywordToken(a) then KeywordToken
    else if IsMonthToken(a) then MonthToken
    else if parseArg(a).Some? then DateToken
    else WordToken
  }

  /** `a[3:].strip()` of a keyword token. */
  function KeywordOf(token: string): string
    requires |Strip(token)| >= 3
  {
    Strip(Strip(token)[3..])
  }

  /** `int(y), int(m)` of a `YYYY-MM` or `YYYY/MM` token. */
  function YearMonthOf(token: string): (int, int)
    requires IsMonthToken(Strip(token))
  {
    var a := Strip(token);
    (DigitsValue(a[..4]), DigitsValue(a[5..]))
  }

  /** One pass of the loop: keyword, month, the first two dates, and everything else to the branch. */
  function ClassifyToken(st: PendingArgs, token: string, parseArg: DateParser): PendingArgs {
    var a := Strip(token);
    match KindOf(token, parseArg)
    case KeywordToken => st.(keyword := Some(KeywordOf(token)))
    case MonthToken => st.(year := Some(YearMonthOf(token).0), month := Some(YearMonthOf(token).1))
    case DateToken =>
      if st.start.None? then st.(start := parseArg(a))
      else if st.end.None? then st.(end := parseArg(a))
      else st.(branchTokens := st.branchTokens + [a])
    case WordToken => st.(branchTokens := st.branchTokens + [a])
  }

  /** The loop over all the tokens, from the left. */
  function Classify(args: seq<string>, parseArg: DateParser): PendingArgs
    decreases |args|
  {
    if args == [] then NoPendingArgs
    else ClassifyToken(Classify(args[..|args| - 1], parseArg), args[|args| - 1], parseArg)
  }

  /** The `while i < len(args)` loop of the `/pending` handler. */
  method ParsePendingArgs(args: seq<string>, parseArg: DateParser) returns (r: PendingArgs)
    ensures r == Classify(args, parseArg)
  {
    var branchTokens: seq<string> := [];
    var keyword: Option<string> := None;
    var start: Option<CivilDate> := None;
    var end: Option<CivilDate> := None;
    var year: Option<int> := None;
    var month: Option<int> := None;
    var i := 0;
    while i < |args|
      invariant 0 <= i <= |args|
      invariant PendingArgs(branchTokens, keyword, start, end, year, month) == Classify(args[..i], parseArg)
    {
      ClassifyStep(args, i, parseArg);
      var a := Strip(args[i]);
      var kind := KindOf(args[i], parseArg);
      if kind == KeywordToken {
        keyword := Some(Strip(a[3..]));
      } else if kind == MonthToken {
        year, month := Some(DigitsValue(a[..4])), Some(DigitsValue(a[5..]));
      } else if kind == DateToken {
        var d := parseArg(a);
        if start.None? {
          start := d;
        } else if end.None? {
          end := d;
        } else {
          branchTokens := branchTokens + [a];
        }
      } else {
        branchTokens := branchTokens + [a];
      }
      i := i + 1;
    }
    assert args[..i] == args;
    r := PendingArgs(branchTokens, keyword, start, end, year, month);
  }

  /** The loop's next pass is one more `ClassifyToken`. */
  lemma ClassifyStep(args: seq<string>, i: nat, parseArg: DateParser)
    requires i < |args|
    ensures Classify(args[..i + 1], parseArg) == ClassifyToken(Classify(args[..i], parseArg), args[i], parseArg)
  {
    assert args[..i + 1][..i] == args[..i];
  }

  // ----- What the classifier promises -----

  /** How many tokens are of kind `k`. */
  function CountKind(args: seq<string>, k: TokenKind, parseArg: DateParser): (n: nat)
    ensures n <= |args|
    decreases |args|
  {
    if args == [] then 0
    else CountKind(args[..|args| - 1], k, parseArg) + (if KindOf(args[|args| - 1], parseArg) == k then 1 else 0)
  }

  /** Tokens past the first two dates. */
  function ExtraDates(args: seq<string>, parseArg: DateParser): nat {
    var n := CountKind(args, DateToken, parseArg);
    if n > 2 then n - 2 else 0
  }

  /**
   * The keyword is set exactly when there is a `kw:` token; year and month are set together, exactly
   * when there is a month token; the start is set when there is at least one date and the end when
   * there are at least two; the branch gets one token per word token and per date after the second
   * (`ClassifyBranchTokens` says which).
   */
  lemma {:induction false} ClassifyCounts(args: seq<string>, parseArg: DateParser)
    ensures var r := Classify(args, parseArg);
      (r.keyword.Some? <==> CountKind(args, KeywordToken, parseArg) > 0)
      && (r.year.Some? <==> CountKind(args, MonthToken, parseArg) > 0)
      && (r.month.Some? <==> r.year.Some?)
      && (r.start.Some? <==> CountKind(args, DateToken, parseArg) >= 1)
      && (r.end.Some? <==> CountKind(args, DateToken, parseArg) >= 2)
      && |r.branchTokens| == CountKind(args, WordToken, parseArg) + ExtraDates(args, parseArg)
    decreases |args|
  {
    if args != [] {
      var n := |args| - 1;
      ClassifyCounts(args[..n], parseArg);
      ClassifyTokenCounts(Classify(args[..n], parseArg), args[n], parseArg);
    }
  }

  /** What one pass adds: which fields become set, and whether the branch gets one more token. */
  lemma ClassifyTokenCounts(st: PendingArgs, token: string, parseArg: DateParser)
    ensures var r := ClassifyToken(st, token, parseArg);
      var kind := KindOf(token, parseArg);
      (r.keyword.Some? <==> st.keyword.Some? || kind == KeywordToken)
      && (r.year.Some? <==> st.year.Some? || kind == MonthToken)
      && (r.month.Some? <==> st.month.Some? || kind == MonthToken)
      && (r.start.Some? <==> st.start.Some? || kind == DateToken)
      && (r.end.Some? <==> st.end.Some? || (kind == DateToken && st.start.Some?))
      && |r.branchTokens| == |st.branchTokens|
           + (if kind == WordToken || (kind == DateToken && st.start.Some? && st.end.Some?) then 1 else 0)
  {
  }

  /** Token `i` is of kind `k` and no later token is. */
  predicate LastOfKind(args: seq<string>, i: int, k: TokenKind, parseArg: DateParser) {
    0 <= i < |args| && KindOf(args[i], parseArg) == k
    && forall j :: i < j < |args| ==> KindOf(args[j], parseArg) != k
  }

  /** What one pass does to the keyword, the month and the branch tokens. */
  lemma ClassifyTokenEffect(st: PendingArgs, token: string, parseArg: DateParser)
    ensures ClassifyToken(st, token, parseArg).keyword
         == (if KindOf(token, parseArg) == KeywordToken then Some(KeywordOf(token)) else st.keyword)
    ensures KindOf(token, parseArg) == MonthToken ==>
      ClassifyToken(st, token, parseArg).year == Some(YearMonthOf(token).0)
      && ClassifyToken(st, token, parseArg).month == Some(YearMonthOf(token).1)
    ensures KindOf(token, parseArg) != MonthToken ==>
      ClassifyToken(st, token, parseArg).year == st.year && ClassifyToken(st, token, parseArg).month == st.month
    ensures ClassifyToken(st, token, parseArg).branchTokens == st.branchTokens
         || ClassifyToken(st, token, parseArg).branchTokens == st.branchTokens + [Strip(token)]
  {
  }

  /** The kind of every token. */
  function Kinds(args: seq<string>, parseArg: DateParser): (ks: seq<TokenKind>)
    ensures |ks| == |args|
    ensures forall i :: 0 <= i < |args| ==> ks[i] == KindOf(args[i], parseArg)
  {
    seq(|args|, i requires 0 <= i < |args| => KindOf(args[i], parseArg))
  }

  /** The position of the last token of kind `k`, or -1 when there is none. */
  function LastIndex(args: seq<string>, k: TokenKind, parseArg: DateParser): (i: int)
    ensures -1 <= i < |args|
    ensures i >= 0 ==> KindOf(args[i], parseArg) == k
  {
    LastPos(Kinds(args, parseArg), k)
  }

  /** `LastIndex` finds the last token of kind `k`, and -1 means there is none. */
  lemma LastIndexSpec(args: seq<string>, k: TokenKind, parseArg: DateParser)
    ensures var i := LastIndex(args, k, parseArg);
      (i >= 0 ==> LastOfKind(args, i, k, parseArg))
      && (i == -1 <==> forall j :: 0 <= j < |args| ==> KindOf(args[j], parseArg) != k)
  {
    var ks := Kinds(args, parseArg);
    LastPosSpec(ks, k);
    if LastPos(ks, k) == -1 {
      assert forall j :: 0 <= j < |args| ==> ks[j] != k;
    } else {
      assert k in ks;
    }
  }

  /** A last token of another kind does not move the last position of kind `k`. */
  lemma LastIndexSnoc(args: seq<string>, k: TokenKind, parseArg: DateParser)
    requires args != [] && KindOf(args[|args| - 1], parseArg) != k
    ensures LastIndex(args, k, parseArg) == LastIndex(args[..|args| - 1], k, parseArg)
  {
    assert Kinds(args, parseArg)[..|args| - 1] == Kinds(args[..|args| - 1], parseArg);
  }

  /** A later `kw:` token overrides an earlier one: the last one wins, and none leaves no keyword. */
  lemma {:induction false} ClassifyLastKeyword(args: seq<string>, parseArg: DateParser)
    ensures var i := LastIndex(args, KeywordToken, parseArg);
      Classify(args, parseArg).keyword == if i == -1 then None else Some(KeywordOf(args[i]))
    decreases |args|
  {
    if args != [] {
      var n := |args| - 1;
      ClassifyLastKeyword(args[..n], parseArg);
      ClassifyTokenEffect(Classify(args[..n], parseArg), args[n], parseArg);
      if KindOf(args[n], parseArg) != KeywordToken {
        LastIndexSnoc(args, KeywordToken, parseArg);
        var i := LastIndex(args, KeywordToken, parseArg);
        if i != -1 {
          assert args[..n][i] == args[i];
        }
      }
    }
  }

  /** A later month token overrides an earlier one: the last one wins, and none leaves both unset. */
  lemma {:induction false} ClassifyLastMonth(args: seq<string>, parseArg: DateParser)
    ensures var i := LastIndex(args, MonthToken, parseArg);
      Classify(args, parseArg).year == (if i == -1 then None else Some(YearMonthOf(args[i]).0))
      && Classify(args, parseArg).month == (if i == -1 then None else Some(YearMonthOf(args[i]).1))
    decreases |args|
  {
    if args != [] {
      var n := |args| - 1;
      ClassifyLastMonth(args[..n], parseArg);
      ClassifyTokenEffect(Classify(args[..n], parseArg), args[n], parseArg);
      if KindOf(args[n], parseArg) != MonthToken {
        LastIndexSnoc(args, MonthToken, parseArg);
        var i := LastIndex(args, MonthToken, parseArg);
        if i != -1 {
          assert args[..n][i] == args[i];
        }
      }
    }
  }

  /** Token `i` is a date with exactly `n` dates before it. */
  predicate NthDate(args: seq<string>, i: int, n: nat, parseArg: DateParser) {
    0 <= i < |args| && KindOf(args[i], parseArg) == DateToken && CountKind(args[..i], DateToken, parseArg) == n
  }

  /** What one pass does to the start and the end. */
  lemma ClassifyTokenDates(st: PendingArgs, token: string, parseArg: DateParser)
    ensures var r := ClassifyToken(st, token, parseArg);
      var date := KindOf(token, parseArg) == DateToken;
      (if date && st.start.None? then r.start == parseArg(Strip(token)) else r.start == st.start)
      && (if date && st.start.Some? && st.end.None? then r.end == parseArg(Strip(token)) else r.end == st.end)
  {
  }

  /** A token that is the `k`-th date of a prefix is the `k`-th date of the whole. */
  lemma NthDateExtend(args: seq<string>, i: int, k: nat, parseArg: DateParser)
    requires args != [] && NthDate(args[..|args| - 1], i, k, parseArg)
    ensures NthDate(args, i, k, parseArg)
  {
    assert args[..|args| - 1][..i] == args[..i];
    assert args[..|args| - 1][i] == args[i];
  }

  /** The start is the first date token. */
  lemma {:induction false} ClassifyStartDate(args: seq<string>, parseArg: DateParser)
    ensures Classify(args, parseArg).start.Some? ==>
      exists i :: NthDate(args, i, 0, parseArg) && Classify(args, parseArg).start == parseArg(Strip(args[i]))
    decreases |args|
  {
    if args != [] {
      var n := |args| - 1;
      var st := Classify(args[..n], parseArg);
      ClassifyStartDate(args[..n], parseArg);
      ClassifyCounts(args[..n], parseArg);
      ClassifyTokenDates(st, args[n], parseArg);
      if KindOf(args[n], parseArg) == DateToken && st.start.None? {
        assert NthDate(args, n, 0, parseArg);
      } else if st.start.Some? {
        var i :| NthDate(args[..n], i, 0, parseArg) && st.start == parseArg(Strip(args[..n][i]));
        NthDateExtend(args, i, 0, parseArg);
      }
    }
  }

  /** The end is the second date token. */
  lemma {:induction false} ClassifyEndDate(args: seq<string>, parseArg: DateParser)
    ensures Classify(args, parseArg).end.Some? ==>
      exists i :: NthDate(args, i, 1, parseArg) && Classify(args, parseArg).end == parseArg(Strip(args[i]))
    decreases |args|
  {
    if args != [] {
      var n := |args| - 1;
      var st := Classify(args[..n], parseArg);
      ClassifyEndDate(args[..n], parseArg);
      ClassifyCounts(args[..n], parseArg);
      ClassifyTokenDates(st, args[n], parseArg);
      if KindOf(args[n], parseArg) == DateToken && st.start.Some? && st.end.None? {
        assert NthDate(args, n, 1, parseArg);
      } else if st.end.Some? {
        var i :| NthDate(args[..n], i, 1, parseArg) && st.end == parseArg(Strip(args[..n][i]));
        NthDateExtend(args, i, 1, parseArg);
      }
    }
  }

  /** Every token, stripped. */
  function StripAll(args: seq<string>): (r: seq<string>)
    ensures |r| == |args|
    ensures forall i :: 0 <= i < |args| ==> r[i] == Strip(args[i])
  {
    seq(|args|, i requires 0 <= i < |args| => Strip(args[i]))
  }

  lemma StripAllSnoc(args: seq<string>)
    requires args != []
    ensures StripAll(args) == StripAll(args[..|args| - 1]) + [Strip(args[|args| - 1])]
  {
  }

  /** The branch tokens are stripped tokens, kept in the order the user typed them. */
  lemma {:induction false} ClassifyBranchOrder(args: seq<string>, parseArg: DateParser)
    ensures IsSubsequence(Classify(args, parseArg).branchTokens, StripAll(args))
    decreases |args|
  {
    if args == [] {
      EmptySubsequence(StripAll(args));
    } else {
      var n := |args| - 1;
      var init := args[..n];
      ClassifyBranchOrder(init, parseArg);
      ClassifyTokenEffect(Classify(init, parseArg), args[n], parseArg);
      StripAllSnoc(args);
      var before, after := Classify(init, parseArg).branchTokens, Classify(args, parseArg).branchTokens;
      if after == before {
        SubsequenceExtend(before, StripAll(init), Strip(args[n]));
      } else {
        assert after == before + [Strip(args[n])];
        SubsequenceAppend(before, StripAll(init), Strip(args[n]));
      }
    }
  }

  /**
   * The tokens the branch is meant to collect, in the order typed: every word token and every date
   * token that comes after two earlier dates, stripped.
   */
  function BranchPicks(args: seq<string>, parseArg: DateParser): seq<string>
    decreases |args|
  {
    if args == [] then [] else BranchPicks(args[..|args| - 1], parseArg) + PickOf(args, |args| - 1, parseArg)
  }

  /** What token `n` adds to the branch, given the tokens before it. */
  function PickOf(args: seq<string>, n: nat, parseArg: DateParser): seq<string>
    requires n < |args|
  {
    var k := KindOf(args[n], parseArg);
    if k == WordToken || (k == DateToken && CountKind(args[..n], DateToken, parseArg) >= 2) then [Strip(args[n])]
    else []
  }

  /** The branch tokens are exactly the picked ones: the words and the dates past the second. */
  lemma {:induction false} ClassifyBranchTokens(args: seq<string>, parseArg: DateParser)
    ensures Classify(args, parseArg).branchTokens == BranchPicks(args, parseArg)
    decreases |args|
  {
    if args != [] {
      ClassifyBranchTokens(args[..|args| - 1], parseArg);
      BranchSnoc(args, parseArg);
    }
  }

  /** The last token adds the same to the classifier's branch as to the picks. */
  lemma BranchSnoc(args: seq<string>, parseArg: DateParser)
    requires args != []
    ensures var n := |args| - 1;
      Classify(args, parseArg).branchTokens == Classify(args[..n], parseArg).branchTokens + PickOf(args, n, parseArg)
  {
    var n := |args| - 1;
    ClassifyCounts(args[..n], parseArg);
    BranchStep(Classify(args[..n], parseArg), args[n], parseArg, CountKind(args[..n], DateToken, parseArg));
  }

  /** One pass adds the token to the branch exactly when it is a word or a date after two dates. */
  lemma BranchStep(st: PendingArgs, token: string, parseArg: DateParser, dates: nat)
    requires st.start.Some? <==> dates >= 1
    requires st.end.Some? <==> dates >= 2
    ensures var k := KindOf(token, parseArg);
      var picked := k == WordToken || (k == DateToken && dates >= 2);
      ClassifyToken(st, token, parseArg).branchTokens == st.branchTokens + (if picked then [Strip(token)] else [])
  {
  }

  // ----- /pending: the request the handler sends -----

  /**
   * The range normalisation: a start alone runs to today, and reversed ends are swapped. The start is
   * kept exactly when one was given, and then the range has both ends in order, made of the given ends.
   */
  function NormalizeRange(start: Option<CivilDate>, end: Option<CivilDate>, today: CivilDate)
    : (r: (Option<CivilDate>, Option<CivilDate>))
    ensures r.0.Some? <==> start.Some?
    ensures r.0.Some? ==> r.1.Some? && DateLe(r.0.value, r.1.value)
    ensures start.None? ==> r.1 == end
    ensures start.Some? ==>
      var e := if end.Some? then end.value else today;
      r == (start, Some(e)) || r == (Some(e), start)
  {
    var e := if start.Some? && end.None? then Some(today) else end;
    if start.Some? && e.Some? && DateLess(e.value, start.value) then (e, start) else (start, e)
  }

  /** `" ".join(branch_tokens).strip() if branch_tokens else None`. */
  function BranchOf(tokens: seq<string>): Option<string> {
    if tokens == [] then None else Some(Strip(Join(tokens, " ")))
  }

  /** The keyword arguments of the `list_pending` call. */
  datatype PendingRequest = PendingRequest(keyword: Option<string>, start: Option<CivilDate>, end: Option<CivilDate>,
                                           year: Option<int>, month: Option<int>, branch: Option<string>)

  /** The `/pending` request, or `None` for the usage text that no arguments get. */
  function PendingRequestOf(args: seq<string>, parseArg: DateParser, today: CivilDate): Option<PendingRequest> {
    if args == [] then None
    else
      var a := Classify(args, parseArg);
      var (start, end) := NormalizeRange(a.start, a.end, today);
      Some(PendingRequest(a.keyword, start, end, a.year, a.month, BranchOf(a.branchTokens)))
  }

  /** What `/pending` looks up: `list_pending(..., limit=2000)` on the request. */
  function PendingResults(rows: Sheet, args: seq<string>, parseArg: DateParser, today: CivilDate, parse: DateParser)
    : Option<Result<seq<Order>, SheetError>>
  {
    match PendingRequestOf(args, parseArg, today)
    case None => None
    case Some(q) => Some(ListPendingQuery(rows, q.keyword, q.start, q.end, q.year, q.month, q.branch, 2000, parse))
  }

  /**
   * With no date token there is no range; with one, the range runs from that date to today (either
   * way round); with two or more, it runs between the first two dates, the earlier one first.
   */
  lemma PendingRequestRange(args: seq<string>, parseArg: DateParser, today: CivilDate)
    requires args != []
    ensures var q := PendingRequestOf(args, parseArg, today).value;
      var n := CountKind(args, DateToken, parseArg);
      (n == 0 ==> q.start.None? && q.end.None?)
      && (n >= 1 ==> q.start.Some? && q.end.Some? && DateLe(q.start.value, q.end.value))
      && (n == 1 ==> exists i :: NthDate(args, i, 0, parseArg)
                       && {q.start, q.end} == {parseArg(Strip(args[i])), Some(today)})
      && (n >= 2 ==> exists i, j :: NthDate(args, i, 0, parseArg) && NthDate(args, j, 1, parseArg)
                       && {q.start, q.end} == {parseArg(Strip(args[i])), parseArg(Strip(args[j]))})
  {
    ClassifyCounts(args, parseArg);
    ClassifyStartDate(args, parseArg);
    ClassifyEndDate(args, parseArg);
  }

  /**
   * A month token whose year and month are both non-zero restricts `/pending` to that month: every
   * order listed has a date, in that month of that year.
   */
  lemma PendingMonthWins(rows: Sheet, args: seq<string>, parseArg: DateParser, today: CivilDate, parse: DateParser)
    requires LastIndex(args, MonthToken, parseArg) != -1
    requires var (y, m) := YearMonthOf(args[LastIndex(args, MonthToken, parseArg)]); y != 0 && m != 0
    requires PendingResults(rows, args, parseArg, today, parse).value.Success?
    ensures var (y, m) := YearMonthOf(args[LastIndex(args, MonthToken, parseArg)]);
      forall o :: o in PendingResults(rows, args, parseArg, today, parse).value.value ==>
        ToDate(o.orderDate, parse).Some?
        && ToDate(o.orderDate, parse).value.year == y && ToDate(o.orderDate, parse).value.month == m
  {
    ClassifyLastMonth(args, parseArg);
    var (y, m) := YearMonthOf(args[LastIndex(args, MonthToken, parseArg)]);
    var q := PendingRequestOf(args, parseArg, today).value;
    ListPendingMonth(rows, q.keyword, q.start, q.end, y, m, q.branch, 2000, parse);
  }

  /** Without a month token, every order listed lies in the normalised range when there is one. */
  lemma PendingRangeHolds(rows: Sheet, args: seq<string>, parseArg: DateParser, today: CivilDate, parse: DateParser)
    requires args != [] && LastIndex(args, MonthToken, parseArg) == -1
    requires PendingResults(rows, args, parseArg, today, parse).value.Success?
    ensures var q := PendingRequestOf(args, parseArg, today).value;
      forall o :: o in PendingResults(rows, args, parseArg, today, parse).value.value ==>
        !IsDone(o.statusDo) && InWindow(ToDate(o.orderDate, parse), q.start, q.end)
  {
    ClassifyLastMonth(args, parseArg);
    var q := PendingRequestOf(args, parseArg, today).value;
    ListPendingIgnoresZero(rows, q.keyword, q.start, q.end, q.year, q.month, q.branch, 2000, parse);
    PendingSound(rows, Filter(q.keyword, q.start, q.end, q.branch), 2000, parse);
  }

  // ----- /pendingmonth -----

  /** What `/pendingmonth` does with its arguments: the usage text, the format error, or a month. */
  datatype MonthArg = MonthUsage | MonthInvalid | MonthOf(year: int, month: int)

  /**
   * The `try` block on the stripped first argument: with a `-` (or else a `/`) it must split into
   * exactly two integers, `YYYY-MM` when the first has four characters and `MM-YYYY` otherwise;
   * without one, the date parser's year and month. `None` when anything raises or nothing parses.
   */
  function MonthText(raw: string, parseArg: DateParser): Option<(int, int)> {
    if '-' in raw || '/' in raw then MonthParts(Split(raw, if '-' in raw then '-' else '/'))
    else
      match parseArg(raw)
      case Some(d) => Some((d.year, d.month))
      case None => None
  }

  /** `a, b = parts; a, b = int(a), int(b)`, then the four-character test on the first part. */
  function MonthParts(parts: seq<string>): Option<(int, int)> {
    if |parts| != 2 then None
    else
      var a := ParseInt(parts[0]);
      var b := ParseInt(parts[1]);
      if a.None? || b.None? then None
      else if |parts[0]| == 4 then Some((a.value, b.value))
      else Some((b.value, a.value))
  }

  /** The checks after the `try`: a year and a month, both non-zero, the month in 1..12. */
  function PendingMonthArg(args: seq<string>, parseArg: DateParser): (r: MonthArg)
    ensures r == MonthUsage <==> args == []
    ensures r.MonthOf? ==> r.year != 0 && 1 <= r.month <= 12
    ensures r.MonthOf? ==> MonthText(Strip(args[0]), parseArg) == Some((r.year, r.month))
    ensures args != [] ==>
      (r.MonthOf? <==> MonthText(Strip(args[0]), parseArg).Some?
                       && MonthText(Strip(args[0]), parseArg).value.0 != 0
                       && 1 <= MonthText(Strip(args[0]), parseArg).value.1 <= 12)
  {
    if args == [] then MonthUsage
    else
      match MonthText(Strip(args[0]), parseArg)
      case None => MonthInvalid
      case Some((y, m)) => if y == 0 || m == 0 || !(1 <= m <= 12) then MonthInvalid else MonthOf(y, m)
  }

  /**
   * An argument holding a `-` or `/` that does not split into exactly two parts at the separator
   * used, or whose parts `int()` refuses, is an invalid month.
   */
  lemma PendingMonthMalformed(args: seq<string>, parseArg: DateParser)
    requires args != []
    requires var raw := Strip(args[0]);
      ('-' in raw || '/' in raw)
      && var parts := Split(raw, if '-' in raw then '-' else '/');
         |parts| != 2 || ParseInt(parts[0]).None? || ParseInt(parts[1]).None?
    ensures PendingMonthArg(args, parseArg) == MonthInvalid
  {
  }

  /** What `/pendingmonth` looks up: `list_pending_in_month(y, m, limit=2000)`. */
  function PendingMonthResults(rows: Sheet, args: seq<string>, parseArg: DateParser, parse: DateParser)
    : Option<Result<seq<Order>, SheetError>>
  {
    match PendingMonthArg(args, parseArg)
    case MonthOf(y, m) => Some(MonthQuery(rows, y, m, 2000, parse))
    case _ => None
  }

  /** `f"{m:02d}"` for a month. */
  function Pad2(m: nat): (s: string)
    requires 1 <= m <= 12
    ensures |s| == 2 && IsDigits(s) && DigitsValue(s) == m
  {
    var d := ShowNat(m);
    if m < 10 then
      var s := "0" + d;
      assert s[..1] == "0";
      s
    else
      assert d == ShowNat(m / 10) + [('0' as int + m % 10) as char];
      d
  }

  /** `str(y)` of a four-digit year has four characters. */
  lemma ShowYearLength(y: nat)
    requires 1000 <= y <= 9999
    ensures |ShowNat(y)| == 4
  {
    var a := y / 10;
    var b := a / 10;
    var c := b / 10;
    assert 100 <= a <= 999 && 10 <= b <= 99 && 1 <= c <= 9;
    ShowNatStep(y);
    ShowNatStep(a);
    ShowNatStep(b);
  }

  /** A number of ten or more prints as its tenth followed by one more digit. */
  lemma ShowNatStep(n: nat)
    requires n >= 10
    ensures |ShowNat(n)| == |ShowNat(n / 10)| + 1
  {
  }

  /** Digits, split and parsed back: `int` of a digit string is its value. */
  lemma ParseDigits(s: string)
    requires IsDigits(s)
    ensures ParseInt(s) == Some(DigitsValue(s))
  {
    StripDigits(s);
  }

  /** A digit string holds no non-digit character. */
  lemma DigitsLack(s: string, c: char)
    requires IsDigits(s) && !IsDigit(c)
    ensures c !in s
  {
  }

  /** A string that starts and ends with a digit has nothing to strip. */
  lemma StripDigitEnds(s: string)
    requires s != [] && IsDigit(s[0]) && IsDigit(s[|s| - 1])
    ensures Strip(s) == s
  {
    StripTrimmed(s);
  }

  /** The two digit strings joined by `sep` split back into themselves. */
  lemma SplitPair(a: string, b: string, sep: char)
    requires IsDigits(a) && IsDigits(b) && (sep == '-' || sep == '/')
    ensures Split(a + [sep] + b, sep) == [a, b]
    ensures Strip(a + [sep] + b) == a + [sep] + b
    ensures sep in a + [sep] + b
    ensures '-' in a + [sep] + b <==> sep == '-'
  {
    var s := a + [sep] + b;
    DigitsLack(a, sep);
    DigitsLack(b, sep);
    assert Join([a, b], [sep]) == s;
    SplitJoin([a, b], sep);
    assert s[0] == a[0] && s[|s| - 1] == b[|b| - 1];
    StripDigitEnds(s);
    DigitsLack(a, '-');
    DigitsLack(b, '-');
    InJoined(a, b, sep, '-');
    InJoined(a, b, sep, sep);
  }

  /** Two digit strings around either separator: a four-digit first part is the year, otherwise the second. */
  lemma MonthTextPair(a: string, b: string, sep: char, parseArg: DateParser)
    requires IsDigits(a) && IsDigits(b) && (sep == '-' || sep == '/')
    ensures Strip(a + [sep] + b) == a + [sep] + b
    ensures MonthText(a + [sep] + b, parseArg)
         == if |a| == 4 then Some((DigitsValue(a), DigitsValue(b))) else Some((DigitsValue(b), DigitsValue(a)))
  {
    var s := a + [sep] + b;
    SplitPair(a, b, sep);
    assert (if '-' in s then '-' else '/') == sep;
    MonthPartsDigits(a, b);
  }

  lemma MonthPartsDigits(a: string, b: string)
    requires IsDigits(a) && IsDigits(b)
    ensures MonthParts([a, b])
         == if |a| == 4 then Some((DigitsValue(a), DigitsValue(b))) else Some((DigitsValue(b), DigitsValue(a)))
  {
    ParseDigits(a);
    ParseDigits(b);
  }

  /** A month written `YYYY-MM` or `YYYY/MM`, with a four-digit year, is read back as that month. */
  lemma PendingMonthYearFirst(y: nat, m: nat, sep: char, parseArg: DateParser)
    requires 1000 <= y <= 9999 && 1 <= m <= 12 && (sep == '-' || sep == '/')
    ensures PendingMonthArg([ShowNat(y) + [sep] + Pad2(m)], parseArg) == MonthOf(y, m)
  {
    var s := ShowNat(y) + [sep] + Pad2(m);
    ShowYearLength(y);
    MonthTextPair(ShowNat(y), Pad2(m), sep, parseArg);
    assert Strip([s][0]) == s;
  }

  /** A month written `MM-YYYY` or `MM/YYYY` is read back as that month, for any positive year. */
  lemma PendingMonthMonthFirst(y: nat, m: nat, sep: char, parseArg: DateParser)
    requires 1 <= y && 1 <= m <= 12 && (sep == '-' || sep == '/')
    ensures PendingMonthArg([Pad2(m) + [sep] + ShowNat(y)], parseArg) == MonthOf(y, m)
  {
    var s := Pad2(m) + [sep] + ShowNat(y);
    MonthTextPair(Pad2(m), ShowNat(y), sep, parseArg);
    assert Strip([s][0]) == s;
  }

  /**
   * A full date with separators, `YYYY-MM-DD`, never reaches the date parser: it splits into three
   * parts and is refused as an invalid month.
   */
  lemma PendingMonthFullDate(a: string, b: string, c: string, parseArg: DateParser)
    requires IsDigits(a) && IsDigits(b) && IsDigits(c)
    ensures PendingMonthArg([a + "-" + b + "-" + c], parseArg) == MonthInvalid
  {
    var s := a + "-" + b + "-" + c;
    DigitsLack(a, '-');
    DigitsLack(b, '-');
    DigitsLack(c, '-');
    JoinThree(a, b, c);
    SplitJoin([a, b, c], '-');
    assert s[|a|] == '-';
    assert s[0] == a[0] && s[|s| - 1] == c[|c| - 1];
    StripDigitEnds(s);
    assert MonthText(Strip([s][0]), parseArg) == MonthParts([a, b, c]);
  }

  lemma JoinThree(a: string, b: string, c: string)
    ensures Join([a, b, c], "-") == a + "-" + b + "-" + c
  {
    assert [a, b, c][1..] == [b, c];
    assert [b, c][1..] == [c];
    assert Join([b, c], "-") == b + "-" + c;
    assert a + "-" + (b + "-" + c) == a + "-" + b + "-" + c;
  }

  // ----- /summarybranch -----

  /** The branch and month `/summarybranch` reads from its arguments. */
  datatype SummaryArgs = SummaryArgs(branch: Option<string>, year: Option<int>, month: Option<int>)

  /** `ym = a.replace("/", "-").split("-")` with `ym[0]` and `ym[1]` both `isdigit()`. */
  function DigitPair(a: string): (r: Option<(int, int)>)
    ensures r.Some? ==> r.value.0 >= 0 && r.value.1 >= 0
  {
    var ym := Split(ReplaceChar(a, '/', '-'), '-');
    if |ym| >= 2 && IsDigits(ym[0]) && IsDigits(ym[1]) then Some((DigitsValue(ym[0]), DigitsValue(ym[1])))
    else None
  }

  /** `len(a0) in (7, 10) and ("-" in a0 or "/" in a0)`. */
  predicate LooksLikeMonth(a: string) {
    (|a| == 7 || |a| == 10) && ('-' in a || '/' in a)
  }

  /**
   * The first argument is the month when it looks like one and the branch otherwise; the second is
   * read as the month when the first did not give one.
   */
  function SummaryArgsOf(args: seq<string>): (r: SummaryArgs)
    ensures r.year.Some? <==> r.month.Some?
    ensures r.branch.Some? ==> args != [] && r.branch == Some(Strip(args[0])) && !LooksLikeMonth(Strip(args[0]))
  {
    var first :=
      if args == [] then SummaryArgs(None, None, None)
      else
        var a0 := Strip(args[0]);
        if LooksLikeMonth(a0) then
          match DigitPair(a0)
          case Some((y, m)) => SummaryArgs(None, Some(y), Some(m))
          case None => SummaryArgs(None, None, None)
        else SummaryArgs(Some(a0), None, None);
    if |args| >= 2 && (first.year.None? || first.month.None?) then
      match DigitPair(Strip(args[1]))
      case Some((y, m)) => first.(year := Some(y), month := Some(m))
      case None => first
    else first
  }

  /** `y = year or today.year`, `m = month or today.month`. */
  function SummaryMonth(a: SummaryArgs, today: CivilDate): (int, int) {
    (if Truthy(a.year) then a.year.value else today.year, if Truthy(a.month) then a.month.value else today.month)
  }

  /** `date(y, m, 1)` and `date(y, m, monthrange(y, m)[1])`; `None` where `date` raises. */
  function SummaryWindow(a: SummaryArgs, today: CivilDate): Option<(CivilDate, CivilDate)> {
    var (y, m) := SummaryMonth(a, today);
    MonthBounds(y, m)
  }

  /** What `/summarybranch` computes: summarize_orders over the branch and the month's window. */
  function SummaryBranchResult(rows: Sheet, args: seq<string>, today: CivilDate, parse: DateParser)
    : Result<Tally<string>, SheetError>
  {
    var a := SummaryArgsOf(args);
    match SummaryWindow(a, today)
    case None => Failure(InvalidDate(SummaryMonth(a, today).0, SummaryMonth(a, today).1))
    case Some((first, last)) => SummaryTally(rows, a.branch, Some(first), Some(last), parse)
  }

  /** A branch name followed by `YYYY-MM` is read as that branch and that month. */
  lemma SummaryArgsBranchMonth(b: string, y: nat, m: nat)
    requires !LooksLikeMonth(Strip(b))
    requires 1 <= m <= 12
    ensures SummaryArgsOf([b, ShowNat(y) + "-" + Pad2(m)]) == SummaryArgs(Some(Strip(b)), Some(y), Some(m))
  {
    var s := ShowNat(y) + "-" + Pad2(m);
    assert DigitPair(Strip(s)) == Some((y, m)) by {
      SplitPair(ShowNat(y), Pad2(m), '-');
      DigitPairOf(ShowNat(y), Pad2(m), '-');
    }
    assert [b, s][0] == b && [b, s][1] == s;
  }

  /** A lone `YYYY-MM` or `YYYY/MM` is read as that month, for all branches. */
  lemma SummaryArgsMonthOnly(y: nat, m: nat, sep: char)
    requires 1000 <= y <= 9999 && 1 <= m <= 12 && (sep == '-' || sep == '/')
    ensures SummaryArgsOf([ShowNat(y) + [sep] + Pad2(m)]) == SummaryArgs(None, Some(y), Some(m))
  {
    var s := ShowNat(y) + [sep] + Pad2(m);
    ShowYearLength(y);
    SplitPair(ShowNat(y), Pad2(m), sep);
    DigitPairOf(ShowNat(y), Pad2(m), sep);
    assert Strip([s][0]) == s && LooksLikeMonth(s);
  }

  /** Two digit strings around either separator are read as their two values. */
  lemma DigitPairOf(a: string, b: string, sep: char)
    requires IsDigits(a) && IsDigits(b) && (sep == '-' || sep == '/')
    ensures DigitPair(a + [sep] + b) == Some((DigitsValue(a), DigitsValue(b)))
  {
    DigitsLack(a, '/');
    DigitsLack(b, '/');
    SlashToDash(a, b, sep);
    SplitPair(a, b, '-');
  }

  /** Replacing `/` by `-` leaves two slash-free pieces and turns the separator into `-`. */
  lemma SlashToDash(a: string, b: string, sep: char)
    requires '/' !in a && '/' !in b && (sep == '-' || sep == '/')
    ensures ReplaceChar(a + [sep] + b, '/', '-') == a + "-" + b
  {
    var s, t := a + [sep] + b, a + "-" + b;
    var r := ReplaceChar(s, '/', '-');
    forall i | 0 <= i < |s|
      ensures r[i] == t[i]
    {
      if i < |a| {
        assert s[i] == a[i] == t[i];
      } else if i > |a| {
        assert s[i] == b[i - |a| - 1] == t[i];
      }
    }
  }

  /**
   * A lone first argument of 7 or 10 characters with a separator that is not a digit pair is neither
   * branch nor month: the summary covers every branch for the current month.
   */
  lemma SummaryArgsLookalike(a: string, today: CivilDate)
    requires LooksLikeMonth(Strip(a)) && DigitPair(Strip(a)).None?
    ensures SummaryArgsOf([a]) == SummaryArgs(None, None, None)
    ensures SummaryWindow(SummaryArgsOf([a]), today) == MonthBounds(today.year, today.month)
  {
  }

  /**
   * The window is defined exactly when the chosen month is a valid one; it then holds exactly the dates
   * of that month, and without a month argument that month is today's, so today is in it.
   */
  lemma SummaryWindowSpec(a: SummaryArgs, today: CivilDate, d: CivilDate)
    ensures var (y, m) := SummaryMonth(a, today);
      SummaryWindow(a, today).Some? <==> 1 <= y <= 9999 && 1 <= m <= 12
    ensures SummaryWindow(a, today).Some? ==>
      var (y, m) := SummaryMonth(a, today);
      var (first, last) := SummaryWindow(a, today).value;
      (DateLe(first, d) && DateLe(d, last)) <==> (d.year == y && d.month == m)
    ensures !Truthy(a.year) && !Truthy(a.month) ==>
      var (first, last) := SummaryWindow(a, today).value;
      DateLe(first, today) && DateLe(today, last)
  {
    var (y, m) := SummaryMonth(a, today);
    if 1 <= y <= 9999 && 1 <= m <= 12 {
      MonthBoundsWindow(y, m, d);
      MonthBoundsWindow(y, m, today);
    }
  }

  // ----- The scheduled report: the last two calendar months -----

  /** Months counted from year 0, so consecutive months differ by one. */
  function MonthIndex(d: Date): int {
    d.year * 12 + d.month - 1
  }

  /** The start as written: the previous month, but `m + 10` in January; `None` where `date` raises. */
  function TwoMonthStartAsWritten(today: CivilDate): Option<CivilDate> {
    var (sy, sm) := if today.month > 1 then (today.year, today.month - 1) else (today.year - 1, today.month + 10);
    if IsValidDate(sy, sm, 1) then Some(Date(sy, sm, 1)) else None
  }

  /** In January the written start is 1 November of the previous year: three calendar months, not two. */
  lemma TwoMonthJanuaryAsWritten(today: CivilDate)
    requires today.month == 1 && today.year >= 2
    ensures TwoMonthStartAsWritten(today) == Some(Date(today.year - 1, 11, 1))
    ensures MonthIndex(today) - MonthIndex(TwoMonthStartAsWritten(today).value) == 2
  {
  }

  /** How many months before today's the written start lies: one, but two in January. */
  function MonthsBackAsWritten(today: CivilDate): nat {
    if today.month > 1 then 1 else 2
  }

  /**
   * A window from the first day of a month up to today holds exactly the dates from that month on,
   * before today's month, and the days of today's month up to today.
   */
  lemma MonthStartWindow(s: CivilDate, today: CivilDate, d: CivilDate)
    requires s.day == 1 && MonthIndex(s) < MonthIndex(today)
    ensures (DateLe(s, d) && DateLe(d, today))
      <==> (MonthIndex(s) <= MonthIndex(d) < MonthIndex(today)
            || (MonthIndex(d) == MonthIndex(today) && d.day <= today.day))
  {
  }

  /**
   * The written start exists except in January of year 1; it is the first day of the month one month
   * back, or two in January, and the window up to today holds exactly the dates from that month on.
   */
  lemma TwoMonthStartAsWrittenSpec(today: CivilDate, d: CivilDate)
    ensures TwoMonthStartAsWritten(today).None? <==> today.year == 1 && today.month == 1
    ensures TwoMonthStartAsWritten(today).Some? ==>
      var s := TwoMonthStartAsWritten(today).value;
      s.day == 1 && MonthIndex(s) == MonthIndex(today) - MonthsBackAsWritten(today)
      && ((DateLe(s, d) && DateLe(d, today))
          <==> (MonthIndex(today) - MonthsBackAsWritten(today) <= MonthIndex(d) < MonthIndex(today)
                || (MonthIndex(d) == MonthIndex(today) && d.day <= today.day)))
  {
    if TwoMonthStartAsWritten(today).Some? {
      MonthStartWindow(TwoMonthStartAsWritten(today).value, today, d);
    }
  }

  /** The evidently intended start: the first day of the previous month, December in January. */
  function TwoMonthStart(today: CivilDate): Option<CivilDate> {
    var (sy, sm) := if today.month > 1 then (today.year, today.month - 1) else (today.year - 1, 12);
    if IsValidDate(sy, sm, 1) then Some(Date(sy, sm, 1)) else None
  }

  /**
   * The start exists except in January of year 1; it is the first day of the month before today's,
   * and the window up to today holds exactly the dates of that month and of today's month up to today.
   */
  lemma TwoMonthStartSpec(today: CivilDate, d: CivilDate)
    ensures TwoMonthStart(today).None? <==> today.year == 1 && today.month == 1
    ensures TwoMonthStart(today).Some? ==>
      var s := TwoMonthStart(today).value;
      s.day == 1 && MonthIndex(s) == MonthIndex(today) - 1 && DateLe(s, today)
      && ((DateLe(s, d) && DateLe(d, today))
          <==> (MonthIndex(d) == MonthIndex(today) - 1 || (MonthIndex(d) == MonthIndex(today) && d.day <= today.day)))
  {
  }

  /** Outside January the written start is already the intended one. */
  lemma TwoMonthStartAgrees(today: CivilDate)
    requires today.month > 1
    ensures TwoMonthStartAsWritten(today) == TwoMonthStart(today)
  {
  }

  /** `list_pending_in_range(start, today, 5000)` from a given start; `None` where `date` raised. */
  function ReportFrom(rows: Sheet, start: Option<CivilDate>, today: CivilDate, parse: DateParser)
    : Option<Result<seq<Order>, SheetError>>
  {
    match start
    case None => None
    case Some(s) => Some(PendingQuery(rows, Filter(None, Some(s), Some(today), None), 5000, parse))
  }

  /** Every order of a report from `s` is open and dated from `s` to today. */
  lemma ReportFromSound(rows: Sheet, s: CivilDate, today: CivilDate, parse: DateParser)
    requires ReportFrom(rows, Some(s), today, parse).value.Success?
    ensures forall o :: o in ReportFrom(rows, Some(s), today, parse).value.value ==>
      !IsDone(o.statusDo) && ToDate(o.orderDate, parse).Some?
      && DateLe(s, ToDate(o.orderDate, parse).value) && DateLe(ToDate(o.orderDate, parse).value, today)
  {
    PendingSound(rows, Filter(None, Some(s), Some(today), None), 5000, parse);
  }

  /** What the scheduled report looks up as the code does it, from the written start. */
  function ReportResultsAsWritten(rows: Sheet, today: CivilDate, parse: DateParser): Option<Result<seq<Order>, SheetError>> {
    ReportFrom(rows, TwoMonthStartAsWritten(today), today, parse)
  }

  /**
   * Every order in the code's report is open and dated within the last month before today's (the last
   * two in January) or this month up to today.
   */
  lemma ReportSoundAsWritten(rows: Sheet, today: CivilDate, parse: DateParser)
    requires ReportResultsAsWritten(rows, today, parse).Some? && ReportResultsAsWritten(rows, today, parse).value.Success?
    ensures forall o :: o in ReportResultsAsWritten(rows, today, parse).value.value ==>
      !IsDone(o.statusDo) && ToDate(o.orderDate, parse).Some?
      && var d := ToDate(o.orderDate, parse).value;
         MonthIndex(today) - MonthsBackAsWritten(today) <= MonthIndex(d) < MonthIndex(today)
         || (MonthIndex(d) == MonthIndex(today) && d.day <= today.day)
  {
    var s := TwoMonthStartAsWritten(today).value;
    ReportFromSound(rows, s, today, parse);
    forall o | o in ReportResultsAsWritten(rows, today, parse).value.value
      ensures ToDate(o.orderDate, parse).Some?
        && var d := ToDate(o.orderDate, parse).value;
           MonthIndex(today) - MonthsBackAsWritten(today) <= MonthIndex(d) < MonthIndex(today)
           || (MonthIndex(d) == MonthIndex(today) && d.day <= today.day)
    {
      TwoMonthStartAsWrittenSpec(today, ToDate(o.orderDate, parse).value);
    }
  }

  /** The report with the corrected start: `list_pending_in_range` from the first day of the previous month. */
  function ReportResults(rows: Sheet, today: CivilDate, parse: DateParser): Option<Result<seq<Order>, SheetError>> {
    ReportFrom(rows, TwoMonthStart(today), today, parse)
  }

  /** Every order in the corrected report is open and dated within the previous month or this month up to today. */
  lemma ReportSound(rows: Sheet, today: CivilDate, parse: DateParser)
    requires ReportResults(rows, today, parse).Some? && ReportResults(rows, today, parse).value.Success?
    ensures forall o :: o in ReportResults(rows, today, parse).value.value ==>
      !IsDone(o.statusDo) && ToDate(o.orderDate, parse).Some?
      && var d := ToDate(o.orderDate, parse).value;
         MonthIndex(d) == MonthIndex(today) - 1 || (MonthIndex(d) == MonthIndex(today) && d.day <= today.day)
  {
    var s := TwoMonthStart(today).value;
    ReportFromSound(rows, s, today, parse);
    forall o | o in ReportResults(rows, today, parse).value.value
      ensures ToDate(o.orderDate, parse).Some?
        && var d := ToDate(o.orderDate, parse).value;
           MonthIndex(d) == MonthIndex(today) - 1 || (MonthIndex(d) == MonthIndex(today) && d.day <= today.day)
    {
      TwoMonthStartSpec(today, ToDate(o.orderDate, parse).value);
    }
  }
}
