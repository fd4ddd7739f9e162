/**
 * The row scans of sheets.py: find_order, search_by_name, list_not_done, list_pending_in_range,
 * list_pending_in_month and list_pending. The sheet is the list of rows `ws.get_all_values()`
 * returns; row 0 is the header.
 */
module SheetQueries {
  import opened Wrappers
  import opened Text
  import opened Calendar
  import opened Sequences
  import opened Sorting
  import opened SheetCore

  // ----- The scan that stops at `limit` -----

  /** The records built from the rows `keep` accepts, in row order. */
  function Survivors(data: seq<Row>, keep: Row -> bool, build: Row -> Order): seq<Order> {
    if data == [] then []
    else
      var last := data[|data| - 1];
      Survivors(data[..|data| - 1], keep, build) + (if keep(last) then [build(last)] else [])
  }

  /** A record survives exactly when it is built from an accepted row. */
  lemma {:induction false} SurvivorsMembers(data: seq<Row>, keep: Row -> bool, build: Row -> Order)
    ensures forall o :: o in Survivors(data, keep, build) <==>
      exists i :: 0 <= i < |data| && keep(data[i]) && build(data[i]) == o
  {
    if data != [] {
      var n := |data| - 1;
      SurvivorsMembers(data[..n], keep, build);
      forall o ensures o in Survivors(data, keep, build) <==>
        exists i :: 0 <= i < |data| && keep(data[i]) && build(data[i]) == o
      {
        if o in Survivors(data[..n], keep, build) {
          var i :| 0 <= i < n && keep(data[..n][i]) && build(data[..n][i]) == o;
          assert data[..n][i] == data[i];
        }
        if exists i :: 0 <= i < |data| && keep(data[i]) && build(data[i]) == o {
          var i :| 0 <= i < |data| && keep(data[i]) && build(data[i]) == o;
          if i < n {
            assert data[..n][i] == data[i];
          }
        }
      }
    }
  }

  /** A record the capped scan returns comes from an accepted row. */
  lemma CappedOrigin(data: seq<Row>, keep: Row -> bool, build: Row -> Order, limit: int, o: Order)
    requires o in Capped(Survivors(data, keep, build), limit)
    ensures exists i :: 0 <= i < |data| && keep(data[i]) && build(data[i]) == o
  {
    var all := Survivors(data, keep, build);
    var capped := Capped(all, limit);
    var j :| 0 <= j < |capped| && capped[j] == o;
    assert o in all by {
      assert all[j] == o;
    }
    SurvivorsMembers(data, keep, build);
  }

  /** Scanning fewer rows finds a prefix of the survivors. */
  lemma {:induction false} SurvivorsPrefix(data: seq<Row>, i: nat, keep: Row -> bool, build: Row -> Order)
    requires i <= |data|
    ensures Survivors(data[..i], keep, build) <= Survivors(data, keep, build)
  {
    if i < |data| {
      var n := |data| - 1;
      assert data[..n][..i] == data[..i];
      SurvivorsPrefix(data[..n], i, keep, build);
    } else {
      assert data[..i] == data;
    }
  }

  /** How many records a scan keeps: `limit`, but at least one (the check runs after the append). */
  function Cap(limit: int): nat {
    if limit < 1 then 1 else limit
  }

  /** The first `Cap(limit)` records of `s`. */
  function Capped(s: seq<Order>, limit: int): (r: seq<Order>)
    ensures r <= s
    ensures |r| == if |s| <= Cap(limit) then |s| else Cap(limit)
  {
    if |s| <= Cap(limit) then s else s[..Cap(limit)]
  }

  /**
   * The loop shared by the queries: walk the data rows, append the record of each accepted row and
   * stop as soon as `len(out) >= limit`.
   */
  method Collect(data: seq<Row>, keep: Row -> bool, build: Row -> Order, limit: int) returns (out: seq<Order>)
    ensures out == Capped(Survivors(data, keep, build), limit)
  {
    out := [];
    var i := 0;
    while i < |data|
      invariant 0 <= i <= |data|
      invariant out == Survivors(data[..i], keep, build)
      invariant |out| < Cap(limit)
    {
      var r := data[i];
      assert data[..i + 1][..i] == data[..i];
      if keep(r) {
        out := out + [build(r)];
        if |out| >= limit {
          SurvivorsPrefix(data, i + 1, keep, build);
          return;
        }
      }
      i := i + 1;
    }
    assert data[..i] == data;
  }

  // ----- The pending filters -----

  /** The optional filters of the pending queries; `None` switches one off. */
  datatype Filter = Filter(keyword: Option<string>, start: Option<CivilDate>, end: Option<CivilDate>,
                           branch: Option<string>)

  /** `q`: the trimmed, lower-cased keyword, or `None` when it is absent or blank. */
  function Needle(keyword: Option<string>): Option<string> {
    match keyword
    case None => None
    case Some(k) => if Norm(k) == "" then None else Some(Norm(k))
  }

  /** `re.sub(r"\s+", "", s.strip().lower())`, list_pending's branch normalisation. */
  function BranchKey(s: string): string {
    RemoveSpaces(Norm(s))
  }

  /** `want_branch`: the normalised branch, or `None` when absent or when nothing is left of it. */
  function WantedBranch(branch: Option<string>): Option<string> {
    match branch
    case None => None
    case Some(b) => if BranchKey(b) == "" then None else Some(BranchKey(b))
  }

  /** `idx_branch`: the "branch" column, else the "datel" column, else none. */
  function BranchColumn(header: map<string, nat>): Option<nat> {
    if "branch" in header then Some(header["branch"])
    else if "datel" in header then Some(header["datel"])
    else None
  }

  /** The inclusive date window; a set bound rejects an absent date. */
  predicate InWindow(d: Option<CivilDate>, start: Option<CivilDate>, end: Option<CivilDate>) {
    (start.Some? ==> d.Some? && DateLe(start.value, d.value))
    && (end.Some? ==> d.Some? && DateLe(d.value, end.value))
  }

  /** `f"{name} {order_id} {no_sc}".lower()`. */
  function Haystack(o: Order): string {
    Lower(o.customerName + " " + o.orderId + " " + o.noSc)
  }

  /** The row tests of the pending loop, in their order: closed, branch, date window, keyword. */
  predicate Keep(r: Row, cols: Columns, branchCol: Option<nat>, f: Filter, parse: DateParser) {
    !IsDone(Cell(r, cols.status))
    && (branchCol.Some? && WantedBranch(f.branch).Some? ==>
          BranchKey(Cell(r, branchCol.value)) == WantedBranch(f.branch).value)
    && InWindow(ToDate(Cell(r, cols.date), parse), f.start, f.end)
    && (Needle(f.keyword).Some? ==> Contains(Haystack(RowOrder(r, cols)), Needle(f.keyword).value))
  }

  function Keeper(cols: Columns, branchCol: Option<nat>, f: Filter, parse: DateParser): Row -> bool {
    r => Keep(r, cols, branchCol, f, parse)
  }

  function Builder(cols: Columns): Row -> Order {
    r => RowOrder(r, cols)
  }

  /**
   * The common body of list_not_done, list_pending_in_range and list_pending once the date window is
   * fixed: `[]` for an empty sheet, the missing-column error, else the first `limit` survivors sorted by
   * date. (list_not_done and list_pending_in_range never look for a branch column; they are called with
   * no branch, so the branch test is switched off for them either way.)
   */
  function PendingQuery(rows: Sheet, f: Filter, limit: int, parse: DateParser): Result<seq<Order>, SheetError> {
    if rows == [] then Success([])
    else
      var header := HeaderMap(rows[0]);
      var missing := Missing(PendingRequired, header);
      if missing != [] then Failure(MissingColumns(None, missing))
      else
        PendingRequiredPresent(header);
        var cols := ColumnsOf(header);
        Success(SortByDate(Capped(Survivors(rows[1..], Keeper(cols, BranchColumn(header), f, parse), Builder(cols)),
                                  limit), parse))
  }

  /** The scan, the cap and the sort of the pending queries. */
  method ScanPending(rows: Sheet, f: Filter, limit: int, parse: DateParser) returns (r: Result<seq<Order>, SheetError>)
    ensures r == PendingQuery(rows, f, limit, parse)
  {
    if rows == [] {
      return Success([]);
    }
    var header := HeaderMap(rows[0]);
    var missing := Missing(PendingRequired, header);
    if missing != [] {
      return Failure(MissingColumns(None, missing));
    }
    PendingRequiredPresent(header);
    var cols := ColumnsOf(header);
    var out := Collect(rows[1..], Keeper(cols, BranchColumn(header), f, parse), Builder(cols), limit);
    return Success(SortByDate(out, parse));
  }

  /** `list_not_done(keyword, limit)`. */
  method ListNotDone(rows: Sheet, keyword: Option<string>, limit: int, parse: DateParser)
    returns (r: Result<seq<Order>, SheetError>)
    ensures r == PendingQuery(rows, Filter(keyword, None, None, None), limit, parse)
  {
    r := ScanPending(rows, Filter(keyword, None, None, None), limit, parse);
  }

  /** `list_pending_in_range(start, end, limit)`. */
  method ListPendingInRange(rows: Sheet, start: Option<CivilDate>, end: Option<CivilDate>, limit: int, parse: DateParser)
    returns (r: Result<seq<Order>, SheetError>)
    ensures r == PendingQuery(rows, Filter(None, start, end, None), limit, parse)
  {
    r := ScanPending(rows, Filter(None, start, end, None), limit, parse);
  }

  /** `list_pending_in_month(year, month, limit)`: `date(year, month, 1)` raises before the sheet is read. */
  function MonthQuery(rows: Sheet, year: int, month: int, limit: int, parse: DateParser): Result<seq<Order>, SheetError> {
    match MonthBounds(year, month)
    case None => Failure(InvalidDate(year, month))
    case Some((first, last)) => PendingQuery(rows, Filter(None, Some(first), Some(last), None), limit, parse)
  }

  method ListPendingInMonth(rows: Sheet, year: int, month: int, limit: int, parse: DateParser)
    returns (r: Result<seq<Order>, SheetError>)
    ensures r == MonthQuery(rows, year, month, limit, parse)
  {
    var bounds := MonthBounds(year, month);
    if bounds.None? {
      return Failure(InvalidDate(year, month));
    }
    var (first, last) := bounds.value;
    r := ScanPending(rows, Filter(None, Some(first), Some(last), None), limit, parse);
  }

  /** Python truthiness of an optional integer: present and non-zero. */
  predicate Truthy(x: Option<int>) {
    x.Some? && x.value != 0
  }

  /** `if year and month`: both given and non-zero replace start and end by the month's first and last day. */
  function Window(start: Option<CivilDate>, end: Option<CivilDate>, year: Option<int>, month: Option<int>)
    : Result<(Option<CivilDate>, Option<CivilDate>), SheetError>
  {
    if Truthy(year) && Truthy(month) then
      match MonthBounds(year.value, month.value)
      case None => Failure(InvalidDate(year.value, month.value))
      case Some((first, last)) => Success((Some(first), Some(last)))
    else Success((start, end))
  }

  /** `list_pending(keyword, start, end, year, month, branch, limit)`. */
  function ListPendingQuery(rows: Sheet, keyword: Option<string>, start: Option<CivilDate>, end: Option<CivilDate>,
                            year: Option<int>, month: Option<int>, branch: Option<string>, limit: int,
                            parse: DateParser): Result<seq<Order>, SheetError>
  {
    match Window(start, end, year, month)
    case Failure(e) => Failure(e)
    case Success((s, e)) => PendingQuery(rows, Filter(keyword, s, e, branch), limit, parse)
  }

  method ListPending(rows: Sheet, keyword: Option<string>, start: Option<CivilDate>, end: Option<CivilDate>,
                     year: Option<int>, month: Option<int>, branch: Option<string>, limit: int, parse: DateParser)
    returns (r: Result<seq<Order>, SheetError>)
    ensures r == ListPendingQuery(rows, keyword, start, end, year, month, branch, limit, parse)
  {
    var window := Window(start, end, year, month);
    if window.Failure? {
      return Failure(window.error);
    }
    var (s, e) := window.value;
    r := ScanPending(rows, Filter(keyword, s, e, branch), limit, parse);
  }

  // ----- What the pending queries promise -----

  /**
   * An empty sheet gives no rows; otherwise the query fails exactly when a required column is absent,
   * and the error lists the absent names in the order of the required list.
   */
  lemma PendingErrors(rows: Sheet, f: Filter, limit: int, parse: DateParser)
    ensures rows == [] ==> PendingQuery(rows, f, limit, parse) == Success([])
    ensures rows != [] ==>
      (PendingQuery(rows, f, limit, parse).Failure? <==> !HasOrderColumns(HeaderMap(rows[0])))
    ensures PendingQuery(rows, f, limit, parse).Failure? ==>
      var missing := Missing(PendingRequired, HeaderMap(rows[0]));
      PendingQuery(rows, f, limit, parse).error == MissingColumns(None, missing)
      && missing != [] && IsSubsequence(missing, PendingRequired)
      && forall c :: c in missing <==> c in PendingRequired && c !in HeaderMap(rows[0])
  {
    if rows != [] {
      PendingRequiredPresent(HeaderMap(rows[0]));
    }
  }

  /** The records of the data rows that pass every row test, in row order, before the cap. */
  function PendingSurvivors(rows: Sheet, f: Filter, parse: DateParser): seq<Order>
    requires rows != [] && HasOrderColumns(HeaderMap(rows[0]))
  {
    var header := HeaderMap(rows[0]);
    Survivors(rows[1..], Keeper(ColumnsOf(header), BranchColumn(header), f, parse), Builder(ColumnsOf(header)))
  }

  /** A successful query of a non-empty sheet had its columns and sorts the capped survivors. */
  lemma PendingIsSorted(rows: Sheet, f: Filter, limit: int, parse: DateParser)
    requires PendingQuery(rows, f, limit, parse).Success? && rows != []
    ensures HasOrderColumns(HeaderMap(rows[0]))
    ensures PendingQuery(rows, f, limit, parse).value
         == SortByDate(Capped(PendingSurvivors(rows, f, parse), limit), parse)
  {
    PendingRequiredPresent(HeaderMap(rows[0]));
  }

  /** What the sort returns after the cap was among what came before it. */
  lemma SortedCappedMember(o: Order, all: seq<Order>, limit: int, parse: DateParser)
    requires o in SortByDate(Capped(all, limit), parse)
    ensures o in all
  {
    var capped := Capped(all, limit);
    assert o in multiset(SortByDate(capped, parse));
    assert o in capped;
    var j :| 0 <= j < |capped| && capped[j] == o;
    assert all[j] == o;
  }

  /** Every result comes from a data row that passes all the row tests. */
  lemma PendingFromRows(rows: Sheet, f: Filter, limit: int, parse: DateParser)
    requires PendingQuery(rows, f, limit, parse).Success? && rows != []
    ensures var header := HeaderMap(rows[0]);
      HasOrderColumns(header) &&
      forall o :: o in PendingQuery(rows, f, limit, parse).value ==>
        exists i :: 1 <= i < |rows| && Keep(rows[i], ColumnsOf(header), BranchColumn(header), f, parse)
                    && o == RowOrder(rows[i], ColumnsOf(header))
  {
    PendingIsSorted(rows, f, limit, parse);
    var header := HeaderMap(rows[0]);
    var cols := ColumnsOf(header);
    var keep := Keeper(cols, BranchColumn(header), f, parse);
    var all := PendingSurvivors(rows, f, parse);
    SurvivorsMembers(rows[1..], keep, Builder(cols));
    forall o | o in PendingQuery(rows, f, limit, parse).value
      ensures exists i :: 1 <= i < |rows| && Keep(rows[i], cols, BranchColumn(header), f, parse) && o == RowOrder(rows[i], cols)
    {
      SortedCappedMember(o, all, limit, parse);
      var i :| 0 <= i < |rows[1..]| && keep(rows[1..][i]) && Builder(cols)(rows[1..][i]) == o;
      assert rows[1..][i] == rows[i + 1];
    }
  }

  /**
   * Soundness against the filters: a result is not closed; when a bound is set, its date is present and
   * inside the inclusive window; when a keyword is given, its lower-cased "name order_id no_sc" holds it.
   */
  lemma PendingSound(rows: Sheet, f: Filter, limit: int, parse: DateParser)
    requires PendingQuery(rows, f, limit, parse).Success?
    ensures forall o :: o in PendingQuery(rows, f, limit, parse).value ==>
      !IsDone(o.statusDo)
      && InWindow(ToDate(o.orderDate, parse), f.start, f.end)
      && (Needle(f.keyword).Some? ==> Contains(Haystack(o), Needle(f.keyword).value))
  {
    if rows != [] {
      PendingFromRows(rows, f, limit, parse);
    }
  }

  /**
   * The result is the first `limit` survivors (at least one when any survives) in row order,
   * reordered by the stable date sort: a permutation of them, ascending by date.
   */
  lemma PendingShape(rows: Sheet, f: Filter, limit: int, parse: DateParser)
    requires PendingQuery(rows, f, limit, parse).Success? && rows != []
    ensures var header := HeaderMap(rows[0]);
      HasOrderColumns(header) &&
      var out := PendingQuery(rows, f, limit, parse).value;
      var all := Survivors(rows[1..], Keeper(ColumnsOf(header), BranchColumn(header), f, parse),
                           Builder(ColumnsOf(header)));
      |out| == (if |all| <= Cap(limit) then |all| else Cap(limit))
      && multiset(out) == multiset(all[..|out|])
      && SortedBy(out, ByDate(parse))
  {
    PendingRequiredPresent(HeaderMap(rows[0]));
    var header := HeaderMap(rows[0]);
    var all := Survivors(rows[1..], Keeper(ColumnsOf(header), BranchColumn(header), f, parse),
                         Builder(ColumnsOf(header)));
    var capped := Capped(all, limit);
    assert capped == all[..|capped|];
    assert |multiset(PendingQuery(rows, f, limit, parse).value)| == |multiset(capped)|;
  }

  /** With year and month both given, valid and non-zero, list_pending keeps only that month's dates. */
  lemma ListPendingMonth(rows: Sheet, keyword: Option<string>, start: Option<CivilDate>, end: Option<CivilDate>,
                         year: int, month: int, branch: Option<string>, limit: int, parse: DateParser)
    requires year != 0 && month != 0
    requires ListPendingQuery(rows, keyword, start, end, Some(year), Some(month), branch, limit, parse).Success?
    ensures 1 <= year <= 9999 && 1 <= month <= 12
    ensures forall o :: o in ListPendingQuery(rows, keyword, start, end, Some(year), Some(month), branch, limit, parse).value ==>
      ToDate(o.orderDate, parse).Some?
      && ToDate(o.orderDate, parse).value.year == year && ToDate(o.orderDate, parse).value.month == month
  {
    var (first, last) := MonthBounds(year, month).value;
    var f := Filter(keyword, Some(first), Some(last), branch);
    PendingSound(rows, f, limit, parse);
    forall o | o in PendingQuery(rows, f, limit, parse).value
      ensures ToDate(o.orderDate, parse).Some?
        && ToDate(o.orderDate, parse).value.year == year && ToDate(o.orderDate, parse).value.month == month
    {
      MonthBoundsWindow(year, month, ToDate(o.orderDate, parse).value);
    }
  }

  /** `if year and month` ignores a year or month of 0 or `None`: start and end are used as given. */
  lemma ListPendingIgnoresZero(rows: Sheet, keyword: Option<string>, start: Option<CivilDate>, end: Option<CivilDate>,
                               year: Option<int>, month: Option<int>, branch: Option<string>, limit: int,
                               parse: DateParser)
    requires year == Some(0) || month == Some(0) || year.None? || month.None?
    ensures ListPendingQuery(rows, keyword, start, end, year, month, branch, limit, parse)
         == PendingQuery(rows, Filter(keyword, start, end, branch), limit, parse)
  {
  }

  /** list_pending_in_month fails exactly when `date(year, month, 1)` would, and keeps only that month. */
  lemma MonthQuerySound(rows: Sheet, year: int, month: int, limit: int, parse: DateParser)
    ensures MonthQuery(rows, year, month, limit, parse) == Failure(InvalidDate(year, month))
            <==> !(1 <= year <= 9999 && 1 <= month <= 12)
    ensures MonthQuery(rows, year, month, limit, parse).Success? ==>
      forall o :: o in MonthQuery(rows, year, month, limit, parse).value ==>
        ToDate(o.orderDate, parse).Some?
        && ToDate(o.orderDate, parse).value.year == year && ToDate(o.orderDate, parse).value.month == month
  {
    if 1 <= year <= 9999 && 1 <= month <= 12 {
      var (first, last) := MonthBounds(year, month).value;
      var f := Filter(None, Some(first), Some(last), None);
      PendingErrors(rows, f, limit, parse);
      if MonthQuery(rows, year, month, limit, parse).Success? {
        PendingSound(rows, f, limit, parse);
        forall o | o in PendingQuery(rows, f, limit, parse).value
          ensures ToDate(o.orderDate, parse).Some?
            && ToDate(o.orderDate, parse).value.year == year && ToDate(o.orderDate, parse).value.month == month
        {
          MonthBoundsWindow(year, month, ToDate(o.orderDate, parse).value);
        }
      }
    }
  }

  // ----- search_by_name -----

  /** `q in name.lower()` for the trimmed customer name. */
  predicate NameMatch(r: Row, cols: Columns, q: string) {
    Contains(Lower(Strip(Cell(r, cols.name))), q)
  }

  /** search_by_name's record: the customer name trimmed, the other cells as they are. */
  function NamedOrder(r: Row, cols: Columns): Order {
    RowOrder(r, cols).(customerName := Strip(Cell(r, cols.name)))
  }

  function NameKeeper(cols: Columns, q: string): Row -> bool {
    r => NameMatch(r, cols, q)
  }

  function NameBuilder(cols: Columns): Row -> Order {
    r => NamedOrder(r, cols)
  }

  /** `search_by_name(query, limit)`: the first `limit` matches in row order, unsorted. */
  function SearchQuery(rows: Sheet, query: string, limit: int): Result<seq<Order>, SheetError> {
    if rows == [] then Success([])
    else
      var header := HeaderMap(rows[0]);
      var missing := Missing(SearchRequired, header);
      if missing != [] then Failure(MissingColumns(None, missing))
      else
        SearchRequiredPresent(header);
        var cols := ColumnsOf(header);
        Success(Capped(Survivors(rows[1..], NameKeeper(cols, Norm(query)), NameBuilder(cols)), limit))
  }

  method SearchByName(rows: Sheet, query: string, limit: int) returns (r: Result<seq<Order>, SheetError>)
    ensures r == SearchQuery(rows, query, limit)
  {
    if rows == [] {
      return Success([]);
    }
    var header := HeaderMap(rows[0]);
    var missing := Missing(SearchRequired, header);
    if missing != [] {
      return Failure(MissingColumns(None, missing));
    }
    SearchRequiredPresent(header);
    var cols := ColumnsOf(header);
    var out := Collect(rows[1..], NameKeeper(cols, Norm(query)), NameBuilder(cols), limit);
    return Success(out);
  }

  /**
   * Every match has a trimmed customer name that holds the normalised query case-insensitively; closed
   * orders are not excluded.
   */
  lemma SearchSound(rows: Sheet, query: string, limit: int)
    requires SearchQuery(rows, query, limit).Success?
    ensures forall o :: o in SearchQuery(rows, query, limit).value ==>
      Strip(o.customerName) == o.customerName && Contains(Lower(o.customerName), Norm(query))
  {
    if rows != [] {
      var header := HeaderMap(rows[0]);
      SearchRequiredPresent(header);
      var cols := ColumnsOf(header);
      var keep := NameKeeper(cols, Norm(query));
      forall o | o in SearchQuery(rows, query, limit).value
        ensures Strip(o.customerName) == o.customerName && Contains(Lower(o.customerName), Norm(query))
      {
        CappedOrigin(rows[1..], keep, NameBuilder(cols), limit, o);
        var i :| 0 <= i < |rows[1..]| && keep(rows[1..][i]) && NameBuilder(cols)(rows[1..][i]) == o;
        NamedOrderSound(rows[1..][i], cols, Norm(query));
      }
    }
  }

  lemma NamedOrderSound(r: Row, cols: Columns, q: string)
    requires NameMatch(r, cols, q)
    ensures Strip(NamedOrder(r, cols).customerName) == NamedOrder(r, cols).customerName
    ensures Contains(Lower(NamedOrder(r, cols).customerName), q)
  {
    StripTrimmed(Strip(Cell(r, cols.name)));
  }

  /** A blank query matches every data row, so the result is the first `limit` rows. */
  lemma SearchBlankQuery(rows: Sheet, query: string, limit: int)
    requires Norm(query) == "" && SearchQuery(rows, query, limit).Success? && rows != []
    ensures var header := HeaderMap(rows[0]);
      HasOrderColumns(header) &&
      SearchQuery(rows, query, limit).value
        == Capped(Survivors(rows[1..], r => true, NameBuilder(ColumnsOf(header))), limit)
  {
    var header := HeaderMap(rows[0]);
    SearchRequiredPresent(header);
    var cols := ColumnsOf(header);
    SurvivorsSame(rows[1..], NameKeeper(cols, ""), r => true, NameBuilder(cols));
  }

  /** Two acceptance tests that agree on every row give the same survivors. */
  lemma {:induction false} SurvivorsSame(data: seq<Row>, keep: Row -> bool, keep': Row -> bool, build: Row -> Order)
    requires forall i :: 0 <= i < |data| ==> keep(data[i]) == keep'(data[i])
    ensures Survivors(data, keep, build) == Survivors(data, keep', build)
  {
    if data != [] {
      var n := |data| - 1;
      assert forall i :: 0 <= i < n ==> data[..n][i] == data[i];
      SurvivorsSame(data[..n], keep, keep', build);
    }
  }

  // ----- find_order -----

  /** `order_key.strip() in (val_orderid, val_nosc)`. */
  predicate IdMatch(r: Row, key: string, io: nat, isc: nat) {
    Strip(key) == Strip(Cell(r, io)) || Strip(key) == Strip(Cell(r, isc))
  }

  function IdMatcher(key: string, io: nat, isc: nat): Row -> bool {
    r => IdMatch(r, key, io, isc)
  }

  /** `header.get(name, idx_orderid)`. */
  function ColumnOr(header: map<string, nat>, name: string, fallback: nat): nat {
    if name in header then header[name] else fallback
  }

  /**
   * The record of the matched row: the trimmed ids, and the raw cells of the other four columns, each
   * falling back to the ORDER_ID column when its header is absent and raising when the row is too short.
   */
  function FoundOrder(r: Row, header: map<string, nat>, io: nat, isc: nat): Result<Order, SheetError> {
    var s := ColumnOr(header, "status do", io);
    var n := ColumnOr(header, "customer_name", io);
    var j := ColumnOr(header, "jenis order", io);
    var d := ColumnOr(header, "order_date", io);
    if s < |r| && n < |r| && j < |r| && d < |r| then
      Success(Order(r[n], Strip(Cell(r, io)), Strip(Cell(r, isc)), r[s], r[j], r[d]))
    else Failure(CellMissing)
  }

  lemma FoundOrderIds(r: Row, key: string, header: map<string, nat>, io: nat, isc: nat)
    requires IdMatch(r, key, io, isc) && FoundOrder(r, header, io, isc).Success?
    ensures var o := FoundOrder(r, header, io, isc).value;
      Strip(key) == o.orderId || Strip(key) == o.noSc
  {
  }

  /** `find_order(order_key)`. */
  function FindQuery(rows: Sheet, key: string): Result<Option<Order>, SheetError> {
    if rows == [] then Failure(NoHeaderRow)
    else
      var header := HeaderMap(rows[0]);
      if "order_id" !in header || "no sc" !in header then Failure(IdColumnsMissing)
      else FindIn(rows[1..], key, header, header["order_id"], header["no sc"])
  }

  /** The scan of the data rows: the first row whose ORDER_ID or No SC matches decides the answer. */
  function FindIn(data: Sheet, key: string, header: map<string, nat>, io: nat, isc: nat)
    : Result<Option<Order>, SheetError>
  {
    match FirstWhere(data, IdMatcher(key, io, isc))
    case None => Success(None)
    case Some(i) => FoundResult(FoundOrder(data[i], header, io, isc))
  }

  /** The matched row's record as the lookup's answer, or the error reading it raised. */
  function FoundResult(f: Result<Order, SheetError>): Result<Option<Order>, SheetError> {
    match f
    case Failure(e) => Failure(e)
    case Success(o) => Success(Some(o))
  }

  method FindOrder(rows: Sheet, key: string) returns (r: Result<Option<Order>, SheetError>)
    ensures r == FindQuery(rows, key)
  {
    if rows == [] {
      return Failure(NoHeaderRow);
    }
    var header := HeaderMap(rows[0]);
    if "order_id" !in header || "no sc" !in header {
      return Failure(IdColumnsMissing);
    }
    var io, isc := header["order_id"], header["no sc"];
    var data := rows[1..];
    var m := FindFirst(data, IdMatcher(key, io, isc));
    if m.None? {
      return Success(None);
    }
    var found := FoundOrder(data[m.value], header, io, isc);
    if found.Failure? {
      return Failure(found.error);
    }
    return Success(Some(found.value));
  }

  /**
   * find_order fails on a sheet without rows or without either id column, and otherwise answers None
   * exactly when no data row's trimmed ORDER_ID or No SC equals the trimmed key; a found record carries
   * the key.
   */
  lemma FindSound(rows: Sheet, key: string)
    ensures FindQuery(rows, key) == Failure(NoHeaderRow) <==> rows == []
    ensures FindQuery(rows, key) == Failure(IdColumnsMissing) <==>
      rows != [] && ("order_id" !in HeaderMap(rows[0]) || "no sc" !in HeaderMap(rows[0]))
    ensures rows != [] && "order_id" in HeaderMap(rows[0]) && "no sc" in HeaderMap(rows[0]) ==>
      var header := HeaderMap(rows[0]);
      (FindQuery(rows, key) == Success(None) <==>
         forall i :: 1 <= i < |rows| ==> !IdMatch(rows[i], key, header["order_id"], header["no sc"]))
    ensures FindQuery(rows, key).Success? && FindQuery(rows, key).value.Some? ==>
      var o := FindQuery(rows, key).value.value;
      Strip(key) == o.orderId || Strip(key) == o.noSc
  {
    if rows != [] {
      var header := HeaderMap(rows[0]);
      if "order_id" in header && "no sc" in header {
        var io, isc := header["order_id"], header["no sc"];
        var m := FirstWhere(rows[1..], IdMatcher(key, io, isc));
        if m.None? {
          forall i | 1 <= i < |rows| ensures !IdMatch(rows[i], key, io, isc) {
            assert rows[1..][i - 1] == rows[i];
            assert !IdMatcher(key, io, isc)(rows[1..][i - 1]);
          }
        } else {
          assert IdMatcher(key, io, isc)(rows[1..][m.value]);
          assert rows[1..][m.value] == rows[m.value + 1];
          if FoundOrder(rows[1..][m.value], header, io, isc).Success? {
            FoundOrderIds(rows[1..][m.value], key, header, io, isc);
          }
        }
      }
    }
  }

  /**
   * The answer is decided by the first matching data row: its record, or `CellMissing` when that row is
   * too short for one of the columns the record reads.
   */
  lemma FindFirstMatch(rows: Sheet, key: string, i: nat)
    requires rows != [] && "order_id" in HeaderMap(rows[0]) && "no sc" in HeaderMap(rows[0])
    requires 1 <= i < |rows|
    requires var header := HeaderMap(rows[0]);
      IdMatch(rows[i], key, header["order_id"], header["no sc"])
      && forall j :: 1 <= j < i ==> !IdMatch(rows[j], key, header["order_id"], header["no sc"])
    ensures var header := HeaderMap(rows[0]);
      var found := FoundOrder(rows[i], header, header["order_id"], header["no sc"]);
      FindQuery(rows, key) == if found.Success? then Success(Some(found.value)) else Failure(CellMissing)
  {
    var header := HeaderMap(rows[0]);
    var io, isc := header["order_id"], header["no sc"];
    assert FindQuery(rows, key) == FindIn(rows[1..], key, header, io, isc);
    FirstIdMatch(rows, key, io, isc, i);
    TailIndex(rows, i);
    FindInAt(rows[1..], key, header, io, isc, i - 1);
  }

  /** The first matching data row is the one the scan stops at. */
  lemma FirstIdMatch(rows: Sheet, key: string, io: nat, isc: nat, i: nat)
    requires 1 <= i < |rows| && IdMatch(rows[i], key, io, isc)
    requires forall j :: 1 <= j < i ==> !IdMatch(rows[j], key, io, isc)
    ensures FirstWhere(rows[1..], IdMatcher(key, io, isc)) == Some(i - 1)
  {
    var p := IdMatcher(key, io, isc);
    assert forall j :: 1 <= j < i ==> !p(rows[j]);
    FirstWhereTail(rows, p, i);
  }

  /** When the scan stops at data row `i`, the lookup is that row's record. */
  lemma FindInAt(data: Sheet, key: string, header: map<string, nat>, io: nat, isc: nat, i: nat)
    requires i < |data| && FirstWhere(data, IdMatcher(key, io, isc)) == Some(i)
    ensures var found := FoundOrder(data[i], header, io, isc);
      FindIn(data, key, header, io, isc) == if found.Success? then Success(Some(found.value)) else Failure(CellMissing)
  {
  }
}
