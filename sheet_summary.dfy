/**
 * summarize_orders in sheets.py: the counts of the raw sheet "Order MODOROSO" per status, per status and
 * order category, and per category, over the rows of one branch (DATEL) and one inclusive date window.
 * Closed orders are counted like any other.
 */
module SheetSummary {
  import opened Wrappers
  import opened Text
  import opened Calendar
  import opened Sequences
  import opened Tallies
  import opened Ranking
  import opened SheetCore
  import opened SheetQueries

  const RawSheetName: string := "Order MODOROSO"

  /** `_JENIS_LIST`: the order categories counted by name; any other is counted as "(OTHER)". */
  const JenisList: seq<string> := ["MO", "DO", "RO", "SO", "PDA", "CO", "CN", "AS", "MIGRATE"]

  const OtherJenis: string := "(OTHER)"
  const BlankStatus: string := "(blank)"

  const SummaryRequired: seq<string> := ["branch", "status do", "jenis order", "order_date"]

  /** `_normalize_branch(name)`: trimmed, whitespace removed, lower-cased. */
  function NormalizeBranch(name: string): string {
    Lower(RemoveSpaces(Strip(name)))
  }

  /** summarize_orders and list_pending normalise a branch name the same way. */
  lemma NormalizeBranchAgrees(name: string)
    ensures NormalizeBranch(name) == BranchKey(name)
  {
    LowerRemoveSpaces(Strip(name));
  }

  /** Trimming the DATEL cell before normalising it changes nothing. */
  lemma NormalizeBranchStripped(name: string)
    ensures NormalizeBranch(Strip(name)) == NormalizeBranch(name)
  {
    StripTrimmed(Strip(name));
  }

  /** `want_branch`: the normalised branch when one is given and non-empty; no test when it normalises to "". */
  function SummaryWant(branch: Option<string>): Option<string> {
    if branch.None? || branch.value == "" then None
    else if NormalizeBranch(branch.value) == "" then None
    else Some(NormalizeBranch(branch.value))
  }

  /** /summarybranch and /pending select the same branch for the same argument. */
  lemma SummaryWantAgrees(branch: Option<string>)
    ensures SummaryWant(branch) == WantedBranch(branch)
  {
    if branch.Some? {
      NormalizeBranchAgrees(branch.value);
      if branch.value == "" {
        assert BranchKey(branch.value) == "";
      }
    }
  }

  /** The column positions summarize_orders reads. */
  datatype SummaryColumns = SummaryColumns(datel: nat, status: nat, jenis: nat, date: nat)

  predicate HasSummaryColumns(header: map<string, nat>) {
    "branch" in header && "status do" in header && "jenis order" in header && "order_date" in header
  }

  lemma SummaryRequiredPresent(header: map<string, nat>)
    ensures Missing(SummaryRequired, header) == [] <==> HasSummaryColumns(header)
  {
    if Missing(SummaryRequired, header) == [] {
      assert forall c :: c in SummaryRequired ==> c in header;
      assert SummaryRequired[0] == "branch" && SummaryRequired[1] == "status do";
      assert SummaryRequired[2] == "jenis order" && SummaryRequired[3] == "order_date";
    }
  }

  function SummaryColumnsOf(header: map<string, nat>): SummaryColumns
    requires HasSummaryColumns(header)
  {
    SummaryColumns(header["branch"], header["status do"], header["jenis order"], header["order_date"])
  }

  /** `status`: the trimmed status cell, or "(blank)". */
  function StatusKey(r: Row, c: SummaryColumns): (s: string)
    ensures s != ""
    ensures s == BlankStatus || s == Strip(Cell(r, c.status))
  {
    var s := Strip(Cell(r, c.status));
    if s == "" then BlankStatus else s
  }

  /** `jenis`: the trimmed, upper-cased category cell when it is one of `_JENIS_LIST`, else "(OTHER)". */
  function JenisKey(r: Row, c: SummaryColumns): (j: string)
    ensures j in JenisList || j == OtherJenis
    ensures j in JenisList ==> j == Upper(Strip(Cell(r, c.jenis)))
  {
    var j := Upper(Strip(Cell(r, c.jenis)));
    if j in JenisList then j else OtherJenis
  }

  /** The row tests, in their order: the branch, then the date window. */
  predicate Counted(r: Row, c: SummaryColumns, want: Option<string>, start: Option<CivilDate>,
                    end: Option<CivilDate>, parse: DateParser)
  {
    (want.Some? ==> NormalizeBranch(Strip(Cell(r, c.datel))) == want.value)
    && InWindow(ToDate(Cell(r, c.date), parse), start, end)
  }

  /** The (status, category) pair a row adds to the counts, or `None` when the row is skipped. */
  function Entry(r: Row, c: SummaryColumns, want: Option<string>, start: Option<CivilDate>,
                 end: Option<CivilDate>, parse: DateParser): Option<(string, string)>
  {
    if Counted(r, c, want, start, end, parse) then Some((StatusKey(r, c), JenisKey(r, c))) else None
  }

  function EntryOf(c: SummaryColumns, want: Option<string>, start: Option<CivilDate>, end: Option<CivilDate>,
                   parse: DateParser): Row -> Option<(string, string)>
  {
    r => Entry(r, c, want, start, end, parse)
  }

  /** `totals_by_jenis` starts with every listed category at 0. */
  const InitialTotals: map<string, nat> := map j | j in JenisList :: 0

  const InitialTally: Tally<string> := Tally(map[], map[], InitialTotals, 0)

  /** The four accumulators once every data row has been seen; all empty for a sheet without rows. */
  function SummaryTally(rows: Sheet, branch: Option<string>, start: Option<CivilDate>, end: Option<CivilDate>,
                        parse: DateParser): Result<Tally<string>, SheetError>
  {
    if rows == [] then Success(Tally(map[], map[], map[], 0))
    else
      var header := HeaderMap(rows[0]);
      var missing := Missing(SummaryRequired, header);
      if missing != [] then Failure(MissingColumns(Some(RawSheetName), missing))
      else
        SummaryRequiredPresent(header);
        var c := SummaryColumnsOf(header);
        Success(Fold(InitialTally, Picks(rows[1..], EntryOf(c, SummaryWant(branch), start, end, parse))))
  }

  /** The returned dictionary; `per_status` is a listing, since its order is the point of sorting it. */
  datatype Summary = Summary(perStatus: seq<(string, nat)>, pivot: map<string, map<string, nat>>,
                             totals: map<string, nat>, grand: nat)

  /** `s` is what summarize_orders returns for the accumulators `t`: `per_status` ranked, the rest as counted. */
  ghost predicate Presents(s: Summary, t: Tally<string>) {
    Ranks(s.perStatus, t.perStatus) && |s.perStatus| == |t.perStatus|
    && s.pivot == t.pivot && s.totals == t.totals && s.grand == t.grand
  }

  /** `summarize_orders(branch, start, end)` on the rows of the raw sheet. */
  method Summarize(rows: Sheet, branch: Option<string>, start: Option<CivilDate>, end: Option<CivilDate>,
                   parse: DateParser) returns (r: Result<Summary, SheetError>)
    ensures r.Failure? <==> SummaryTally(rows, branch, start, end, parse).Failure?
    ensures r.Failure? ==> r.error == SummaryTally(rows, branch, start, end, parse).error
    ensures r.Success? ==> Presents(r.value, SummaryTally(rows, branch, start, end, parse).value)
  {
    if rows == [] {
      return Success(Summary([], map[], map[], 0));
    }
    var header := HeaderMap(rows[0]);
    var missing := Missing(SummaryRequired, header);
    if missing != [] {
      return Failure(MissingColumns(Some(RawSheetName), missing));
    }
    SummaryRequiredPresent(header);
    var c := SummaryColumnsOf(header);
    var t := CountRows(rows[1..], EntryOf(c, SummaryWant(branch), start, end, parse), InitialTally);
    var ranked := RankEntries(t.perStatus);
    return Success(Summary(ranked, t.pivot, t.totals, t.grand));
  }

  /** The presented summary is determined by the counts: two presentations of the same counts are equal. */
  lemma PresentsUnique(s: Summary, s': Summary, t: Tally<string>)
    requires Presents(s, t) && Presents(s', t)
    ensures s == s'
  {
    RankedUnique(s.perStatus, s'.perStatus);
  }

  // ----- What the summary promises -----

  /** An empty sheet gives the empty summary; otherwise it fails exactly when a required column is absent. */
  lemma SummaryErrors(rows: Sheet, branch: Option<string>, start: Option<CivilDate>, end: Option<CivilDate>,
                      parse: DateParser)
    ensures rows == [] ==> SummaryTally(rows, branch, start, end, parse) == Success(Tally(map[], map[], map[], 0))
    ensures rows != [] ==>
      (SummaryTally(rows, branch, start, end, parse).Failure? <==> !HasSummaryColumns(HeaderMap(rows[0])))
    ensures SummaryTally(rows, branch, start, end, parse).Failure? ==>
      var missing := Missing(SummaryRequired, HeaderMap(rows[0]));
      SummaryTally(rows, branch, start, end, parse).error == MissingColumns(Some(RawSheetName), missing)
      && missing != [] && IsSubsequence(missing, SummaryRequired)
  {
    if rows != [] {
      SummaryRequiredPresent(HeaderMap(rows[0]));
    }
  }

  lemma InitialBalanced()
    ensures Balanced(InitialTally)
  {
    MapSumZeros(InitialTotals);
  }

  /**
   * The totals agree: the grand total is the number of counted rows, and it is the sum of the per-status
   * counts, of the per-category counts, and, status by status, of that status's row of the pivot.
   */
  lemma SummaryBalanced(rows: Sheet, branch: Option<string>, start: Option<CivilDate>, end: Option<CivilDate>,
                        parse: DateParser)
    requires SummaryTally(rows, branch, start, end, parse).Success?
    ensures Balanced(SummaryTally(rows, branch, start, end, parse).value)
    ensures rows != [] ==>
      var header := HeaderMap(rows[0]);
      HasSummaryColumns(header) &&
      SummaryTally(rows, branch, start, end, parse).value.grand
        == CountedRows(rows[1..], EntryOf(SummaryColumnsOf(header), SummaryWant(branch), start, end, parse))
  {
    if rows != [] {
      var header := HeaderMap(rows[0]);
      SummaryRequiredPresent(header);
      var entry := EntryOf(SummaryColumnsOf(header), SummaryWant(branch), start, end, parse);
      InitialBalanced();
      FoldBalanced(InitialTally, Picks(rows[1..], entry));
      PicksLength(rows[1..], entry);
    }
  }

  /** The entries that `summarize_orders` counts: the (status, category) pairs of the counted data rows. */
  function SummaryEntries(rows: Sheet, branch: Option<string>, start: Option<CivilDate>, end: Option<CivilDate>,
                          parse: DateParser): seq<(string, string)>
    requires rows != [] && HasSummaryColumns(HeaderMap(rows[0]))
  {
    Picks(rows[1..], EntryOf(SummaryColumnsOf(HeaderMap(rows[0])), SummaryWant(branch), start, end, parse))
  }

  /** A successful summary of a non-empty sheet had its columns and is the fold of its entries. */
  lemma SummaryIsFold(rows: Sheet, branch: Option<string>, start: Option<CivilDate>, end: Option<CivilDate>,
                      parse: DateParser)
    requires rows != [] && SummaryTally(rows, branch, start, end, parse).Success?
    ensures HasSummaryColumns(HeaderMap(rows[0]))
    ensures SummaryTally(rows, branch, start, end, parse).value
         == Fold(InitialTally, SummaryEntries(rows, branch, start, end, parse))
  {
    SummaryRequiredPresent(HeaderMap(rows[0]));
  }

  /**
   * Each count is the number of counted rows with that status, category, or both; every listed category
   * has an entry, and no category outside the list but "(OTHER)" appears.
   */
  lemma SummaryCounts(rows: Sheet, branch: Option<string>, start: Option<CivilDate>, end: Option<CivilDate>,
                      parse: DateParser, s: string, j: string)
    requires rows != [] && SummaryTally(rows, branch, start, end, parse).Success?
    ensures HasSummaryColumns(HeaderMap(rows[0]))
    ensures var entries := SummaryEntries(rows, branch, start, end, parse);
      var t := SummaryTally(rows, branch, start, end, parse).value;
      Get(t.perStatus, s) == CountStatus(entries, s)
      && Get(t.totals, j) == CountJenis(entries, j)
      && Get(if s in t.pivot then t.pivot[s] else map[], j) == CountCell(entries, s, j)
      && (j in t.totals <==> j in JenisList || exists i :: 0 <= i < |entries| && entries[i].1 == j)
  {
    SummaryIsFold(rows, branch, start, end, parse);
    var entries := SummaryEntries(rows, branch, start, end, parse);
    FoldCounts(InitialTally, entries, s, j);
    FoldJenisKey(InitialTally, entries, j);
  }

  /** Every counted pair has a non-blank status and a listed category or "(OTHER)". */
  lemma EntryKeys(data: seq<Row>, entry: Row -> Option<(string, string)>, c: SummaryColumns,
                  want: Option<string>, start: Option<CivilDate>, end: Option<CivilDate>, parse: DateParser, i: nat)
    requires entry == EntryOf(c, want, start, end, parse)
    requires i < |Picks(data, entry)|
    ensures Picks(data, entry)[i].0 != ""
    ensures Picks(data, entry)[i].1 in JenisList || Picks(data, entry)[i].1 == OtherJenis
  {
    PicksFrom(data, entry, i);
    var k :| 0 <= k < |data| && entry(data[k]) == Some(Picks(data, entry)[i]);
    assert Entry(data[k], c, want, start, end, parse) == Some(Picks(data, entry)[i]);
  }

  /** The category keys are exactly the listed ones, plus "(OTHER)" when some counted row has another. */
  lemma SummaryJenisKeys(rows: Sheet, branch: Option<string>, start: Option<CivilDate>, end: Option<CivilDate>,
                         parse: DateParser)
    requires rows != [] && SummaryTally(rows, branch, start, end, parse).Success?
    ensures forall j :: j in JenisList ==> j in SummaryTally(rows, branch, start, end, parse).value.totals
    ensures forall j :: j in SummaryTally(rows, branch, start, end, parse).value.totals ==>
      j in JenisList || j == OtherJenis
  {
    var header := HeaderMap(rows[0]);
    SummaryRequiredPresent(header);
    var c := SummaryColumnsOf(header);
    var entry := EntryOf(c, SummaryWant(branch), start, end, parse);
    var entries := Picks(rows[1..], entry);
    var t := SummaryTally(rows, branch, start, end, parse).value;
    forall j ensures j in t.totals <==> j in InitialTotals || exists i :: 0 <= i < |entries| && entries[i].1 == j {
      FoldJenisKey(InitialTally, entries, j);
    }
    forall j | j in t.totals ensures j in JenisList || j == OtherJenis {
      if j !in InitialTotals {
        var i :| 0 <= i < |entries| && entries[i].1 == j;
        EntryKeys(rows[1..], entry, c, SummaryWant(branch), start, end, parse, i);
      }
    }
  }

  /** No status key is blank: an empty status is counted as "(blank)". */
  lemma SummaryStatusKeys(rows: Sheet, branch: Option<string>, start: Option<CivilDate>, end: Option<CivilDate>,
                          parse: DateParser)
    requires SummaryTally(rows, branch, start, end, parse).Success?
    ensures "" !in SummaryTally(rows, branch, start, end, parse).value.perStatus
  {
    if rows != [] {
      var header := HeaderMap(rows[0]);
      SummaryRequiredPresent(header);
      var c := SummaryColumnsOf(header);
      var entry := EntryOf(c, SummaryWant(branch), start, end, parse);
      var entries := Picks(rows[1..], entry);
      FoldStatusKey(InitialTally, entries, "");
      if exists i :: 0 <= i < |entries| && entries[i].0 == "" {
        var i :| 0 <= i < |entries| && entries[i].0 == "";
        EntryKeys(rows[1..], entry, c, SummaryWant(branch), start, end, parse, i);
      }
    }
  }

  /** Whether a row is counted does not depend on its status: closed orders count too. */
  lemma CountedIgnoresStatus(r: Row, c: SummaryColumns, want: Option<string>, start: Option<CivilDate>,
                             end: Option<CivilDate>, parse: DateParser, v: string)
    requires c.status < |r| && c.status != c.datel && c.status != c.date
    ensures Counted(r[c.status := v], c, want, start, end, parse) == Counted(r, c, want, start, end, parse)
  {
    assert Cell(r[c.status := v], c.datel) == Cell(r, c.datel);
    assert Cell(r[c.status := v], c.date) == Cell(r, c.date);
  }

  /** The columns of one header are distinct, since distinct names map to columns with those names. */
  lemma SummaryColumnsDistinct(header: seq<string>)
    requires HasSummaryColumns(HeaderMap(header))
    ensures var c := SummaryColumnsOf(HeaderMap(header));
      c.status != c.datel && c.status != c.date && c.datel != c.date && c.jenis != c.status
  {
    HeaderMapSpec(header);
  }
}
