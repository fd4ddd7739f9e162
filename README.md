# SODOMORO order monitor — a Dafny model

SODOMORO-BOT is a Telegram bot that keeps watch over a Google spreadsheet of telecom service
orders. Each data row is one order: a customer name, an ORDER_ID, a "No SC" service number, a
"Status DO" delivery status, a "Jenis Order" category (MO, DO, RO, SO, PDA, CO, CN, AS, MIGRATE), an
order date and, on some sheets, a branch ("DATEL") column. An order is *pending* until its status
reads Complete or Cancel.

The order engine lives in `sheets.py`. It turns the header row into a column map and fails when a
required column is absent. On that basis it answers four questions:

- find one order by id;
- search orders by customer name;
- list the pending orders, filtered by keyword, date window, calendar month or branch, capped and
  sorted (stably) by order date;
- count the raw sheet's orders per status, per category and per status-and-category, with a grand
  total.

The bot in `bot.py` turns command arguments into those queries and the answers into messages:

- It parses the free-form arguments of `/pending`, `/pendingmonth` and `/summarybranch`.
- It drops orders that repeat an `(ORDER_ID, No SC)` pair.
- It packs the formatted items into messages under a size budget.
- It reads the admin ids and the report targets from environment strings.
- It computes the start of the "last two months" window of the scheduled report.

This project models both files in Dafny and proves what they promise:

- **Sheet queries.** A sheet is a `seq<seq<string>>` and a query is a total function that returns
  `Result` for the errors the Python raises. Each loop of the source is a `method` with a `while` loop,
  proved equal to that function.
- **Properties.** The lemmas state what the source promises of the results: they are sound against
  each filter, they are a capped and sorted permutation of the surviving rows, the totals balance, the
  classifier's last-wins and first-two-dates rules hold, the environment strings round-trip, the dedup
  is first-wins, and the item chunker loses nothing and sends no message over its budget, except one
  that holds only the title or a single line that is itself over the budget. The `/summarybranch`
  splitter keeps every non-blank line in order but can drop a blank line (see below).
- **Parameters.** The date parser of `dateutil` and "today" are parameters.
- **Module layout:**
  - `Wrappers`: Option and Result.
  - `Text`: ASCII `strip`, `lower`, `upper`, `split`, `join`, `int()`, `html.escape` and `find`.
  - `Calendar`: proleptic Gregorian dates, `monthrange` and day ordinals.
  - `Sequences`, `Sorting`, `Tallies`, `Ranking`: generic helpers. Insertion sort, the counting fold
    and the `(-count, status)` ranking are among them.
  - `SheetCore`, `SheetQueries`, `SheetSummary`: `sheets.py`.
  - `BotOutput`, `BotArgs`, `BotTargets`: `bot.py`.

Three behaviours of the code are modelled as written, because they are plainly deliberate or
harmless:

- **Keyword before month.** The `/pending` classifier tests the `kw:` prefix before the `YYYY-MM`
  pattern (bot.py:227 before bot.py:233). A description that lists the month rule first would
  disagree with the code; the model follows the code.
- **Two copies of the date guard.** `_parse_date` (sheets.py:391-403) is a second copy of `_to_date`.
  Both are modelled by `SheetCore.ToDate`.
- **Missing columns in `find_order`.** `find_order` has no check for an empty sheet. It reads the
  status, name, category and date through `header.get(..., idx_orderid)`, so a missing column falls
  back to the ORDER_ID cell. A too-short row raises an `IndexError`, modelled as `CellMissing`.

One more behaviour is modelled as written without being listed as a finding, because it only affects
spacing: when a long `/summarybranch` reply is re-split at its newlines and packed into 3000-character
messages (bot.py:623-632), a blank line that arrives while the buffer is empty or holds 3000 or more
characters adds nothing to any message. `BotOutput.SummaryChunksDropBlank` exhibits it, and
`BotOutput.SummaryPlanKeeps` proves that only blank lines can be lost.

## Model

| member | source | states |
|---|---|---|
| Text.Strip | sheets.py:61 | `str.strip()`: the result is the input with a whitespace-only prefix and a whitespace-only suffix removed (`TrimOf`), and it neither starts nor ends with whitespace, so exactly the leading and trailing whitespace is gone |
| Text.Lower | sheets.py:61 | `str.lower()`: same length, each character lower-cased (ASCII) |
| Text.Upper | sheets.py:459 | `str.upper()`: same length, each character upper-cased (ASCII) |
| Text.RemoveSpaces | sheets.py:406 | `re.sub(r"\s+", "", s)`: no whitespace is left, and a character is in the result exactly when it is a non-whitespace character of the input; RemoveSpacesConcat and RemoveSpacesCounts add order and multiplicity |
| Text.RemoveSpacesConcat | sheets.py:406 | removing whitespace from a concatenation removes it from each part, so the kept characters stay in input order |
| Text.RemoveSpacesCounts | sheets.py:406 | each non-whitespace character occurs in the result as often as in the input, and no whitespace character occurs |
| Text.LowerRemoveSpaces | sheets.py:338 | lower-casing and removing whitespace commute, so list_pending's order of the two equals `_normalize_branch`'s |
| Text.ReplaceChar | bot.py:55 | `str.replace` of one character: same length, the replaced character and no other changed |
| Text.Contains | sheets.py:160 | `q in s`: true exactly when the needle occurs at some position |
| Text.FindSpec | bot.py:19 | `str.find`: -1 exactly when the needle does not occur, else the first position where it does |
| Text.IndexOf | bot.py:652 | the first position of a character that occurs, as `split(":", 1)` uses it |
| Text.Split | bot.py:55 | `str.split(c)`: at least one part, no part holds the separator, and joining the parts gives the input back |
| Text.SplitJoin | bot.py:55 | splitting the join of separator-free parts gives the parts back |
| Text.JoinAppend | bot.py:618 | joining one more part appends the separator and that part |
| Text.ParseInt | bot.py:61 | `int(s)` (ASCII, optional sign, surrounding whitespace ignored): a number only for a non-blank string |
| Text.ShowNat | bot.py:82 | the decimal digits of a natural number, whose value is that number |
| Text.ParseShowInt | bot.py:61 | `int(str(n)) == n` for every integer |
| Text.StrLessIrreflexive | sheets.py:476 | Python's string order is irreflexive |
| Text.StrLessTransitive | sheets.py:476 | Python's string order is transitive |
| Text.StrLessTotal | sheets.py:476 | Python's string order is total on distinct strings |
| Text.EscapeNoMarkup | bot.py:17-22 | `html.escape` leaves no `<`, `>`, `"` or `'` in its output |
| Calendar.DaysInMonth | sheets.py:285 | `monthrange(y, m)[1]`: 28 to 31 days, and February has 29 exactly in a leap year |
| Calendar.DateLeTotal | sheets.py:259 | date order is total and antisymmetric, and `not a <= b` means `b < a` |
| Calendar.MinDateIsLeast | sheets.py:96 | `date.min` is at or before every date |
| Calendar.OrdinalOrder | bot.py:81 | day ordinals order dates exactly as the dates are ordered, and are equal only for equal dates |
| Calendar.MonthBounds | sheets.py:284-285 | `date(y, m, 1)` and `date(y, m, monthrange(y, m)[1])` exist exactly for years 1 to 9999 and months 1 to 12 |
| Calendar.MonthBoundsWindow | sheets.py:284-286 | a date lies between the month's first and last day exactly when it has that year and month |
| Sequences.IndexMapSpec | sheets.py:109 | `{h: i for i, h in enumerate(keys)}`: every key is mapped, to a position holding it, and no later position holds it (last wins) |
| Sequences.FirstWhere | sheets.py:117-121 | the first position satisfying a test, or none when no position does |
| Sequences.FindFirst | sheets.py:117-130 | the scanning loop that returns at the first match computes `FirstWhere` |
| Sorting.InsertBySorted | sheets.py:96 | inserting into a date-sorted list keeps it sorted |
| Sorting.InsertByStable | sheets.py:96 | inserting puts the new element before the elements with its date and keeps their order |
| Sorting.SortBy | sheets.py:96 | `sorted` by a date key: a permutation, ascending, and stable (each date's elements keep their order) |
| SheetCore.NormIdempotent | sheets.py:60-61 | `_norm(_norm(s)) == _norm(s)` |
| SheetCore.Norm | sheets.py:60-61 | `_norm`: trim, then ASCII lower-case (a missing cell is the empty string); its idempotence is NormIdempotent |
| SheetCore.IsDoneNormalised | sheets.py:63-73 | `_is_done` depends only on the normalised status, and a blank status is pending |
| SheetCore.IsDone | sheets.py:63-73 | `_is_done`: the normalised status starts with "complete" or is "cancel", "canceled" or "cancelled"; IsDoneNormalised is proved of it |
| SheetCore.ToDate | sheets.py:75-92 | `_to_date`: a date exactly when the cell is not blank, "-" or "0", parses, and has a year of 1971 or later; that date is the parser's |
| SheetCore.NormHeader | sheets.py:109 | the header cells, each trimmed and lower-cased |
| SheetCore.HeaderMapSpec | sheets.py:185 | the header map maps every normalised header to a position holding it, and no later header normalises to it |
| SheetCore.Missing | sheets.py:186-187 | the missing-column list holds exactly the required names absent from the header, in the required order |
| SheetCore.PendingRequiredPresent | sheets.py:186-189 | the pending queries' required list is satisfied exactly when all six order columns are present |
| SheetCore.SearchRequiredPresent | sheets.py:144-147 | search_by_name's required list is satisfied exactly when all six order columns are present |
| SheetCore.SortByDate | sheets.py:94-96 | `_sort_by_date`: a permutation, ascending by date with absent dates as `date.min`, and stable |
| SheetQueries.SurvivorsMembers | sheets.py:340-375 | a record is collected exactly when it is built from a data row that passes the row tests |
| SheetQueries.SurvivorsPrefix | sheets.py:376-377 | scanning fewer rows collects a prefix of what scanning all rows collects |
| SheetQueries.Capped | sheets.py:376-377 | `if len(out) >= limit: break`: a prefix of the survivors of length `limit` (at least 1) or all of them |
| SheetQueries.CappedOrigin | sheets.py:368-377 | every capped record comes from a data row that passes the row tests |
| SheetQueries.Collect | sheets.py:340-377 | the scanning loop with its early break computes the capped survivors |
| SheetQueries.ScanPending | sheets.py:309-379 | the shared body of the pending queries: the empty sheet, the column check, the scan, the cap and the sort |
| SheetQueries.ListNotDone | sheets.py:174-225 | `list_not_done(keyword, limit)` is the pending query with only the keyword filter |
| SheetQueries.ListPendingInRange | sheets.py:228-275 | `list_pending_in_range(start, end, limit)` is the pending query with only the date window |
| SheetQueries.ListPendingInMonth | sheets.py:278-286 | `list_pending_in_month` fails on an impossible month, else is the range query over the month's first and last day |
| SheetQueries.MonthQuery | sheets.py:278-286 | the value `list_pending_in_month` returns: `InvalidDate` when `date(year, month, 1)` raises, else the range query from the month's first to its last day; MonthQuerySound is proved of it |
| SheetQueries.ListPending | sheets.py:288-379 | `list_pending`: the month, when both year and month are non-zero, replaces the window; then the pending query with keyword, window and branch |
| SheetQueries.ListPendingQuery | sheets.py:288-379 | the value `list_pending` returns: a truthy year and month replace the window by the month (failing as `date` does), then the pending query; ListPendingMonth and ListPendingIgnoresZero are proved of it |
| SheetQueries.PendingErrors | sheets.py:311-318 | an empty sheet gives `[]`; otherwise the query fails exactly when a required column is absent, naming the absent ones in order |
| SheetQueries.PendingFromRows | sheets.py:340-375 | every result is the record of some data row that passes all the row tests |
| SheetQueries.PendingSound | sheets.py:341-366 | every result is pending, is inside the inclusive window with a present date when a bound is set, and holds the keyword in "name order_id no_sc" |
| SheetQueries.PendingShape | sheets.py:376-379 | the result has the capped number of survivors, is a permutation of the first survivors, and is sorted by date |
| SheetQueries.ListPendingMonth | sheets.py:305-307 | with a non-zero year and month and no error, every result is dated in that month |
| SheetQueries.ListPendingIgnoresZero | sheets.py:305 | a year or month of 0 or None leaves start and end as given |
| SheetQueries.MonthQuerySound | sheets.py:283-286 | the month query fails exactly for an impossible month, and otherwise returns only orders dated in it |
| SheetQueries.SearchByName | sheets.py:133-171 | `search_by_name(query, limit)`: `[]` for an empty sheet, the column check, then the name scan with its cap |
| SheetQueries.SearchSound | sheets.py:156-168 | every result's customer name is trimmed and its lower case holds the normalised query |
| SheetQueries.NamedOrderSound | sheets.py:159-162 | the record of a matching row carries the trimmed name, which holds the query once lower-cased |
| SheetQueries.SearchBlankQuery | sheets.py:156-160 | a blank query matches every data row, so the result is the first `limit` rows |
| SheetQueries.FoundOrderIds | sheets.py:121-124 | the record of a matching row carries the trimmed key as its ORDER_ID or its No SC |
| SheetQueries.FindOrder | sheets.py:102-130 | `find_order(key)`: the loop that returns the first matching row's record |
| SheetQueries.FindSound | sheets.py:108-130 | it fails with `NoHeaderRow` exactly on a sheet without rows and with `IdColumnsMissing` exactly when either id column is absent; with both columns it answers None exactly when no data row's trimmed ORDER_ID or No SC equals the trimmed key; a found record carries the key |
| SheetQueries.FindFirstMatch | sheets.py:117-129 | the first matching data row decides the answer: its record, or `CellMissing` when that row is too short for a column the record reads |
| SheetSummary.NormalizeBranchAgrees | sheets.py:405-406 | `_normalize_branch` equals list_pending's branch normalisation |
| SheetSummary.NormalizeBranch | sheets.py:405-406 | `_normalize_branch`: trim, drop all whitespace, lower-case; NormalizeBranchAgrees and NormalizeBranchStripped are proved of it |
| SheetSummary.NormalizeBranchStripped | sheets.py:447-448 | trimming the DATEL cell first does not change its normalisation |
| SheetSummary.SummaryWantAgrees | sheets.py:444 | the summary's wanted branch equals list_pending's: None when absent or blank after normalising |
| SheetSummary.SummaryRequiredPresent | sheets.py:428-432 | the summary's required list is satisfied exactly when branch, status, category and date columns are present |
| SheetSummary.StatusKey | sheets.py:458 | the status key is never blank: the trimmed status, or "(blank)" |
| SheetSummary.JenisKey | sheets.py:459-461 | the category key is a listed category equal to the trimmed, upper-cased cell, or "(OTHER)" |
| SheetSummary.Summarize | sheets.py:409-479 | `summarize_orders`: fails as the counts do, and otherwise presents them with `per_status` ranked by count descending, then status |
| SheetSummary.SummaryTally | sheets.py:421-473 | the counting part of `summarize_orders`: empty sheet, column check, then the fold over the counted rows; SummaryErrors, SummaryBalanced and SummaryCounts are proved of it |
| SheetSummary.PresentsUnique | sheets.py:476 | the presented summary is determined by the counts |
| SheetSummary.SummaryErrors | sheets.py:425-432 | an empty sheet gives the empty summary (totals `{}` too); otherwise it fails exactly when a required column is absent, naming it |
| SheetSummary.InitialBalanced | sheets.py:439-442 | the starting counters balance: every listed category at 0 and a grand total of 0 |
| SheetSummary.SummaryBalanced | sheets.py:463-473 | the grand total is the number of counted rows and equals the sum per status, the sum per category and, status by status, the pivot row's sum |
| SheetSummary.SummaryCounts | sheets.py:463-473 | each count is the number of counted rows with that status, category or both; a category has an entry exactly when it is listed or counted |
| SheetSummary.EntryKeys | sheets.py:458-461 | every counted pair has a non-blank status and a listed category or "(OTHER)" |
| SheetSummary.SummaryJenisKeys | sheets.py:441 | every listed category appears in the totals, and only listed categories and "(OTHER)" do |
| SheetSummary.SummaryStatusKeys | sheets.py:458 | no status key is blank |
| SheetSummary.CountedIgnoresStatus | sheets.py:446-456 | whether a row is counted does not depend on its status cell (Complete and Cancel are counted too) |
| SheetSummary.SummaryColumnsDistinct | sheets.py:434-437 | the status, DATEL and date columns are three distinct columns, and the category column is not the status column |
| Tallies.Bump | sheets.py:464 | `d[k] = d.get(k, 0) + 1`: adds the key and raises its count by one, leaving every other count |
| Tallies.MapSumBump | sheets.py:464 | one bump raises the sum of a counter by one |
| Tallies.StepBalanced | sheets.py:463-473 | one accumulation step keeps the totals balanced |
| Tallies.FoldBalanced | sheets.py:446-473 | the accumulation loop keeps the totals balanced and adds one to the grand total per counted row |
| Tallies.FoldCounts | sheets.py:463-471 | after the loop each counter is its start plus the number of counted pairs with that key |
| Tallies.FoldStatusKey | sheets.py:464-465 | a status has an entry exactly when it started with one or some counted row has it |
| Tallies.FoldJenisKey | sheets.py:468-471 | a category has an entry exactly when it started with one or some counted row has it |
| Tallies.PicksFrom | sheets.py:446-456 | every counted pair comes from some data row |
| Tallies.CountedRows | sheets.py:473 | the number of counted rows is at most the number of data rows |
| Tallies.PicksLength | sheets.py:473 | the counted pairs are as many as the counted rows |
| Tallies.CountRows | sheets.py:446-473 | the accumulation loop computes the fold of the counted pairs |
| Ranking.RankIrreflexive | sheets.py:476 | the `(-count, status)` order is irreflexive |
| Ranking.RankTransitive | sheets.py:476 | the `(-count, status)` order is transitive |
| Ranking.RankTotal | sheets.py:476 | the `(-count, status)` order is total on distinct statuses |
| Ranking.RankAsymmetric | sheets.py:476 | the `(-count, status)` order is asymmetric |
| Ranking.InsertRankedSpec | sheets.py:476 | inserting a new status into a ranked list keeps it ranked, adds exactly that entry, and grows it by one |
| Ranking.RankedUnique | sheets.py:476 | two ranked lists with the same entries are equal, so the sorted `per_status` is determined |
| Ranking.RankEntries | sheets.py:476 | `dict(sorted(per_status.items(), key=lambda x: (-x[1], x[0])))`: every entry once, ranked |
| BotOutput.DedupBy | bot.py:292-298 | the seen-set loop computes first-wins dedup by key |
| BotOutput.DedupKeys | bot.py:292-298 | dedup keeps every key that occurs |
| BotOutput.DedupDistinct | bot.py:292-298 | dedup leaves no key twice |
| BotOutput.DedupSubsequence | bot.py:292-298 | dedup keeps the input's order |
| BotOutput.DedupFirst | bot.py:292-298 | each kept item is the first occurrence of its key |
| BotOutput.DedupDistinctUnchanged | bot.py:292-298 | an input without repeated keys is unchanged |
| BotOutput.DedupIdempotent | bot.py:292-298 | dedup twice is dedup once |
| BotOutput.DedupOrders | bot.py:169-173 | the `(ORDER_ID, NO_SC)` dedup of /search, /pending, /pendingdate, /pendingmonth and the report is that dedup |
| BotOutput.SearchPage | bot.py:175 | the page is the first `min(10, len)` results, and the reported count is the number of results not shown |
| BotOutput.Chunk | bot.py:308-316 | the chunking loop computes the chunk fold |
| BotOutput.Chunks | bot.py:308-316 | the messages the chunker sends: the flushed chunks, then the buffer when it is not empty; ChunksJoin, ChunksFit, ChunksKeep and ChunksEmptyFirst are proved of it |
| BotOutput.ChunkFoldJoin | bot.py:309-314 | the chunks emitted so far, with the buffer, join back to the title and the lines |
| BotOutput.ChunksJoin | bot.py:308-316 | with non-empty lines, the chunks joined by the separator give the title and all lines back: nothing lost, nothing reordered |
| BotOutput.ChunkFoldFits | bot.py:311-314 | every emitted chunk fits the budget unless it is the title or a single oversized line |
| BotOutput.ChunksFit | bot.py:311-314 | every chunk fits the budget, or is the title or a single line on its own |
| BotOutput.ChunkFoldGrows | bot.py:311-312 | emitted chunks are never withdrawn |
| BotOutput.ChunksEmptyFirst | bot.py:517-525 | with no title, a first line over the budget makes the first chunk empty |
| BotOutput.PendingMessages | bot.py:308-316 | the messages of /pending, /pendingdate, /pendingmonth and the report: budget 3500, "\n\n" between items |
| BotOutput.SearchMessages | bot.py:178-185 | the messages of /search: no title, budget 3800 |
| BotOutput.SummaryMessages | bot.py:617-634 | the /summarybranch reply: the whole text as one message when it is at most 3500 characters; otherwise the title first, then messages each at most 3000 characters or a single line of the rest, whose non-blank lines are those of the rest, once each and in order |
| BotOutput.SummaryPlan | bot.py:617-634 | the messages of a /summarybranch reply; SummaryPlanFits and SummaryPlanKeeps are proved of it |
| BotOutput.SummaryPlanFits | bot.py:618-634 | a short summary is one message of at most 3500 characters; after the title of a long one, every message is at most 3000 characters or one line of the rest |
| BotOutput.SummaryPlanKeeps | bot.py:619-632 | a long summary sends the title first, and its later messages hold the non-blank lines of the rest, each once and in order |
| BotOutput.ChunksKeep | bot.py:624-632 | with a one-character separator that no line holds, the non-blank lines of the messages are the non-blank input lines, in order: only blank lines can be lost |
| BotOutput.SummaryChunksDropBlank | bot.py:626-628 | a blank line that meets an exactly full 3000-character buffer is in no message, so the messages no longer join back to the rest |
| BotOutput.DaysBetweenSpec | bot.py:76-84 | `_days_between`: "-" exactly when a date is missing or the second precedes the first, else the day count followed by "d" |
| BotOutput.DaysBetween | bot.py:76-84 | `_days_between`: "-" for a missing date, else the day difference with "d", or "-" when negative; DaysBetweenSpec is proved of it |
| BotOutput.HighlightPlain | bot.py:15-21 | with an empty text or query, or no case-insensitive match, the text is only escaped |
| BotOutput.Highlight | bot.py:15-22 | `_highlight`: escape only, or escape around the first case-insensitive match wrapped in `<b>`…`</b>`; HighlightPlain and HighlightMarksFirst are proved of it |
| BotOutput.HighlightMarksFirst | bot.py:19-22 | when `i` is the first position where the query occurs up to case, exactly the `len(query)` characters from `i`, equal to the query up to case, are wrapped in `<b>`…`</b>` and the rest escaped |
| BotOutput.EscapeThree | bot.py:22 | escaping three consecutive slices escapes the whole text |
| BotArgs.KindOf | bot.py:226-253 | the token's class, tested in the order keyword, month, date, word |
| BotArgs.ParsePendingArgs | bot.py:214-254 | the `/pending` argument loop computes the classifier's left fold |
| BotArgs.Classify | bot.py:222-254 | the classifier as a left fold over the arguments, one token at a time in the keyword, month, date, word order; ClassifyCounts and the ClassifyLast/Start/End/BranchOrder/BranchTokens lemmas are proved of it |
| BotArgs.ClassifyCounts | bot.py:222-254 | keyword set iff a `kw:` token, year and month set iff a month token, start iff a date, end iff two dates; the number of branch tokens is the number of words plus the number of dates past the second (ClassifyBranchTokens says which tokens they are) |
| BotArgs.LastIndexSpec | bot.py:227-237 | the position found holds the last token of its kind, and -1 means no token is of that kind |
| BotArgs.ClassifyLastKeyword | bot.py:227-230 | the keyword is that of the last `kw:` token (last wins) |
| BotArgs.ClassifyLastMonth | bot.py:233-237 | year and month come from the last `YYYY-MM` or `YYYY/MM` token (last wins) |
| BotArgs.ClassifyStartDate | bot.py:240-250 | when set, the start is the parsed first date token |
| BotArgs.ClassifyEndDate | bot.py:240-250 | when set, the end is the parsed second date token |
| BotArgs.ClassifyBranchOrder | bot.py:246-253 | the branch tokens are trimmed arguments, in argument order |
| BotArgs.ClassifyBranchTokens | bot.py:240-253 | the branch tokens are exactly `BranchPicks`: each word token and each date token that has two dates before it, trimmed, in argument order |
| BotArgs.StripAll | bot.py:224 | every argument trimmed |
| BotArgs.NormalizeRange | bot.py:256-260 | an end is always set when a start is, start ≤ end, the pair is the given one or swapped, and no start leaves end as given |
| BotArgs.PendingRequestRange | bot.py:240-262 | no dates give no window, one date gives a window from it to today (either order), two give the window between them |
| BotArgs.PendingMonthWins | bot.py:233-273 | with a valid month token, /pending returns only orders of that month, whatever the dates say |
| BotArgs.PendingRangeHolds | bot.py:256-273 | without a month token, every /pending result is pending and inside the normalised window |
| BotArgs.PendingRequestOf | bot.py:256-262 | the request built from the classified arguments: end defaults to today, a reversed window is swapped, the branch tokens are space-joined and trimmed |
| BotArgs.PendingResults | bot.py:264-273 | /pending looks up `list_pending` with the keyword, window, month and branch of the request, limit 2000 |
| BotArgs.PendingMonthArg | bot.py:380-406 | usage exactly for no arguments; otherwise a month is chosen exactly when the text gives a non-zero year and a month from 1 to 12, and it is that year and month |
| BotArgs.MonthText | bot.py:388-401 | the `try` block: with a `-` (else a `/`) the two-part split; without one, the date parser's year and month; None where anything raises |
| BotArgs.MonthParts | bot.py:390-396 | `a, b = raw.split(sep)` with both `int()`s, `YYYY-MM` when the first part has four characters and `MM-YYYY` otherwise |
| BotArgs.PendingMonthMalformed | bot.py:388-401 | a text with a separator that does not split into exactly two parts, or whose parts `int()` refuses, is an invalid month |
| BotArgs.PendingMonthResults | bot.py:408 | /pendingmonth looks up `list_pending_in_month(y, m, 2000)` only for a chosen month |
| BotArgs.Pad2 | bot.py:304 | `f"{m:02d}"`: two digits whose value is the month |
| BotArgs.ParseDigits | bot.py:393 | `int` of a digit string is its value |
| BotArgs.SplitPair | bot.py:389-391 | splitting `a` sep `b` on sep gives `[a, b]` for digit strings |
| BotArgs.PendingMonthYearFirst | bot.py:389-393 | "YYYY-MM" and "YYYY/MM" give that month |
| BotArgs.PendingMonthMonthFirst | bot.py:394-395 | "MM-YYYY" and "MM/YYYY" give that month for any year from 1 |
| BotArgs.PendingMonthFullDate | bot.py:389-401 | a full date "a-b-c" does not unpack into two parts and is refused |
| BotArgs.DigitPair | bot.py:561-563 | the first two "-"-parts as numbers when both are digit strings |
| BotArgs.SummaryArgsOf | bot.py:552-571 | year set iff month set; a branch only from a first argument that does not look like a month, trimmed |
| BotArgs.SummaryArgsBranchMonth | bot.py:557-571 | "BRANCH YYYY-MM" gives that branch and month |
| BotArgs.SummaryArgsMonthOnly | bot.py:559-563 | a lone "YYYY-MM" or "YYYY/MM" gives that month and no branch |
| BotArgs.SummaryArgsLookalike | bot.py:560-565 | a month-shaped first argument without two digit parts sets neither branch nor month, so the current month is summarised |
| BotArgs.SummaryWindowSpec | bot.py:573-578 | the window is the first to the last day of the chosen month (0 or None falls back to today's), and a date lies in it exactly when it has that month |
| BotArgs.SummaryBranchResult | bot.py:573-581 | /summarybranch counts the chosen branch over the chosen month (today's when the value is 0 or absent), failing where `date` raises |
| BotArgs.TwoMonthJanuaryAsWritten | bot.py:455-460 | for a January today the code starts on 1 November of the previous year, three calendar months back |
| BotArgs.TwoMonthStartSpec | bot.py:453-461 | the corrected start is the first day of the previous month, and the window holds exactly the previous month and this month up to today |
| BotArgs.TwoMonthStartAgrees | bot.py:456-457 | outside January the code and the corrected start agree |
| BotArgs.TwoMonthStartAsWritten | bot.py:455-460 | the report start as the code computes it: the month before today's, but `m + 10` of the previous year in January |
| BotArgs.TwoMonthStartAsWrittenSpec | bot.py:455-460 | the written start is the first of the month one month back (two in January), and the window up to today holds exactly the dates from that month on |
| BotArgs.TwoMonthStart | bot.py:455-460 | the corrected report start: the first day of the previous month, December of the previous year in January |
| BotArgs.ReportFromSound | bot.py:462 | every order that `list_pending_in_range(start, today, 5000)` returns is pending and dated from the start to today |
| BotArgs.ReportResultsAsWritten | bot.py:453-462 | the scheduled report's lookup as the code does it, from the written start |
| BotArgs.ReportSoundAsWritten | bot.py:453-462 | every result of the code's report is pending and dated in the month before today's (the two before it in January) or in this month up to today |
| BotArgs.ReportResults | bot.py:453-462 | the report's lookup with the corrected start |
| BotArgs.ReportSound | bot.py:453-465 | with the corrected start, every report result is pending and dated in the previous month or in this month up to today |
| BotTargets.ReadPieces | bot.py:55-63 | the loop shared by both readers computes `Readings`: each piece trimmed, blanks skipped, unreadable pieces dropped, in order |
| BotTargets.ParseAdminIds | bot.py:52-64 | `_get_admin_ids`: the readable integers among the trimmed, non-blank comma- or newline-separated pieces |
| BotTargets.ParseTargets | bot.py:636-662 | `_get_targets`: ADMIN_TARGETS, or ADMIN_CHAT_IDS when it is empty, read piece by piece as `chat` or `chat:topic` |
| BotTargets.DedupTargets | bot.py:446-451 | the report's target dedup is first-wins dedup on the whole pair |
| BotTargets.ReadingsSound | bot.py:647-661 | every value read comes from some non-blank trimmed piece |
| BotTargets.ShowEach | bot.py:55 | each value printed, in order |
| BotTargets.ReadingsShown | bot.py:55-63 | reading printed values that need no trimming gives them back |
| BotTargets.JoinLacks | bot.py:55 | joining parts that lack a character, by a separator that lacks it, gives a string without it |
| BotTargets.NewlinesAsCommas | bot.py:55 | newlines act exactly as commas |
| BotTargets.PiecesOfJoin | bot.py:55 | the pieces of a comma-joined list of comma- and newline-free parts are those parts |
| BotTargets.ShowIntPlain | bot.py:61 | a printed integer is non-blank, already trimmed, and free of ",", newline and ":" |
| BotTargets.ColonSplit | bot.py:652 | `split(":", 1)` of "a:b" with a colon-free `a` gives `a` and `b` |
| BotTargets.ShowTargetRead | bot.py:651-661 | every target prints as "chat" or "chat:topic" and reads back as itself |
| BotTargets.AdminIdsRoundTrip | bot.py:52-64 | any list of ids joined by "," or by newlines reads back as the same list |
| BotTargets.TargetsRoundTrip | bot.py:645-662 | any list of targets joined by "," or by newlines reads back as the same list |
| BotTargets.DedupTargetsSpec | bot.py:446-451 | the deduplicated targets are distinct, are exactly the targets given, and keep their order |

## Left out

- **Google Sheets and Telegram I/O.** This covers `get_ws`, the `gspread` client, replies and
  `send_message`, the job queue, `asyncio`, the sleeps between sends, the error handler and
  `main`. A sheet is given as its rows, and each command is modelled from its arguments to its
  results and message texts.
- **Environment variables.** `os.getenv` and `load_dotenv` are not modelled. The environment
  strings are parameters (`ParseTargets` takes ADMIN_TARGETS and ADMIN_CHAT_IDS as given).
- **`dateutil`.** `dateutil.parser.parse(s, dayfirst=True, fuzzy=True)` is the function parameter
  `parse` (or `parseArg`), `None` where it raises. `_parse_date_str` is used only by the item
  formatter and is not part of this model.
- **The clock.** `date.today()` and `_today_id()` (the Asia/Jakarta time zone) are replaced by a
  `today` parameter.
- **Unicode.** `strip`, `lower`, `upper`, `\s`, `isdigit` and `int()` are modelled on ASCII only.
  Unicode whitespace, case mapping, non-ASCII digits and `int()`'s underscores are not.
- **Rendering.**
  - `_format_item`, the titles, the usage texts, the "no result" replies, the summary's status and
    category lines and `month_name` labels are not modelled.
  - The chunkers take the rendered lines as opaque strings.
- **Dictionary order.** Python dictionaries keep insertion order. `per_status_by_jenis` and
  `totals_by_jenis` are modelled as maps, which have no order; only `per_status`, whose order the code
  sets by sorting, is a sequence.
- **An invalid month in /summarybranch.** `date(y, m, 1)` on an invalid month raises outside the
  `try` at bot.py:577. `SummaryBranchResult` returns it as `Failure(InvalidDate(y, m))`, and the
  reply to it is not modelled.
- **Errors that escape /pendingmonth.** `list_pending_in_month` at bot.py:408 runs outside any
  `try`, so a year that `date` refuses (such as "01-99999") or a missing sheet column raises out of
  the handler. `PendingMonthResults` returns it as a `Failure`, and what the bot does then is not
  modelled.
- **/pendingdate's own argument handling** (bot.py:340-347) is not part of this model. Its dedup is
  `DedupOrders` and its chunker is `PendingMessages`; its query is `ListPendingInRange`.
- **Other commands.** `/order`, `/start`, `/help`, `whereami`, `debug_targets` and `sendtopic` are
  not part of this model beyond the queries and helpers they share.
- **Telegram's own message limit.** A single item longer than the budget is emitted as it is, and
  what Telegram does with it is not modelled.
- **BotOutput.SummaryPlanKeeps:** it states that the non-blank lines of a long summary reach the
  messages, once each and in order. Where the blank lines end up is not characterised; the chunker
  can drop one, as `SummaryChunksDropBlank` shows, and `SummaryMessages` carries the same gap.
- **BotArgs.SummaryArgsOf:** it states the shape of the result. The concrete inputs are covered by
  the three lemmas that follow it in the table, not by one exhaustive characterisation.

## Findings

| source | as written | input that shows it | evidently intended | confidence | as-written member | corrected member |
|---|---|---|---|---|---|---|
| bot.py:456-460 | in January the "last two months" report starts at `date(y - 1, m + 10, 1)`, that is 1 November of the previous year | today = any January date, e.g. 15 January 2026, which gives a start of 1 November 2025 and a window of three calendar months | the previous month (December of the previous year), as for every other month and as the report title "2 Bulan Terakhir" says; the comment at bot.py:454 ("awal dua bulan lalu", the start of two months ago) agrees with the January branch instead, so the intended direction rests on the title and the other eleven months | not executed | BotArgs.TwoMonthJanuaryAsWritten | BotArgs.TwoMonthStartSpec |
