/**
 * The shared vocabulary of the order engine in sheets.py: a sheet as rows of cells (row 0 is the
 * header), the header map and its required-column check, the closed/pending rule, the
 * placeholder-aware date guard, the order record and the stable sort by order date.
 */
module SheetCore {
  import opened Wrappers
  import opened Text
  import opened Calendar
  import opened Sequences
  import opened Sorting

  type Row = seq<string>
  type Sheet = seq<Row>

  /** dateutil's `parse(s, dayfirst=True, fuzzy=True).date()`; `None` where it raises. */
  type DateParser = string -> Option<CivilDate>

  /** The errors the queries raise. */
  datatype SheetError =
    | MissingColumns(sheet: Option<string>, names: seq<string>)  // RuntimeError listing the absent columns
    | IdColumnsMissing                                            // find_order's RuntimeError
    | NoHeaderRow                                                 // IndexError on `rows[0]`
    | CellMissing                                                 // IndexError on `r[...]`
    | InvalidDate(year: int, month: int)                          // ValueError from `date(year, month, 1)`

  /** `str(e)` for each error. */
  function Message(e: SheetError): string {
    match e
    case MissingColumns(None, names) => "Kolom hilang di sheet: " + Join(names, ", ")
    case MissingColumns(Some(sheet), names) => "Kolom hilang di sheet '" + sheet + "': " + Join(names, ", ")
    case IdColumnsMissing => "Kolom 'ORDER_ID' atau 'No SC' tidak ditemukan di sheet."
    case NoHeaderRow => "list index out of range"
    case CellMissing => "list index out of range"
    case InvalidDate(year, month) =>
      if !(1 <= year <= 9999) then "year " + ShowInt(year) + " is out of range" else "month must be in 1..12"
  }

  /** `_norm(s)`: trimmed and lower-cased. */
  function Norm(s: string): string {
    Lower(Strip(s))
  }

  lemma LowerKeepsSpaces(s: string)
    ensures forall i :: 0 <= i < |s| ==> (IsSpace(Lower(s)[i]) <==> IsSpace(s[i]))
  {
  }

  lemma StripTrimmed(s: string)
    requires s == [] || (!IsSpace(s[0]) && !IsSpace(s[|s| - 1]))
    ensures Strip(s) == s
  {
  }

  /** Normalising twice is normalising once. */
  lemma NormIdempotent(s: string)
    ensures Norm(Norm(s)) == Norm(s)
  {
    var t := Strip(s);
    LowerKeepsSpaces(t);
    StripTrimmed(Lower(t));
    assert Lower(Lower(t)) == Lower(t);
  }

  /** `_is_done(status)`: closed when the normalised status starts with "complete" or is one of the cancel spellings. */
  predicate IsDone(status: string) {
    var s := Norm(status);
    "complete" <= s || s == "cancel" || s == "canceled" || s == "cancelled"
  }

  /** The rule looks at the normalised status only, and a blank status is pending. */
  lemma IsDoneNormalised(status: string)
    ensures IsDone(status) == IsDone(Norm(status))
    ensures Strip(status) == [] ==> !IsDone(status)
  {
    NormIdempotent(status);
  }

  predicate IsPlaceholder(cell: string) {
    var s := Strip(cell);
    s == "" || s == "-" || s == "0"
  }

  /**
   * `_to_date(cell)` and its twin `_parse_date(cell)`: the parsed date of the trimmed cell, absent
   * for an empty cell, the placeholders "-" and "0", text the parser rejects and years before 1971.
   */
  function ToDate(cell: string, parse: DateParser): (d: Option<CivilDate>)
    ensures d.Some? <==> !IsPlaceholder(cell) && parse(Strip(cell)).Some? && parse(Strip(cell)).value.year >= 1971
    ensures d.Some? ==> d == parse(Strip(cell))
  {
    var s := Strip(cell);
    if s == "" || s == "-" || s == "0" then None
    else
      match parse(s)
      case None => None
      case Some(x) => if x.year < 1971 then None else Some(x)
  }

  /** The normalised header cells, position for position. */
  function NormHeader(header: seq<string>): (keys: seq<string>)
    ensures |keys| == |header|
    ensures forall i {:trigger keys[i]} :: 0 <= i < |header| ==> keys[i] == Norm(header[i])
  {
    seq(|header|, i requires 0 <= i < |header| => Norm(header[i]))
  }

  /** `{h.strip().lower(): i for i, h in enumerate(header)}`: a later duplicate overwrites an earlier one. */
  function HeaderMap(header: seq<string>): map<string, nat> {
    IndexMap(NormHeader(header))
  }

  /**
   * Every normalised header cell is a key; a key maps to a column whose normalised header is that key,
   * and to the last such column.
   */
  lemma HeaderMapSpec(header: seq<string>)
    ensures forall i :: 0 <= i < |header| ==> Norm(header[i]) in HeaderMap(header)
    ensures forall k :: k in HeaderMap(header) ==>
      HeaderMap(header)[k] < |header| && Norm(header[HeaderMap(header)[k]]) == k
    ensures forall k, j :: k in HeaderMap(header) && HeaderMap(header)[k] < j < |header| ==> Norm(header[j]) != k
  {
    var keys := NormHeader(header);
    IndexMapSpec(keys);
    forall i | 0 <= i < |header| ensures Norm(header[i]) in HeaderMap(header) {
      assert keys[i] == Norm(header[i]);
    }
    forall k | k in HeaderMap(header) ensures HeaderMap(header)[k] < |header| && Norm(header[HeaderMap(header)[k]]) == k {
      assert keys[HeaderMap(header)[k]] == k;
    }
    forall k, j | k in HeaderMap(header) && HeaderMap(header)[k] < j < |header| ensures Norm(header[j]) != k {
      assert keys[j] != k;
    }
  }

  /** `[c for c in required if c not in header]`, in the order of `required`. */
  function Missing(required: seq<string>, header: map<string, nat>): (missing: seq<string>)
    ensures forall c :: c in missing <==> c in required && c !in header
    ensures IsSubsequence(missing, required)
  {
    if required == [] then []
    else if required[0] in header then
      var rest := Missing(required[1..], header);
      assert IsSubsequence(rest, required) by {
        assert rest == [] || IsSubsequence(rest, required[1..]);
      }
      rest
    else
      var rest := Missing(required[1..], header);
      [required[0]] + rest
  }

  /** `r[i] if len(r) > i else ""`. */
  function Cell(r: Row, i: nat): string {
    if i < |r| then r[i] else ""
  }

  /** The record each query returns (the Python dicts with keys CUSTOMER_NAME ... ORDER_DATE). */
  datatype Order = Order(customerName: string, orderId: string, noSc: string,
                         statusDo: string, jenisOrder: string, orderDate: string)

  /** The column positions of the six order fields. */
  datatype Columns = Columns(name: nat, orderId: nat, noSc: nat, status: nat, jenis: nat, date: nat)

  /** The required-column list of list_not_done, list_pending_in_range and list_pending. */
  const PendingRequired: seq<string> := ["order_id", "no sc", "status do", "jenis order", "order_date", "customer_name"]

  predicate HasOrderColumns(header: map<string, nat>) {
    "customer_name" in header && "order_id" in header && "no sc" in header
    && "status do" in header && "jenis order" in header && "order_date" in header
  }

  lemma PendingRequiredPresent(header: map<string, nat>)
    ensures Missing(PendingRequired, header) == [] <==> HasOrderColumns(header)
  {
    if Missing(PendingRequired, header) == [] {
      assert forall c :: c in PendingRequired ==> c in header;
      assert PendingRequired[5] == "customer_name" && PendingRequired[0] == "order_id";
      assert PendingRequired[1] == "no sc" && PendingRequired[2] == "status do";
      assert PendingRequired[3] == "jenis order" && PendingRequired[4] == "order_date";
    }
  }

  /** The required-column list of search_by_name: the same six names, customer_name first. */
  const SearchRequired: seq<string> := ["customer_name", "order_id", "no sc", "status do", "jenis order", "order_date"]

  lemma SearchRequiredPresent(header: map<string, nat>)
    ensures Missing(SearchRequired, header) == [] <==> HasOrderColumns(header)
  {
    if Missing(SearchRequired, header) == [] {
      assert forall c :: c in SearchRequired ==> c in header;
      assert SearchRequired[0] == "customer_name" && SearchRequired[1] == "order_id";
      assert SearchRequired[2] == "no sc" && SearchRequired[3] == "status do";
      assert SearchRequired[4] == "jenis order" && SearchRequired[5] == "order_date";
    }
  }

  function ColumnsOf(header: map<string, nat>): Columns
    requires HasOrderColumns(header)
  {
    Columns(header["customer_name"], header["order_id"], header["no sc"],
            header["status do"], header["jenis order"], header["order_date"])
  }

  /** The record built from one data row, missing cells read as "". */
  function RowOrder(r: Row, cols: Columns): Order {
    Order(Cell(r, cols.name), Cell(r, cols.orderId), Cell(r, cols.noSc),
          Cell(r, cols.status), Cell(r, cols.jenis), Cell(r, cols.date))
  }

  /** `_to_date(r["ORDER_DATE"]) or date.min`: the sort key, absent dates first. */
  function SortKey(o: Order, parse: DateParser): CivilDate {
    ToDate(o.orderDate, parse).GetOr(MinDate)
  }

  /** The sort key as a function value. */
  function ByDate(parse: DateParser): Order -> Date {
    o => SortKey(o, parse)
  }

  /**
   * `_sort_by_date(rows)`: Python's stable `sorted` by order date, absent dates as `date.min`.
   * The result is a permutation of the input, ascending by date, and records with the same date keep
   * their relative order.
   */
  function SortByDate(s: seq<Order>, parse: DateParser): (r: seq<Order>)
    ensures multiset(r) == multiset(s)
    ensures SortedBy(r, ByDate(parse))
    ensures forall k: Date :: WithKey(r, k, ByDate(parse)) == WithKey(s, k, ByDate(parse))
  {
    SortBy(s, ByDate(parse))
  }
}
