/**
 * The client's view of the transactions worksheet (Client/src/summary/Summary.tsx,
 * and the same code in Client/src/details/details.tsx): the worksheet that
 * is picked from the spreadsheet, the mapping of its rows to transaction
 * records through the header's column index, and the newest-first sort.
 *
 * `new Date(text)` is a parameter `parseTime`; a missing cell gives
 * `new Date(undefined)`, which is Invalid Date.
 */
module TransactionRows {
  import opened Wrappers
  import DriveClient

  const TRANSACTION_SHEET_NAME: string := "transactions"

  /** A JavaScript Date: a valid instant (milliseconds, local year and month) or Invalid Date. */
  datatype Time = Valid(ms: int, year: int, month: int) | Invalid

  datatype Transaction = Transaction(
    row: int,
    time: Time,
    amount: string,
    category: string,
    name: string,
    merchant: string,
    paymentMethod: string,
    location: string,
    position: string,
    description: string)

  /** A worksheet of the loaded spreadsheet; only its rows change after loading. */
  class Worksheet {
    const id: int
    const name: string
    const columns: seq<string>
    var values: seq<seq<string>>

    constructor (id: int, name: string, columns: seq<string>, values: seq<seq<string>>)
      ensures this.id == id && this.name == name && this.columns == columns && this.values == values
    {
      this.id := id;
      this.name := name;
      this.columns := columns;
      this.values := values;
    }
  }

  /** `sheets.findIndex(sheet => sheet.name === 'transactions')`; `filter(...)[0]` is the same worksheet. */
  function FindTransactionSheet(sheets: seq<Worksheet>): (i: int)
    ensures -1 <= i < |sheets|
    ensures i >= 0 ==> sheets[i].name == TRANSACTION_SHEET_NAME
    ensures 0 <= i ==> forall k :: 0 <= k < i ==> sheets[k].name != TRANSACTION_SHEET_NAME
    ensures i == -1 <==> forall k :: 0 <= k < |sheets| ==> sheets[k].name != TRANSACTION_SHEET_NAME
    decreases |sheets|
  {
    if sheets == [] then -1
    else if sheets[0].name == TRANSACTION_SHEET_NAME then 0
    else
      var k := FindTransactionSheet(sheets[1..]);
      if k < 0 then -1 else k + 1
  }

  // ---------------------------------------------------------------------
  // Column index and cells

  /** `new Map(columns.map((column, i) => [column, i]))`: later entries overwrite earlier ones. */
  function ColumnMap(columns: seq<string>): map<string, int>
    decreases |columns|
  {
    if columns == [] then map[]
    else ColumnMap(columns[..|columns| - 1])[columns[|columns| - 1] := |columns| - 1]
  }

  /** `columnIndex.get(name) ?? -1`. */
  function ColumnIndex(columns: seq<string>, name: string): int {
    var m := ColumnMap(columns);
    if name in m then m[name] else -1
  }

  /** The index of a name is its last position in the header row, and -1 exactly when the header lacks it. */
  lemma {:induction false} ColumnIndexIsLastOccurrence(columns: seq<string>, name: string)
    ensures var i := ColumnIndex(columns, name);
            -1 <= i < |columns|
            && (i == -1 <==> name !in columns)
            && (i >= 0 ==> columns[i] == name && forall k :: i < k < |columns| ==> columns[k] != name)
    decreases |columns|
  {
    if columns != [] {
      var init := columns[..|columns| - 1];
      ColumnIndexIsLastOccurrence(init, name);
      assert columns == init + [columns[|columns| - 1]];
    }
  }

  /** With the schema's header row, each column name maps to its own position. */
  lemma SchemaColumnIndex(k: nat)
    requires k < |DriveClient.TRANSACTION_COLUMNS|
    ensures ColumnIndex(DriveClient.TRANSACTION_COLUMNS, DriveClient.TRANSACTION_COLUMNS[k]) == k
  {
    var columns := DriveClient.TRANSACTION_COLUMNS;
    ColumnIndexIsLastOccurrence(columns, columns[k]);
    DriveClient.TransactionColumnsDistinct();
  }

  /** `row[i]`: undefined (None) for -1 and past the end of the row. */
  function RowCell(row: seq<string>, i: int): (cell: Option<string>)
    ensures cell.Some? <==> 0 <= i < |row|
    ensures cell.Some? ==> cell.value == row[i]
  {
    if 0 <= i < |row| then Some(row[i]) else None
  }

  /** `(row[columnIndex.get(name) ?? -1] ?? '').toString()`. */
  function FieldText(columns: seq<string>, row: seq<string>, name: string): string {
    RowCell(row, ColumnIndex(columns, name)).GetOr("")
  }

  /** A column the header lacks reads as the empty string in every row. */
  lemma MissingColumnIsEmpty(columns: seq<string>, row: seq<string>, name: string)
    requires name !in columns
    ensures FieldText(columns, row, name) == ""
  {
    ColumnIndexIsLastOccurrence(columns, name);
  }

  /** A row shorter than the header reads as the empty string in the columns it lacks. */
  lemma ShortRowIsEmpty(columns: seq<string>, row: seq<string>, name: string)
    requires ColumnIndex(columns, name) >= |row|
    ensures FieldText(columns, row, name) == ""
  {
  }

  /** The position text: the Latitude cell, ", ", then the Longitude cell. */
  function PositionText(columns: seq<string>, row: seq<string>): string {
    FieldText(columns, row, "Latitude") + ", " + FieldText(columns, row, "Longitude")
  }

  /** `new Date(row[columnIndex.get('Time') ?? -1])`. */
  function RowTime(columns: seq<string>, row: seq<string>, parseTime: string -> Time): Time {
    match RowCell(row, ColumnIndex(columns, "Time"))
    case None => Invalid
    case Some(text) => parseTime(text)
  }

  /**
   * A row's time is the parse of its cell under the last "Time" header, and
   * Invalid Date when the header has no "Time" column or the row is too short
   * to reach it (`row[-1]` and a cell past the end are `undefined`).
   */
  lemma RowTimeSpec(columns: seq<string>, row: seq<string>, parseTime: string -> Time)
    ensures "Time" !in columns ==> RowTime(columns, row, parseTime) == Invalid
    ensures "Time" in columns ==>
              exists i :: 0 <= i < |columns| && columns[i] == "Time"
                          && (forall k :: i < k < |columns| ==> columns[k] != "Time")
                          && RowTime(columns, row, parseTime) == (if i < |row| then parseTime(row[i]) else Invalid)
  {
    ColumnIndexIsLastOccurrence(columns, "Time");
    if "Time" in columns {
      var i := ColumnIndex(columns, "Time");
      assert 0 <= i < |columns| && columns[i] == "Time";
    }
  }

  /** The record built for row `rowIndex` of the worksheet. */
  function MapRow(columns: seq<string>, row: seq<string>, rowIndex: int, parseTime: string -> Time): (t: Transaction)
    ensures t.row == rowIndex
  {
    Transaction(
      rowIndex,
      RowTime(columns, row, parseTime),
      FieldText(columns, row, "Amount"),
      FieldText(columns, row, "Category"),
      FieldText(columns, row, "Name"),
      FieldText(columns, row, "Merchant"),
      FieldText(columns, row, "PaymentMethod"),
      FieldText(columns, row, "Location"),
      PositionText(columns, row),
      FieldText(columns, row, "Description"))
  }

  /** `values.map((row, rowI) => ...)`. */
  function MapRows(columns: seq<string>, values: seq<seq<string>>, parseTime: string -> Time): (ts: seq<Transaction>)
    ensures |ts| == |values|
    ensures forall k :: 0 <= k < |ts| ==> ts[k] == MapRow(columns, values[k], k, parseTime)
  {
    seq(|values|, k requires 0 <= k < |values| => MapRow(columns, values[k], k, parseTime))
  }

  /** With the schema's header, every text field of a record is the cell of that column, or "" past the row's end. */
  lemma SchemaRowFields(row: seq<string>, rowIndex: int, parseTime: string -> Time)
    ensures var t := MapRow(DriveClient.TRANSACTION_COLUMNS, row, rowIndex, parseTime);
            var cell := (k: nat) => if k < |row| then row[k] else "";
            t.amount == cell(1) && t.category == cell(2) && t.name == cell(3) && t.merchant == cell(4)
            && t.paymentMethod == cell(5) && t.location == cell(6)
            && t.position == cell(7) + ", " + cell(8) && t.description == cell(9)
            && t.time == (if |row| == 0 then Invalid else parseTime(row[0]))
  {
    var columns := DriveClient.TRANSACTION_COLUMNS;
    SchemaColumnIndex(0);
    SchemaColumnIndex(1);
    SchemaColumnIndex(2);
    SchemaColumnIndex(3);
    SchemaColumnIndex(4);
    SchemaColumnIndex(5);
    SchemaColumnIndex(6);
    SchemaColumnIndex(7);
    SchemaColumnIndex(8);
    SchemaColumnIndex(9);
  }

  // ---------------------------------------------------------------------
  // Sorting most recent first

  /**
   * `(a, b) => b.time.valueOf() - a.time.valueOf()`: positive when `b` is
   * newer. An Invalid Date gives NaN, which the sort treats as 0.
   */
  function Compare(a: Transaction, b: Transaction): int {
    if a.time.Valid? && b.time.Valid? then b.time.ms - a.time.ms else 0
  }

  /** Inserts `x` behind every element that does not compare after it (a stable insertion). */
  function Insert(sorted: seq<Transaction>, x: Transaction): (r: seq<Transaction>)
    ensures |r| == |sorted| + 1
    ensures multiset(r) == multiset(sorted) + multiset{x}
    decreases |sorted|
  {
    if sorted == [] then [x]
    else
      var last := sorted[|sorted| - 1];
      if Compare(last, x) > 0 then
        var init := sorted[..|sorted| - 1];
        assert sorted == init + [last];
        Insert(init, x) + [last]
      else sorted + [x]
  }

  /** `.sort(...)` with the comparator above, as the stable sort of the engine does it. */
  function SortNewestFirst(ts: seq<Transaction>): (r: seq<Transaction>)
    ensures multiset(r) == multiset(ts)
    decreases |ts|
  {
    if ts == [] then []
    else
      var init := ts[..|ts| - 1];
      assert ts == init + [ts[|ts| - 1]];
      Insert(SortNewestFirst(init), ts[|ts| - 1])
  }

  predicate AllValid(ts: seq<Transaction>) {
    forall k :: 0 <= k < |ts| ==> ts[k].time.Valid?
  }

  /** Newest first: no record is followed by a newer one. */
  predicate NewestFirst(ts: seq<Transaction>)
    requires AllValid(ts)
  {
    forall i, j :: 0 <= i < j < |ts| ==> ts[i].time.ms >= ts[j].time.ms
  }

  /** Every element of an insertion result is the inserted record or one of the sorted records. */
  lemma InsertMember(sorted: seq<Transaction>, x: Transaction, k: nat)
    requires k < |Insert(sorted, x)|
    ensures Insert(sorted, x)[k] == x || Insert(sorted, x)[k] in sorted
  {
    var r := Insert(sorted, x);
    assert r[k] in multiset(r);
  }

  /** A record no newer than everything before it can go last. */
  lemma AppendOldest(s: seq<Transaction>, y: Transaction)
    requires AllValid(s) && NewestFirst(s) && y.time.Valid?
    requires forall k :: 0 <= k < |s| ==> s[k].time.ms >= y.time.ms
    ensures AllValid(s + [y]) && NewestFirst(s + [y])
  {
  }

  lemma {:induction false} InsertKeepsOrder(sorted: seq<Transaction>, x: Transaction)
    requires AllValid(sorted) && x.time.Valid? && NewestFirst(sorted)
    ensures AllValid(Insert(sorted, x)) && NewestFirst(Insert(sorted, x))
    decreases |sorted|
  {
    if sorted != [] {
      var last := sorted[|sorted| - 1];
      var init := sorted[..|sorted| - 1];
      if Compare(last, x) > 0 {
        InsertKeepsOrder(init, x);
        var ri := Insert(init, x);
        forall k | 0 <= k < |ri|
          ensures ri[k].time.ms >= last.time.ms
        {
          InsertMember(init, x, k);
          if ri[k] != x {
            var m :| 0 <= m < |init| && init[m] == ri[k];
            assert sorted[m] == ri[k];
          }
        }
        AppendOldest(ri, last);
      } else {
        AppendOldest(sorted, x);
      }
    }
  }

  /** With valid times the result is ordered newest first, and it always holds the same records. */
  lemma {:induction false} SortNewestFirstSorts(ts: seq<Transaction>)
    requires AllValid(ts)
    ensures AllValid(SortNewestFirst(ts)) && NewestFirst(SortNewestFirst(ts))
    decreases |ts|
  {
    if ts != [] {
      var init := ts[..|ts| - 1];
      SortNewestFirstSorts(init);
      InsertKeepsOrder(SortNewestFirst(init), ts[|ts| - 1]);
    }
  }

  // ---------------------------------------------------------------------
  // The list both views compute

  /** The transactions worksheet's records, most recent first (`{columns: [], values: []}` when it is missing). */
  function LoadTransactions(sheets: seq<Worksheet>, parseTime: string -> Time): seq<Transaction>
    reads sheets
  {
    var i := FindTransactionSheet(sheets);
    if i < 0 then [] else SortNewestFirst(MapRows(sheets[i].columns, sheets[i].values, parseTime))
  }

  /**
   * One record per row of the transactions worksheet, each knowing its row,
   * in newest-first order when every time is valid; nothing without the worksheet.
   */
  lemma LoadTransactionsSpec(sheets: seq<Worksheet>, parseTime: string -> Time)
    ensures var ts := LoadTransactions(sheets, parseTime);
            var i := FindTransactionSheet(sheets);
            (i < 0 ==> ts == [])
            && (i >= 0 ==> multiset(ts) == multiset(MapRows(sheets[i].columns, sheets[i].values, parseTime))
                           && |ts| == |sheets[i].values|
                           && (forall k :: 0 <= k < |ts| ==> 0 <= ts[k].row < |ts|)
                           && (AllValid(ts) ==> NewestFirst(ts)))
  {
    var i := FindTransactionSheet(sheets);
    if i >= 0 {
      var mapped := MapRows(sheets[i].columns, sheets[i].values, parseTime);
      var ts := SortNewestFirst(mapped);
      assert |ts| == |multiset(ts)| == |multiset(mapped)| == |mapped|;
      forall k | 0 <= k < |ts|
        ensures 0 <= ts[k].row < |ts|
      {
        assert ts[k] in multiset(mapped);
        var m :| 0 <= m < |mapped| && mapped[m] == ts[k];
      }
      if AllValid(ts) {
        forall k | 0 <= k < |mapped|
          ensures mapped[k].time.Valid?
        {
          assert mapped[k] in multiset(ts);
          var m :| 0 <= m < |ts| && ts[m] == mapped[k];
        }
        SortNewestFirstSorts(mapped);
      }
    }
  }
}
