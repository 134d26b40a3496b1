/**
 * The request shapes the client builds for Google Drive and Sheets
 * (Client/src/google-drive.ts): the spreadsheet schema, the `listFiles`
 * query, the `createSpreadsheetFile` body, the range of the client's
 * `addRow`, and the cut-paste request of `deleteRow` together with its
 * effect on the rows of a worksheet.
 *
 * The client's `cellA1` and `rangeA1` are the same code as the server's; this
 * module uses the definitions of module SheetsApi.
 */
module DriveClient {
  import opened Wrappers
  import opened Text
  import SheetsApi

  // ---------------------------------------------------------------------
  // SPREADSHEET_SCHEMA

  const TRANSACTION_COLUMNS: seq<string> :=
    ["Time", "Amount", "Category", "Name", "Merchant", "PaymentMethod", "Location", "Latitude", "Longitude", "Description"]

  /** The worksheets and their header rows, in the object's key order. */
  const SCHEMA: seq<(string, seq<string>)> :=
    [("transactions", TRANSACTION_COLUMNS), ("budgets", TRANSACTION_COLUMNS), ("general", ["Key", "Value"])]

  /** The header row of a worksheet of the schema. */
  function SchemaColumns(worksheetName: string): (columns: Option<seq<string>>)
    ensures columns.Some? <==> worksheetName in {"transactions", "budgets", "general"}
    ensures worksheetName == "transactions" ==> columns == Some(TRANSACTION_COLUMNS) && |columns.value| == 10
  {
    if worksheetName == SCHEMA[0].0 then Some(SCHEMA[0].1)
    else if worksheetName == SCHEMA[1].0 then Some(SCHEMA[1].1)
    else if worksheetName == SCHEMA[2].0 then Some(SCHEMA[2].1)
    else None
  }

  /** Every transaction column name is different, so a header row maps each name to exactly one index. */
  lemma TransactionColumnsDistinct()
    ensures forall i, j :: 0 <= i < j < |TRANSACTION_COLUMNS| ==> TRANSACTION_COLUMNS[i] != TRANSACTION_COLUMNS[j]
  {
  }

  // ---------------------------------------------------------------------
  // listFiles and createSpreadsheetFile

  const TRASHED_FALSE: string := "trashed=false"

  /** The `q` of listFiles before URI encoding: not trashed, and inside `parentId` when one is given (even an empty one). */
  function ListFilesQuery(parentId: Option<string>): string {
    TRASHED_FALSE + (if parentId.Some? then " and '" + parentId.value + "' in parents" else "")
  }

  /** Reads the parent back out of a listFiles query: Some(None) for the unrestricted query. */
  function QueryParent(q: string): Option<Option<string>> {
    if |q| < 13 || q[..13] != TRASHED_FALSE then None
    else
      var rest := q[13..];
      if rest == "" then Some(None)
      else if |rest| >= 6 + 12 && rest[..6] == " and '" && rest[|rest| - 12..] == "' in parents"
      then Some(Some(rest[6..|rest| - 12]))
      else None
  }

  /** The query restricts to a parent exactly when one was passed, and to that very parent. */
  lemma ListFilesQueryRoundTrip(parentId: Option<string>)
    ensures QueryParent(ListFilesQuery(parentId)) == Some(parentId)
  {
    var q := ListFilesQuery(parentId);
    assert q[..13] == TRASHED_FALSE;
    if parentId.Some? {
      var rest := " and '" + parentId.value + "' in parents";
      assert q[13..] == rest;
      assert rest[..6] == " and '";
      assert rest[|rest| - 12..] == "' in parents";
      assert rest[6..|rest| - 12] == parentId.value;
    } else {
      assert q == TRASHED_FALSE;
    }
  }

  /** The JSON body of a Drive `files.create`. */
  datatype FileBody = FileBody(name: string, mimeType: string, parents: Option<seq<string>>)

  const SPREADSHEET_MIME_TYPE: string := "application/vnd.google-apps.spreadsheet"

  /** createSpreadsheetFile's body: `parents` is set only for a truthy folder id. */
  function CreateSpreadsheetBody(parentFolderId: Option<string>, spreadsheetName: string): (body: FileBody)
    ensures body.name == spreadsheetName && body.mimeType == SPREADSHEET_MIME_TYPE
    ensures body.parents.Some? <==> Truthy(parentFolderId)
    ensures body.parents.Some? ==> body.parents.value == [parentFolderId.value]
  {
    var body := FileBody(spreadsheetName, SPREADSHEET_MIME_TYPE, None);
    if Truthy(parentFolderId) then body.(parents := Some([parentFolderId.value])) else body
  }

  /** The two builders test the parent differently: an empty id restricts the listing but is not set as a parent. */
  lemma EmptyParentTreatedDifferently()
    ensures QueryParent(ListFilesQuery(Some(""))) == Some(Some(""))
    ensures CreateSpreadsheetBody(Some(""), "Boom My Wallet").parents.None?
  {
    ListFilesQueryRoundTrip(Some(""));
  }

  // ---------------------------------------------------------------------
  // addRow

  /** `spreadsheets.values.append` as the client's addRow sends it. */
  datatype ClientAppend = ClientAppend(spreadsheetId: string, range: string, valueInputOption: string,
                                       majorDimension: string, values: seq<seq<string>>)

  /** The range of the client's addRow: columns 0 .. row.length-1 of the worksheet's first row. */
  function ClientAddRowRange(worksheetName: string, rowLength: nat): string
    requires rowLength >= 1
  {
    SheetsApi.RangeA1(worksheetName, (0, Some(0)), (rowLength - 1, Some(0)))
  }

  function ClientAddRow(spreadsheetId: string, worksheetName: string, row: seq<string>): (r: ClientAppend)
    requires |row| >= 1
    ensures r.values == [row] && r.majorDimension == "ROWS" && r.valueInputOption == "USER_ENTERED"
    ensures r.spreadsheetId == spreadsheetId && r.range == ClientAddRowRange(worksheetName, |row|)
  {
    ClientAppend(spreadsheetId, ClientAddRowRange(worksheetName, |row|), "USER_ENTERED", "ROWS", [row])
  }

  /** The range covers the first row only (index 0, "1" in A1 notation), from column A to the row's last column. */
  lemma ClientAddRowRangeSpan(worksheetName: string, rowLength: nat)
    requires rowLength >= 1
    ensures ClientAddRowRange(worksheetName, rowLength)
         == "'" + worksheetName + "'!A1:" + SheetsApi.ColumnLetters(rowLength - 1) + "1"
  {
    var start, end := (0, Some(0)), (rowLength - 1, Some(0));
    FirstRowDigits();
    SheetsApi.SingleLetterColumns(0);
    var first := SheetsApi.Cell(start.0, start.1);
    assert first == "A1";
    var letters := SheetsApi.ColumnLetters(rowLength - 1);
    var last := SheetsApi.Cell(end.0, end.1);
    assert last == letters + "1";
    assert ClientAddRowRange(worksheetName, rowLength) == "'" + worksheetName + "'!" + first + ":" + last;
    RegroupRange(worksheetName, letters);
  }

  lemma RegroupRange(worksheetName: string, letters: string)
    ensures "'" + worksheetName + "'!" + "A1" + ":" + (letters + "1") == "'" + worksheetName + "'!A1:" + letters + "1"
  {
  }

  lemma FirstRowDigits()
    ensures SheetsApi.RowDigits(Some(0)) == "1"
  {
    assert NatToDecimal(1) == "1";
  }

  /** A header row of the schema goes to `A1:J1` of a transactions or budgets worksheet. */
  lemma HeaderRowRange(worksheetName: string)
    ensures ClientAddRowRange(worksheetName, |TRANSACTION_COLUMNS|) == "'" + worksheetName + "'!A1:J1"
  {
    SheetsApi.SingleLetterColumns(0);
    SheetsApi.SingleLetterColumns(9);
    FirstRowDigits();
    assert SheetsApi.Cell(0, Some(0)) == "A1" && SheetsApi.Cell(9, Some(0)) == "J1";
  }

  // ---------------------------------------------------------------------
  // deleteRow

  /** The single `cutPaste` request deleteRow sends. */
  datatype CutPaste = CutPaste(
    sourceSheetId: int, startRowIndex: int, startColumnIndex: int,
    destinationSheetId: int, rowIndex: int, columnIndex: int,
    pasteType: string)

  /** deleteRow(worksheetId, row): everything from row+1 down is cut and pasted at `row`. */
  function DeleteRowRequest(worksheetId: int, row: int): (r: CutPaste)
    ensures r.sourceSheetId == r.destinationSheetId == worksheetId
    ensures r.startRowIndex == r.rowIndex + 1 && r.rowIndex == row
    ensures r.startColumnIndex == 0 && r.columnIndex == 0 && r.pasteType == "PASTE_NO_BORDERS"
  {
    CutPaste(worksheetId, row + 1, 0, worksheetId, row, 0, "PASTE_NO_BORDERS")
  }

  /**
   * The effect of a same-sheet cut-paste of the open-ended row range starting
   * at `start` to the row `dest` above it, on a worksheet's rows (row index 0
   * is the first row of the sheet): the cut rows move up to `dest`, the rows
   * between `dest` and `start` are overwritten, and the rows left behind at
   * the bottom are cleared to empty rows.
   */
  function CutPasteRows(grid: seq<seq<string>>, start: nat, dest: nat): (r: seq<seq<string>>)
    requires dest < start <= |grid|
    ensures |r| == |grid|
    ensures r[..dest] == grid[..dest]
    ensures forall k :: dest <= k < dest + |grid| - start ==> r[k] == grid[k + start - dest]
    ensures forall k :: dest + |grid| - start <= k < |grid| ==> r[k] == []
  {
    grid[..dest] + grid[start..] + seq(start - dest, _ => [])
  }

  /** The request deleteRow sends removes exactly row `row` of the worksheet and shifts every later row up by one. */
  lemma DeleteRowShiftsUp(grid: seq<seq<string>>, worksheetId: int, row: nat)
    requires row < |grid|
    ensures var req := DeleteRowRequest(worksheetId, row);
            CutPasteRows(grid, req.startRowIndex, req.rowIndex) == grid[..row] + grid[row + 1..] + [[]]
  {
    var r := CutPasteRows(grid, row + 1, row);
    var expected := grid[..row] + grid[row + 1..] + [[]];
    assert |r| == |expected|;
    forall k | 0 <= k < |r|
      ensures r[k] == expected[k]
    {
      if k < row {
        assert r[k] == r[..row][k];
      }
    }
  }
}
