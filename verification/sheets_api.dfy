/**
 * A1 notation as the server's Sheets helper builds it (Server/googleapis.js),
 * and the append request `addRow` sends. The client (Client/src/google-drive.ts)
 * carries a character-for-character copy of `cellA1` and `rangeA1`; module
 * DriveClient reuses the definitions here.
 *
 * `cellA1` turns a zero-based column into letters with a do-while loop that
 * divides by 26 with `Math.round`, not with the bijective base-26 that Sheets
 * uses. `ColumnLetters` models the loop as written; `SheetsColumnLetters` is
 * the naming Sheets expects. They agree on columns 0..12, which covers every
 * column the application uses (at most 10), and differ from column 13 on.
 */
module SheetsApi {
  import opened Wrappers
  import opened Text

  /** `Math.round(column / 26)` for a non-negative integer column: floor(column/26 + 1/2). */
  function RoundDiv26(column: nat): (q: nat)
    ensures column == 0 ==> q == 0
    ensures column > 0 ==> q < column
  {
    (column + 13) / 26
  }

  /** `String.fromCharCode(0x41 + d)` for 0 <= d < 26. */
  function Letter(d: nat): (c: char)
    requires d < 26
    ensures 'A' <= c <= 'Z'
  {
    ('A' as int + d) as char
  }

  predicate AllLetters(s: string) {
    forall i :: 0 <= i < |s| ==> 'A' <= s[i] <= 'Z'
  }

  /**
   * The column part `cellA1` produces: each step puts `'A' + column % 26` in
   * front and continues with `Math.round(column / 26)` until that is 0.
   */
  function ColumnLetters(column: nat): (s: string)
    ensures |s| >= 1 && s[|s| - 1] == Letter(column % 26)
    decreases column
  {
    var rest := RoundDiv26(column);
    (if rest == 0 then "" else ColumnLetters(rest)) + [Letter(column % 26)]
  }

  /** The loop only ever produces capital letters. */
  lemma {:induction false} ColumnLettersAreLetters(column: nat)
    ensures AllLetters(ColumnLetters(column))
    decreases column
  {
    var rest := RoundDiv26(column);
    if rest != 0 {
      ColumnLettersAreLetters(rest);
    }
  }

  /** The row part of a cell: nothing for a whole-column reference, else the 1-based row number. */
  function RowDigits(row: Option<int>): string {
    match row
    case None => ""
    case Some(r) => IntToDecimal(r + 1)
  }

  /** What `cellA1(column, row)` returns. */
  function Cell(column: nat, row: Option<int>): string {
    ColumnLetters(column) + RowDigits(row)
  }

  /** `cellA1`: the do-while loop over `columnA1` and `column`. */
  method CellA1(column: nat, row: Option<int>) returns (cell: string)
    ensures cell == Cell(column, row)
  {
    var columnA1 := "";
    var c := column;
    while true
      invariant ColumnLetters(column) == ColumnLetters(c) + columnA1
      decreases c
    {
      var next := RoundDiv26(c);
      CellA1Step(column, c, columnA1);
      columnA1 := [Letter(c % 26)] + columnA1;
      if next == 0 {
        break;
      }
      c := next;
    }
    assert columnA1 == ColumnLetters(column);
    cell := columnA1 + RowDigits(row);
  }

  /** One pass of the loop: the last letter of what is left moves to the front of the accumulated letters. */
  lemma CellA1Step(column: nat, c: nat, columnA1: string)
    requires ColumnLetters(column) == ColumnLetters(c) + columnA1
    ensures var next, moved := RoundDiv26(c), [Letter(c % 26)] + columnA1;
            if next == 0 then ColumnLetters(column) == moved else ColumnLetters(column) == ColumnLetters(next) + moved
  {
    var next, letter := RoundDiv26(c), [Letter(c % 26)];
    var rest := if next == 0 then "" else ColumnLetters(next);
    assert ColumnLetters(c) == rest + letter;
    AppendAssoc(rest, letter, columnA1);
    assert next == 0 ==> rest + (letter + columnA1) == letter + columnA1;
  }

  /** The loop stops after its first pass for columns 0..12, which therefore get the single letter 'A' + column. */
  lemma SingleLetterColumns(column: nat)
    requires column <= 12
    ensures ColumnLetters(column) == [Letter(column)]
  {
    assert RoundDiv26(column) == 0 && column % 26 == column;
  }

  /** The examples in the comment above `cellA1`: "A2" for (0, 1) and "C" for (2, null). */
  lemma DocumentedExamples()
    ensures Cell(0, Some(1)) == "A2"
    ensures Cell(2, None) == "C"
  {
    SingleLetterColumns(0);
    SingleLetterColumns(2);
    var a, two := ColumnLetters(0), RowDigits(Some(1));
    assert a == ['A'];
    assert two == ['2'] by {
      assert DigitChar(2) == '2';
    }
    assert Cell(0, Some(1)) == a + two;
    assert Cell(2, None) == ColumnLetters(2) + "";
  }

  /** The cell is the column letters followed by the row digits, which are absent exactly for a null row. */
  lemma CellShape(column: nat, row: Option<int>)
    ensures var c := Cell(column, row);
            |c| > |ColumnLetters(column)| <==> row.Some?
    ensures row.Some? && row.value >= -1 ==> AllDigits(Cell(column, row)[|ColumnLetters(column)|..])
    ensures row.Some? && row.value >= -1 ==> DecimalValue(Cell(column, row)[|ColumnLetters(column)|..]) == row.value + 1
  {
    var c := Cell(column, row);
    assert c[|ColumnLetters(column)|..] == RowDigits(row);
    if row.Some? && row.value >= -1 {
      DecimalRoundTrip(row.value + 1);
    }
  }

  /** `rangeA1(worksheetName, startCell, endCell)`. */
  function RangeA1(worksheetName: string, start: (nat, Option<int>), end: (nat, Option<int>)): string {
    "'" + worksheetName + "'!" + Cell(start.0, start.1) + ":" + Cell(end.0, end.1)
  }

  // ---------------------------------------------------------------------
  // Reading a range back

  /**
   * Splits `'name'!start:end` into its three parts: the name runs to the
   * next quote, and the cells are separated by the first ':'.
   */
  function ParseRange(range: string): Option<(string, string, string)> {
    if |range| < 1 || range[0] != '\'' then None else ParseQuoted(range[1..])
  }

  /** The part after the opening quote: the name, then `'!`, then the cells. */
  function ParseQuoted(body: string): Option<(string, string, string)> {
    var q := IndexOf(body, '\'');
    if q < 0 || q + 1 >= |body| || body[q + 1] != '!' then None
    else ParseCells(body[..q], body[q + 2..])
  }

  /** The two cells around the first ':'. */
  function ParseCells(name: string, cells: string): Option<(string, string, string)> {
    var colon := IndexOf(cells, ':');
    if colon < 0 then None else Some((name, cells[..colon], cells[colon + 1..]))
  }

  /** A cell is letters and digits (and a sign for a row below -1): it never holds the ':' that separates two cells. */
  lemma CellHasNoColon(column: nat, row: Option<int>)
    ensures ':' !in Cell(column, row)
  {
    ColumnLettersAreLetters(column);
    var letters, digits := ColumnLetters(column), RowDigits(row);
    assert ':' !in letters;
    if row.Some? {
      var r := row.value + 1;
      var magnitude := NatToDecimal(if r < 0 then -r else r);
      assert ':' !in magnitude;
      assert digits == (if r < 0 then "-" + magnitude else magnitude);
    }
    assert ':' !in digits;
  }

  /** The first `c` in `a + [c] + b` is the one right after `a` when `a` has none. */
  lemma IndexOfAfter(a: string, c: char, b: string)
    requires c !in a
    ensures IndexOf(a + [c] + b, c) == |a|
    ensures (a + [c] + b)[..|a|] == a && (a + [c] + b)[|a| + 1..] == b
  {
    var s := a + [c] + b;
    assert s[|a|] == c && s[..|a|] == a;
  }

  /** The parser reads back any `'name'!start:end` whose name has no quote and whose start has no colon. */
  lemma ParseRangeOf(name: string, start: string, end: string)
    requires '\'' !in name && ':' !in start
    ensures ParseRange("'" + name + "'!" + start + ":" + end) == Some((name, start, end))
  {
    var cells := start + [':'] + end;
    var body := name + ['\''] + (['!'] + cells);
    QuotedRange(name, start, end);
    ParseQuotedOf(name, cells);
    IndexOfAfter(start, ':', end);
  }

  lemma QuotedRange(name: string, start: string, end: string)
    ensures ("'" + name + "'!" + start + ":" + end)[1..] == name + ['\''] + (['!'] + (start + [':'] + end))
  {
  }

  lemma ParseQuotedOf(name: string, cells: string)
    requires '\'' !in name
    ensures ParseQuoted(name + ['\''] + (['!'] + cells)) == ParseCells(name, cells)
  {
    var tail := ['!'] + cells;
    var body := name + ['\''] + tail;
    IndexOfAfter(name, '\'', tail);
    var q := |name|;
    assert body[q + 1..] == tail;
    assert body[q + 1] == tail[0] == '!';
    assert body[q + 2..] == tail[1..] == cells;
  }

  /** A range built for a worksheet name without quotes reads back as its name and its two cells. */
  lemma RangeA1RoundTrip(worksheetName: string, start: (nat, Option<int>), end: (nat, Option<int>))
    requires '\'' !in worksheetName
    ensures ParseRange(RangeA1(worksheetName, start, end))
         == Some((worksheetName, Cell(start.0, start.1), Cell(end.0, end.1)))
  {
    CellHasNoColon(start.0, start.1);
    ParseRangeOf(worksheetName, Cell(start.0, start.1), Cell(end.0, end.1));
  }

  // ---------------------------------------------------------------------
  // The append request of addRow

  /** `spreadsheets.values.append` as addRow sends it. */
  datatype AppendRequest = AppendRequest(
    accessToken: string,
    spreadsheetId: string,
    range: string,
    valueInputOption: string,
    majorDimension: string,
    values: seq<seq<Option<string>>>)

  /** The range addRow appends into: whole columns 0 .. row.length-1 of the worksheet. */
  function AddRowRange(worksheetName: string, rowLength: nat): string
    requires rowLength >= 1
  {
    RangeA1(worksheetName, (0, None), (rowLength - 1, None))
  }

  /** `addRow(accessToken, spreadsheetId, worksheetName, row)`. */
  function AddRow(accessToken: string, spreadsheetId: string, worksheetName: string, row: seq<Option<string>>): (r: AppendRequest)
    requires |row| >= 1
    ensures r.values == [row] && r.majorDimension == "ROWS" && r.valueInputOption == "RAW"
    ensures r.accessToken == accessToken && r.spreadsheetId == spreadsheetId
    ensures r.range == AddRowRange(worksheetName, |row|)
  {
    AppendRequest(accessToken, spreadsheetId, AddRowRange(worksheetName, |row|), "RAW", "ROWS", [row])
  }

  /** The append range names the worksheet and spans the columns of the first through the last cell of the row. */
  lemma RangeReadsBack(worksheetName: string, rowLength: nat)
    requires rowLength >= 1 && '\'' !in worksheetName
    ensures ParseRange(AddRowRange(worksheetName, rowLength)) == Some((worksheetName, ColumnLetters(0), ColumnLetters(rowLength - 1)))
  {
    var first, last := ColumnLetters(0), ColumnLetters(rowLength - 1);
    WholeColumnRange(worksheetName, rowLength);
    CellHasNoColon(0, None);
    WholeColumnCell(0);
    ParseRangeOf(worksheetName, first, last);
  }

  /** The append range spells out the letters of its first and last columns and no row. */
  lemma WholeColumnRange(worksheetName: string, rowLength: nat)
    requires rowLength >= 1
    ensures AddRowRange(worksheetName, rowLength) == "'" + worksheetName + "'!" + ColumnLetters(0) + ":" + ColumnLetters(rowLength - 1)
  {
    var last := rowLength - 1;
    WholeColumnCell(0);
    WholeColumnCell(last);
  }

  /** A cell without a row is just its column letters. */
  lemma WholeColumnCell(column: nat)
    ensures Cell(column, None) == ColumnLetters(column)
  {
    assert RowDigits(None) == "";
  }

  /** A ten-field transaction row goes to columns A through J of the worksheet. */
  lemma TenColumnRange(worksheetName: string)
    ensures AddRowRange(worksheetName, 10) == "'" + worksheetName + "'!A:J"
  {
    SingleLetterColumns(0);
    SingleLetterColumns(9);
    assert Cell(0, None) == "A" && Cell(9, None) == "J";
  }

  // ---------------------------------------------------------------------
  // The column naming Sheets actually uses (bijective base 26)

  /** The A1 letters of a zero-based column: A..Z, AA..AZ, BA.. */
  function SheetsColumnLetters(column: nat): (s: string)
    ensures |s| >= 1 && AllLetters(s)
    decreases column
  {
    if column < 26 then [Letter(column)] else SheetsColumnLetters(column / 26 - 1) + [Letter(column % 26)]
  }

  /** The bijective base-26 value of a string of letters ('A' = 1 .. 'Z' = 26). */
  function LettersValue(s: string): nat
    requires AllLetters(s)
    decreases |s|
  {
    if s == "" then 0 else LettersValue(s[..|s| - 1]) * 26 + (s[|s| - 1] as int - 'A' as int + 1)
  }

  /** The zero-based column Sheets reads from A1 letters. */
  function SheetsColumnIndex(s: string): int
    requires AllLetters(s)
  {
    LettersValue(s) - 1
  }

  lemma {:induction false} SheetsColumnRoundTrip(column: nat)
    ensures SheetsColumnIndex(SheetsColumnLetters(column)) == column
    decreases column
  {
    if column >= 26 {
      var s := SheetsColumnLetters(column);
      SheetsColumnRoundTrip(column / 26 - 1);
      assert s[..|s| - 1] == SheetsColumnLetters(column / 26 - 1);
      assert s[|s| - 1] as int - 'A' as int == column % 26;
      assert LettersValue(s) == (column / 26) * 26 + column % 26 + 1;
    }
  }

  /** On every column the application uses the loop and Sheets agree. */
  lemma AgreeOnSingleLetters(column: nat)
    requires column <= 12
    ensures ColumnLetters(column) == SheetsColumnLetters(column)
    ensures SheetsColumnIndex(ColumnLetters(column)) == column
  {
    SheetsColumnRoundTrip(column);
  }

  /** From column 13 on the loop names another column: 13 becomes "BN", which Sheets reads as column 65. */
  lemma ColumnThirteenMisnamed()
    ensures ColumnLetters(13) == "BN"
    ensures SheetsColumnIndex(ColumnLetters(13)) == 65
    ensures ColumnLetters(26) == "BA" && SheetsColumnLetters(26) == "AA"
  {
    assert ColumnLetters(1) == "B";
    assert ColumnLetters(13) == "BN";
    assert LettersValue("B") == 2;
    assert "BN"[..1] == "B";
    assert ColumnLetters(26) == "BA";
    assert SheetsColumnLetters(0) == "A";
  }
}
