/** Sheet ranges as the Sheets API returns them: rows of string cells, where a
    row may be shorter than the header. */
module Sheet {
  import opened Wrappers


  type Row = seq<string>

  /** A whole sheet as rows; row 0 is the first row of the sheet. */
  type Grid = seq<Row>

  /** The sheets of the spreadsheets in reach, keyed by (spreadsheet id,
      sheet name); a sheet that does not exist has no key. */
  type Book = map<(string, string), Grid>

  /** `row[i] if i < len(row) else default`. */
  function Cell(row: Row, i: nat, default: string): (r: string)
    ensures i < |row| ==> r == row[i]
    ensures i >= |row| ==> r == default
  {
    if i < |row| then row[i] else default
  }

  /** `while len(row) < n: row.append("")`. */
  function PadTo(row: Row, n: nat): (r: Row)
    ensures |r| == if |row| < n then n else |row|
    ensures r[..|row|] == row
    ensures forall i :: |row| <= i < |r| ==> r[i] == ""
  {
    if |row| < n then row + seq(n - |row|, i => "") else row
  }

  /** `row[:i] + [v] + row[i+1:]` for an index inside the row. */
  function SetCell(row: Row, i: nat, v: string): (r: Row)
    requires i < |row|
    ensures |r| == |row| && r[i] == v
    ensures forall j :: 0 <= j < |row| && j != i ==> r[j] == row[j]
  {
    row[i := v]
  }

  /** `[read(row) for row in rows if row]`: one record per non-empty row,
      in row order. */
  function ReadRows<T>(read: Row -> T, rows: seq<Row>): (r: seq<T>)
    ensures |r| <= |rows|
    ensures forall i :: 0 <= i < |rows| && |rows[i]| > 0 ==> read(rows[i]) in r
    ensures forall k :: 0 <= k < |r| ==>
      (exists i :: 0 <= i < |rows| && |rows[i]| > 0 && r[k] == read(rows[i]))
    decreases |rows|
  {
    if |rows| == 0 then []
    else
      var rest := ReadRows(read, rows[1..]);
      assert forall i :: 1 <= i < |rows| ==> rows[i] == rows[1..][i - 1];
      if |rows[0]| > 0 then [read(rows[0])] + rest else rest
  }

  lemma {:induction false} ReadRowsAppend<T>(read: Row -> T, rows: seq<Row>, row: Row)
    requires |row| > 0
    ensures ReadRows(read, rows + [row]) == ReadRows(read, rows) + [read(row)]
    decreases |rows|
  {
    if |rows| > 0 {
      assert (rows + [row])[1..] == rows[1..] + [row];
      ReadRowsAppend(read, rows[1..], row);
    } else {
      assert ReadRows(read, [row]) == [read(row)] + ReadRows(read, [row][1..]);
    }
  }

  /** Whether a row holds `v` in column `col`. */
  predicate HasAt(row: Row, col: nat, v: string) {
    col < |row| && row[col] == v
  }

  /** `find_row_by_value` (sheet client) scanning from row `start` (0-based; the source's
      1-based row number is the result plus one). */
  function FindRowFrom(g: Grid, col: nat, v: string, start: nat): (r: Option<nat>)
    requires start <= |g|
    ensures r.None? <==> forall j :: start <= j < |g| ==> !HasAt(g[j], col, v)
    ensures r.Some? ==> (start <= r.value < |g| && HasAt(g[r.value], col, v) &&
      forall j :: start <= j < r.value ==> !HasAt(g[j], col, v))
    decreases |g| - start
  {
    if start == |g| then None
    else if HasAt(g[start], col, v) then Some(start)
    else FindRowFrom(g, col, v, start + 1)
  }

  /** `update_row` (sheet client): writes the given cells over the start of the row and
      keeps any cells beyond them. */
  function Overwrite(row: Row, cells: seq<string>): (r: Row)
    ensures |r| == if |row| > |cells| then |row| else |cells|
    ensures forall j :: 0 <= j < |cells| ==> r[j] == cells[j]
    ensures forall j :: |cells| <= j < |row| ==> r[j] == row[j]
  {
    if |row| > |cells| then cells + row[|cells|..] else cells
  }

}
