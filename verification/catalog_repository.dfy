/** The catalog sheet read and written directly: entry listing, lookup by
    document id, filtered search, in-place update and soft delete. The sheet
    is the grid of rows the Sheets API returns; row 0 holds the headers. */
module CatalogRepository {
  import opened Wrappers
  import opened Strings
  import Seqs
  import Clock
  import opened Sheet
  import opened CatalogModel

  /** The `A2:M` range: every row below the header. */
  function DataRows(g: Grid): (r: seq<Row>)
    ensures |r| == if |g| == 0 then 0 else |g| - 1
    ensures forall i :: 0 <= i < |r| ==> r[i] == g[i + 1]
  {
    if |g| == 0 then [] else g[1..]
  }

  /** `CatalogEntry.from_sheet_row` with the current time fixed. */
  function Reader(now: Clock.Instant): Row -> CatalogEntry {
    row => FromSheetRow(row, now)
  }

  /** The document id of a row is its column C, or "" for a shorter row. */
  lemma {:induction false} DocIdCell(row: Row, now: Clock.Instant)
    ensures Reader(now)(row).docId == Cell(row, 2, "")
  {
  }

  /** `get_all_entries`: one entry per non-empty data row, in sheet order. */
  function AllEntries(g: Grid, now: Clock.Instant): seq<CatalogEntry> {
    ReadRows(Reader(now), DataRows(g))
  }

  /** The first entry with the given document id. */
  function FirstWithId(es: seq<CatalogEntry>, id: string): (r: Option<CatalogEntry>)
    ensures r.None? <==> forall i :: 0 <= i < |es| ==> es[i].docId != id
    ensures r.Some? ==> r.value.docId == id
    ensures r.Some? ==> exists i :: (0 <= i < |es| && es[i] == r.value &&
      forall j :: 0 <= j < i ==> es[j].docId != id)
    decreases |es|
  {
    if |es| == 0 then None
    else if es[0].docId == id then Some(es[0])
    else
      var r := FirstWithId(es[1..], id);
      assert forall i :: 1 <= i < |es| ==> es[i] == es[1..][i - 1];
      r
  }

  /** `get_entry_by_id`. */
  function EntryById(g: Grid, id: string, now: Clock.Instant): Option<CatalogEntry> {
    FirstWithId(AllEntries(g, now), id)
  }

  /** The entry read from a row depends only on its first 13 cells. */
  lemma {:induction false} ReadOverwritten(row: Row, e: CatalogEntry, now: Clock.Instant)
    requires RowSafe(e)
    ensures FromSheetRow(Overwrite(row, ToSheetRow(e)), now) == e
  {
    var cells := ToSheetRow(e);
    var w := Overwrite(row, cells);
    CatalogRowRoundTrip(e, now);
    FullRow(cells, now);
    FullRow(w, now);
    assert w[0] == cells[0] && w[1] == cells[1] && w[2] == cells[2] && w[3] == cells[3];
    assert w[4] == cells[4] && w[5] == cells[5] && w[6] == cells[6] && w[7] == cells[7];
    assert w[8] == cells[8] && w[9] == cells[9] && w[10] == cells[10];
    assert w[11] == cells[11] && w[12] == cells[12];
  }

  /** `update_entry` as written: the search for the document id starts at
      the header row, whose column C holds the header text "ID". */
  function UpdateEntryAsWritten(g: Grid, e: CatalogEntry): (r: Result<Grid, string>)
    ensures r.Err? <==> forall j :: 0 <= j < |g| ==> !HasAt(g[j], 2, e.docId)
    ensures r.Ok? ==> (var i := FindRowFrom(g, 2, e.docId, 0).value;
      |r.value| == |g| && r.value[i] == Overwrite(g[i], ToSheetRow(e)) &&
      |r.value[i]| >= 13 && r.value[i][12] == e.status &&
      forall j :: 0 <= j < |g| && j != i ==> r.value[j] == g[j])
  {
    StatusCell(e);
    match FindRowFrom(g, 2, e.docId, 0)
    case None => Err("Catalog entry not found: " + e.docId)
    case Some(i) => Ok(g[i := Overwrite(g[i], ToSheetRow(e))])
  }

  /** The first data row holding `id` in column C. */
  function DataRowOf(g: Grid, id: string): (r: Option<nat>)
    ensures r.None? <==> forall j :: 1 <= j < |g| ==> !HasAt(g[j], 2, id)
    ensures r.Some? ==> (1 <= r.value < |g| && HasAt(g[r.value], 2, id) &&
      forall j :: 1 <= j < r.value ==> !HasAt(g[j], 2, id))
  {
    if |g| == 0 then None else FindRowFrom(g, 2, id, 1)
  }

  /** `update_entry` searching the data rows only, as `get_entry_by_id`
      does: the first data row holding the id in column C is overwritten,
      every other row (the header included) is kept. */
  function UpdateEntry(g: Grid, e: CatalogEntry): (r: Result<Grid, string>)
    ensures r.Err? <==> DataRowOf(g, e.docId).None?
    ensures r.Ok? ==> |r.value| == |g| && r.value[0] == g[0]
    ensures r.Ok? ==> (var i := DataRowOf(g, e.docId).value;
      r.value[i] == Overwrite(g[i], ToSheetRow(e)) &&
      forall j :: 0 <= j < |g| && j != i ==> r.value[j] == g[j])
  {
    match DataRowOf(g, e.docId)
    case None => Err("Catalog entry not found: " + e.docId)
    case Some(i) => Ok(g[i := Overwrite(g[i], ToSheetRow(e))])
  }

  /** The header row's column C reads "ID", so updating an entry whose
      document id is "ID" overwrites the header and leaves the data row
      untouched. */
  lemma {:induction false} HeaderOverwritten(row: Row, e: CatalogEntry)
    requires HasAt(row, 2, "ID") && e.docId == "ID" && e.name != CatalogSheetHeaders[0]
    ensures UpdateEntryAsWritten([CatalogSheetHeaders, row], e).Ok?
    ensures UpdateEntryAsWritten([CatalogSheetHeaders, row], e).value[0] != CatalogSheetHeaders
    ensures UpdateEntryAsWritten([CatalogSheetHeaders, row], e).value[1] == row
    ensures UpdateEntry([CatalogSheetHeaders, row], e).value[0] == CatalogSheetHeaders
  {
    var g := [CatalogSheetHeaders, row];
    assert HasAt(g[0], 2, "ID");
    assert FindRowFrom(g, 2, "ID", 0) == Some(0);
    assert UpdateEntryAsWritten(g, e).value[0][0] == e.name;
  }

  /** `add_entry`: the row is appended after the last row. */
  function AddEntry(g: Grid, e: CatalogEntry): (r: Grid)
    ensures |r| == |g| + 1 && r[..|g|] == g && r[|g|] == ToSheetRow(e)
  {
    g + [ToSheetRow(e)]
  }

  /** An appended entry is listed last and reads back unchanged. */
  lemma {:induction false} AddedEntryListed(g: Grid, e: CatalogEntry, now: Clock.Instant)
    requires |g| >= 1 && RowSafe(e)
    ensures AllEntries(AddEntry(g, e), now) == AllEntries(g, now) + [e]
  {
    assert DataRows(AddEntry(g, e)) == DataRows(g) + [ToSheetRow(e)];
    ReadRowsAppend(Reader(now), DataRows(g), ToSheetRow(e));
    CatalogRowRoundTrip(e, now);
  }

  /** ... and is what a lookup of its id returns when the id was new. */
  lemma {:induction false} AddedEntryFound(g: Grid, e: CatalogEntry, now: Clock.Instant)
    requires |g| >= 1 && RowSafe(e) && EntryById(g, e.docId, now).None?
    ensures EntryById(AddEntry(g, e), e.docId, now) == Some(e)
  {
    AddedEntryListed(g, e, now);
    var es := AllEntries(g, now);
    FirstAppend(es, e);
  }

  lemma {:induction false} FirstAppend(es: seq<CatalogEntry>, e: CatalogEntry)
    requires FirstWithId(es, e.docId).None?
    ensures FirstWithId(es + [e], e.docId) == Some(e)
    decreases |es|
  {
    if |es| > 0 {
      assert (es + [e])[1..] == es[1..] + [e];
      FirstAppend(es[1..], e);
    }
  }

  /** For a non-empty id, the entry a lookup returns is read from the first
      row holding that id in column C. */
  lemma {:induction false} FirstEntryIsFirstRow(rows: seq<Row>, id: string, k: nat, now: Clock.Instant)
    requires id != "" && k < |rows| && HasAt(rows[k], 2, id)
    requires forall j :: 0 <= j < k ==> !HasAt(rows[j], 2, id)
    ensures FirstWithId(ReadRows(Reader(now), rows), id) == Some(Reader(now)(rows[k]))
    decreases |rows|
  {
    var read := Reader(now);
    if k == 0 {
      DocIdCell(rows[0], now);
      var rs := ReadRows(read, rows);
      assert rs == [read(rows[0])] + ReadRows(read, rows[1..]);
      assert rs[0].docId == id;
    } else {
      var tail := rows[1..];
      assert tail[k - 1] == rows[k];
      forall j | 0 <= j < k - 1 ensures !HasAt(tail[j], 2, id) {
        assert tail[j] == rows[j + 1];
      }
      FirstEntryIsFirstRow(tail, id, k - 1, now);
      assert !HasAt(rows[0], 2, id);
      DocIdCell(rows[0], now);
      var rest := ReadRows(read, tail);
      if |rows[0]| > 0 {
        assert read(rows[0]).docId != id;
        assert ReadRows(read, rows) == [read(rows[0])] + rest;
        FirstSkip(read(rows[0]), rest, id);
        assert FirstWithId(ReadRows(read, rows), id) == FirstWithId(rest, id);
      } else {
        assert ReadRows(read, rows) == rest;
      }
      assert FirstWithId(rest, id) == Some(read(tail[k - 1]));
    }
  }

  lemma {:induction false} FirstSkip(x: CatalogEntry, rest: seq<CatalogEntry>, id: string)
    requires x.docId != id
    ensures FirstWithId([x] + rest, id) == FirstWithId(rest, id)
  {
    assert ([x] + rest)[1..] == rest;
  }

  /** The update the corrected `delete_entry` issues: the entry, archived
      and stamped with the current time, written over its data row. */
  function Archive(g: Grid, e: CatalogEntry, now: Clock.Instant): (r: Result<Grid, string>)
    ensures r.Err? <==> DataRowOf(g, e.docId).None?
    ensures r.Ok? ==> |r.value| == |g| && r.value[0] == g[0]
    ensures r.Ok? ==> (var i := DataRowOf(g, e.docId).value;
      |r.value[i]| >= 13 && r.value[i][2] == e.docId && r.value[i][12] == "archived" &&
      forall j :: 0 <= j < |g| && j != i ==> r.value[j] == g[j])
  {
    var archived := e.(status := "archived", updatedAt := now);
    KeyCells(g, archived);
    UpdateEntry(g, archived)
  }

  /** The row an update writes carries the entry's id and status. */
  lemma {:induction false} KeyCells(g: Grid, e: CatalogEntry)
    ensures DataRowOf(g, e.docId).Some? ==> (var i := DataRowOf(g, e.docId).value;
      |Overwrite(g[i], ToSheetRow(e))| >= 13 && Overwrite(g[i], ToSheetRow(e))[2] == e.docId && Overwrite(g[i], ToSheetRow(e))[12] == e.status)
  {
  }

  /** `delete_entry`, corrected: a soft delete that marks the entry
      archived with the current time, writes it over its own data row and
      removes no row. `DeleteEntryAsWritten` is the code as written. */
  function DeleteEntry(g: Grid, id: string, now: Clock.Instant): (r: Result<Grid, string>)
    ensures EntryById(g, id, now).None? ==> r.Err?
    ensures r.Ok? ==> DataRowOf(g, id).Some? && |r.value| == |g| && r.value[0] == g[0]
    ensures r.Ok? ==> (var i := DataRowOf(g, id).value;
      |r.value[i]| >= 13 && r.value[i][2] == id && r.value[i][12] == "archived" &&
      forall j :: 0 <= j < |g| && j != i ==> r.value[j] == g[j])
  {
    match EntryById(g, id, now)
    case None => Err("Catalog entry not found: " + id)
    case Some(e) => Archive(g, e, now)
  }

  /** `delete_entry` as written: the entry found among the data rows is
      archived, but the write goes through `update_entry` as written, whose
      search starts at the header row. */
  function DeleteEntryAsWritten(g: Grid, id: string, now: Clock.Instant): (r: Result<Grid, string>)
    ensures EntryById(g, id, now).None? ==> r.Err?
    ensures r.Ok? ==> FindRowFrom(g, 2, id, 0).Some?
    ensures r.Ok? ==> (var i := FindRowFrom(g, 2, id, 0).value;
      |r.value| == |g| && |r.value[i]| >= 13 && r.value[i][12] == "archived" &&
      forall j :: 0 <= j < |g| && j != i ==> r.value[j] == g[j])
  {
    var found := EntryById(g, id, now);
    if found.None? then Err("Catalog entry not found: " + id)
    else
      var archived := found.value.(status := "archived", updatedAt := now);
      assert archived.docId == id;
      UpdateEntryAsWritten(g, archived)
  }

  /** A written catalog row carries the status in column M. */
  lemma StatusCell(e: CatalogEntry)
    ensures |ToSheetRow(e)| == 13 && ToSheetRow(e)[12] == e.status
  {
    assert |CatalogSheetHeaders| == 13;
  }

  /** Deleting the entry whose id is "ID" archives the header row instead
      of the entry's own row; the corrected delete keeps the header. */
  lemma {:induction false} DeleteOverwritesHeader(row: Row, now: Clock.Instant)
    requires HasAt(row, 2, "ID")
    ensures DeleteEntryAsWritten([CatalogSheetHeaders, row], "ID", now).Ok?
    ensures DeleteEntryAsWritten([CatalogSheetHeaders, row], "ID", now).value[0] != CatalogSheetHeaders
    ensures DeleteEntryAsWritten([CatalogSheetHeaders, row], "ID", now).value[1] == row
    ensures DeleteEntry([CatalogSheetHeaders, row], "ID", now).Ok?
    ensures DeleteEntry([CatalogSheetHeaders, row], "ID", now).value[0] == CatalogSheetHeaders
  {
    var g := [CatalogSheetHeaders, row];
    HeaderCells();
    assert HasAt(g[0], 2, "ID");
    assert FindRowFrom(g, 2, "ID", 0) == Some(0);
    assert DataRows(g)[0] == row;
    FirstEntryIsFirstRow(DataRows(g), "ID", 0, now);
    assert EntryById(g, "ID", now).Some?;
    assert DataRowOf(g, "ID") == Some(1) by { assert HasAt(g[1], 2, "ID"); }
  }

  /** The header row's id column reads "ID" and its status column does not
      read "archived". */
  lemma HeaderCells()
    ensures |CatalogSheetHeaders| == 13 && CatalogSheetHeaders[2] == "ID"
    ensures CatalogSheetHeaders[12] != "archived"
  {
  }

  /** After a soft delete of a non-empty id, looking the id up again finds
      the same row, now archived. */
  lemma {:induction false} DeletedEntryArchived(g: Grid, id: string, now: Clock.Instant)
    requires id != "" && DeleteEntry(g, id, now).Ok?
    ensures EntryById(DeleteEntry(g, id, now).value, id, now).Some?
    ensures EntryById(DeleteEntry(g, id, now).value, id, now).value.status == "archived"
    ensures EntryById(DeleteEntry(g, id, now).value, id, now).value.docId == id
  {
    var g2 := DeleteEntry(g, id, now).value;
    var i := DataRowOf(g, id).value;
    forall j | 1 <= j < i
      ensures !HasAt(g2[j], 2, id)
    {
      assert g2[j] == g[j];
    }
    FoundArchived(g2, i, id, now);
  }

  /** A lookup finds the first data row holding the id; when that row is
      archived, so is the entry. */
  lemma FoundArchived(g: Grid, i: nat, id: string, now: Clock.Instant)
    requires id != "" && 1 <= i < |g| && |g[i]| >= 13 && g[i][2] == id && g[i][12] == "archived"
    requires forall j :: 1 <= j < i ==> !HasAt(g[j], 2, id)
    ensures EntryById(g, id, now) == Some(FromSheetRow(g[i], now))
    ensures FromSheetRow(g[i], now).status == "archived" && FromSheetRow(g[i], now).docId == id
  {
    var rows := DataRows(g);
    assert rows[i - 1] == g[i];
    forall j | 0 <= j < i - 1
      ensures !HasAt(rows[j], 2, id)
    {
      assert rows[j] == g[j + 1];
    }
    FirstEntryIsFirstRow(rows, id, i - 1, now);
  }

  /** Search filters; "" stands for an omitted filter. */
  datatype Filters = Filters(
    project: string, docType: string, phaseTask: string, feature: string,
    referenceTiming: string, status: string, keywords: seq<string>)

  /** At least one query keyword equals one of the entry's keywords, ignoring case. */
  predicate KeywordHit(query: seq<string>, keywords: seq<string>) {
    exists i, j :: 0 <= i < |query| && 0 <= j < |keywords| && Lower(query[i]) == Lower(keywords[j])
  }

  /** The loop body of `search`: every supplied filter must hold. */
  predicate Passes(f: Filters, e: CatalogEntry) {
    (f.project == "" || e.project == f.project) &&
    (f.docType == "" || e.docType == f.docType) &&
    (f.phaseTask == "" || e.phaseTask == f.phaseTask) &&
    (f.feature == "" || e.feature == f.feature) &&
    (f.referenceTiming == "" || e.referenceTiming == f.referenceTiming) &&
    (f.status == "all" || e.status == f.status) &&
    (|f.keywords| == 0 || KeywordHit(f.keywords, e.keywords))
  }

  datatype SearchResult = SearchResult(success: bool, documents: seq<CatalogEntry>, totalCount: int)

  /** `search`: the passing entries in sheet order, stopping once `limit`
      have been collected. */
  function Search(g: Grid, f: Filters, limit: int, now: Clock.Instant): (r: SearchResult)
    ensures r.success && r.totalCount == |r.documents|
    ensures |r.documents| <= if limit < 1 then 1 else limit
    ensures forall i :: 0 <= i < |r.documents| ==> Passes(f, r.documents[i]) && r.documents[i] in AllEntries(g, now)
    ensures r.documents == Seqs.Prefix(Seqs.Filter(e => Passes(f, e), AllEntries(g, now)), if limit < 1 then 1 else limit)
    ensures |Seqs.Filter(e => Passes(f, e), AllEntries(g, now))| <= limit ==>
      forall e :: e in AllEntries(g, now) && Passes(f, e) ==> e in r.documents
  {
    var pass := e => Passes(f, e);
    var all := AllEntries(g, now);
    var docs := Seqs.FilterUpTo(pass, all, limit);
    SearchResult(true, docs, |docs|)
  }
}
