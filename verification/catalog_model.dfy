/** A row of the catalog sheet: the entry record, its 13-cell row form, and
    the RAG document form. */
module CatalogModel {
  import opened Wrappers
  import opened Json
  import opened Strings
  import Clock
  import RagIndex
  import RagClient
  import opened Sheet

  datatype CatalogEntry = CatalogEntry(
    docId: string, name: string, source: string, docType: string, project: string,
    phaseTask: string, feature: string, referenceTiming: string, relatedDocs: seq<string>,
    keywords: seq<string>, updatedAt: Clock.Instant, createdBy: string, status: string)

  const CatalogSheetHeaders: seq<string> := [
    "ドキュメント名", "保存先", "ID", "種別", "プロジェクト", "フェーズタスク", "フィーチャー",
    "参照タイミング", "関連ドキュメント", "キーワード", "更新日", "作成者", "ステータス"]

  /** `to_sheet_row`: one cell per catalog header, in header order. */
  function ToSheetRow(e: CatalogEntry): (row: seq<string>)
    ensures |row| == |CatalogSheetHeaders|
    ensures row[0] == e.name && row[2] == e.docId && row[4] == e.project && row[12] == e.status
  {
    [e.name, e.source, e.docId, e.docType, e.project, e.phaseTask, e.feature, e.referenceTiming,
     Join(e.relatedDocs, ","), Join(e.keywords, ","), Clock.IsoFormat(e.updatedAt), e.createdBy, e.status]
  }

  /** The updated-at cell: parsed when non-empty, the current time when empty
      or malformed. */
  function UpdatedAt(cell: string, now: Clock.Instant): (r: Clock.Instant)
    ensures r == now || Clock.Valid(r)
  {
    if cell == "" then now else Clock.ParseIso(cell).GetOr(now)
  }

  /** `from_sheet_row`: short rows are tolerated, missing cells read as "",
      a missing status as "active", and list cells are parsed item by item. */
  function FromSheetRow(row: seq<string>, now: Clock.Instant): (e: CatalogEntry)
    ensures |row| < 13 ==> e.status == "active"
    ensures |row| < 3 ==> e.docId == ""
    ensures AllListItems(e.relatedDocs) && AllListItems(e.keywords)
  {
    CatalogEntry(
      Cell(row, 2, ""), Cell(row, 0, ""), Cell(row, 1, ""), Cell(row, 3, ""), Cell(row, 4, ""),
      Cell(row, 5, ""), Cell(row, 6, ""), Cell(row, 7, ""),
      SplitList(Cell(row, 8, "")), SplitList(Cell(row, 9, "")),
      UpdatedAt(Cell(row, 10, ""), now), Cell(row, 11, ""), Cell(row, 12, "active"))
  }

  /** Entries whose list items are non-empty, trimmed and comma-free, and
      whose timestamp is a real date, survive a trip through the sheet. */
  predicate RowSafe(e: CatalogEntry) {
    AllListItems(e.relatedDocs) && AllListItems(e.keywords) && Clock.Valid(e.updatedAt)
  }

  lemma {:induction false} CatalogRowRoundTrip(e: CatalogEntry, now: Clock.Instant)
    requires RowSafe(e)
    ensures FromSheetRow(ToSheetRow(e), now) == e
  {
    var row := ToSheetRow(e);
    RowCells(e);
    ListRead(e.relatedDocs);
    ListRead(e.keywords);
    DateRead(e.updatedAt, now);
    FullRow(row, now);
    assert SplitList(row[8]) == e.relatedDocs;
    assert SplitList(row[9]) == e.keywords;
    assert UpdatedAt(row[10], now) == e.updatedAt;
  }

  lemma RowCells(e: CatalogEntry)
    ensures var row := ToSheetRow(e);
      && row[0] == e.name && row[1] == e.source && row[2] == e.docId && row[3] == e.docType
      && row[4] == e.project && row[5] == e.phaseTask && row[6] == e.feature
      && row[7] == e.referenceTiming && row[8] == Join(e.relatedDocs, ",")
      && row[9] == Join(e.keywords, ",") && row[10] == Clock.IsoFormat(e.updatedAt)
      && row[11] == e.createdBy && row[12] == e.status
  {
  }

  /** A list written with "," reads back item for item. */
  lemma {:induction false} ListRead(items: seq<string>)
    requires AllListItems(items)
    ensures SplitList(Join(items, ",")) == items
  {
    SplitListJoin(items, "");
    assert "," + "" == ",";
  }

  lemma {:induction false} DateRead(t: Clock.Instant, now: Clock.Instant)
    requires Clock.Valid(t)
    ensures UpdatedAt(Clock.IsoFormat(t), now) == t
  {
    Clock.IsoRoundTrip(t);
  }

  lemma {:induction false} FullRow(row: seq<string>, now: Clock.Instant)
    requires |row| >= 13
    ensures FromSheetRow(row, now) == CatalogEntry(row[2], row[0], row[1], row[3], row[4], row[5], row[6],
      row[7], SplitList(row[8]), SplitList(row[9]), UpdatedAt(row[10], now), row[11], row[12])
  {
  }

  /** `to_rag_document`: the document `catalog:{doc_id}`, whose ten
      metadata keys read back as the entry's fields, the keywords as the
      same list. */
  function ToRagDocument(e: CatalogEntry): (d: RagIndex.Doc)
    ensures d.id == "catalog:" + e.docId
    ensures d.metadata.Keys == {"doc_id", "name", "source", "doc_type", "project", "phase_task", "feature",
                                "reference_timing", "keywords", "status"}
    ensures StrField(d.metadata, "doc_id", "") == e.docId && StrField(d.metadata, "name", "") == e.name
    ensures StrField(d.metadata, "source", "") == e.source && StrField(d.metadata, "doc_type", "") == e.docType
    ensures StrField(d.metadata, "project", "") == e.project && StrField(d.metadata, "phase_task", "") == e.phaseTask
    ensures StrField(d.metadata, "feature", "") == e.feature
    ensures StrField(d.metadata, "reference_timing", "") == e.referenceTiming
    ensures StrField(d.metadata, "status", "") == e.status
    ensures StrListField(d.metadata, "keywords") == e.keywords
  {
    StrListRoundTrip(e.keywords);
    RagIndex.Doc("catalog:" + e.docId,
      e.name + " - " + e.docType + " - " + e.project + " - " + e.phaseTask,
      map["doc_id" := JStr(e.docId), "name" := JStr(e.name), "source" := JStr(e.source),
          "doc_type" := JStr(e.docType), "project" := JStr(e.project), "phase_task" := JStr(e.phaseTask),
          "feature" := JStr(e.feature), "reference_timing" := JStr(e.referenceTiming),
          "keywords" := StrList(e.keywords), "status" := JStr(e.status)],
      0.0)
  }

  /** The entry's own RAG id has no project part, so it never coincides with
      the project-scoped id the RAG client caches catalog entries under. */
  lemma {:induction false} RagIdsDiffer(e: CatalogEntry)
    ensures ToRagDocument(e).id != RagClient.CatalogId(e.project, e.docId)
  {
    var a := ToRagDocument(e).id;
    var b := RagClient.CatalogId(e.project, e.docId);
    assert |b| == |a| + |e.project| + 1;
  }
}
