/** The catalog tools: rebuilding a project's RAG cache from its catalog
    sheet, and searching the cache with post-filters. */
module CatalogTools {
  import opened Wrappers
  import opened Json
  import opened Strings
  import Clock
  import Dict
  import Seqs
  import opened Sheet
  import opened RagIndex
  import opened RagClient
  import CatalogModel
  import ProjectModel

  // ----------------------------------------------------------------- sync

  /** First-cell texts that mark the first row as a header row. */
  const HeaderNames: seq<string> := ["ドキュメント名", "名前", "Name"]

  /** Where the data starts: the first row is skipped iff its first cell is a
      header name. */
  function StartRow(rows: seq<Row>): (r: nat)
    ensures r <= 1 && r <= |rows|
    ensures r == 1 <==> |rows| > 0 && |rows[0]| > 0 && rows[0][0] in HeaderNames
  {
    if |rows| > 0 && |rows[0]| > 0 && rows[0][0] in HeaderNames then 1 else 0
  }

  /** A row is synced iff it has at least four cells, a name (column A) and
      a document id (column C). */
  predicate Accepted(row: Row) {
    |row| >= 4 && row[0] != "" && row[2] != ""
  }

  /** The cells of an accepted row, as the sync loop reads them. Column E
      (the row's own project) is not read. */
  datatype CatalogRow = CatalogRow(
    name: string, source: string, docId: string, docType: string, phaseTask: string,
    feature: string, referenceTiming: string, relatedDocs: seq<string>, keywords: seq<string>,
    updatedAt: string, creator: string, status: string)

  /** Missing cells read as "", a missing status as "active", and the two
      list cells are comma-split, trimmed and stripped of empties. */
  function ParseRow(row: Row): (c: CatalogRow)
    requires |row| >= 4
    ensures c.name == row[0] && c.source == row[1] && c.docId == row[2] && c.docType == row[3]
    ensures |row| < 13 ==> c.status == "active"
    ensures AllListItems(c.relatedDocs) && AllListItems(c.keywords)
  {
    CatalogRow(row[0], row[1], row[2], row[3], Cell(row, 5, ""), Cell(row, 6, ""), Cell(row, 7, ""),
               SplitList(Cell(row, 8, "")), SplitList(Cell(row, 9, "")), Cell(row, 10, ""),
               Cell(row, 11, ""), Cell(row, 12, "active"))
  }

  /** The accepted rows, parsed, in sheet order. */
  function ParsedRows(rows: seq<Row>): (r: seq<CatalogRow>)
    ensures |r| == |Seqs.Filter(Accepted, rows)|
    ensures forall i :: 0 <= i < |r| ==> r[i] == ParseRow(Seqs.Filter(Accepted, rows)[i])
    ensures forall i :: 0 <= i < |r| ==> r[i].name != "" && r[i].docId != ""
  {
    var acc := Seqs.Filter(Accepted, rows);
    seq(|acc|, i requires 0 <= i < |acc| => ParseRow(acc[i]))
  }

  /** The caller metadata a parsed row is cached with. The cell text of the
      updated-at column is stored as it is. */
  function RowMetadata(c: CatalogRow): (m: Obj)
    ensures "updated_at" in m && "type" !in m && "project" !in m && "doc_id" !in m
    ensures "status" in m && m["status"] == JStr(c.status)
  {
    map["feature" := JStr(c.feature),
        "keywords" := StrList(c.keywords),
        "reference_timing" := JStr(c.referenceTiming),
        "related_docs" := StrList(c.relatedDocs),
        "source" := JStr(c.source),
        "updated_at" := JStr(c.updatedAt),
        "creator" := JStr(c.creator),
        "status" := JStr(c.status)]
  }

  /** Caches one parsed row under the project given to the sync. */
  function AddRow(st: Store, project: string, c: CatalogRow, now: Clock.Instant): (r: Store)
    ensures WellFormed(st) ==> WellFormed(r)
  {
    AddCatalogEntry(st, c.docId, c.name, c.docType, project, c.phaseTask, RowMetadata(c), now).0
  }

  /** The document a row is cached as: filed under the sync's project as a
      catalog entry. As the row's metadata carries its own `updated_at`, the
      time of the sync does not show in it. */
  function RowDoc(project: string, c: CatalogRow): (d: Doc)
    ensures d.id == CatalogId(project, c.docId)
    ensures MatchWhere(d.metadata, ProjectCatalogWhere(project))
    ensures Field(d.metadata, "project") == JStr(project) && Field(d.metadata, "doc_id") == JStr(c.docId)
  {
    var md := RowMetadata(c);
    var base := CatalogBase(c.docId, c.name, c.docType, project, c.phaseTask);
    var m := base + md;
    BaseFields(c.docId, c.name, c.docType, project, c.phaseTask);
    MergeLeft(base, md, "type");
    MergeLeft(base, md, "project");
    MergeLeft(base, md, "doc_id");
    ProjectCatalogWhereMeaning(project, m);
    Doc(CatalogId(project, c.docId), c.name + " " + c.docType + " " + c.phaseTask, m, 0.0)
  }

  lemma {:induction false} BaseFields(docId: string, name: string, docType: string, project: string, phaseTask: string)
    ensures var b := CatalogBase(docId, name, docType, project, phaseTask);
      "type" in b && "project" in b && "doc_id" in b &&
      b["type"] == JStr("catalog") && b["project"] == JStr(project) && b["doc_id"] == JStr(docId)
  {
  }

  /** A key only the left-hand map has keeps its value in the merge. */
  lemma {:induction false} MergeLeft(a: Obj, b: Obj, k: string)
    requires k in a && k !in b
    ensures Field(a + b, k) == a[k]
  {
  }

  /** An entry the right-hand map overrides is invisible in the merge. */
  lemma {:induction false} OverrideHidden(b: Obj, k: string, v: Json, md: Obj)
    requires k in md
    ensures b[k := v] + md == b + md
  {
  }

  /** What `AddRow` stores is `RowDoc`, whatever the current time. */
  lemma {:induction false} RowStored(st: Store, project: string, c: CatalogRow, now: Clock.Instant)
    ensures GetDocument(AddRow(st, project, c, now), CatalogId(project, c.docId)) == Some(RowDoc(project, c))
    ensures forall k :: k != CatalogId(project, c.docId) ==>
      GetDocument(AddRow(st, project, c, now), k) == GetDocument(st, k)
  {
    OverrideHidden(CatalogBase(c.docId, c.name, c.docType, project, c.phaseTask), "updated_at",
                   JStr(Clock.IsoFormat(now)), RowMetadata(c));
  }

  /** The add loop: every parsed row is cached in order and counted. */
  function SyncRows(st: Store, project: string, cs: seq<CatalogRow>, now: Clock.Instant): (r: (Store, nat))
    ensures r.1 == |cs|
    ensures WellFormed(st) ==> WellFormed(r.0)
    decreases |cs|
  {
    if |cs| == 0 then (st, 0)
    else
      var (s, c) := SyncRows(AddRow(st, project, cs[0], now), project, cs[1..], now);
      (s, c + 1)
  }

  datatype SyncResult = SyncResult(success: bool, syncedCount: nat)

  /** `sync_catalog` for a resolved project ("" when none could be resolved),
      the configuration lookup's outcome and the `A:M` values of the
      project's catalog sheet. */
  function SyncCatalog(st: Store, project: string, config: Option<ProjectModel.ProjectConfig>,
                       rows: seq<Row>, now: Clock.Instant): (r: (Store, SyncResult))
    ensures project == "" || config.None? ==> r == (st, SyncResult(false, 0))
    ensures project != "" && config.Some? && |rows| == 0 ==> r == (st, SyncResult(true, 0))
    ensures project != "" && config.Some? && |rows| > 0 ==>
      r.1.success && r.1.syncedCount == |Seqs.Filter(Accepted, rows[StartRow(rows)..])|
    ensures WellFormed(st) ==> WellFormed(r.0)
  {
    if project == "" || config.None? then (st, SyncResult(false, 0))
    else if |rows| == 0 then (st, SyncResult(true, 0))
    else
      var cleared := DeleteCatalogEntriesByProject(st, project).0;
      var (s, count) := SyncRows(cleared, project, ParsedRows(rows[StartRow(rows)..]), now);
      (s, SyncResult(true, count))
  }

  /** The document the last parsed row with cache id `k` caches, if any. */
  function LastRowDoc(project: string, cs: seq<CatalogRow>, k: string): (r: Option<Doc>)
    ensures r.Some? ==> r.value.id == k && MatchWhere(r.value.metadata, ProjectCatalogWhere(project))
    ensures r.None? <==> forall i :: 0 <= i < |cs| ==> CatalogId(project, cs[i].docId) != k
    decreases |cs|
  {
    if |cs| == 0 then None
    else
      var later := LastRowDoc(project, cs[1..], k);
      assert forall i :: 1 <= i < |cs| ==> cs[i] == cs[1..][i - 1];
      if later.Some? then later
      else if CatalogId(project, cs[0].docId) == k then Some(RowDoc(project, cs[0]))
      else None
  }

  /** After the add loop, an id some parsed row caches holds the last such
      row's document; every other id is as before. */
  lemma {:induction false} SyncRowsEffect(st: Store, project: string, cs: seq<CatalogRow>, now: Clock.Instant,
                                          k: string)
    ensures GetDocument(SyncRows(st, project, cs, now).0, k) ==
      (if LastRowDoc(project, cs, k).Some? then LastRowDoc(project, cs, k) else GetDocument(st, k))
    decreases |cs|
  {
    if |cs| > 0 {
      var s1 := AddRow(st, project, cs[0], now);
      SyncRowsEffect(s1, project, cs[1..], now, k);
      RowStored(st, project, cs[0], now);
    }
  }

  /** The project's cached catalog entry under id `k`, if any. */
  function ScopedAt(st: Store, project: string, k: string): Option<Doc> {
    match GetDocument(st, k)
    case Some(d) => if MatchWhere(d.metadata, ProjectCatalogWhere(project)) then Some(d) else None
    case None => None
  }

  /** The project-scoped cache contents: id to document, for every cached
      document tagged with the project as a catalog entry. */
  function Scoped(st: Store, project: string): (m: map<string, Doc>)
    ensures forall k :: ScopedAt(st, project, k).Some? <==> k in m
    ensures forall k :: k in m ==> ScopedAt(st, project, k) == Some(m[k])
  {
    map k | k in Dict.Keys(st) && ScopedAt(st, project, k).Some? :: ScopedAt(st, project, k).value
  }

  /** Stores that agree id by id on the project's entries have the same
      project-scoped contents. */
  lemma {:induction false} ScopedExt(a: Store, b: Store, project: string)
    requires forall k :: ScopedAt(a, project, k) == ScopedAt(b, project, k)
    ensures Scoped(a, project) == Scoped(b, project)
  {
    var ma := Scoped(a, project);
    var mb := Scoped(b, project);
    assert forall k :: k in ma <==> k in mb;
    assert forall k :: k in ma ==> ma[k] == mb[k];
  }

  /** A sync over a non-empty sheet of a store holding at most 1000 of the
      project's entries leaves exactly the last accepted row per id. */
  lemma {:induction false} SyncRebuilds(st: Store, project: string, config: Option<ProjectModel.ProjectConfig>,
                                        rows: seq<Row>, now: Clock.Instant, k: string)
    requires WellFormed(st) && |Matching(Docs(st), ProjectCatalogWhere(project))| <= 1000
    requires project != "" && config.Some? && |rows| > 0
    ensures ScopedAt(SyncCatalog(st, project, config, rows, now).0, project, k)
            == LastRowDoc(project, ParsedRows(rows[StartRow(rows)..]), k)
  {
    var cleared := DeleteCatalogEntriesByProject(st, project).0;
    DeleteCatalogEntriesEffect(st, project, k);
    SyncRowsEffect(cleared, project, ParsedRows(rows[StartRow(rows)..]), now, k);
  }

  /** Whatever the store, a sync of a non-empty sheet only adds the rows'
      documents on top of what the clear left of the project's entries. */
  lemma {:induction false} SyncOver(st: Store, project: string, config: Option<ProjectModel.ProjectConfig>,
                 rows: seq<Row>, now: Clock.Instant, k: string)
    requires project != "" && config.Some? && |rows| > 0
    ensures var after := ScopedAt(SyncCatalog(st, project, config, rows, now).0, project, k);
      var last := LastRowDoc(project, ParsedRows(rows[StartRow(rows)..]), k);
      after == last || (last.None? && (after.None? || after == ScopedAt(st, project, k)))
  {
    var cleared := DeleteCatalogEntriesByProject(st, project).0;
    SyncRowsEffect(cleared, project, ParsedRows(rows[StartRow(rows)..]), now, k);
  }

  /** Syncing an unchanged sheet a second time, at any later time, leaves
      the project-scoped cache contents as the first sync left them. */
  lemma {:induction false} SyncIdempotent(st: Store, project: string, config: Option<ProjectModel.ProjectConfig>,
                       rows: seq<Row>, now1: Clock.Instant, now2: Clock.Instant)
    requires WellFormed(st) && |Matching(Docs(st), ProjectCatalogWhere(project))| <= 1000
    requires project != "" && config.Some?
    ensures var once := SyncCatalog(st, project, config, rows, now1).0;
      Scoped(SyncCatalog(once, project, config, rows, now2).0, project) == Scoped(once, project)
  {
    var once := SyncCatalog(st, project, config, rows, now1).0;
    var twice := SyncCatalog(once, project, config, rows, now2).0;
    if |rows| > 0 {
      forall k ensures ScopedAt(twice, project, k) == ScopedAt(once, project, k) {
        SyncRebuilds(st, project, config, rows, now1, k);
        SyncOver(once, project, config, rows, now2, k);
      }
      ScopedExt(twice, once, project);
    }
  }

  /** An empty sheet leaves the cache, the project's entries included, as it was. */
  lemma {:induction false} EmptySheetKeepsCache(st: Store, project: string, config: Option<ProjectModel.ProjectConfig>,
                             now: Clock.Instant)
    requires project != "" && config.Some?
    ensures SyncCatalog(st, project, config, [], now) == (st, SyncResult(true, 0))
    ensures Scoped(SyncCatalog(st, project, config, [], now).0, project) == Scoped(st, project)
  {
  }

  // --------------------------------------------------------------- search

  /** The post-filters of `search_catalog`: feature and reference timing
      when given, and status unless "all", a missing status counting as
      "active". */
  predicate PostFilter(m: Obj, feature: string, referenceTiming: string, status: string) {
    (feature == "" || Field(m, "feature") == JStr(feature)) &&
    (referenceTiming == "" || Field(m, "reference_timing") == JStr(referenceTiming)) &&
    (status == "all" || (if "status" in m then m["status"] else JStr("active")) == JStr(status))
  }

  /** The post-filters as a test on documents. */
  function Keep(feature: string, referenceTiming: string, status: string): Doc -> bool {
    (d: Doc) => PostFilter(d.metadata, feature, referenceTiming, status)
  }

  /** The search behind `search_catalog`: semantic when there is a query,
      metadata-only otherwise, asking for twice the limit. */
  function Candidates(st: Store, query: string, project: string, docType: string, phaseTask: string,
                      limit: int): (r: SearchResult)
    ensures r.success
    ensures forall i :: 0 <= i < |r.documents| ==>
      Field(r.documents[i].metadata, "type") == JStr("catalog")
      && (project == "" || Field(r.documents[i].metadata, "project") == JStr(project))
      && (docType == "" || Field(r.documents[i].metadata, "doc_type") == JStr(docType))
      && (phaseTask == "" || Field(r.documents[i].metadata, "phase_task") == JStr(phaseTask))
  {
    if query != "" then SearchCatalog(st, query, project, docType, phaseTask, limit * 2)
    else SearchByMetadata(st, CatalogWhere(project, docType, phaseTask), limit * 2)
  }

  /** The entry `search_catalog` builds from a cached document's metadata;
      fields it does not read keep the record's defaults. */
  function EntryOf(m: Obj, now: Clock.Instant): (e: CatalogModel.CatalogEntry)
    ensures e.relatedDocs == [] && e.createdBy == "" && e.status == "active"
  {
    CatalogModel.CatalogEntry(
      StrField(m, "doc_id", ""), StrField(m, "name", ""), StrField(m, "source", "Google Docs"),
      StrField(m, "doc_type", ""), StrField(m, "project", ""), StrField(m, "phase_task", ""),
      StrField(m, "feature", ""), StrField(m, "reference_timing", ""), [],
      StrListField(m, "keywords"),
      CatalogModel.UpdatedAt(StrField(m, "updated_at", ""), now), "", "active")
  }

  /** The candidates that pass the post-filters, stopping once `limit` have
      been kept. */
  function Hits(st: Store, query: string, project: string, docType: string, phaseTask: string,
                feature: string, referenceTiming: string, status: string, limit: int): (r: seq<Doc>)
    ensures |r| <= if limit < 1 then 1 else limit
    ensures forall i :: 0 <= i < |r| ==> PostFilter(r[i].metadata, feature, referenceTiming, status)
    ensures forall i :: 0 <= i < |r| ==>
      r[i] in Candidates(st, query, project, docType, phaseTask, limit).documents
    ensures r == Seqs.Prefix(Seqs.Filter(Keep(feature, referenceTiming, status),
                                         Candidates(st, query, project, docType, phaseTask, limit).documents),
                             if limit < 1 then 1 else limit)
  {
    Seqs.FilterUpTo(Keep(feature, referenceTiming, status),
                    Candidates(st, query, project, docType, phaseTask, limit).documents, limit)
  }

  datatype CatalogSearchResult = CatalogSearchResult(
    success: bool, totalCount: int, documents: seq<CatalogModel.CatalogEntry>)

  /** The entries read from a list of documents, in order. */
  function Entries(docs: seq<Doc>, now: Clock.Instant): (r: seq<CatalogModel.CatalogEntry>)
    ensures |r| == |docs|
    ensures forall i :: 0 <= i < |docs| ==> r[i] == EntryOf(docs[i].metadata, now)
  {
    seq(|docs|, i requires 0 <= i < |docs| => EntryOf(docs[i].metadata, now))
  }

  /** `search_catalog` for a resolved project ("" when there is none). */
  function SearchCatalogTool(st: Store, query: string, project: string, docType: string, phaseTask: string,
                             feature: string, referenceTiming: string, status: string, limit: int,
                             now: Clock.Instant): (r: CatalogSearchResult)
    ensures r.success && r.totalCount == |r.documents|
    ensures |r.documents| <= if limit < 1 then 1 else limit
    ensures forall i :: 0 <= i < |r.documents| ==>
      EntryMatches(r.documents[i], project, docType, phaseTask, feature, referenceTiming)
  {
    var hits := Hits(st, query, project, docType, phaseTask, feature, referenceTiming, status, limit);
    HitEntries(st, query, project, docType, phaseTask, feature, referenceTiming, status, limit, now);
    var docs := Entries(hits, now);
    CatalogSearchResult(true, |docs|, docs)
  }

  /** Every hit passes the where-clause and the post-filters, so the entry
      read from it carries the requested field values. */
  lemma HitEntries(st: Store, query: string, project: string, docType: string, phaseTask: string,
                   feature: string, referenceTiming: string, status: string, limit: int, now: Clock.Instant)
    ensures var hits := Hits(st, query, project, docType, phaseTask, feature, referenceTiming, status, limit);
      forall i :: 0 <= i < |hits| ==> EntryMatches(EntryOf(hits[i].metadata, now), project, docType, phaseTask,
                                                   feature, referenceTiming)
  {
    var hits := Hits(st, query, project, docType, phaseTask, feature, referenceTiming, status, limit);
    var cands := Candidates(st, query, project, docType, phaseTask, limit).documents;
    forall i | 0 <= i < |hits|
      ensures EntryMatches(EntryOf(hits[i].metadata, now), project, docType, phaseTask, feature, referenceTiming)
    {
      var k :| 0 <= k < |cands| && cands[k] == hits[i];
      EntryFields(hits[i].metadata, now);
    }
  }

  predicate EntryMatches(e: CatalogModel.CatalogEntry, project: string, docType: string, phaseTask: string,
                         feature: string, referenceTiming: string) {
    (project == "" || e.project == project)
    && (docType == "" || e.docType == docType)
    && (phaseTask == "" || e.phaseTask == phaseTask)
    && (feature == "" || e.feature == feature)
    && (referenceTiming == "" || e.referenceTiming == referenceTiming)
  }

  /** A string metadata value is what the entry's field reads. */
  lemma EntryFields(m: Obj, now: Clock.Instant)
    ensures Field(m, "project").JStr? ==> EntryOf(m, now).project == Field(m, "project").s
    ensures Field(m, "doc_type").JStr? ==> EntryOf(m, now).docType == Field(m, "doc_type").s
    ensures Field(m, "phase_task").JStr? ==> EntryOf(m, now).phaseTask == Field(m, "phase_task").s
    ensures Field(m, "feature").JStr? ==> EntryOf(m, now).feature == Field(m, "feature").s
    ensures Field(m, "reference_timing").JStr? ==>
      EntryOf(m, now).referenceTiming == Field(m, "reference_timing").s
  {
  }
}
