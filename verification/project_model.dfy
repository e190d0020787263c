/** The project configuration record kept in the RAG index, and the small
    result records of the project tools. */
module ProjectModel {
  import opened Wrappers
  import opened Json
  import Clock
  import RagIndex
  import RagClient

  datatype SheetsConfig = SheetsConfig(summary: string, progress: string, catalog: string)
  datatype DriveConfig = DriveConfig(designFolder: string, procedureFolder: string)
  datatype DocsConfig = DocsConfig(templateFolderId: string, defaultTemplate: string)
  datatype ProjectOptions = ProjectOptions(autoSyncCatalog: bool, autoCreateFolders: bool)

  const DefaultSheets := SheetsConfig("サマリ", "進捗", "目録")
  const DefaultDrive := DriveConfig("設計書", "実装手順書")
  const DefaultDocs := DocsConfig("", "")
  const DefaultOptions := ProjectOptions(true, true)

  datatype ProjectConfig = ProjectConfig(
    projectId: string, name: string, spreadsheetId: string, rootFolderId: string,
    description: string, sheets: SheetsConfig, drive: DriveConfig, docs: DocsConfig,
    options: ProjectOptions, createdAt: Clock.Instant, updatedAt: Clock.Instant)

  function SheetsJson(s: SheetsConfig): Json {
    JObj(map["summary" := JStr(s.summary), "progress" := JStr(s.progress), "catalog" := JStr(s.catalog)])
  }

  function DriveJson(d: DriveConfig): Json {
    JObj(map["design_folder" := JStr(d.designFolder), "procedure_folder" := JStr(d.procedureFolder)])
  }

  function DocsJson(d: DocsConfig): Json {
    JObj(map["template_folder_id" := JStr(d.templateFolderId), "default_template" := JStr(d.defaultTemplate)])
  }

  function OptionsJson(o: ProjectOptions): Json {
    JObj(map["auto_sync_catalog" := JBool(o.autoSyncCatalog), "auto_create_folders" := JBool(o.autoCreateFolders)])
  }

  /** `to_rag_document`: the id and content agree with the scheme the RAG
      client saves project configs under. */
  function ToRagDocument(c: ProjectConfig): (d: RagIndex.Doc)
    ensures d.id == RagClient.ProjectDocId(c.projectId)
    ensures d.metadata.Keys == {"type", "project_id", "name", "description", "spreadsheet_id",
                                "root_folder_id", "sheets", "drive", "docs", "options",
                                "created_at", "updated_at"}
  {
    RagIndex.Doc("project:" + c.projectId, c.name + " - " + c.description,
      map["type" := JStr("project_config"), "project_id" := JStr(c.projectId), "name" := JStr(c.name),
          "description" := JStr(c.description), "spreadsheet_id" := JStr(c.spreadsheetId),
          "root_folder_id" := JStr(c.rootFolderId), "sheets" := SheetsJson(c.sheets),
          "drive" := DriveJson(c.drive), "docs" := DocsJson(c.docs), "options" := OptionsJson(c.options),
          "created_at" := JStr(Clock.IsoFormat(c.createdAt)), "updated_at" := JStr(Clock.IsoFormat(c.updatedAt))],
      0.0)
  }

  /** `metadata.get(k, {})` for a nested section. A present value that is not
      an object has no `.get`, so reading it is an error. */
  function Section(m: Obj, k: string): (r: Option<Obj>)
    ensures k !in m ==> r == Some(map[])
    ensures r.Some? && k in m ==> m[k] == JObj(r.value)
  {
    if k !in m then Some(map[]) else if m[k].JObj? then Some(m[k].fields) else None
  }

  /** `m.get(k, default)` for an option flag, read by truthiness. */
  function BoolField(m: Obj, k: string, default: bool): bool {
    if k in m then Truthy(m[k]) else default
  }

  /** A string timestamp is parsed (a malformed one is an error); any other
      value reads as the current time. */
  function Timestamp(m: Obj, k: string, now: Clock.Instant): (r: Option<Clock.Instant>)
    ensures k !in m ==> r == Some(now)
    ensures r.Some? ==> r.value == now || Clock.Valid(r.value)
  {
    if k in m && m[k].JStr? then Clock.ParseIso(m[k].s) else Some(now)
  }

  /** `from_rag_document` applied to a metadata object; `None` where Python
      raises. */
  function FromRagDocument(m: Obj, now: Clock.Instant): (r: Option<ProjectConfig>)
    ensures r.Some? ==> r.value.projectId == StrField(m, "project_id", "")
                        && r.value.name == StrField(m, "name", "")
    ensures r.Some? && "sheets" !in m ==> r.value.sheets == DefaultSheets
    ensures r.Some? && "drive" !in m ==> r.value.drive == DefaultDrive
    ensures r.Some? && "docs" !in m ==> r.value.docs == DefaultDocs
    ensures r.Some? && "options" !in m ==> r.value.options == DefaultOptions
    ensures r.None? <==>
      Section(m, "sheets").None? || Section(m, "drive").None? || Section(m, "docs").None?
      || Section(m, "options").None? || Timestamp(m, "created_at", now).None?
      || Timestamp(m, "updated_at", now).None?
  {
    var sheets :- Section(m, "sheets");
    var drive :- Section(m, "drive");
    var docs :- Section(m, "docs");
    var options :- Section(m, "options");
    var createdAt :- Timestamp(m, "created_at", now);
    var updatedAt :- Timestamp(m, "updated_at", now);
    Some(ProjectConfig(
      StrField(m, "project_id", ""), StrField(m, "name", ""),
      StrField(m, "spreadsheet_id", ""), StrField(m, "root_folder_id", ""),
      StrField(m, "description", ""),
      ReadSheets(sheets), ReadDrive(drive), ReadDocs(docs), ReadOptions(options),
      createdAt, updatedAt))
  }

  function ReadSheets(s: Obj): SheetsConfig {
    SheetsConfig(StrField(s, "summary", "サマリ"), StrField(s, "progress", "進捗"), StrField(s, "catalog", "目録"))
  }

  function ReadDrive(d: Obj): DriveConfig {
    DriveConfig(StrField(d, "design_folder", "設計書"), StrField(d, "procedure_folder", "実装手順書"))
  }

  function ReadDocs(d: Obj): DocsConfig {
    DocsConfig(StrField(d, "template_folder_id", ""), StrField(d, "default_template", ""))
  }

  function ReadOptions(o: Obj): ProjectOptions {
    ProjectOptions(BoolField(o, "auto_sync_catalog", true), BoolField(o, "auto_create_folders", true))
  }

  /** The record read back from its own document is the record itself,
      whatever the current time. */
  lemma {:induction false} ProjectRoundTrip(c: ProjectConfig, now: Clock.Instant)
    requires Clock.Valid(c.createdAt) && Clock.Valid(c.updatedAt)
    ensures FromRagDocument(ToRagDocument(c).metadata, now) == Some(c)
  {
    var m := ToRagDocument(c).metadata;
    ScalarFields(c);
    SectionsRead(c);
    SectionsDecode(c);
    TimestampsRead(c, now);
    FromParts(m, now, SheetsJson(c.sheets).fields, DriveJson(c.drive).fields, DocsJson(c.docs).fields,
              OptionsJson(c.options).fields, c.createdAt, c.updatedAt);
  }

  lemma {:induction false} SectionsRead(c: ProjectConfig)
    ensures var m := ToRagDocument(c).metadata;
      Section(m, "sheets") == Some(SheetsJson(c.sheets).fields)
      && Section(m, "drive") == Some(DriveJson(c.drive).fields)
      && Section(m, "docs") == Some(DocsJson(c.docs).fields)
      && Section(m, "options") == Some(OptionsJson(c.options).fields)
  {
    SectionFields(c);
  }

  /** Each nested section reads back as the sub-record it was written from. */
  lemma SectionsDecode(c: ProjectConfig)
    ensures ReadSheets(SheetsJson(c.sheets).fields) == c.sheets
    ensures ReadDrive(DriveJson(c.drive).fields) == c.drive
    ensures ReadDocs(DocsJson(c.docs).fields) == c.docs
    ensures ReadOptions(OptionsJson(c.options).fields) == c.options
  {
    var sh := SheetsJson(c.sheets).fields;
    assert StrField(sh, "summary", "サマリ") == c.sheets.summary;
    assert StrField(sh, "progress", "進捗") == c.sheets.progress;
    assert StrField(sh, "catalog", "目録") == c.sheets.catalog;
  }

  lemma {:induction false} TimestampsRead(c: ProjectConfig, now: Clock.Instant)
    requires Clock.Valid(c.createdAt) && Clock.Valid(c.updatedAt)
    ensures var m := ToRagDocument(c).metadata;
      Timestamp(m, "created_at", now) == Some(c.createdAt)
      && Timestamp(m, "updated_at", now) == Some(c.updatedAt)
  {
    ScalarFields(c);
    Clock.IsoRoundTrip(c.createdAt);
    Clock.IsoRoundTrip(c.updatedAt);
  }

  /** `FromRagDocument` once its sections and timestamps are known. */
  lemma {:induction false} FromParts(m: Obj, now: Clock.Instant, sheets: Obj, drive: Obj, docs: Obj, options: Obj,
                  createdAt: Clock.Instant, updatedAt: Clock.Instant)
    requires Section(m, "sheets") == Some(sheets) && Section(m, "drive") == Some(drive)
    requires Section(m, "docs") == Some(docs) && Section(m, "options") == Some(options)
    requires Timestamp(m, "created_at", now) == Some(createdAt)
    requires Timestamp(m, "updated_at", now) == Some(updatedAt)
    ensures FromRagDocument(m, now) == Some(ProjectConfig(
      StrField(m, "project_id", ""), StrField(m, "name", ""),
      StrField(m, "spreadsheet_id", ""), StrField(m, "root_folder_id", ""),
      StrField(m, "description", ""),
      ReadSheets(sheets), ReadDrive(drive), ReadDocs(docs), ReadOptions(options),
      createdAt, updatedAt))
  {
  }

  lemma {:induction false} ScalarFields(c: ProjectConfig)
    ensures var m := ToRagDocument(c).metadata;
      StrField(m, "project_id", "") == c.projectId && StrField(m, "name", "") == c.name
      && StrField(m, "spreadsheet_id", "") == c.spreadsheetId
      && StrField(m, "root_folder_id", "") == c.rootFolderId
      && StrField(m, "description", "") == c.description
      && m["created_at"] == JStr(Clock.IsoFormat(c.createdAt))
      && m["updated_at"] == JStr(Clock.IsoFormat(c.updatedAt))
  {
  }

  lemma {:induction false} SectionFields(c: ProjectConfig)
    ensures var m := ToRagDocument(c).metadata;
      m["sheets"] == SheetsJson(c.sheets) && m["drive"] == DriveJson(c.drive)
      && m["docs"] == DocsJson(c.docs) && m["options"] == OptionsJson(c.options)
  {
  }

  /** A metadata object with none of the nested sections and no timestamps
      reads as the defaults, stamped with the current time. */
  lemma {:induction false} ProjectDefaults(m: Obj, now: Clock.Instant)
    requires "sheets" !in m && "drive" !in m && "docs" !in m && "options" !in m
    requires "created_at" !in m && "updated_at" !in m
    ensures FromRagDocument(m, now).Some?
    ensures var c := FromRagDocument(m, now).value;
      c.sheets == DefaultSheets && c.drive == DefaultDrive && c.docs == DefaultDocs
      && c.options == DefaultOptions && c.createdAt == now && c.updatedAt == now
  {
  }

  // -------------------------------------------------------- setup results

  /** `int(x)`: truncation toward zero. */
  function Trunc(x: real): (r: int)
    ensures x >= 0.0 ==> r >= 0 && r as real <= x < r as real + 1.0
    ensures x < 0.0 ==> r <= 0 && r as real - 1.0 < x <= r as real
  {
    if x >= 0.0 then x.Floor else -((-x).Floor)
  }

  datatype SimilarProject = SimilarProject(projectId: string, name: string, description: string, similarity: real)

  /** `similarity_percent`: the similarity as a truncated percentage. */
  function SimilarityPercent(p: SimilarProject): (r: int)
    ensures 0.0 <= p.similarity <= 1.0 ==> 0 <= r <= 100
    ensures p.similarity >= 0.0 ==> r as real <= p.similarity * 100.0 < r as real + 1.0
  {
    Trunc(p.similarity * 100.0)
  }

  datatype SetupProjectResult = SetupProjectResult(
    success: bool, projectId: string, name: string, spreadsheetId: string, rootFolderId: string,
    requiresConfirmation: bool, duplicateId: bool, duplicateName: string,
    similarProjects: seq<SimilarProject>)

  /** A failed result carrying only the project id. */
  function SetupFailure(projectId: string): SetupProjectResult {
    SetupProjectResult(false, projectId, "", "", "", false, false, "", [])
  }

  predicate HasWarnings(r: SetupProjectResult) {
    r.duplicateName != "" || |r.similarProjects| > 0
  }
}
