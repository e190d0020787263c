/** The project tools over the two-tier registry: registration with its
    duplicate and similarity gates, switching, listing, updating, deleting
    and reading a project's configuration. Sheet templates and Drive folders
    a registration creates are side effects outside the registry and are not
    modelled here; Drive reconciliation is in DriveSync. */
module ProjectTools {
  import opened Wrappers
  import opened Json
  import opened Strings
  import Clock
  import Dict
  import Seqs
  import RagIndex
  import RagClient
  import ProjectModel
  import opened ProjectRegistry

  /** `user or self.user_name`. */
  function Who(user: string, defaultUser: string): string {
    if user != "" then user else defaultUser
  }

  // ------------------------------------------------------------- setup

  /** The folder and spreadsheet Drive created in auto-creation mode. */
  datatype DriveCreated = DriveCreated(folderId: string, spreadsheetId: string)

  datatype SetupRequest = SetupRequest(
    project: string, name: string, spreadsheetId: string, rootFolderId: string, description: string,
    force: bool, threshold: real, user: string)

  /** The (spreadsheet, root folder) ids a registration uses: both given,
      or, when neither is given and a projects folder is configured, the
      ones Drive created (`None` in `created` when creation raised). */
  function ResolveIds(spreadsheetId: string, rootFolderId: string, projectsFolderId: string,
                      created: Option<DriveCreated>): (r: Option<(string, string)>)
    ensures r.Some? ==> r.value.0 != "" && r.value.1 != ""
    ensures spreadsheetId != "" && rootFolderId != "" ==> r == Some((spreadsheetId, rootFolderId))
    ensures (spreadsheetId == "") != (rootFolderId == "") ==> r.None?
    ensures spreadsheetId == "" && rootFolderId == "" ==>
      (r.Some? <==> projectsFolderId != "" && created.Some?
                    && created.value.spreadsheetId != "" && created.value.folderId != "")
  {
    var (sheet, root) :=
      if spreadsheetId == "" && rootFolderId == "" && projectsFolderId != "" && created.Some? then
        (created.value.spreadsheetId, created.value.folderId)
      else (spreadsheetId, rootFolderId);
    if sheet == "" || root == "" then None else Some((sheet, root))
  }

  /** The position of the first listed project whose stored name is exactly
      `name` (case-sensitive). */
  function FirstNamed(docs: seq<RagIndex.Doc>, name: string): (r: Option<nat>)
    ensures r.Some? ==> r.value < |docs| && Field(docs[r.value].metadata, "name") == JStr(name)
    ensures r.Some? ==> forall i :: 0 <= i < r.value ==> Field(docs[i].metadata, "name") != JStr(name)
    ensures r.None? <==> forall i :: 0 <= i < |docs| ==> Field(docs[i].metadata, "name") != JStr(name)
    decreases |docs|
  {
    if |docs| == 0 then None
    else if Field(docs[0].metadata, "name") == JStr(name) then Some(0)
    else
      var rest := FirstNamed(docs[1..], name);
      assert forall i :: 1 <= i < |docs| ==> docs[i] == docs[1..][i - 1];
      if rest.None? then None else Some(rest.value + 1)
  }

  predicate NamedAt(docs: seq<RagIndex.Doc>, i: int, name: string) {
    0 <= i < |docs| && Field(docs[i].metadata, "name") == JStr(name)
  }

  /** `duplicate_name`: the project id of the first listed project with the
      same name, or "" when there is none. The scan stops at the first
      match even when that project has no id. */
  function NameClash(docs: seq<RagIndex.Doc>, name: string): (r: string)
    ensures r != "" ==> exists i :: NamedAt(docs, i, name) && RagClient.ProjectIdOf(docs[i]) == r
    ensures (forall i :: 0 <= i < |docs| ==> Field(docs[i].metadata, "name") != JStr(name)) ==> r == ""
  {
    match FirstNamed(docs, name)
    case None => ""
    case Some(i) => RagClient.ProjectIdOf(docs[i])
  }

  /** Step 3: similar projects are looked up only in a working RAG, and only
      for a non-empty name or description. */
  function SimilarDocs(reg: Registry, name: string, description: string, threshold: real, project: string)
    : (r: seq<RagIndex.Doc>)
    ensures reg.ragState != Up || (name == "" && description == "") ==> r == []
    ensures forall i :: 0 <= i < |r| ==> r[i].score >= threshold
    ensures project != "" ==> forall i :: 0 <= i < |r| ==> RagClient.ProjectIdOf(r[i]) != project
  {
    if reg.ragState == Up && (description != "" || name != "") then
      RagClient.FindSimilarProjects(reg.rag, name, description, threshold, project)
    else []
  }

  function ToSimilar(d: RagIndex.Doc): ProjectModel.SimilarProject {
    ProjectModel.SimilarProject(RagClient.ProjectIdOf(d), StrField(d.metadata, "name", ""),
                                StrField(d.metadata, "description", ""), d.score)
  }

  function Similar(docs: seq<RagIndex.Doc>): (r: seq<ProjectModel.SimilarProject>)
    ensures |r| == |docs|
    ensures forall i :: 0 <= i < |r| ==>
      r[i].projectId == RagClient.ProjectIdOf(docs[i]) && r[i].similarity == docs[i].score
  {
    seq(|docs|, i requires 0 <= i < |docs| => ToSimilar(docs[i]))
  }

  /** The configuration data a new project is saved with: its ids, the
      default sheet, folder and option settings, and the creation time. */
  function NewConfigData(spreadsheetId: string, rootFolderId: string, now: Clock.Instant): (m: Obj)
    ensures "spreadsheet_id" in m && m["spreadsheet_id"] == JStr(spreadsheetId)
    ensures "root_folder_id" in m && m["root_folder_id"] == JStr(rootFolderId)
    ensures "name" !in m && "project_id" !in m && "description" !in m && "updated_at" !in m
  {
    map["spreadsheet_id" := JStr(spreadsheetId), "root_folder_id" := JStr(rootFolderId),
        "sheets" := ProjectModel.SheetsJson(ProjectModel.DefaultSheets),
        "drive" := ProjectModel.DriveJson(ProjectModel.DefaultDrive),
        "options" := ProjectModel.OptionsJson(ProjectModel.DefaultOptions),
        "created_at" := JStr(Clock.IsoFormat(now))]
  }

  /** Whether registration gets past the duplicate and similarity gates. */
  predicate Admitted(reg: Registry, q: SetupRequest) {
    GetConfig(reg, q.project).None? && NameClash(ListConfigs(reg), q.name) == ""
    && (q.force || SimilarDocs(reg, q.name, q.description, q.threshold, q.project) == [])
  }

  /** `setup_project`. The gates run in order: missing ids, a duplicate id,
      a duplicate name (which `force` does not bypass), then similar
      projects (which only `force` bypasses). Only a registration through
      every gate writes anything. */
  function SetupProject(reg: Registry, defaultUser: string, projectsFolderId: string, q: SetupRequest,
                        created: Option<DriveCreated>, now: Clock.Instant)
    : (r: (Registry, ProjectModel.SetupProjectResult))
    ensures !r.1.success ==> r.0 == reg
    ensures r.1.projectId == q.project
    ensures ResolveIds(q.spreadsheetId, q.rootFolderId, projectsFolderId, created).None? ==>
      r.1 == ProjectModel.SetupFailure(q.project)
    ensures ResolveIds(q.spreadsheetId, q.rootFolderId, projectsFolderId, created).Some?
            && GetConfig(reg, q.project).Some? ==>
      !r.1.success && r.1.duplicateId && r.1.duplicateName == "" && r.1.similarProjects == []
    ensures ResolveIds(q.spreadsheetId, q.rootFolderId, projectsFolderId, created).Some?
            && GetConfig(reg, q.project).None? && NameClash(ListConfigs(reg), q.name) != "" ==>
      !r.1.success && !r.1.duplicateId && r.1.duplicateName == NameClash(ListConfigs(reg), q.name)
    ensures ResolveIds(q.spreadsheetId, q.rootFolderId, projectsFolderId, created).Some?
            && GetConfig(reg, q.project).None? && NameClash(ListConfigs(reg), q.name) == "" && !q.force
            && SimilarDocs(reg, q.name, q.description, q.threshold, q.project) != [] ==>
      !r.1.success && r.1.requiresConfirmation
      && r.1.similarProjects == Similar(SimilarDocs(reg, q.name, q.description, q.threshold, q.project))
    ensures r.1.success <==>
      ResolveIds(q.spreadsheetId, q.rootFolderId, projectsFolderId, created).Some? && Admitted(reg, q)
    ensures r.1.success ==>
      !r.1.duplicateId && r.1.duplicateName == "" && r.1.similarProjects == [] && !r.1.requiresConfirmation
      && (r.1.spreadsheetId, r.1.rootFolderId)
         == ResolveIds(q.spreadsheetId, q.rootFolderId, projectsFolderId, created).value
      && GetConfig(r.0, q.project).Some?
      && GetCurrent(r.0, Who(q.user, defaultUser)) == Some(q.project)
  {
    match ResolveIds(q.spreadsheetId, q.rootFolderId, projectsFolderId, created)
    case None => (reg, ProjectModel.SetupFailure(q.project))
    case Some((sheet, root)) =>
      if GetConfig(reg, q.project).Some? then
        (reg, ProjectModel.SetupFailure(q.project).(duplicateId := true))
      else if NameClash(ListConfigs(reg), q.name) != "" then
        (reg, ProjectModel.SetupFailure(q.project).(duplicateName := NameClash(ListConfigs(reg), q.name)))
      else
        var similar := SimilarDocs(reg, q.name, q.description, q.threshold, q.project);
        if !q.force && |similar| > 0 then
          (reg, ProjectModel.SetupProjectResult(false, q.project, q.name, "", "", true, false, "", Similar(similar)))
        else
          var (saved, _) := SaveConfig(reg, q.project, q.name, q.description, NewConfigData(sheet, root, now), now);
          var after := SetCurrent(saved, Who(q.user, defaultUser), q.project, now);
          (after, ProjectModel.SetupProjectResult(true, q.project, q.name, sheet, root, false, false, "", []))
  }

  /** `has_warnings` of a registration result holds exactly when the name
      gate or the similarity gate stopped it; a successful registration
      never carries warnings. */
  lemma SetupWarnings(reg: Registry, defaultUser: string, projectsFolderId: string, q: SetupRequest,
                      created: Option<DriveCreated>, now: Clock.Instant)
    ensures var r := SetupProject(reg, defaultUser, projectsFolderId, q, created, now).1;
      ProjectModel.HasWarnings(r)
      <==> ResolveIds(q.spreadsheetId, q.rootFolderId, projectsFolderId, created).Some?
           && GetConfig(reg, q.project).None?
           && (NameClash(ListConfigs(reg), q.name) != ""
               || (!q.force && SimilarDocs(reg, q.name, q.description, q.threshold, q.project) != []))
  {
  }

  /** A registration that succeeds is read back by `get_project_config`
      with the given name and description, the resolved ids and the default
      sheet, folder and option settings. */
  lemma {:induction false} SetupThenConfig(reg: Registry, defaultUser: string, projectsFolderId: string, q: SetupRequest,
                        created: Option<DriveCreated>, now: Clock.Instant, later: Clock.Instant)
    requires Clock.Valid(now)
    requires SetupProject(reg, defaultUser, projectsFolderId, q, created, now).1.success
    ensures var r := SetupProject(reg, defaultUser, projectsFolderId, q, created, now);
      var c := GetProjectConfig(r.0, defaultUser, Some(q.project), q.user, later);
      c.Some? && c.value.projectId == q.project && c.value.name == q.name
      && c.value.description == q.description
      && c.value.spreadsheetId == r.1.spreadsheetId && c.value.rootFolderId == r.1.rootFolderId
      && c.value.sheets == ProjectModel.DefaultSheets && c.value.drive == ProjectModel.DefaultDrive
      && c.value.options == ProjectModel.DefaultOptions && c.value.createdAt == now
  {
    var r := SetupProject(reg, defaultUser, projectsFolderId, q, created, now);
    var ids := ResolveIds(q.spreadsheetId, q.rootFolderId, projectsFolderId, created).value;
    var data := NewConfigData(ids.0, ids.1, now);
    var saved := SaveConfig(reg, q.project, q.name, q.description, data, now).0;
    assert GetConfig(r.0, q.project) == GetConfig(saved, q.project);
    StoredConfigRead(GetConfig(saved, q.project).value.metadata, q.project, q.name, q.description,
                     ids.0, ids.1, now, later);
  }

  /** Reading back the metadata a new project is stored with, in either tier. */
  lemma {:induction false} StoredConfigRead(m: Obj, project: string, name: string, description: string, sheet: string, root: string,
                         now: Clock.Instant, later: Clock.Instant)
    requires Clock.Valid(now)
    requires StoredFrom(m, project, name, description, NewConfigData(sheet, root, now), now)
    ensures var c := ProjectModel.FromRagDocument(m, later);
      c.Some? && c.value.projectId == project && c.value.name == name && c.value.description == description
      && c.value.spreadsheetId == sheet && c.value.rootFolderId == root
      && c.value.sheets == ProjectModel.DefaultSheets && c.value.drive == ProjectModel.DefaultDrive
      && c.value.options == ProjectModel.DefaultOptions && c.value.createdAt == now
  {
    var sheets := ProjectModel.SheetsJson(ProjectModel.DefaultSheets).fields;
    var drive := ProjectModel.DriveJson(ProjectModel.DefaultDrive).fields;
    var options := ProjectModel.OptionsJson(ProjectModel.DefaultOptions).fields;
    NewConfigSections(m, project, name, description, sheet, root, now);
    NewConfigStamps(m, project, name, description, sheet, root, now, later);
    NewConfigScalars(m, project, name, description, sheet, root, now);
    DefaultsDecode(now);
    ProjectModel.FromParts(m, later, sheets, drive, map[], options, now, now);
  }

  /** The nested sections of a new project read as the default settings. */
  lemma {:induction false} DefaultsDecode(now: Clock.Instant)
    ensures ProjectModel.ReadSheets(ProjectModel.SheetsJson(ProjectModel.DefaultSheets).fields)
            == ProjectModel.DefaultSheets
    ensures ProjectModel.ReadDrive(ProjectModel.DriveJson(ProjectModel.DefaultDrive).fields)
            == ProjectModel.DefaultDrive
    ensures ProjectModel.ReadOptions(ProjectModel.OptionsJson(ProjectModel.DefaultOptions).fields)
            == ProjectModel.DefaultOptions
  {
    ProjectModel.SectionsDecode(ProjectModel.ProjectConfig(
      "", "", "", "", "", ProjectModel.DefaultSheets, ProjectModel.DefaultDrive, ProjectModel.DefaultDocs,
      ProjectModel.DefaultOptions, now, now));
  }

  lemma {:induction false} NewConfigSections(m: Obj, project: string, name: string, description: string, sheet: string,
                                             root: string, now: Clock.Instant)
    requires StoredFrom(m, project, name, description, NewConfigData(sheet, root, now), now)
    ensures ProjectModel.Section(m, "docs") == Some(map[])
    ensures ProjectModel.Section(m, "sheets") == Some(ProjectModel.SheetsJson(ProjectModel.DefaultSheets).fields)
    ensures ProjectModel.Section(m, "drive") == Some(ProjectModel.DriveJson(ProjectModel.DefaultDrive).fields)
    ensures ProjectModel.Section(m, "options") == Some(ProjectModel.OptionsJson(ProjectModel.DefaultOptions).fields)
  {
    var data := NewConfigData(sheet, root, now);
    assert "docs" !in data && "docs" !in BaseKeys;
    assert "sheets" in data && "drive" in data && "options" in data;
  }

  lemma {:induction false} NewConfigStamps(m: Obj, project: string, name: string, description: string, sheet: string,
                                           root: string, now: Clock.Instant, later: Clock.Instant)
    requires Clock.Valid(now)
    requires StoredFrom(m, project, name, description, NewConfigData(sheet, root, now), now)
    ensures ProjectModel.Timestamp(m, "created_at", later) == Some(now)
    ensures ProjectModel.Timestamp(m, "updated_at", later) == Some(now)
  {
    var data := NewConfigData(sheet, root, now);
    assert "created_at" in data;
    assert m["created_at"] == JStr(Clock.IsoFormat(now));
    assert Field(m, "updated_at") == JStr(Clock.IsoFormat(now));
    Clock.IsoRoundTrip(now);
  }

  lemma {:induction false} NewConfigScalars(m: Obj, project: string, name: string, description: string, sheet: string,
                                            root: string, now: Clock.Instant)
    requires StoredFrom(m, project, name, description, NewConfigData(sheet, root, now), now)
    ensures StrField(m, "project_id", "") == project && StrField(m, "name", "") == name
    ensures StrField(m, "description", "") == description
    ensures StrField(m, "spreadsheet_id", "") == sheet && StrField(m, "root_folder_id", "") == root
  {
  }

  // ------------------------------------------------------------ switch

  datatype SwitchResult = SwitchResult(success: bool, projectId: string, name: string)

  /** `switch_project`: only a known project becomes current; its display
      name falls back to the id. */
  function SwitchProject(reg: Registry, defaultUser: string, project: string, user: string, now: Clock.Instant)
    : (r: (Registry, SwitchResult))
    ensures GetConfig(reg, project).None? ==> r == (reg, SwitchResult(false, project, ""))
    ensures GetConfig(reg, project).Some? ==>
      r.1.success && r.1.name == StrField(GetConfig(reg, project).value.metadata, "name", project)
      && GetCurrent(r.0, Who(user, defaultUser)) == Some(project)
    ensures forall u :: u != Who(user, defaultUser) ==> GetCurrent(r.0, u) == GetCurrent(reg, u)
    ensures forall p :: GetConfig(r.0, p) == GetConfig(reg, p)
  {
    match GetConfig(reg, project)
    case None => (reg, SwitchResult(false, project, ""))
    case Some(doc) =>
      (SetCurrent(reg, Who(user, defaultUser), project, now),
       SwitchResult(true, project, StrField(doc.metadata, "name", project)))
  }

  // -------------------------------------------------------------- list

  datatype ProjectSummary = ProjectSummary(projectId: string, name: string, description: string,
                                           updatedAt: Clock.Instant)

  /** A listed configuration as a summary; a missing or unparseable
      `updated_at` reads as the current time. */
  function Summarize(d: RagIndex.Doc, now: Clock.Instant): (s: ProjectSummary)
    ensures s.projectId == RagClient.ProjectIdOf(d)
  {
    var stamp := StrField(d.metadata, "updated_at", "");
    var parsed := if stamp == "" then None else Clock.ParseIso(stamp);
    ProjectSummary(RagClient.ProjectIdOf(d), StrField(d.metadata, "name", ""),
                   StrField(d.metadata, "description", ""), if parsed.Some? then parsed.value else now)
  }

  predicate NewestFirst(xs: seq<ProjectSummary>) {
    forall i, j :: 0 <= i < j < |xs| ==> Clock.Micros(xs[i].updatedAt) >= Clock.Micros(xs[j].updatedAt)
  }

  /** Where `x` goes in a newest-first list: after every summary at least
      as recent, so equal times keep their order (the sort is stable). */
  function NewestPos(xs: seq<ProjectSummary>, x: ProjectSummary): (k: nat)
    ensures k <= |xs|
    ensures forall i :: 0 <= i < k ==> Clock.Micros(xs[i].updatedAt) >= Clock.Micros(x.updatedAt)
    ensures k < |xs| ==> Clock.Micros(xs[k].updatedAt) < Clock.Micros(x.updatedAt)
  {
    if |xs| == 0 || Clock.Micros(xs[0].updatedAt) < Clock.Micros(x.updatedAt) then 0
    else 1 + NewestPos(xs[1..], x)
  }

  /** `x` placed into a newest-first list, which stays newest first. */
  function InsertNewest(xs: seq<ProjectSummary>, x: ProjectSummary): (r: seq<ProjectSummary>)
    requires NewestFirst(xs)
    ensures NewestFirst(r)
    ensures multiset(r) == multiset(xs) + multiset{x}
  {
    var k := NewestPos(xs, x);
    InsertNewestSorted(xs, x, k);
    Seqs.InsertAt(xs, x, k);
    xs[..k] + [x] + xs[k..]
  }

  lemma {:induction false} InsertNewestSorted(xs: seq<ProjectSummary>, x: ProjectSummary, k: nat)
    requires NewestFirst(xs) && k <= |xs|
    requires forall i :: 0 <= i < k ==> Clock.Micros(xs[i].updatedAt) >= Clock.Micros(x.updatedAt)
    requires k < |xs| ==> Clock.Micros(xs[k].updatedAt) < Clock.Micros(x.updatedAt)
    ensures NewestFirst(xs[..k] + [x] + xs[k..])
  {
    var r := xs[..k] + [x] + xs[k..];
    forall i, j | 0 <= i < j < |r|
      ensures Clock.Micros(r[i].updatedAt) >= Clock.Micros(r[j].updatedAt)
    {
      if j < k {
        assert r[i] == xs[i] && r[j] == xs[j];
      } else if j == k {
        assert r[j] == x && r[i] == xs[i];
      } else if i < k {
        assert r[i] == xs[i] && r[j] == xs[j - 1];
      } else if i == k {
        assert r[i] == x && r[j] == xs[j - 1];
        assert Clock.Micros(xs[k].updatedAt) >= Clock.Micros(xs[j - 1].updatedAt);
      } else {
        assert r[i] == xs[i - 1] && r[j] == xs[j - 1];
      }
    }
  }

  /** `sort(key=updated_at, reverse=True)`: a permutation, newest first. */
  function SortNewest(xs: seq<ProjectSummary>): (r: seq<ProjectSummary>)
    ensures NewestFirst(r)
    ensures multiset(r) == multiset(xs)
    ensures forall t :: StampedAt(r, t) == StampedAt(xs, t)
  {
    if |xs| == 0 then []
    else
      var front, last := xs[..|xs| - 1], xs[|xs| - 1];
      assert xs == front + [last];
      var sorted := SortNewest(front);
      forall t
        ensures StampedAt(InsertNewest(sorted, last), t) == StampedAt(xs, t)
      {
        InsertNewestStable(sorted, last, t);
        StampedConcat(front, [last], t);
      }
      InsertNewest(sorted, last)
  }

  /** The summaries stamped at the instant `t` (in microseconds), in list
      order. A sort is stable when it keeps this list for every `t`. */
  function StampedAt(xs: seq<ProjectSummary>, t: int): seq<ProjectSummary> {
    Seqs.Filter((s: ProjectSummary) => Clock.Micros(s.updatedAt) == t, xs)
  }

  lemma {:induction false} StampedConcat(a: seq<ProjectSummary>, b: seq<ProjectSummary>, t: int)
    ensures StampedAt(a + b, t) == StampedAt(a, t) + StampedAt(b, t)
  {
    Seqs.FilterConcat((s: ProjectSummary) => Clock.Micros(s.updatedAt) == t, a, b);
  }

  /** Inserting after every summary at least as new keeps summaries with
      equal stamps in the order they arrived. */
  lemma {:induction false} InsertNewestStable(xs: seq<ProjectSummary>, x: ProjectSummary, t: int)
    requires NewestFirst(xs)
    ensures StampedAt(InsertNewest(xs, x), t) == StampedAt(xs, t) + StampedAt([x], t)
  {
    var k := NewestPos(xs, x);
    assert InsertNewest(xs, x) == xs[..k] + [x] + xs[k..];
    assert xs == xs[..k] + xs[k..];
    if Clock.Micros(x.updatedAt) == t {
      NoneStampedAfter(xs, k, x, t);
    }
    StampedSplice(xs[..k], x, xs[k..], t);
  }

  /** Splicing `x` between two parts moves it past the stamped summaries of
      the second part, which is harmless when that part holds none or `x`
      carries another stamp. */
  lemma {:induction false} StampedSplice(before: seq<ProjectSummary>, x: ProjectSummary, after: seq<ProjectSummary>, t: int)
    requires StampedAt(after, t) == [] || Clock.Micros(x.updatedAt) != t
    ensures StampedAt(before + [x] + after, t) == StampedAt(before + after, t) + StampedAt([x], t)
  {
    assert before + [x] + after == before + ([x] + after);
    StampedConcat(before, [x] + after, t);
    StampedConcat([x], after, t);
    StampedConcat(before, after, t);
    if Clock.Micros(x.updatedAt) != t {
      assert StampedAt([x], t) == [];
    }
  }

  /** Below the insertion point every summary is strictly older than `x`,
      so none shares its stamp. */
  lemma {:induction false} NoneStampedAfter(xs: seq<ProjectSummary>, k: nat, x: ProjectSummary, t: int)
    requires NewestFirst(xs) && k == NewestPos(xs, x) && Clock.Micros(x.updatedAt) == t
    ensures StampedAt(xs[k..], t) == []
  {
    var tail := xs[k..];
    forall i | 0 <= i < |tail|
      ensures Clock.Micros(tail[i].updatedAt) < t
    {
      assert tail[i] == xs[k + i] && (i > 0 ==> Clock.Micros(xs[k + i].updatedAt) <= Clock.Micros(xs[k].updatedAt));
    }
    Seqs.FilterNone((s: ProjectSummary) => Clock.Micros(s.updatedAt) == t, tail);
  }


  function Summaries(docs: seq<RagIndex.Doc>, now: Clock.Instant): (r: seq<ProjectSummary>)
    ensures |r| == |docs|
    ensures forall i :: 0 <= i < |r| ==> r[i] == Summarize(docs[i], now)
  {
    seq(|docs|, i requires 0 <= i < |docs| => Summarize(docs[i], now))
  }

  datatype ListResult = ListResult(success: bool, projects: seq<ProjectSummary>, currentProject: string)

  /** `list_projects`: every merged configuration summarised, newest first,
      with the user's current project ("" when none). */
  function ListProjects(reg: Registry, defaultUser: string, user: string, now: Clock.Instant): (r: ListResult)
    ensures r.success && NewestFirst(r.projects)
    ensures multiset(r.projects) == multiset(Summaries(ListConfigs(reg), now))
    ensures GetCurrent(reg, Who(user, defaultUser)).Some? ==>
      r.currentProject == GetCurrent(reg, Who(user, defaultUser)).value
    ensures GetCurrent(reg, Who(user, defaultUser)).None? ==> r.currentProject == ""
  {
    var summaries := Summaries(ListConfigs(reg), now);
    var current := GetCurrent(reg, Who(user, defaultUser));
    ListResult(true, SortNewest(summaries), if current.Some? then current.value else "")
  }

  // ------------------------------------------------------------ update

  datatype UpdateRequest = UpdateRequest(
    name: Option<string>, description: Option<string>, spreadsheetId: Option<string>,
    rootFolderId: Option<string>, status: Option<string>, categories: Option<seq<string>>,
    phases: Option<seq<string>>, template: Option<string>)

  function Str(v: Option<string>): Option<Json> {
    if v.Some? then Some(JStr(v.value)) else None
  }

  function Strs(v: Option<seq<string>>): Option<Json> {
    if v.Some? then Some(StrList(v.value)) else None
  }

  /** The updatable fields in the order they are compared, each with the
      value supplied for it (`None` when not supplied). */
  function Supplied(q: UpdateRequest): (r: seq<(string, Option<Json>)>)
    ensures |r| == 8
  {
    [("name", Str(q.name)), ("description", Str(q.description)), ("spreadsheet_id", Str(q.spreadsheetId)),
     ("root_folder_id", Str(q.rootFolderId)), ("status", Str(q.status)), ("categories", Strs(q.categories)),
     ("phases", Strs(q.phases)), ("template", Str(q.template))]
  }

  /** Supplied and different from what is stored (a missing key never
      equals a supplied value). */
  predicate Changes(meta: Obj, f: (string, Option<Json>)) {
    f.1.Some? && Field(meta, f.0) != f.1.value
  }

  /** `updated_fields`. */
  function ChangedFields(meta: Obj, q: UpdateRequest): (r: seq<string>)
    ensures forall i :: 0 <= i < 8 ==> (Supplied(q)[i].0 in r <==> Changes(meta, Supplied(q)[i]))
    ensures forall k :: k in r ==> k in Keys8(q)
  {
    var fs := Supplied(q);
    var changed := Seqs.Filter((f: (string, Option<Json>)) => Changes(meta, f), fs);
    var r := seq(|changed|, i requires 0 <= i < |changed| => changed[i].0);
    assert forall i :: 0 <= i < 8 ==> (Changes(meta, fs[i]) ==> fs[i] in changed);
    DistinctNames(q, changed, r);
    r
  }

  function Keys8(q: UpdateRequest): seq<string> {
    seq(8, i requires 0 <= i < 8 => Supplied(q)[i].0)
  }

  lemma {:induction false} DistinctNames(q: UpdateRequest, changed: seq<(string, Option<Json>)>, r: seq<string>)
    requires forall j :: 0 <= j < |changed| ==> changed[j] in Supplied(q)
    requires |r| == |changed| && forall j :: 0 <= j < |r| ==> r[j] == changed[j].0
    ensures forall i :: 0 <= i < 8 && Supplied(q)[i].0 in r ==> Supplied(q)[i] in changed
    ensures forall k :: k in r ==> k in Keys8(q)
  {
    var fs := Supplied(q);
    forall i | 0 <= i < 8 && fs[i].0 in r
      ensures fs[i] in changed
    {
      var j :| 0 <= j < |r| && r[j] == fs[i].0;
      assert changed[j] in fs;
      var i2 :| 0 <= i2 < 8 && fs[i2] == changed[j];
      FieldNameUnique(q, i, i2);
    }
    forall k | k in r
      ensures k in Keys8(q)
    {
      var j :| 0 <= j < |r| && r[j] == k;
      assert changed[j] in fs;
      var i :| 0 <= i < 8 && fs[i] == changed[j];
      assert Keys8(q)[i] == k;
    }
  }

  /** No two updatable fields share a name. */
  lemma {:induction false} FieldNameUnique(q: UpdateRequest, i: nat, i2: nat)
    requires i < 8 && i2 < 8 && Supplied(q)[i].0 == Supplied(q)[i2].0
    ensures i == i2
  {
    var fs := Supplied(q);
    assert |fs[i].0| == |fs[i2].0| && fs[i].0[0] == fs[i2].0[0];
  }

  /** The value a field is saved with: the supplied one, else the stored
      one, else the default. */
  function Kept(meta: Obj, f: (string, Option<Json>), default: Json): (v: Json)
    ensures f.1.Some? ==> v == f.1.value
    ensures f.1.None? && f.0 in meta ==> v == meta[f.0]
  {
    if f.1.Some? then f.1.value else if f.0 in meta then meta[f.0] else default
  }

  /** The configuration data an update saves. */
  function UpdatedConfigData(meta: Obj, q: UpdateRequest, now: Clock.Instant): (m: Obj)
    ensures "name" !in m && "description" !in m
  {
    var fs := Supplied(q);
    map["spreadsheet_id" := Kept(meta, fs[2], JStr("")), "root_folder_id" := Kept(meta, fs[3], JStr("")),
        "sheets" := Kept(meta, ("sheets", None), JObj(map[])), "drive" := Kept(meta, ("drive", None), JObj(map[])),
        "options" := Kept(meta, ("options", None), JObj(map[])),
        "created_at" := Kept(meta, ("created_at", None), JStr(Clock.IsoFormat(now))),
        "status" := Kept(meta, fs[4], JStr("active")), "categories" := Kept(meta, fs[5], JList([])),
        "phases" := Kept(meta, fs[6], JList([])), "template" := Kept(meta, fs[7], JStr(""))]
  }

  /** Each updatable field after the name and description is saved with
      the supplied value, else the stored one. */
  lemma {:induction false} UpdatedConfigField(meta: Obj, q: UpdateRequest, now: Clock.Instant, i: nat)
    requires 2 <= i < 8
    ensures var m := UpdatedConfigData(meta, q, now);
      var f := Supplied(q)[i];
      f.0 in m && (f.1.Some? ==> m[f.0] == f.1.value) && (f.1.None? && f.0 in meta ==> m[f.0] == meta[f.0])
  {
    var fs := Supplied(q);
    var m := UpdatedConfigData(meta, q, now);
    if i == 2 {
      assert m["spreadsheet_id"] == Kept(meta, fs[2], JStr(""));
    } else if i == 3 {
      assert m["root_folder_id"] == Kept(meta, fs[3], JStr(""));
    } else if i == 4 {
      assert m["status"] == Kept(meta, fs[4], JStr("active"));
    } else if i == 5 {
      assert m["categories"] == Kept(meta, fs[5], JList([]));
    } else if i == 6 {
      assert m["phases"] == Kept(meta, fs[6], JList([]));
    } else {
      assert m["template"] == Kept(meta, fs[7], JStr(""));
    }
  }

  /** The nested sections and the creation time carry over from the
      stored configuration. */
  lemma {:induction false} UpdatedConfigCarries(meta: Obj, q: UpdateRequest, now: Clock.Instant, k: string)
    requires k == "sheets" || k == "drive" || k == "options" || k == "created_at"
    requires k in meta
    ensures var m := UpdatedConfigData(meta, q, now);
      k in m && m[k] == meta[k]
  {
  }

  datatype UpdateResult = UpdateResult(success: bool, projectId: string, updatedFields: seq<string>)

  /** `update_project`: a field is reported iff it was supplied and differs
      from the stored value; with none, nothing is saved. */
  function UpdateProject(reg: Registry, project: string, q: UpdateRequest, now: Clock.Instant)
    : (r: (Registry, UpdateResult))
    ensures GetConfig(reg, project).None? ==> r == (reg, UpdateResult(false, project, []))
    ensures GetConfig(reg, project).Some? ==> r.1.success
    ensures GetConfig(reg, project).Some? ==> forall i :: 0 <= i < 8 ==>
      (Supplied(q)[i].0 in r.1.updatedFields <==> Changes(GetConfig(reg, project).value.metadata, Supplied(q)[i]))
    ensures r.1.updatedFields == [] ==> r.0 == reg
    ensures forall p :: p != project ==> GetConfig(r.0, p) == GetConfig(reg, p)
    ensures GetConfig(reg, project).Some? ==> GetConfig(r.0, project).Some?
  {
    match GetConfig(reg, project)
    case None => (reg, UpdateResult(false, project, []))
    case Some(doc) =>
      var meta := doc.metadata;
      var changed := ChangedFields(meta, q);
      if changed == [] then (reg, UpdateResult(true, project, []))
      else
        var name := if q.name.Some? then q.name.value else StrField(meta, "name", "");
        var description := if q.description.Some? then q.description.value else StrField(meta, "description", "");
        var (saved, _) := SaveConfig(reg, project, name, description, UpdatedConfigData(meta, q, now), now);
        (saved, UpdateResult(true, project, changed))
  }

  /** After an update that saved, each supplied field holds its new value
      and each field left out keeps the value stored before. */
  lemma {:induction false} UpdateStores(reg: Registry, project: string, q: UpdateRequest, now: Clock.Instant, i: nat)
    requires GetConfig(reg, project).Some?
    requires UpdateProject(reg, project, q, now).1.updatedFields != []
    requires 2 <= i < 8
    ensures var before := GetConfig(reg, project).value.metadata;
      var after := GetConfig(UpdateProject(reg, project, q, now).0, project).value.metadata;
      var f := Supplied(q)[i];
      (f.1.Some? ==> Field(after, f.0) == f.1.value)
      && (f.1.None? && f.0 in before ==> Field(after, f.0) == before[f.0])
  {
    var meta := GetConfig(reg, project).value.metadata;
    var data := UpdatedConfigData(meta, q, now);
    var name := if q.name.Some? then q.name.value else StrField(meta, "name", "");
    var description := if q.description.Some? then q.description.value else StrField(meta, "description", "");
    assert UpdateProject(reg, project, q, now).0 == SaveConfig(reg, project, name, description, data, now).0;
    UpdatedConfigField(meta, q, now, i);
  }

  /** The name follows the same rule as the other fields. */
  lemma {:induction false} UpdateStoresName(reg: Registry, project: string, q: UpdateRequest, now: Clock.Instant)
    requires GetConfig(reg, project).Some?
    requires UpdateProject(reg, project, q, now).1.updatedFields != []
    ensures var before := GetConfig(reg, project).value.metadata;
      var after := GetConfig(UpdateProject(reg, project, q, now).0, project).value.metadata;
      (q.name.Some? ==> Field(after, "name") == JStr(q.name.value))
      && (q.name.None? ==> Field(after, "name") == JStr(StrField(before, "name", "")))
  {
    var meta := GetConfig(reg, project).value.metadata;
    var data := UpdatedConfigData(meta, q, now);
    var name := if q.name.Some? then q.name.value else StrField(meta, "name", "");
    var description := if q.description.Some? then q.description.value else StrField(meta, "description", "");
    assert UpdateProject(reg, project, q, now).0 == SaveConfig(reg, project, name, description, data, now).0;
  }

  // ------------------------------------------------------------ delete

  datatype DeleteResult = DeleteResult(success: bool, projectId: string, deletedCatalogCount: nat)

  /** `delete_project`: needs `confirm` and a known project; removes the
      configuration from both tiers and, with a working RAG, the project's
      catalog cache. Drive and Sheets data are left alone. */
  function DeleteProject(reg: Registry, project: string, confirm: bool): (r: (Registry, DeleteResult))
    ensures !confirm || GetConfig(reg, project).None? ==> r == (reg, DeleteResult(false, project, 0))
    ensures confirm && GetConfig(reg, project).Some? ==> r.1.success
    ensures r.1.success ==> GetConfig(r.0, project).None?
    ensures r.1.deletedCatalogCount <= 1000
    ensures reg.ragState != Up ==> r.1.deletedCatalogCount == 0
    ensures forall p :: p != project ==> Dict.Get(r.0.fallback, p) == Dict.Get(reg.fallback, p)
    ensures r.0.fallbackCurrent == reg.fallbackCurrent && r.0.memory == reg.memory
    ensures RagIndex.WellFormed(reg.rag) ==> RagIndex.WellFormed(r.0.rag)
  {
    if !confirm || GetConfig(reg, project).None? then (reg, DeleteResult(false, project, 0))
    else
      var (removed, ok) := DeleteConfig(reg, project);
      if !ok then (reg, DeleteResult(false, project, 0))
      else if reg.ragState == Up then
        var (rag, count) := RagClient.DeleteCatalogEntriesByProject(removed.rag, project);
        (removed.(rag := rag), DeleteResult(true, project, count))
      else (removed, DeleteResult(true, project, 0))
  }

  // ------------------------------------------------------ configuration

  /** The configuration stored for `id`, read as a record. */
  function ConfigFor(reg: Registry, id: string, now: Clock.Instant): (r: Option<ProjectModel.ProjectConfig>)
    ensures GetConfig(reg, id).None? ==> r.None?
    ensures GetConfig(reg, id).Some? ==> r == ProjectModel.FromRagDocument(GetConfig(reg, id).value.metadata, now)
  {
    match GetConfig(reg, id)
    case None => None
    case Some(doc) => ProjectModel.FromRagDocument(doc.metadata, now)
  }

  /** `get_project_config`: an omitted project means the user's current
      one (none, or "", gives `None`); `None` also when the stored record
      cannot be read as a configuration. */
  function GetProjectConfig(reg: Registry, defaultUser: string, project: Option<string>, user: string,
                            now: Clock.Instant): (r: Option<ProjectModel.ProjectConfig>)
    ensures project.Some? ==> r == ConfigFor(reg, project.value, now)
    ensures project.None? ==>
      var current := GetCurrent(reg, Who(user, defaultUser));
      (current.None? || current.value == "" ==> r.None?)
      && (current.Some? && current.value != "" ==> r == ConfigFor(reg, current.value, now))
  {
    var id := if project.Some? then project else GetCurrent(reg, Who(user, defaultUser));
    if id.None? || (project.None? && id.value == "") then None
    else ConfigFor(reg, id.value, now)
  }

  /** `get_current_project_id`. */
  function GetCurrentProjectId(reg: Registry, defaultUser: string, user: string): (r: Option<string>)
    ensures reg.memoryState != Up ==> r == Dict.Get(reg.fallbackCurrent, Who(user, defaultUser))
  {
    GetCurrent(reg, Who(user, defaultUser))
  }

  /** The project a tool works on: the one named, else the user's current
      one; "" for none, which the tools refuse (`if not project`). */
  function ResolveProject(reg: Registry, defaultUser: string, project: Option<string>, user: string)
    : (r: string)
    ensures project.Some? ==> r == project.value
    ensures project.None? ==>
      var current := GetCurrentProjectId(reg, defaultUser, user);
      (current.None? ==> r == "") && (current.Some? ==> r == current.value)
  {
    match project
    case Some(p) => p
    case None =>
      match GetCurrentProjectId(reg, defaultUser, user)
      case None => ""
      case Some(p) => p
  }

  /** A successful switch makes the project current for that user. */
  lemma {:induction false} SwitchThenCurrent(reg: Registry, defaultUser: string, project: string, user: string, now: Clock.Instant)
    requires SwitchProject(reg, defaultUser, project, user, now).1.success
    ensures GetCurrentProjectId(SwitchProject(reg, defaultUser, project, user, now).0, defaultUser, user)
            == Some(project)
  {
  }
}
