/** The RAG client's bookkeeping over the index: document ids, metadata
    construction, where-clause builders and post-filters. An empty string
    stands for an omitted optional filter (the client tests truthiness). */
module RagClient {
  import opened Wrappers
  import opened Json
  import opened Strings
  import Clock
  import Dict
  import Seqs
  import opened RagIndex

  /** `{field: {"$eq": value}}` holds iff the field is that string. */
  lemma {:induction false} EqClause(m: Obj, f: string, v: string)
    ensures MatchClause(m, Eq(f, v)) <==> Field(m, f) == JStr(v)
  {
    assert Eq(f, v).ops[0] == OpEq(JStr(v));
  }

  lemma {:induction false} OneClause(m: Obj, c: Clause)
    ensures MatchWhere(m, Where([c])) <==> MatchClause(m, c)
  {
    assert Where([c]).clauses[0] == c;
  }

  /** An optional `$eq` filter: no clause when the value is empty. */
  function OptEq(f: string, v: string): (r: seq<Clause>)
    ensures forall m :: MatchWhere(m, Where(r)) <==> (v == "" || Field(m, f) == JStr(v))
  {
    if v == "" then []
    else
      EqWhere(f, v);
      [Eq(f, v)]
  }

  lemma {:induction false} EqWhere(f: string, v: string)
    ensures forall m :: MatchWhere(m, Where([Eq(f, v)])) <==> Field(m, f) == JStr(v)
  {
    forall m ensures MatchWhere(m, Where([Eq(f, v)])) <==> Field(m, f) == JStr(v) {
      OneClause(m, Eq(f, v));
      EqClause(m, f, v);
    }
  }

  // ------------------------------------------------------------- projects

  function ProjectDocId(projectId: string): string {
    "project:" + projectId
  }

  /** The metadata `save_project_config` writes: the base fields, then
      `config_data`, whose keys win. */
  function ProjectMetadata(projectId: string, name: string, description: string,
                           configData: Obj, now: Clock.Instant): (m: Obj)
    ensures m.Keys == {"type", "project_id", "name", "description", "updated_at"} + configData.Keys
    ensures forall k :: k in configData ==> m[k] == configData[k]
    ensures "type" !in configData ==> m["type"] == JStr("project_config")
    ensures "project_id" !in configData ==> m["project_id"] == JStr(projectId)
    ensures "name" !in configData ==> m["name"] == JStr(name)
    ensures "description" !in configData ==> m["description"] == JStr(description)
  {
    map["type" := JStr("project_config"), "project_id" := JStr(projectId), "name" := JStr(name),
        "description" := JStr(description), "updated_at" := JStr(Clock.IsoFormat(now))] + configData
  }

  /** `save_project_config`: stored under "project:"+id with content
      "name - description". */
  function SaveProjectConfig(st: Store, projectId: string, name: string, description: string,
                             configData: Obj, now: Clock.Instant): (r: (Store, OpResult))
    ensures r.1.success
    ensures GetProjectConfig(r.0, projectId)
            == Some(Doc(ProjectDocId(projectId), name + " - " + description,
                        ProjectMetadata(projectId, name, description, configData, now), 0.0))
    ensures forall k :: k != ProjectDocId(projectId) ==> GetDocument(r.0, k) == GetDocument(st, k)
    ensures WellFormed(st) ==> WellFormed(r.0)
  {
    AddDocument(st, ProjectDocId(projectId), name + " - " + description,
                ProjectMetadata(projectId, name, description, configData, now))
  }

  function GetProjectConfig(st: Store, projectId: string): Option<Doc> {
    GetDocument(st, ProjectDocId(projectId))
  }

  function DeleteProjectConfig(st: Store, projectId: string): (r: (Store, OpResult))
    ensures r.1.success <==> GetProjectConfig(st, projectId).Some?
    ensures GetProjectConfig(r.0, projectId).None?
    ensures forall k :: k != ProjectDocId(projectId) ==> GetDocument(r.0, k) == GetDocument(st, k)
    ensures WellFormed(st) ==> WellFormed(r.0)
  {
    DeleteDocument(st, ProjectDocId(projectId))
  }

  const ProjectWhere: Where := Where([Eq("type", "project_config")])

  /** `list_projects`: project configs in store order, at most 100. */
  function ListProjects(st: Store): (r: seq<Doc>)
    ensures |r| <= 100
    ensures forall i :: 0 <= i < |r| ==> Field(r[i].metadata, "type") == JStr("project_config")
  {
    EqWhere("type", "project_config");
    SearchByMetadata(st, ProjectWhere, 100).documents
  }

  /** `doc.metadata.get("project_id", "")`. */
  function ProjectIdOf(d: Doc): string {
    StrField(d.metadata, "project_id", "")
  }

  predicate KeepSimilar(d: Doc, threshold: real, exclude: string) {
    d.score >= threshold && !(exclude != "" && ProjectIdOf(d) == exclude)
  }

  /** `find_similar_projects`: among the ten best project matches for
      "name description", those at or above the threshold that are not the
      excluded project, in search order. */
  function FindSimilarProjects(st: Store, name: string, description: string,
                               threshold: real, exclude: string): (r: seq<Doc>)
    ensures |r| <= 10
    ensures forall i :: 0 <= i < |r| ==> r[i].score >= threshold && r[i].score > 0.0
    ensures exclude != "" ==> forall i :: 0 <= i < |r| ==> ProjectIdOf(r[i]) != exclude
    ensures forall i :: 0 <= i < |r| ==> Field(r[i].metadata, "type") == JStr("project_config")
  {
    var query := Strip(name + " " + description);
    var found := Search(st, query, 10, ProjectWhere).documents;
    EqWhere("type", "project_config");
    Seqs.Filter((d: Doc) => KeepSimilar(d, threshold, exclude), found)
  }

  // ------------------------------------------------------------ knowledge

  /** `add_knowledge`: id "knowledge:" + the timestamp stamp. */
  function AddKnowledge(st: Store, content: string, category: string, tags: seq<string>,
                        project: string, source: string, stamp: string, now: Clock.Instant)
    : (r: (Store, OpResult))
    ensures r.1.success && r.1.docId == "knowledge:" + stamp
    ensures var d := GetDocument(r.0, "knowledge:" + stamp);
            d.Some? && d.value.content == content
            && Field(d.value.metadata, "type") == JStr("knowledge")
            && Field(d.value.metadata, "category") == JStr(category)
            && StrListField(d.value.metadata, "tags") == tags
            && Field(d.value.metadata, "project") == JStr(project)
  {
    AddDocument(st, "knowledge:" + stamp, content, KnowledgeMetadata(category, tags, project, source, now))
  }

  /** The metadata `add_knowledge` writes. */
  function KnowledgeMetadata(category: string, tags: seq<string>, project: string, source: string,
                             now: Clock.Instant): (m: Obj)
    ensures Field(m, "type") == JStr("knowledge") && Field(m, "category") == JStr(category)
    ensures StrListField(m, "tags") == tags && Field(m, "project") == JStr(project)
    ensures Field(m, "source") == JStr(source) && Field(m, "created_at") == JStr(Clock.IsoFormat(now))
  {
    StrListRoundTrip(tags);
    var stamp := Clock.IsoFormat(now);
    map["type" := JStr("knowledge"), "category" := JStr(category), "tags" := StrList(tags),
        "project" := JStr(project), "source" := JStr(source), "created_at" := JStr(stamp)]
  }

  /** The `$or` of "this project" and "general" knowledge. */
  function ProjectOrGeneral(project: string): (c: Clause)
    ensures forall m :: MatchClause(m, c) <==> Field(m, "project") == JStr(project) || Field(m, "project") == JStr("")
  {
    ProjectOrGeneralMeaning(project);
    AnyOf([Where([Eq("project", project)]), Where([Eq("project", "")])])
  }

  lemma {:induction false} ProjectOrGeneralMeaning(project: string)
    ensures forall m :: (MatchClause(m, AnyOf([Where([Eq("project", project)]), Where([Eq("project", "")])]))
      <==> Field(m, "project") == JStr(project) || Field(m, "project") == JStr(""))
  {
    var a := Where([Eq("project", project)]);
    var b := Where([Eq("project", "")]);
    EqWhere("project", project);
    EqWhere("project", "");
    forall m ensures MatchClause(m, AnyOf([a, b])) <==> Field(m, "project") == JStr(project) || Field(m, "project") == JStr("") {
      assert [a, b][0] == a && [a, b][1] == b;
    }
  }

  /** The knowledge where-clause: type knowledge, an optional category, and
      (given a project) that project or general knowledge. */
  function KnowledgeWhere(category: string, project: string): (w: Where)
    ensures forall m :: MatchWhere(m, w) <==>
      Field(m, "type") == JStr("knowledge")
      && (category == "" || Field(m, "category") == JStr(category))
      && (project == "" || Field(m, "project") == JStr(project) || Field(m, "project") == JStr(""))
  {
    KnowledgeWhereMeaning(category, project);
    Where([Eq("type", "knowledge")] + OptEq("category", category)
          + if project == "" then [] else [ProjectOrGeneral(project)])
  }

  lemma {:induction false} KnowledgeWhereMeaning(category: string, project: string)
    ensures forall m :: MatchWhere(m, Where([Eq("type", "knowledge")] + OptEq("category", category)
          + if project == "" then [] else [ProjectOrGeneral(project)])) <==>
      Field(m, "type") == JStr("knowledge")
      && (category == "" || Field(m, "category") == JStr(category))
      && (project == "" || Field(m, "project") == JStr(project) || Field(m, "project") == JStr(""))
  {
    var head := [Eq("type", "knowledge")] + OptEq("category", category);
    var tail: seq<Clause> := if project == "" then [] else [ProjectOrGeneral(project)];
    forall m ensures MatchWhere(m, Where(head + tail)) <==>
      Field(m, "type") == JStr("knowledge")
      && (category == "" || Field(m, "category") == JStr(category))
      && (project == "" || Field(m, "project") == JStr(project) || Field(m, "project") == JStr(""))
    {
      WhereConcat(m, head, tail);
      WhereConcat(m, [Eq("type", "knowledge")], OptEq("category", category));
      OneClause(m, Eq("type", "knowledge"));
      EqClause(m, "type", "knowledge");
      if project != "" {
        OneClause(m, ProjectOrGeneral(project));
      }
    }
  }

  /** `all(tag in doc_tags for tag in tags)`. */
  predicate HasAllTags(d: Doc, tags: seq<string>) {
    forall i :: 0 <= i < |tags| ==> tags[i] in StrListField(d.metadata, "tags")
  }

  /** The tag post-filter: keeps documents carrying every tag and breaks
      once `n` are kept. */
  function TagFilter(docs: seq<Doc>, tags: seq<string>, n: int): (r: seq<Doc>)
    ensures |r| <= (if n < 1 then 1 else n)
    ensures forall i :: 0 <= i < |r| ==> HasAllTags(r[i], tags) && r[i] in docs
    ensures r == Seqs.Prefix(Seqs.Filter((d: Doc) => HasAllTags(d, tags), docs), if n < 1 then 1 else n)
  {
    Seqs.FilterUpTo((d: Doc) => HasAllTags(d, tags), docs, n)
  }

  /** `search_knowledge`. */
  function SearchKnowledge(st: Store, query: string, category: string, project: string,
                           tags: seq<string>, n: int): (r: SearchResult)
    ensures r.success && r.totalCount == |r.documents|
    ensures n >= 1 ==> |r.documents| <= n
    ensures forall i :: 0 <= i < |r.documents| ==>
      MatchWhere(r.documents[i].metadata, KnowledgeWhere(category, project))
      && HasAllTags(r.documents[i], tags)
  {
    var w := KnowledgeWhere(category, project);
    var found := Search(st, query, if |tags| > 0 then n * 2 else n, w);
    if |tags| > 0 then
      var kept := TagFilter(found.documents, tags, n);
      SearchResult(true, kept, |kept|)
    else found
  }

  // -------------------------------------------------------------- catalog

  /** The cache id of a catalog entry: "catalog:{project}:{doc_id}". */
  function CatalogId(project: string, docId: string): string {
    "catalog:" + project + ":" + docId
  }

  /** The metadata `add_catalog_entry` writes: the injected fields, then the
      caller's metadata, whose keys win (including `updated_at`). */
  function CatalogMetadata(docId: string, name: string, docType: string, project: string,
                           phaseTask: string, metadata: Obj, now: Clock.Instant): (m: Obj)
    ensures m.Keys == {"type", "doc_id", "name", "doc_type", "project", "phase_task", "updated_at"} + metadata.Keys
    ensures forall k :: k in metadata ==> m[k] == metadata[k]
    ensures "type" !in metadata ==> m["type"] == JStr("catalog")
    ensures "project" !in metadata ==> m["project"] == JStr(project)
    ensures "doc_id" !in metadata ==> m["doc_id"] == JStr(docId)
  {
    CatalogBase(docId, name, docType, project, phaseTask)["updated_at" := JStr(Clock.IsoFormat(now))] + metadata
  }

  /** The fields `add_catalog_entry` always injects, apart from the time stamp. */
  function CatalogBase(docId: string, name: string, docType: string, project: string, phaseTask: string): Obj {
    map["type" := JStr("catalog"), "doc_id" := JStr(docId), "name" := JStr(name),
        "doc_type" := JStr(docType), "project" := JStr(project), "phase_task" := JStr(phaseTask)]
  }

  function AddCatalogEntry(st: Store, docId: string, name: string, docType: string, project: string,
                           phaseTask: string, metadata: Obj, now: Clock.Instant): (r: (Store, OpResult))
    ensures r.1.success
    ensures GetDocument(r.0, CatalogId(project, docId))
            == Some(Doc(CatalogId(project, docId), name + " " + docType + " " + phaseTask,
                        CatalogMetadata(docId, name, docType, project, phaseTask, metadata, now), 0.0))
    ensures forall k :: k != CatalogId(project, docId) ==> GetDocument(r.0, k) == GetDocument(st, k)
    ensures WellFormed(st) ==> WellFormed(r.0)
  {
    AddDocument(st, CatalogId(project, docId), name + " " + docType + " " + phaseTask,
                CatalogMetadata(docId, name, docType, project, phaseTask, metadata, now))
  }

  /** The catalog where-clause: type catalog plus one `$eq` per supplied filter. */
  function CatalogWhere(project: string, docType: string, phaseTask: string): (w: Where)
    ensures forall m :: MatchWhere(m, w) <==>
      Field(m, "type") == JStr("catalog")
      && (project == "" || Field(m, "project") == JStr(project))
      && (docType == "" || Field(m, "doc_type") == JStr(docType))
      && (phaseTask == "" || Field(m, "phase_task") == JStr(phaseTask))
  {
    CatalogWhereMeaning(project, docType, phaseTask);
    Where([Eq("type", "catalog")] + OptEq("project", project) + OptEq("doc_type", docType) + OptEq("phase_task", phaseTask))
  }

  lemma {:induction false} CatalogWhereMeaning(project: string, docType: string, phaseTask: string)
    ensures forall m :: MatchWhere(m, Where([Eq("type", "catalog")] + OptEq("project", project) + OptEq("doc_type", docType) + OptEq("phase_task", phaseTask))) <==>
      Field(m, "type") == JStr("catalog")
      && (project == "" || Field(m, "project") == JStr(project))
      && (docType == "" || Field(m, "doc_type") == JStr(docType))
      && (phaseTask == "" || Field(m, "phase_task") == JStr(phaseTask))
  {
    var a := [Eq("type", "catalog")];
    var b := OptEq("project", project);
    var c := OptEq("doc_type", docType);
    var d := OptEq("phase_task", phaseTask);
    forall m ensures MatchWhere(m, Where(a + b + c + d)) <==>
      Field(m, "type") == JStr("catalog")
      && (project == "" || Field(m, "project") == JStr(project))
      && (docType == "" || Field(m, "doc_type") == JStr(docType))
      && (phaseTask == "" || Field(m, "phase_task") == JStr(phaseTask))
    {
      WhereConcat(m, a + b + c, d);
      WhereConcat(m, a + b, c);
      WhereConcat(m, a, b);
      OneClause(m, Eq("type", "catalog"));
      EqClause(m, "type", "catalog");
    }
  }

  function SearchCatalog(st: Store, query: string, project: string, docType: string,
                         phaseTask: string, n: int): (r: SearchResult)
    ensures forall i :: 0 <= i < |r.documents| ==>
      Field(r.documents[i].metadata, "type") == JStr("catalog")
      && (project == "" || Field(r.documents[i].metadata, "project") == JStr(project))
      && (docType == "" || Field(r.documents[i].metadata, "doc_type") == JStr(docType))
      && (phaseTask == "" || Field(r.documents[i].metadata, "phase_task") == JStr(phaseTask))
    ensures n >= 0 ==> |r.documents| <= n
  {
    Search(st, query, n, CatalogWhere(project, docType, phaseTask))
  }

  /** Deletes the given ids one by one, counting the deletes that succeed. */
  function DeleteAll(st: Store, ids: seq<string>): (r: (Store, nat))
    ensures r.1 <= |ids|
    ensures forall k :: k in ids ==> GetDocument(r.0, k).None?
    ensures forall k :: k !in ids ==> GetDocument(r.0, k) == GetDocument(st, k)
    ensures WellFormed(st) ==> WellFormed(r.0)
    decreases |ids|
  {
    if |ids| == 0 then (st, 0)
    else
      var (s1, res) := DeleteDocument(st, ids[0]);
      var (s2, c) := DeleteAll(s1, ids[1..]);
      (s2, c + if res.success then 1 else 0)
  }

  /** The where-clause selecting one project's catalog entries. */
  function ProjectCatalogWhere(project: string): Where {
    Where([Eq("type", "catalog"), Eq("project", project)])
  }

  lemma {:induction false} ProjectCatalogWhereMeaning(project: string, m: Obj)
    ensures MatchWhere(m, ProjectCatalogWhere(project)) <==>
      Field(m, "type") == JStr("catalog") && Field(m, "project") == JStr(project)
  {
    WhereConcat(m, [Eq("type", "catalog")], [Eq("project", project)]);
    assert [Eq("type", "catalog")] + [Eq("project", project)] == ProjectCatalogWhere(project).clauses;
    OneClause(m, Eq("type", "catalog"));
    EqClause(m, "type", "catalog");
    OneClause(m, Eq("project", project));
    EqClause(m, "project", project);
  }

  /** `delete_catalog_entries_by_project`: deletes the first 1000 matching
      entries and counts the successful deletes. */
  function DeleteCatalogEntriesByProject(st: Store, project: string): (r: (Store, nat))
    ensures r.1 <= 1000
    ensures r.1 <= |Matching(Docs(st), ProjectCatalogWhere(project))|
    ensures WellFormed(st) ==> WellFormed(r.0)
    ensures forall k :: GetDocument(r.0, k).None? || GetDocument(r.0, k) == GetDocument(st, k)
  {
    var found := SearchByMetadata(st, ProjectCatalogWhere(project), 1000).documents;
    DeleteAll(st, Ids(found))
  }

  /** With at most 1000 matches in a well-formed store, no entry of the
      project remains, and every other document is left as it was. */
  lemma {:induction false} DeleteCatalogEntriesEffect(st: Store, project: string, k: string)
    requires WellFormed(st)
    ensures var after := DeleteCatalogEntriesByProject(st, project).0;
      var w := ProjectCatalogWhere(project);
      ((GetDocument(st, k).Some? && !MatchWhere(GetDocument(st, k).value.metadata, w))
         ==> GetDocument(after, k) == GetDocument(st, k))
      && (|Matching(Docs(st), w)| <= 1000 && GetDocument(after, k).Some?
         ==> !MatchWhere(GetDocument(after, k).value.metadata, w))
  {
    var w := ProjectCatalogWhere(project);
    var all := Matching(Docs(st), w);
    var found := SearchByMetadata(st, w, 1000).documents;
    assert found == all[..|found|];
    var after := DeleteCatalogEntriesByProject(st, project).0;
    assert after == DeleteAll(st, Ids(found)).0;
    if GetDocument(st, k).Some? && !MatchWhere(GetDocument(st, k).value.metadata, w) {
      NotMatchingNotListed(st, w, k);
    }
    if |all| <= 1000 && GetDocument(after, k).Some? {
      assert found == all;
      if MatchWhere(GetDocument(after, k).value.metadata, w) {
        assert GetDocument(after, k) == GetDocument(st, k);
        MatchingComplete(st, w, k);
      }
    }
  }

  /** A stored document that does not match is not listed by `Matching`. */
  lemma {:induction false} NotMatchingNotListed(st: Store, w: Where, k: string)
    requires WellFormed(st)
    requires GetDocument(st, k).Some? && !MatchWhere(GetDocument(st, k).value.metadata, w)
    ensures k !in Ids(Matching(Docs(st), w))
  {
    var all := Matching(Docs(st), w);
    forall i | 0 <= i < |all| ensures all[i].id != k {
      MatchingMember(st, w, i);
      var j :| 0 <= j < |st| && st[j].1.id == all[i].id && st[j].1.metadata == all[i].metadata;
      Dict.GetAt(st, j);
      assert GetDocument(st, all[i].id) == Some(st[j].1);
    }
  }

  /** A document `Matching` lists is a stored document, with its id. */
  lemma {:induction false} MatchingMember(st: Store, w: Where, i: nat)
    requires i < |Matching(Docs(st), w)|
    ensures exists j :: (0 <= j < |st| && st[j].1.id == Matching(Docs(st), w)[i].id
                         && st[j].1.metadata == Matching(Docs(st), w)[i].metadata)
  {
    MatchingOrigin(Docs(st), w, i);
    var j :| 0 <= j < |Docs(st)| && Docs(st)[j].id == Matching(Docs(st), w)[i].id
             && Docs(st)[j].metadata == Matching(Docs(st), w)[i].metadata;
    assert st[j].1 == Docs(st)[j];
  }

  lemma {:induction false} MatchingOrigin(docs: seq<Doc>, w: Where, i: nat)
    requires i < |Matching(docs, w)|
    ensures exists j :: (0 <= j < |docs| && docs[j].id == Matching(docs, w)[i].id
                         && docs[j].metadata == Matching(docs, w)[i].metadata)
  {
    var m := Matching(docs, w);
    var rest := Matching(docs[1..], w);
    if MatchWhere(docs[0].metadata, w) {
      if i == 0 {
        assert docs[0].id == m[0].id;
      } else {
        assert m[i] == rest[i - 1];
        MatchingOrigin(docs[1..], w, i - 1);
        var j :| 0 <= j < |docs[1..]| && docs[1..][j].id == rest[i - 1].id && docs[1..][j].metadata == rest[i - 1].metadata;
        assert docs[j + 1] == docs[1..][j];
      }
    } else {
      assert m == rest;
      MatchingOrigin(docs[1..], w, i);
      var j :| 0 <= j < |docs[1..]| && docs[1..][j].id == rest[i].id && docs[1..][j].metadata == rest[i].metadata;
      assert docs[j + 1] == docs[1..][j];
    }
  }
}
