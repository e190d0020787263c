/** The project tools' two-tier storage: project configurations in the RAG
    index backed by a local fallback map, and each user's current-project
    pointer in Memory backed by a local map. The local maps are the
    class-level dictionaries the tools share; writing them to disk is not
    modelled. */
module ProjectRegistry {
  import opened Wrappers
  import opened Json
  import Clock
  import Dict
  import Seqs
  import RagIndex
  import RagClient
  import MemoryStore
  import MemoryClient

  /** A backing server: unavailable at start-up (`is_available` is false),
      up, or available at start-up but failing every request, in which case
      its client answers with its failure value (`None`, `[]`, a result
      with `success=false`). */
  datatype Service = Down | Up | Failing

  predicate Available(s: Service) {
    s != Down
  }

  datatype Registry = Registry(
    rag: RagIndex.Store, ragState: Service,
    memory: MemoryStore.Store, memoryState: Service,
    fallback: Dict.Dict<Obj>,
    fallbackCurrent: Dict.Dict<string>)

  /** Why a saved configuration went to the local map instead of RAG. */
  datatype SaveWarning = NoWarning | RagSaveFailed | RagUnavailable

  /** "project:" + id never maps two ids to one document id. */
  lemma {:induction false} ProjectDocIdInjective(a: string, b: string)
    ensures RagClient.ProjectDocId(a) == RagClient.ProjectDocId(b) ==> a == b
  {
    assert RagClient.ProjectDocId(a)[8..] == a;
    assert RagClient.ProjectDocId(b)[8..] == b;
  }

  // ------------------------------------------------------------ configs

  /** A locally kept record presented as a RAG document. */
  function FallbackDoc(projectId: string, data: Obj): (d: RagIndex.Doc)
    ensures d.id == RagClient.ProjectDocId(projectId) && d.metadata == data
  {
    RagIndex.Doc(RagClient.ProjectDocId(projectId),
                 StrField(data, "name", "") + " - " + StrField(data, "description", ""), data, 0.0)
  }

  /** The local lookup: an absent or empty record counts as missing. */
  function FallbackGet(reg: Registry, project: string): (r: Option<RagIndex.Doc>)
    ensures r.Some? <==> Dict.Get(reg.fallback, project).Some? && Dict.Get(reg.fallback, project).value != map[]
    ensures r.Some? ==> r.value == FallbackDoc(project, Dict.Get(reg.fallback, project).value)
  {
    match Dict.Get(reg.fallback, project)
    case Some(data) => if data != map[] then Some(FallbackDoc(project, data)) else None
    case None => None
  }

  /** The RAG lookup, as far as the RAG server answers it. */
  function RagGet(reg: Registry, project: string): Option<RagIndex.Doc> {
    if reg.ragState == Up then RagClient.GetProjectConfig(reg.rag, project) else None
  }

  /** `_get_project_config_with_fallback`: the RAG copy wins; the local
      record is consulted only when RAG has none or cannot answer. */
  function GetConfig(reg: Registry, project: string): (r: Option<RagIndex.Doc>)
    ensures RagGet(reg, project).Some? ==> r == RagGet(reg, project)
    ensures RagGet(reg, project).None? ==> r == FallbackGet(reg, project)
    ensures r.None? <==> RagGet(reg, project).None? && FallbackGet(reg, project).None?
    ensures r.Some? && (reg.ragState == Up ==> RagIndex.WellFormed(reg.rag)) ==>
      r.value.id == RagClient.ProjectDocId(project)
  {
    RagGetId(reg, project);
    var fromRag := RagGet(reg, project);
    if fromRag.Some? then fromRag else FallbackGet(reg, project)
  }

  lemma {:induction false} RagGetId(reg: Registry, project: string)
    ensures RagGet(reg, project).Some? && (reg.ragState == Up ==> RagIndex.WellFormed(reg.rag)) ==>
      RagGet(reg, project).value.id == RagClient.ProjectDocId(project)
  {
    if reg.ragState == Up && RagIndex.WellFormed(reg.rag) {
      RagIndex.GetWellFormed(reg.rag, RagClient.ProjectDocId(project));
    }
  }

  /** The record the local map keeps: the base fields, then `configData`,
      whose keys win. Unlike the RAG copy it has no "type" key. */
  function FallbackRecord(projectId: string, name: string, description: string, configData: Obj,
                          now: Clock.Instant): (m: Obj)
    ensures m != map[]
    ensures forall k :: k in configData ==> k in m && m[k] == configData[k]
    ensures "name" !in configData ==> Field(m, "name") == JStr(name)
    ensures "type" !in configData ==> "type" !in m
  {
    var m := map["project_id" := JStr(projectId), "name" := JStr(name), "description" := JStr(description),
                 "updated_at" := JStr(Clock.IsoFormat(now))] + configData;
    assert "project_id" in m;
    m
  }

  /** What a saved configuration reads back as, in either tier: the
      configuration data, then the base fields it does not override, and
      no other key except "type". */
  predicate StoredFrom(m: Obj, projectId: string, name: string, description: string, configData: Obj,
                       now: Clock.Instant) {
    (forall k :: k in configData ==> k in m && m[k] == configData[k])
    && (forall k :: k in m ==> k in configData || k in BaseKeys)
    && ("project_id" !in configData ==> Field(m, "project_id") == JStr(projectId))
    && ("name" !in configData ==> Field(m, "name") == JStr(name))
    && ("description" !in configData ==> Field(m, "description") == JStr(description))
    && ("updated_at" !in configData ==> Field(m, "updated_at") == JStr(Clock.IsoFormat(now)))
  }

  const BaseKeys: set<string> := {"type", "project_id", "name", "description", "updated_at"}

  /** Only the RAG index and the local project map can change in a save. */
  predicate SameOtherwise(a: Registry, b: Registry) {
    a.ragState == b.ragState && a.memory == b.memory && a.memoryState == b.memoryState
    && a.fallbackCurrent == b.fallbackCurrent
  }

  /** `_save_project_config_with_fallback`: never fails. A working RAG
      takes the record and the local map is left alone; otherwise the record
      goes to the local map with a warning saying why. */
  function SaveConfig(reg: Registry, projectId: string, name: string, description: string, configData: Obj,
                      now: Clock.Instant): (r: (Registry, SaveWarning))
    ensures SameOtherwise(reg, r.0)
    ensures GetConfig(r.0, projectId).Some?
    ensures StoredFrom(GetConfig(r.0, projectId).value.metadata, projectId, name, description, configData, now)
    ensures reg.ragState == Up <==> r.1 == NoWarning
    ensures reg.ragState == Up ==> r.0.fallback == reg.fallback
    ensures reg.ragState != Up ==>
      (r.0.rag == reg.rag
       && Dict.Get(r.0.fallback, projectId) == Some(FallbackRecord(projectId, name, description, configData, now)))
    ensures reg.ragState == Failing ==> r.1 == RagSaveFailed
    ensures forall p :: p != projectId ==> Dict.Get(r.0.fallback, p) == Dict.Get(reg.fallback, p)
    ensures forall p :: p != projectId ==> GetConfig(r.0, p) == GetConfig(reg, p)
    ensures RagIndex.WellFormed(reg.rag) ==> RagIndex.WellFormed(r.0.rag)
  {
    if reg.ragState == Up then
      var (rag, _) := RagClient.SaveProjectConfig(reg.rag, projectId, name, description, configData, now);
      SaveFrame(reg.rag, rag, projectId);
      RagStored(projectId, name, description, configData, now);
      (reg.(rag := rag), NoWarning)
    else
      var fb := Dict.Put(reg.fallback, projectId, FallbackRecord(projectId, name, description, configData, now));
      FallbackStored(projectId, name, description, configData, now);
      (reg.(fallback := fb), if reg.ragState == Failing then RagSaveFailed else RagUnavailable)
  }

  lemma {:induction false} RagStored(projectId: string, name: string, description: string, configData: Obj, now: Clock.Instant)
    ensures StoredFrom(RagClient.ProjectMetadata(projectId, name, description, configData, now),
                       projectId, name, description, configData, now)
  {
  }

  lemma {:induction false} FallbackStored(projectId: string, name: string, description: string, configData: Obj, now: Clock.Instant)
    ensures StoredFrom(FallbackRecord(projectId, name, description, configData, now),
                       projectId, name, description, configData, now)
  {
  }

  lemma {:induction false} SaveFrame(a: RagIndex.Store, b: RagIndex.Store, projectId: string)
    requires forall k :: k != RagClient.ProjectDocId(projectId) ==> RagIndex.GetDocument(b, k) == RagIndex.GetDocument(a, k)
    ensures forall p :: p != projectId ==> RagClient.GetProjectConfig(b, p) == RagClient.GetProjectConfig(a, p)
  {
    forall p | p != projectId
      ensures RagClient.GetProjectConfig(b, p) == RagClient.GetProjectConfig(a, p)
    {
      ProjectDocIdInjective(p, projectId);
    }
  }

  lemma {:induction false} DeleteFrame(reg: Registry, project: string)
    ensures var rag := RagClient.DeleteProjectConfig(reg.rag, project).0;
      forall p :: p != project ==> RagClient.GetProjectConfig(rag, p) == RagClient.GetProjectConfig(reg.rag, p)
  {
    SaveFrame(reg.rag, RagClient.DeleteProjectConfig(reg.rag, project).0, project);
  }

  /** `_delete_project_config_with_fallback`: removes the configuration
      from both tiers; reports whether either held it. */
  function DeleteConfig(reg: Registry, project: string): (r: (Registry, bool))
    ensures SameOtherwise(reg, r.0)
    ensures GetConfig(r.0, project).None?
    ensures r.1 <==> RagGet(reg, project).Some? || project in Dict.Keys(reg.fallback)
    ensures Dict.Get(r.0.fallback, project).None?
    ensures forall p :: p != project ==> Dict.Get(r.0.fallback, p) == Dict.Get(reg.fallback, p)
    ensures reg.ragState != Up ==> r.0.rag == reg.rag
    ensures forall p :: p != project ==> GetConfig(r.0, p) == GetConfig(reg, p)
    ensures RagIndex.WellFormed(reg.rag) ==> RagIndex.WellFormed(r.0.rag)
  {
    var (rag, ragDeleted) :=
      if reg.ragState == Up then
        var (s, res) := RagClient.DeleteProjectConfig(reg.rag, project);
        (s, res.success)
      else (reg.rag, false);
    DeleteFrame(reg, project);
    var inLocal := project in Dict.Keys(reg.fallback);
    var fb := if inLocal then Dict.Remove(reg.fallback, project) else reg.fallback;
    (reg.(rag := rag, fallback := fb), ragDeleted || inLocal)
  }

  // ------------------------------------------------------------ listing

  /** What RAG lists, as far as it answers. */
  function RagListed(reg: Registry): (r: seq<RagIndex.Doc>)
    ensures reg.ragState != Up ==> r == []
  {
    if reg.ragState == Up then RagClient.ListProjects(reg.rag) else []
  }

  /** The non-empty project ids RAG lists. */
  function RagIds(reg: Registry): set<string> {
    var docs := RagListed(reg);
    set i | 0 <= i < |docs| && RagClient.ProjectIdOf(docs[i]) != "" :: RagClient.ProjectIdOf(docs[i])
  }

  /** The local records RAG does not already list, in local order. */
  function FallbackListed(reg: Registry): (fb: Dict.Dict<Obj>)
    ensures forall j :: 0 <= j < |fb| ==> fb[j] in reg.fallback && fb[j].0 !in RagIds(reg)
    ensures forall j :: 0 <= j < |reg.fallback| && reg.fallback[j].0 !in RagIds(reg) ==> reg.fallback[j] in fb
    ensures Seqs.IsSubsequence(fb, reg.fallback)
  {
    var seen := RagIds(reg);
    Seqs.FilterIsSubsequence((p: (string, Obj)) => p.0 !in seen, reg.fallback);
    Seqs.Filter((p: (string, Obj)) => p.0 !in seen, reg.fallback)
  }

  /** `_list_projects_with_fallback`: RAG's projects first, then each local
      record RAG does not list. */
  function ListConfigs(reg: Registry): (r: seq<RagIndex.Doc>)
    ensures |r| == |RagListed(reg)| + |FallbackListed(reg)|
    ensures r[..|RagListed(reg)|] == RagListed(reg)
    ensures forall j :: 0 <= j < |FallbackListed(reg)| ==>
      r[|RagListed(reg)| + j] == FallbackDoc(FallbackListed(reg)[j].0, FallbackListed(reg)[j].1)
  {
    var fb := FallbackListed(reg);
    RagListed(reg) + seq(|fb|, j requires 0 <= j < |fb| => FallbackDoc(fb[j].0, fb[j].1))
  }

  /** The project id under which entry `i` of the listing was merged: the
      listed `project_id` for a RAG entry, the local key for a local one. */
  function ListedId(reg: Registry, i: nat): string
    requires i < |RagListed(reg)| + |FallbackListed(reg)|
  {
    var n := |RagListed(reg)|;
    if i < n then RagClient.ProjectIdOf(RagListed(reg)[i]) else FallbackListed(reg)[i - n].0
  }

  /** A local entry of the merged listing never repeats the project id of
      an earlier entry, RAG's or local. */
  lemma {:induction false} ListNoRepeats(reg: Registry, i: nat, j: nat)
    requires Dict.UniqueKeys(reg.fallback)
    requires i < j && |RagListed(reg)| <= j < |RagListed(reg)| + |FallbackListed(reg)|
    requires i < |RagListed(reg)| ==> ListedId(reg, i) != ""
    ensures ListedId(reg, i) != ListedId(reg, j)
  {
    var n := |RagListed(reg)|;
    var fb := FallbackListed(reg);
    assert ListedId(reg, j) == fb[j - n].0;
    if i < n {
      RagIdsHas(reg, i);
      assert fb[j - n].0 !in RagIds(reg);
    } else {
      assert ListedId(reg, i) == fb[i - n].0;
      SubsequenceUnique(fb, reg.fallback, i - n, j - n);
    }
  }

  lemma RagIdsHas(reg: Registry, i: nat)
    requires i < |RagListed(reg)| && RagClient.ProjectIdOf(RagListed(reg)[i]) != ""
    ensures RagClient.ProjectIdOf(RagListed(reg)[i]) in RagIds(reg)
  {
  }

  /** A subsequence of a map with unique keys has unique keys. */
  lemma {:induction false} SubsequenceUnique(sub: Dict.Dict<Obj>, d: Dict.Dict<Obj>, a: nat, b: nat)
    requires Seqs.IsSubsequence(sub, d) && Dict.UniqueKeys(d)
    requires a < b < |sub|
    ensures sub[a].0 != sub[b].0
    decreases |d|
  {
    assert |d| > 0;
    assert Dict.UniqueKeys(d[1..]);
    if sub[0] == d[0] && Seqs.IsSubsequence(sub[1..], d[1..]) {
      if a == 0 {
        SubsequenceMember(sub[1..], d[1..], b - 1);
      } else {
        SubsequenceUnique(sub[1..], d[1..], a - 1, b - 1);
      }
    } else {
      SubsequenceUnique(sub, d[1..], a, b);
    }
  }

  lemma {:induction false} SubsequenceMember(sub: Dict.Dict<Obj>, d: Dict.Dict<Obj>, b: nat)
    requires Seqs.IsSubsequence(sub, d) && b < |sub|
    ensures sub[b] in d
    decreases |d|
  {
    if sub[0] == d[0] && Seqs.IsSubsequence(sub[1..], d[1..]) {
      if b > 0 {
        SubsequenceMember(sub[1..], d[1..], b - 1);
      }
    } else {
      SubsequenceMember(sub, d[1..], b);
    }
  }

  // ----------------------------------------------------- current project

  /** `_get_current_project_with_fallback`: a non-empty pointer in a
      working Memory wins; otherwise the local pointer. */
  function GetCurrent(reg: Registry, user: string): (r: Option<string>)
    ensures reg.memoryState != Up ==> r == Dict.Get(reg.fallbackCurrent, user)
    ensures r.Some? && r != Dict.Get(reg.fallbackCurrent, user) ==>
      (reg.memoryState == Up && MemoryClient.GetCurrentProject(reg.memory, user).Some?
       && MemoryClient.GetCurrentProject(reg.memory, user).value.projectId == r.value && r.value != "")
  {
    var fromMemory := if reg.memoryState == Up then MemoryClient.GetCurrentProject(reg.memory, user) else None;
    if fromMemory.Some? && fromMemory.value.projectId != "" then Some(fromMemory.value.projectId)
    else Dict.Get(reg.fallbackCurrent, user)
  }

  /** `_set_current_project_with_fallback`: written to a working Memory and
      always to the local map; it reports success even when Memory fails. */
  function SetCurrent(reg: Registry, user: string, project: string, now: Clock.Instant): (r: Registry)
    ensures GetCurrent(r, user) == Some(project)
    ensures Dict.Get(r.fallbackCurrent, user) == Some(project)
    ensures forall u :: u != user ==> GetCurrent(r, u) == GetCurrent(reg, u)
    ensures r.rag == reg.rag && r.ragState == reg.ragState && r.fallback == reg.fallback
    ensures r.memoryState == reg.memoryState
  {
    var memory := if reg.memoryState == Up then MemoryClient.SetCurrentProject(reg.memory, user, project, now)
                  else reg.memory;
    OtherUsersKept(reg.memory, user, project, now);
    reg.(memory := memory, fallbackCurrent := Dict.Put(reg.fallbackCurrent, user, project))
  }

  lemma {:induction false} OtherUsersKept(st: MemoryStore.Store, user: string, project: string, now: Clock.Instant)
    ensures forall u :: u != user ==>
      MemoryClient.GetCurrentProject(MemoryClient.SetCurrentProject(st, user, project, now), u)
      == MemoryClient.GetCurrentProject(st, u)
  {
    forall u | u != user
      ensures MemoryClient.GetCurrentProject(MemoryClient.SetCurrentProject(st, user, project, now), u)
              == MemoryClient.GetCurrentProject(st, u)
    {
      assert MemoryClient.CurrentProjectKey(u) != MemoryClient.CurrentProjectKey(user);
    }
  }
}
