/** The session tools: starting and ending a working session on a project,
    saving its state on the way, and the documents recommended for the
    current task. Session state lives only in Memory: when Memory does not
    answer, reads find nothing and writes are reported as not persisted. */
module SessionTools {
  import opened Wrappers
  import opened Strings
  import Clock
  import RagIndex
  import RagClient
  import MemoryClient
  import ProjectModel
  import opened ProjectRegistry
  import ProjectTools

  /** What the tool object remembers between calls: the session's start,
      project and user ("" for none). */
  datatype Tracking = Tracking(start: Option<Clock.Instant>, project: string, user: string)

  const Idle := Tracking(None, "", "")

  /** `is_session_active`. */
  predicate IsSessionActive(t: Tracking) {
    t.start.Some?
  }

  // ------------------------------------------------------------ memory

  /** `get_session_state` as far as Memory answers. */
  function StoredState(reg: Registry, project: string, user: string): Option<MemoryClient.SessionState> {
    if reg.memoryState == Up then MemoryClient.GetSessionState(reg.memory, project, user) else None
  }

  /** `save_session_state`: succeeds exactly when Memory answers. */
  function SaveState(reg: Registry, s: MemoryClient.SessionState, now: Clock.Instant): (r: (Registry, bool))
    ensures r.1 <==> reg.memoryState == Up
    ensures r.1 ==> StoredState(r.0, s.project, s.user) == Some(s.(updatedAt := Clock.IsoFormat(now)))
    ensures !r.1 ==> r.0 == reg
    ensures r.0 == reg.(memory := r.0.memory)
  {
    if reg.memoryState == Up then (reg.(memory := MemoryClient.SaveSessionState(reg.memory, s, now)), true)
    else (reg, false)
  }

  /** `get_current_project` as far as Memory answers. */
  function MemoryCurrent(reg: Registry, user: string): Option<MemoryClient.CurrentProject> {
    if reg.memoryState == Up then MemoryClient.GetCurrentProject(reg.memory, user) else None
  }

  /** `_get_current_project`: a non-empty Memory pointer wins and is copied
      into the tracking; otherwise the tracked project. */
  function CurrentProjectOf(reg: Registry, t: Tracking, user: string): (r: (Tracking, string))
    ensures MemoryCurrent(reg, user).Some? && MemoryCurrent(reg, user).value.projectId != "" ==>
      r.1 == MemoryCurrent(reg, user).value.projectId && r.0 == t.(project := r.1)
    ensures MemoryCurrent(reg, user).None? || MemoryCurrent(reg, user).value.projectId == "" ==>
      r == (t, t.project)
  {
    var current := MemoryCurrent(reg, user);
    if current.Some? && current.value.projectId != "" then (t.(project := current.value.projectId), current.value.projectId)
    else (t, t.project)
  }

  /** The state an absent record reads as, field by field. */
  const Blank := MemoryClient.SessionState("", "", "", "", "", [], "", "", "", "")

  function OrBlank(s: Option<MemoryClient.SessionState>): (r: MemoryClient.SessionState)
    ensures s.Some? ==> r == s.value
    ensures s.None? ==> r.currentPhase == "" && r.currentTask == "" && r.lastCompleted == "" && r.blockers == []
                        && r.notes == "" && r.lastSummary == "" && r.nextAction == ""
  {
    if s.Some? then s.value else Blank
  }

  /** `v if v is not None else fallback`. */
  function Pick<T>(v: Option<T>, fallback: T): (r: T)
    ensures v.Some? ==> r == v.value
    ensures v.None? ==> r == fallback
  {
    if v.Some? then v.value else fallback
  }

  // ------------------------------------------------------------- start

  datatype DocReference = DocReference(name: string, docId: string, reason: string)

  datatype SessionContext = SessionContext(
    project: string, projectName: string, user: string, startedAt: Clock.Instant,
    currentPhase: string, currentTask: string, lastCompleted: string, blockers: seq<string>,
    recommendedDocs: seq<DocReference>, notes: string)

  const NoProjectNote := "プロジェクトが指定されていません。switch_project でプロジェクトを選択してください。"
  const NewSessionNote := "新しいセッションです。"

  function MissingConfigNote(project: string): string {
    "プロジェクト '" + project + "' の設定が見つかりません。"
  }

  function EmptyContext(project: string, user: string, now: Clock.Instant, notes: string): SessionContext {
    SessionContext(project, "", user, now, "", "", "", [], [], notes)
  }

  /** The project `start_session` works on: the given one, else Memory's
      pointer (which may be empty). */
  function StartProject(reg: Registry, project: Option<string>, user: string): string {
    if project.Some? then project.value
    else if MemoryCurrent(reg, user).Some? then MemoryCurrent(reg, user).value.projectId
    else ""
  }

  /** Whether a session on `p` can start: it is named and configured. */
  predicate Starts(reg: Registry, p: string, now: Clock.Instant) {
    p != "" && ProjectTools.ConfigFor(reg, p, now).Some?
  }

  /** `start_session`. Only a named project with a configuration starts a
      session: the start is tracked, the project becomes the user's current
      one in Memory and the stored state is presented, or a fresh one with
      a note saying so. Otherwise only an explanatory context comes back. */
  function StartSession(reg: Registry, t: Tracking, defaultUser: string, project: Option<string>, user: string,
                        now: Clock.Instant): (r: (Registry, Tracking, SessionContext))
    ensures var u := ProjectTools.Who(user, defaultUser);
      var p := StartProject(reg, project, u);
      var started := Starts(reg, p, now);
      && (!started ==> r.0 == reg && r.1 == t && r.2.projectName == "" && r.2.recommendedDocs == [])
      && (p == "" ==> r.2.notes == NoProjectNote)
      && (p != "" && !started ==> r.2.notes == MissingConfigNote(p))
      && (started ==> r.1 == Tracking(Some(now), p, u))
      && (started ==> r.2.projectName == ProjectTools.ConfigFor(reg, p, now).value.name)
      && (started && reg.memoryState == Up ==>
           MemoryClient.GetCurrentProject(r.0.memory, u) == Some(MemoryClient.CurrentProject(p, Clock.IsoFormat(now))))
      && (started ==> r.0 == reg.(memory := r.0.memory))
    ensures var u := ProjectTools.Who(user, defaultUser);
      var p := StartProject(reg, project, u);
      var stored := StoredState(reg, p, u);
      Starts(reg, p, now) && stored.Some? ==>
        r.2.currentPhase == stored.value.currentPhase && r.2.currentTask == stored.value.currentTask
        && r.2.lastCompleted == stored.value.lastCompleted && r.2.blockers == stored.value.blockers
        && r.2.notes == stored.value.notes
    ensures var u := ProjectTools.Who(user, defaultUser);
      var p := StartProject(reg, project, u);
      Starts(reg, p, now) && StoredState(reg, p, u).None? ==>
        r.2.currentPhase == "" && r.2.currentTask == "" && r.2.lastCompleted == "" && r.2.blockers == []
        && r.2.notes == NewSessionNote
  {
    var u := ProjectTools.Who(user, defaultUser);
    var p := StartProject(reg, project, u);
    if p == "" then (reg, t, EmptyContext("", u, now, NoProjectNote))
    else
      match ProjectTools.ConfigFor(reg, p, now)
      case None => (reg, t, EmptyContext(p, u, now, MissingConfigNote(p)))
      case Some(config) =>
        var stored := StoredState(reg, p, u);
        var memory := if reg.memoryState == Up then MemoryClient.SetCurrentProject(reg.memory, u, p, now) else reg.memory;
        var s := OrBlank(stored);
        var notes := if stored.Some? then s.notes else NewSessionNote;
        var docs := RecommendedDocs(reg, p, s.currentPhase, s.currentTask);
        (reg.(memory := memory), Tracking(Some(now), p, u),
         SessionContext(p, config.name, u, now, s.currentPhase, s.currentTask, s.lastCompleted, s.blockers, docs, notes))
  }

  // --------------------------------------------------------------- end

  const MemoryServer := "MCP Memory Server"

  datatype EndResult = EndResult(success: bool, durationSeconds: int, savedTo: seq<string>)

  /** `int((now - _session_start).total_seconds())`, or 0 when nothing started. */
  function Elapsed(t: Tracking, now: Clock.Instant): int {
    if t.start.Some? then Clock.ElapsedSeconds(t.start.value, now) else 0
  }

  /** `user or self._current_user or self.user_name`. */
  function SessionUser(t: Tracking, defaultUser: string, user: string): string {
    ProjectTools.Who(user, ProjectTools.Who(t.user, defaultUser))
  }

  /** `end_session`. With a project it always succeeds: phase, task and
      last completed task are carried over, blockers replaced only when
      given, and notes, summary and next action reset when omitted; the
      tracking is cleared whether or not Memory took the state. */
  function EndSession(reg: Registry, t: Tracking, defaultUser: string, summary: Option<string>,
                      nextAction: Option<string>, blockers: Option<seq<string>>, notes: Option<string>,
                      user: string, now: Clock.Instant): (r: (Registry, Tracking, EndResult))
    ensures var u := SessionUser(t, defaultUser, user);
      var p := CurrentProjectOf(reg, t, u).1;
      && (p == "" ==> r == (reg, t, EndResult(false, 0, [])))
      && (p != "" ==> r.2.success && r.1 == Idle && r.2.durationSeconds == Elapsed(t, now))
      && (p != "" ==> (r.2.savedTo == [MemoryServer] <==> reg.memoryState == Up))
      && (p != "" ==> (r.2.savedTo == [] <==> reg.memoryState != Up))
      && (reg.memoryState != Up ==> r.0 == reg)
    ensures var u := SessionUser(t, defaultUser, user);
      var p := CurrentProjectOf(reg, t, u).1;
      var before := OrBlank(StoredState(reg, p, u));
      p != "" && reg.memoryState == Up ==>
        var after := StoredState(r.0, p, u);
        after.Some? && after.value.project == p && after.value.user == u
        && after.value.currentPhase == before.currentPhase && after.value.currentTask == before.currentTask
        && after.value.lastCompleted == before.lastCompleted
        && after.value.blockers == Pick(blockers, before.blockers)
        && after.value.notes == Pick(notes, "") && after.value.lastSummary == Pick(summary, "")
        && after.value.nextAction == Pick(nextAction, "")
        && after.value.updatedAt == Clock.IsoFormat(now)
  {
    var u := SessionUser(t, defaultUser, user);
    var (_, p) := CurrentProjectOf(reg, t, u);
    if p == "" then (reg, t, EndResult(false, 0, []))
    else
      var before := OrBlank(StoredState(reg, p, u));
      var state := MemoryClient.SessionState(p, u, before.currentPhase, before.currentTask, before.lastCompleted,
        Pick(blockers, before.blockers), Pick(notes, ""), Pick(summary, ""), Pick(nextAction, ""), "");
      var (saved, ok) := SaveState(reg, state, now);
      (saved, Idle, EndResult(true, Elapsed(t, now), if ok then [MemoryServer] else []))
  }

  // -------------------------------------------------------------- save

  datatype SaveResult = SaveResult(success: bool, savedTo: seq<string>)

  datatype SaveRequest = SaveRequest(
    summary: Option<string>, nextAction: Option<string>, blockers: Option<seq<string>>, notes: Option<string>,
    currentPhase: Option<string>, currentTask: Option<string>)

  /** The state `save_session` writes: each field supplied or kept, and the
      last completed task always kept. */
  function SavedState(before: MemoryClient.SessionState, p: string, u: string, q: SaveRequest)
    : MemoryClient.SessionState
  {
    MemoryClient.SessionState(p, u, Pick(q.currentPhase, before.currentPhase), Pick(q.currentTask, before.currentTask),
      before.lastCompleted, Pick(q.blockers, before.blockers), Pick(q.notes, before.notes),
      Pick(q.summary, before.lastSummary), Pick(q.nextAction, before.nextAction), "")
  }

  /** `save_session`: like `end_session` but the session goes on and every
      omitted field keeps its stored value. */
  function SaveSession(reg: Registry, t: Tracking, defaultUser: string, q: SaveRequest, user: string,
                       now: Clock.Instant): (r: (Registry, Tracking, SaveResult))
    ensures var u := SessionUser(t, defaultUser, user);
      var (t1, p) := CurrentProjectOf(reg, t, u);
      && r.1 == t1
      && (p == "" ==> r == (reg, t, SaveResult(false, [])))
      && (p != "" ==> r.2.success && (r.2.savedTo == [MemoryServer] <==> reg.memoryState == Up))
      && (p != "" ==> (r.2.savedTo == [] <==> reg.memoryState != Up))
      && (reg.memoryState != Up ==> r.0 == reg)
    ensures var u := SessionUser(t, defaultUser, user);
      var p := CurrentProjectOf(reg, t, u).1;
      var before := OrBlank(StoredState(reg, p, u));
      p != "" && reg.memoryState == Up ==>
        var after := StoredState(r.0, p, u);
        after.Some? && after.value.project == p && after.value.user == u
        && after.value.currentPhase == Pick(q.currentPhase, before.currentPhase)
        && after.value.currentTask == Pick(q.currentTask, before.currentTask)
        && after.value.lastCompleted == before.lastCompleted
        && after.value.blockers == Pick(q.blockers, before.blockers)
        && after.value.notes == Pick(q.notes, before.notes)
        && after.value.lastSummary == Pick(q.summary, before.lastSummary)
        && after.value.nextAction == Pick(q.nextAction, before.nextAction)
  {
    var u := SessionUser(t, defaultUser, user);
    var (t1, p) := CurrentProjectOf(reg, t, u);
    if p == "" then (reg, t1, SaveResult(false, []))
    else
      var before := OrBlank(StoredState(reg, p, u));
      var (saved, ok) := SaveState(reg, SavedState(before, p, u, q), now);
      (saved, t1, SaveResult(true, if ok then [MemoryServer] else []))
  }

  /** `update_progress`: phase, task and blockers as supplied or kept; the
      last completed task becomes a non-empty `completedTask`; notes,
      summary and next action are kept. */
  function UpdateProgress(reg: Registry, t: Tracking, defaultUser: string, currentPhase: Option<string>,
                          currentTask: Option<string>, completedTask: Option<string>,
                          blockers: Option<seq<string>>, user: string, now: Clock.Instant)
    : (r: (Registry, Tracking, SaveResult))
    ensures var u := SessionUser(t, defaultUser, user);
      var (t1, p) := CurrentProjectOf(reg, t, u);
      && r.1 == t1
      && (p == "" ==> r == (reg, t, SaveResult(false, [])))
      && (p != "" ==> r.2.success && (r.2.savedTo == [MemoryServer] <==> reg.memoryState == Up))
      && (reg.memoryState != Up ==> r.0 == reg)
    ensures var u := SessionUser(t, defaultUser, user);
      var p := CurrentProjectOf(reg, t, u).1;
      var before := OrBlank(StoredState(reg, p, u));
      p != "" && reg.memoryState == Up ==>
        var after := StoredState(r.0, p, u);
        after.Some? && after.value.currentPhase == Pick(currentPhase, before.currentPhase)
        && after.value.currentTask == Pick(currentTask, before.currentTask)
        && (completedTask.Some? && completedTask.value != "" ==> after.value.lastCompleted == completedTask.value)
        && (completedTask.None? || completedTask.value == "" ==> after.value.lastCompleted == before.lastCompleted)
        && after.value.blockers == Pick(blockers, before.blockers)
        && after.value.notes == before.notes && after.value.lastSummary == before.lastSummary
        && after.value.nextAction == before.nextAction
  {
    var u := SessionUser(t, defaultUser, user);
    var (t1, p) := CurrentProjectOf(reg, t, u);
    if p == "" then (reg, t1, SaveResult(false, []))
    else
      var before := OrBlank(StoredState(reg, p, u));
      var last := if completedTask.Some? && completedTask.value != "" then completedTask.value else before.lastCompleted;
      var state := MemoryClient.SessionState(p, u, Pick(currentPhase, before.currentPhase),
        Pick(currentTask, before.currentTask), last, Pick(blockers, before.blockers),
        before.notes, before.lastSummary, before.nextAction, "");
      var (saved, ok) := SaveState(reg, state, now);
      (saved, t1, SaveResult(true, if ok then [MemoryServer] else []))
  }

  // ---------------------------------------------------------- lifecycle

  /** A session started on a project and ended without naming a user ends
      on that project and user: it succeeds, reports the time between the
      two calls and leaves no session active. */
  lemma {:induction false} StartThenEnd(reg: Registry, t: Tracking, defaultUser: string, project: Option<string>, user: string,
                     now: Clock.Instant, later: Clock.Instant, summary: Option<string>, nextAction: Option<string>,
                     blockers: Option<seq<string>>, notes: Option<string>)
    requires Starts(reg, StartProject(reg, project, ProjectTools.Who(user, defaultUser)), now)
    ensures var (reg1, t1, _) := StartSession(reg, t, defaultUser, project, user, now);
      var (reg2, t2, res) := EndSession(reg1, t1, defaultUser, summary, nextAction, blockers, notes, "", later);
      res.success && res.durationSeconds == Clock.ElapsedSeconds(now, later)
      && !IsSessionActive(t2)
  {
    var u := ProjectTools.Who(user, defaultUser);
    var p := StartProject(reg, project, u);
    var (reg1, t1, _) := StartSession(reg, t, defaultUser, project, user, now);
    EndAfterStart(reg1, defaultUser, p, u, now, later, summary, nextAction, blockers, notes);
  }

  /** Ending a session tracked on project `p` for user `u`, whose Memory
      pointer (if Memory answers) names `p` too. */
  lemma {:induction false} EndAfterStart(reg: Registry, defaultUser: string, p: string, u: string,
                                         now: Clock.Instant, later: Clock.Instant, summary: Option<string>,
                                         nextAction: Option<string>, blockers: Option<seq<string>>,
                                         notes: Option<string>)
    requires p != "" && (u != "" || defaultUser == "")
    requires reg.memoryState == Up ==>
      MemoryClient.GetCurrentProject(reg.memory, u) == Some(MemoryClient.CurrentProject(p, Clock.IsoFormat(now)))
    ensures var r := EndSession(reg, Tracking(Some(now), p, u), defaultUser, summary, nextAction, blockers, notes, "", later);
      r.2.success && r.2.durationSeconds == Clock.ElapsedSeconds(now, later) && !IsSessionActive(r.1)
  {
    var t := Tracking(Some(now), p, u);
    assert SessionUser(t, defaultUser, "") == u;
    assert CurrentProjectOf(reg, t, u).1 == p;
  }

  /** What `save_session` stores, `start_session` presents on the next start
      of the same project by the same user. */
  lemma {:induction false} SaveThenStart(reg: Registry, t: Tracking, defaultUser: string, q: SaveRequest, user: string,
                      now: Clock.Instant, later: Clock.Instant)
    requires reg.memoryState == Up
    requires var u := SessionUser(t, defaultUser, user);
      var p := CurrentProjectOf(reg, t, u).1;
      p != "" && ProjectTools.ConfigFor(reg, p, later).Some?
    ensures var u := SessionUser(t, defaultUser, user);
      var p := CurrentProjectOf(reg, t, u).1;
      var before := OrBlank(StoredState(reg, p, u));
      var (reg1, t1, _) := SaveSession(reg, t, defaultUser, q, user, now);
      var ctx := StartSession(reg1, t1, u, Some(p), u, later).2;
      ctx.currentPhase == Pick(q.currentPhase, before.currentPhase)
      && ctx.currentTask == Pick(q.currentTask, before.currentTask)
      && ctx.blockers == Pick(q.blockers, before.blockers)
      && ctx.notes == Pick(q.notes, before.notes)
      && ctx.lastCompleted == before.lastCompleted
  {
    var u := SessionUser(t, defaultUser, user);
    var p := CurrentProjectOf(reg, t, u).1;
    var (reg1, t1, _) := SaveSession(reg, t, defaultUser, q, user, now);
    MemoryOnly(reg, reg1, p, later);
    StartPresents(reg1, t1, u, p, later);
  }

  /** A change to Memory alone leaves every project configuration as it was. */
  lemma {:induction false} MemoryOnly(reg: Registry, reg1: Registry, p: string, later: Clock.Instant)
    requires reg1 == reg.(memory := reg1.memory)
    ensures ProjectTools.ConfigFor(reg1, p, later) == ProjectTools.ConfigFor(reg, p, later)
  {
    assert GetConfig(reg1, p) == GetConfig(reg, p);
  }

  /** Starting a session on a configured project with a stored state
      presents that state. */
  lemma {:induction false} StartPresents(reg: Registry, t: Tracking, u: string, p: string, now: Clock.Instant)
    requires Starts(reg, p, now) && StoredState(reg, p, u).Some?
    ensures var ctx := StartSession(reg, t, u, Some(p), u, now).2;
      var s := StoredState(reg, p, u).value;
      ctx.currentPhase == s.currentPhase && ctx.currentTask == s.currentTask
      && ctx.blockers == s.blockers && ctx.notes == s.notes && ctx.lastCompleted == s.lastCompleted
  {
    assert ProjectTools.Who(u, u) == u;
  }

  // ------------------------------------------------------ recommendations

  /** `current_task.split(":")[0].strip()` when the task has a colon. */
  function TaskNumber(task: string): (r: string)
    ensures ':' !in r
  {
    if ':' in task then Strip(Split(task, ':')[0])
    else
      task
  }

  /** `current_task.split(":")[-1].strip()` when the task has a colon. */
  function TaskName(task: string): string {
    if ':' in task then var parts := Split(task, ':'); Strip(parts[|parts| - 1]) else task
  }

  /** "P" + the phase's digits + "-" + the task number, when the phase and
      task are given and both parts come out non-empty; else "". */
  function PhaseTaskKey(phase: string, task: string): (k: string)
    ensures k != "" <==> phase != "" && task != "" && DigitsOf(phase) != "" && TaskNumber(task) != ""
    ensures k != "" ==> k == "P" + DigitsOf(phase) + "-" + TaskNumber(task)
  {
    if phase != "" && task != "" && DigitsOf(phase) != "" && TaskNumber(task) != "" then
      "P" + DigitsOf(phase) + "-" + TaskNumber(task)
    else ""
  }

  function PhaseReason(key: string): string {
    "現在タスク (" + key + ") の関連ドキュメント"
  }

  function NameReason(name: string): string {
    "'" + name + "' に関連"
  }

  /** The project's catalog documents a search returns, as far as RAG answers. */
  function CatalogHits(reg: Registry, query: string, project: string, phaseTask: string, n: int)
    : (r: seq<RagIndex.Doc>)
    ensures n >= 0 ==> |r| <= n
    ensures reg.ragState != Up ==> r == []
  {
    if reg.ragState == Up then RagClient.SearchCatalog(reg.rag, query, project, "", phaseTask, n).documents else []
  }

  function Ref(d: RagIndex.Doc, reason: string): DocReference {
    DocReference(Json.StrField(d.metadata, "name", ""), Json.StrField(d.metadata, "doc_id", ""), reason)
  }

  /** One reference per hit, except hits whose doc id is in `seen`. */
  function Refs(docs: seq<RagIndex.Doc>, reason: string, seen: set<string>): (r: seq<DocReference>)
    ensures |r| <= |docs|
    ensures forall i :: 0 <= i < |r| ==> r[i].reason == reason && r[i].docId !in seen
    ensures forall x :: x in r ==> exists d :: d in docs && x == Ref(d, reason)
    ensures forall d :: d in docs && Ref(d, reason).docId !in seen ==> Ref(d, reason) in r
  {
    if |docs| == 0 then []
    else
      var rest := Refs(docs[1..], reason, seen);
      if Ref(docs[0], reason).docId in seen then rest else [Ref(docs[0], reason)] + rest
  }

  /** The doc ids of some references. */
  function RefIds(refs: seq<DocReference>): set<string> {
    set i | 0 <= i < |refs| :: refs[i].docId
  }

  /** The references of the search by phase-task key: one per hit, none
      without a key. */
  function PhaseRefs(reg: Registry, project: string, key: string): (r: seq<DocReference>)
    ensures |r| <= 5
    ensures key == "" ==> r == []
    ensures forall x :: x in r ==> exists d :: d in CatalogHits(reg, key, project, key, 5) && x == Ref(d, PhaseReason(key))
    ensures key != "" ==> forall d :: d in CatalogHits(reg, key, project, key, 5) ==> Ref(d, PhaseReason(key)) in r
  {
    if key != "" then Refs(CatalogHits(reg, key, project, key, 5), PhaseReason(key), {}) else []
  }

  /** The hits of the search by task name, asked for the slots left. */
  function NameHits(reg: Registry, project: string, task: string, filled: nat): seq<RagIndex.Doc> {
    CatalogHits(reg, TaskName(task), project, "", 5 - filled)
  }

  /** The references of the search by task name: one per hit whose doc id
      the first search did not recommend, and none when there is no task or
      the first search filled all five slots. */
  function NameRefs(reg: Registry, project: string, task: string, first: seq<DocReference>): seq<DocReference> {
    if task != "" && |first| < 5 then
      Refs(NameHits(reg, project, task, |first|), NameReason(TaskName(task)), RefIds(first))
    else []
  }

  /** `_get_recommended_docs`: at most five references, first those filed
      under the phase-task key, then those matching the task name that were
      not already recommended by the first search. */
  function RecommendedDocs(reg: Registry, project: string, phase: string, task: string): (r: seq<DocReference>)
    ensures |r| <= 5
    ensures reg.ragState != Up ==> r == []
    ensures PhaseTaskKey(phase, task) == "" ==> forall i :: 0 <= i < |r| ==> r[i].reason == NameReason(TaskName(task))
    ensures task == "" ==> r == []
    ensures forall i, j :: 0 <= i < j < |r| && FromSearches(r[i], r[j], PhaseReason(PhaseTaskKey(phase, task))) ==>
      r[i].docId != r[j].docId
  {
    var key := PhaseTaskKey(phase, task);
    var first := PhaseRefs(reg, project, key);
    var seen := RefIds(first);
    var second := NameRefs(reg, project, task, first);
    ReasonsDiffer(key, TaskName(task));
    MergedRefs(first, second, seen, PhaseReason(key), NameReason(TaskName(task)));
    first + second
  }

  /** The recommendations are the phase-task search's references, followed
      by a reference for each hit of the task-name search whose doc id the
      first search did not already recommend, and nothing else. */
  lemma {:induction false} RecommendedFromSearches(reg: Registry, project: string, phase: string, task: string)
    ensures var r := RecommendedDocs(reg, project, phase, task);
      var first := PhaseRefs(reg, project, PhaseTaskKey(phase, task));
      |first| <= |r| && r[..|first|] == first
    ensures var r := RecommendedDocs(reg, project, phase, task);
      var first := PhaseRefs(reg, project, PhaseTaskKey(phase, task));
      forall i :: |first| <= i < |r| ==>
        r[i].reason == NameReason(TaskName(task)) && r[i].docId !in RefIds(first)
        && exists d :: d in NameHits(reg, project, task, |first|) && r[i] == Ref(d, NameReason(TaskName(task)))
    ensures var r := RecommendedDocs(reg, project, phase, task);
      var first := PhaseRefs(reg, project, PhaseTaskKey(phase, task));
      task != "" && |first| < 5 ==>
        forall d :: d in NameHits(reg, project, task, |first|) && Ref(d, NameReason(TaskName(task))).docId !in RefIds(first)
          ==> Ref(d, NameReason(TaskName(task))) in r[|first|..]
  {
    var first := PhaseRefs(reg, project, PhaseTaskKey(phase, task));
    var second := NameRefs(reg, project, task, first);
    assert RecommendedDocs(reg, project, phase, task) == first + second;
    JoinedRefs(first, second);
  }

  /** The parts of two joined reference lists. */
  lemma {:induction false} JoinedRefs(first: seq<DocReference>, second: seq<DocReference>)
    ensures (first + second)[..|first|] == first && (first + second)[|first|..] == second
    ensures forall i :: |first| <= i < |first + second| ==> (first + second)[i] in second
  {
    var r := first + second;
    forall i | |first| <= i < |r|
      ensures r[i] in second
    {
      assert r[i] == second[i - |first|];
    }
  }

  /** Joining the two searches' references: a reference from the second
      search never repeats a document of the first. */
  lemma {:induction false} MergedRefs(first: seq<DocReference>, second: seq<DocReference>, seen: set<string>,
                                      phaseReason: string, nameReason: string)
    requires phaseReason != nameReason
    requires forall i :: 0 <= i < |first| ==> first[i].reason == phaseReason && first[i].docId in seen
    requires forall i :: 0 <= i < |second| ==> second[i].reason == nameReason && second[i].docId !in seen
    ensures forall i, j :: 0 <= i < j < |first + second| && FromSearches((first + second)[i], (first + second)[j], phaseReason) ==>
      (first + second)[i].docId != (first + second)[j].docId
  {
    var r := first + second;
    forall i, j | 0 <= i < j < |r| && FromSearches(r[i], r[j], phaseReason)
      ensures r[i].docId != r[j].docId
    {
      assert i < |first| && j >= |first|;
      assert r[i] == first[i] && r[j] == second[j - |first|];
    }
  }

  predicate FromSearches(a: DocReference, b: DocReference, phaseReason: string) {
    a.reason == phaseReason && b.reason != phaseReason
  }

  /** The two reasons never coincide, so they tell the searches apart. */
  lemma {:induction false} ReasonsDiffer(key: string, name: string)
    ensures PhaseReason(key) != NameReason(name)
  {
    assert PhaseReason(key)[0] != NameReason(name)[0];
  }
}
