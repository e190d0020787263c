/** `ProgressRepository`: one sheet per project in the progress spreadsheet,
    task rows in columns A..G under a header row. */
module ProgressRepository {
  import opened Wrappers
  import opened Strings
  import Clock
  import Seqs
  import opened Sheet
  import opened ProgressModel
  import opened PhaseGroups

  /** The sheets of the progress spreadsheet by name; a project's sheet is
      named after the project. A read of a missing sheet raises in the source
      and fails here. */
  type Sheets = map<string, Grid>

  /** A row as a range ending at column G returns it. */
  function UpToG(row: Row): (r: Row)
    ensures |r| <= |ProgressSheetHeaders| && |r| <= |row|
    ensures r == row[..|r|]
    ensures |row| <= |ProgressSheetHeaders| ==> r == row
  {
    if |row| <= |ProgressSheetHeaders| then row else row[..|ProgressSheetHeaders|]
  }

  /** `_ensure_project_sheet`: fails without a spreadsheet or without the
      project's sheet; writes the headers over A1:G1 unless they are there. */
  function EnsureProjectSheet(spreadsheetId: string, sheets: Sheets, project: string): (r: Option<Sheets>)
    ensures r.Some? <==> spreadsheetId != "" && project in sheets
    ensures r.Some? ==> r.value.Keys == sheets.Keys
    ensures r.Some? ==> |r.value[project]| > 0 && UpToG(r.value[project][0]) == ProgressSheetHeaders
    ensures r.Some? ==> forall name :: name in sheets && name != project ==> r.value[name] == sheets[name]
    ensures r.Some? ==> (|r.value[project]| == (if |sheets[project]| == 0 then 1 else |sheets[project]|) &&
      forall i :: 1 <= i < |sheets[project]| ==> r.value[project][i] == sheets[project][i])
  {
    if spreadsheetId == "" || project !in sheets then None
    else
      var g := sheets[project];
      if |g| > 0 && UpToG(g[0]) == ProgressSheetHeaders then Some(sheets)
      else
        var first := Overwrite(if |g| > 0 then g[0] else [], ProgressSheetHeaders);
        assert first[..|ProgressSheetHeaders|] == ProgressSheetHeaders;
        var g' := if |g| > 0 then g[0 := first] else [first];
        Some(sheets[project := g'])
  }

  /** Ensuring the sheet a second time changes nothing. */
  lemma {:induction false} EnsureIdempotent(spreadsheetId: string, sheets: Sheets, project: string)
    requires EnsureProjectSheet(spreadsheetId, sheets, project).Some?
    ensures var once := EnsureProjectSheet(spreadsheetId, sheets, project).value;
      EnsureProjectSheet(spreadsheetId, once, project) == Some(once)
  {
  }

  // ---- get_progress ----

  /** The rows the loop keeps: non-empty, inside the phase filter ("" for
      none), and not completed unless completed tasks are asked for. */
  predicate Keep(row: Row, phase: string, includeCompleted: bool) {
    |row| > 0 && (phase == "" || PhaseOf(row) == phase)
    && (includeCompleted || TaskFromSheetRow(row).status != Completed)
  }

  /** The A2:G range of a grid. */
  function DataRows(g: Grid): (r: seq<Row>)
    ensures |r| == if |g| == 0 then 0 else |g| - 1
    ensures forall i :: 1 <= i < |g| ==> r[i - 1] == UpToG(g[i])
  {
    if |g| == 0 then [] else seq(|g| - 1, i requires 0 <= i < |g| - 1 => UpToG(g[i + 1]))
  }

  function KeptRows(g: Grid, phase: string, includeCompleted: bool): (r: seq<Row>)
    ensures forall i :: 0 <= i < |r| ==> Keep(r[i], phase, includeCompleted)
    ensures forall row :: row in DataRows(g) && Keep(row, phase, includeCompleted) ==> row in r
  {
    Seqs.Filter(row => Keep(row, phase, includeCompleted), DataRows(g))
  }

  /** The repository's phase status: there is no "blocked" here, and a
      completed task does not make a phase in progress. */
  function RepoStatus(tasks: seq<TaskProgress>): (r: string)
    ensures r == Completed || r == InProgress || r == NotStarted
    ensures r == Completed <==> AllWith(tasks, Completed)
    ensures r == InProgress <==> !AllWith(tasks, Completed) && AnyWith(tasks, InProgress)
  {
    if AllWith(tasks, Completed) then Completed
    else if AnyWith(tasks, InProgress) then InProgress
    else NotStarted
  }

  function PhasesOf(kept: seq<Row>): (r: seq<PhaseProgress>)
    ensures |r| == |Names(kept)|
    ensures forall i :: 0 <= i < |r| ==> r[i].phase == Names(kept)[i]
    ensures forall i :: 0 <= i < |r| ==>
      r[i].tasks == Tasks(RowsOf(kept, r[i].phase)) && r[i].status == RepoStatus(r[i].tasks)
  {
    var names := Names(kept);
    seq(|names|, i requires 0 <= i < |names| =>
      var tasks := Tasks(RowsOf(kept, names[i]));
      PhaseProgress(names[i], RepoStatus(tasks), tasks))
  }

  /** The `current_phase` loop: an in-progress phase always takes over; a
      non-completed phase is taken while nothing is chosen yet. */
  function CurrentPhase(ps: seq<PhaseProgress>): string
  {
    if |ps| == 0 then ""
    else
      var cur := CurrentPhase(ps[..|ps| - 1]);
      var p := ps[|ps| - 1];
      var cur' := if p.status == InProgress then p.phase else cur;
      if cur' == "" && p.status != Completed then p.phase else cur'
  }

  datatype ProgressResult = ProgressResult(success: bool, project: string, currentPhase: string,
                                           phases: seq<PhaseProgress>)

  /** `get_progress`: the kept rows grouped by phase in order of first
      appearance. */
  function GetProgress(sheets: Sheets, project: string, phase: string, includeCompleted: bool): (r: ProgressResult)
    ensures r.success <==> project in sheets
    ensures !r.success ==> r.phases == [] && r.currentPhase == ""
    ensures r.success ==> var kept := KeptRows(sheets[project], phase, includeCompleted);
      r.phases == PhasesOf(kept) && r.currentPhase == CurrentPhase(r.phases)
    ensures forall i, j :: 0 <= i < |r.phases| && 0 <= j < |r.phases[i].tasks| && !includeCompleted ==>
      r.phases[i].tasks[j].status != Completed
    ensures forall i :: 0 <= i < |r.phases| && phase != "" ==> r.phases[i].phase == phase
  {
    if project !in sheets then ProgressResult(false, project, "", [])
    else
      var kept := KeptRows(sheets[project], phase, includeCompleted);
      var ps := PhasesOf(kept);
      NamesInFilter(kept, phase, includeCompleted);
      KeptNotCompleted(kept, phase, includeCompleted);
      ProgressResult(true, project, CurrentPhase(ps), ps)
  }

  lemma {:induction false} NamesInFilter(kept: seq<Row>, phase: string, includeCompleted: bool)
    requires forall i :: 0 <= i < |kept| ==> Keep(kept[i], phase, includeCompleted)
    ensures forall i :: 0 <= i < |Names(kept)| && phase != "" ==> Names(kept)[i] == phase
  {
    forall i | 0 <= i < |Names(kept)| && phase != ""
      ensures Names(kept)[i] == phase
    {
      assert Names(kept)[i] in AllPhases(kept);
    }
  }

  lemma {:induction false} KeptNotCompleted(kept: seq<Row>, phase: string, includeCompleted: bool)
    requires forall i :: 0 <= i < |kept| ==> Keep(kept[i], phase, includeCompleted)
    ensures forall i, j :: 0 <= i < |PhasesOf(kept)| && 0 <= j < |PhasesOf(kept)[i].tasks| && !includeCompleted ==>
      PhasesOf(kept)[i].tasks[j].status != Completed
  {
    var ps := PhasesOf(kept);
    forall i, j | 0 <= i < |ps| && 0 <= j < |ps[i].tasks| && !includeCompleted
      ensures ps[i].tasks[j].status != Completed
    {
      var rows := RowsOf(kept, ps[i].phase);
      assert rows[j] in kept;
    }
  }

  /** Every row the filter keeps is listed, as its task, under its own phase. */
  lemma {:induction false} KeptRowListed(sheets: Sheets, project: string, phase: string, includeCompleted: bool, row: Row)
    requires project in sheets
    requires row in DataRows(sheets[project]) && Keep(row, phase, includeCompleted)
    ensures Listed(GetProgress(sheets, project, phase, includeCompleted).phases, PhaseOf(row), TaskFromSheetRow(row))
  {
    var kept := KeptRows(sheets[project], phase, includeCompleted);
    assert row in kept;
    GroupListed(kept, row);
  }

  lemma {:induction false} GroupListed(kept: seq<Row>, row: Row)
    requires row in kept
    ensures Listed(PhasesOf(kept), PhaseOf(row), TaskFromSheetRow(row))
  {
    var ps := PhasesOf(kept);
    var name := PhaseOf(row);
    var k :| 0 <= k < |kept| && kept[k] == row;
    assert AllPhases(kept)[k] == name;
    var names := Names(kept);
    assert name in names;
    var i :| 0 <= i < |names| && names[i] == name;
    var rows := RowsOf(kept, name);
    assert row in rows;
    var j :| 0 <= j < |rows| && rows[j] == row;
    var tasks := Tasks(rows);
    assert ps[i].phase == name && ps[i].tasks == tasks;
    assert tasks[j] == TaskFromSheetRow(row);
    assert TaskFromSheetRow(row) in ps[i].tasks;
  }

  /** Phase `i` is in progress and no later phase is. */
  predicate LastInProgress(ps: seq<PhaseProgress>, i: int) {
    0 <= i < |ps| && ps[i].status == InProgress && forall j :: i < j < |ps| ==> ps[j].status != InProgress
  }

  /** Phase `i` is the first phase that is not completed. */
  predicate FirstOpen(ps: seq<PhaseProgress>, i: int) {
    0 <= i < |ps| && ps[i].status != Completed && forall j :: 0 <= j < i ==> ps[j].status == Completed
  }

  predicate NoneInProgress(ps: seq<PhaseProgress>) {
    forall i :: 0 <= i < |ps| ==> ps[i].status != InProgress
  }

  /** With non-empty phase names, `current_phase` is the last in-progress
      phase; without one it is the first phase that is not completed, and ""
      when every phase is completed. */
  lemma {:induction false} CurrentPhaseChoice(ps: seq<PhaseProgress>)
    requires forall i :: 0 <= i < |ps| ==> ps[i].phase != ""
    ensures forall i :: LastInProgress(ps, i) ==> CurrentPhase(ps) == ps[i].phase
    ensures NoneInProgress(ps) ==> forall i :: FirstOpen(ps, i) ==> CurrentPhase(ps) == ps[i].phase
    ensures (forall i :: 0 <= i < |ps| ==> ps[i].status == Completed) ==> CurrentPhase(ps) == ""
    decreases |ps|
  {
    if |ps| > 0 {
      var front := ps[..|ps| - 1];
      var p := ps[|ps| - 1];
      CurrentPhaseChoice(front);
      forall i | LastInProgress(ps, i)
        ensures CurrentPhase(ps) == ps[i].phase
      {
        if i < |ps| - 1 {
          assert front[i] == ps[i];
          assert CurrentPhase(front) == ps[i].phase;
        }
      }
      if NoneInProgress(ps) {
        assert NoneInProgress(front);
        forall i | FirstOpen(ps, i)
          ensures CurrentPhase(ps) == ps[i].phase
        {
          if i < |ps| - 1 {
            assert front[i] == ps[i];
            assert CurrentPhase(front) == ps[i].phase;
          } else {
            assert forall j :: 0 <= j < |front| ==> front[j].status == Completed;
          }
        }
      }
    }
  }

  // ---- update_task ----

  datatype UpdateResult = UpdateResult(success: bool, project: string, taskId: string,
                                       updatedFields: seq<string>)

  /** The supplied changes; `None` leaves the field as stored. */
  datatype TaskChange = TaskChange(status: Option<string>, blockers: Option<seq<string>>, notes: Option<string>)

  /** The task record after the changes; a status of "completed" stamps the
      completion time, even when the task was already completed. */
  function Changed(t: TaskProgress, c: TaskChange, now: Clock.Instant): (r: TaskProgress)
    ensures r.taskId == t.taskId && r.name == t.name
    ensures r.status == c.status.GetOr(t.status)
    ensures r.blockers == c.blockers.GetOr(t.blockers)
    ensures r.notes == c.notes.GetOr(t.notes)
    ensures r.completedAt == if c.status == Some(Completed) then Some(now) else t.completedAt
  {
    var t1 := if c.status.Some? then t.(status := c.status.value) else t;
    var t2 := if c.status == Some(Completed) then t1.(completedAt := Some(now)) else t1;
    var t3 := if c.blockers.Some? then t2.(blockers := c.blockers.value) else t2;
    if c.notes.Some? then t3.(notes := c.notes.value) else t3
  }

  function ChangedFields(c: TaskChange): (r: seq<string>)
    ensures "status" in r <==> c.status.Some?
    ensures "completed_at" in r <==> c.status == Some(Completed)
    ensures "blockers" in r <==> c.blockers.Some?
    ensures "notes" in r <==> c.notes.Some?
    ensures |r| == (if c.status.Some? then 1 else 0) + (if c.status == Some(Completed) then 1 else 0)
                   + (if c.blockers.Some? then 1 else 0) + (if c.notes.Some? then 1 else 0)
  {
    (if c.status.Some? then ["status"] else [])
    + (if c.status == Some(Completed) then ["completed_at"] else [])
    + (if c.blockers.Some? then ["blockers"] else [])
    + (if c.notes.Some? then ["notes"] else [])
  }

  /** The row written back: the task read from it, changed, under the
      row's own phase, over columns A..G. */
  function RowAfter(row: Row, c: TaskChange, now: Clock.Instant): (r: Row)
    requires |row| > 0
    ensures |r| >= |ProgressSheetHeaders| && r[0] == row[0]
    ensures |r| == if |row| > |ProgressSheetHeaders| then |row| else |ProgressSheetHeaders|
    ensures forall j :: |ProgressSheetHeaders| <= j < |row| ==> r[j] == row[j]
  {
    Overwrite(row, TaskToSheetRow(row[0], Changed(TaskFromSheetRow(UpToG(row)), c, now)))
  }

  /** `update_task`: the first row of the sheet, header included, with the
      id in column B is read as a task, changed and written back over A..G. */
  function UpdateTask(sheets: Sheets, project: string, taskId: string, c: TaskChange, now: Clock.Instant)
    : (r: (Sheets, UpdateResult))
    ensures r.1.success <==> project in sheets && FindRowFrom(sheets[project], 1, taskId, 0).Some?
    ensures !r.1.success ==> r.0 == sheets && r.1.updatedFields == []
    ensures r.1.success ==> r.1.updatedFields == ChangedFields(c)
    ensures r.1.success ==> var g := sheets[project]; var k := FindRowFrom(g, 1, taskId, 0).value;
      r.0 == sheets[project := g[k := RowAfter(g[k], c, now)]]
  {
    if project !in sheets then (sheets, UpdateResult(false, project, taskId, []))
    else
      var g := sheets[project];
      match FindRowFrom(g, 1, taskId, 0)
      case None => (sheets, UpdateResult(false, project, taskId, []))
      case Some(k) =>
        (sheets[project := g[k := RowAfter(g[k], c, now)]], UpdateResult(true, project, taskId, ChangedFields(c)))
  }

  /** A task is read from columns B..G only. */
  lemma {:induction false} FromFirstSeven(row: Row)
    ensures TaskFromSheetRow(UpToG(row)) == TaskFromSheetRow(row)
  {
  }

  lemma {:induction false} OverwriteRead(row: Row, written: Row)
    requires |written| == |ProgressSheetHeaders|
    ensures TaskFromSheetRow(Overwrite(row, written)) == TaskFromSheetRow(written)
  {
  }

  /** Reading the updated row back gives the changed task: the supplied
      status, blockers and notes, the completion time when the new status
      is "completed", and everything else as it was. */
  lemma {:induction false} UpdateReadBack(sheets: Sheets, project: string, taskId: string, c: TaskChange, now: Clock.Instant)
    requires Clock.Valid(now)
    requires c.blockers.Some? ==> AllListItems(c.blockers.value)
    requires UpdateTask(sheets, project, taskId, c, now).1.success
    ensures var g := sheets[project]; var k := FindRowFrom(g, 1, taskId, 0).value;
      var before := TaskFromSheetRow(g[k]);
      var t := TaskFromSheetRow(UpdateTask(sheets, project, taskId, c, now).0[project][k]);
      t.taskId == taskId && t.name == before.name && t.status == c.status.GetOr(before.status) &&
      t.blockers == c.blockers.GetOr(before.blockers) && t.notes == c.notes.GetOr(before.notes) &&
      t.completedAt == (if c.status == Some(Completed) then Some(now) else before.completedAt)
  {
    var g := sheets[project];
    var k := FindRowFrom(g, 1, taskId, 0).value;
    var before := TaskFromSheetRow(g[k]);
    var t := Changed(before, c, now);
    FromFirstSeven(g[k]);
    assert RowSafe(t);
    TaskRowRoundTrip(g[k][0], t);
    OverwriteRead(g[k], TaskToSheetRow(g[k][0], t));
  }

  // ---- add_task ----

  /** The new task's record: not started, no blockers, the description as notes. */
  function NewTask(taskId: string, name: string, description: string): TaskProgress {
    TaskProgress(taskId, name, NotStarted, [], None, description)
  }

  /** `add_task`: appends the task's row under the given phase. */
  function AddTask(sheets: Sheets, project: string, phase: string, taskId: string, name: string,
                   description: string): (r: (Sheets, UpdateResult))
    ensures r.1.success <==> project in sheets
    ensures !r.1.success ==> r.0 == sheets && r.1.updatedFields == []
    ensures r.1.success ==> r.1.updatedFields == ["created"]
    ensures r.1.success ==> r.0 == sheets[project := sheets[project] + [TaskToSheetRow(phase, NewTask(taskId, name, description))]]
  {
    if project !in sheets then (sheets, UpdateResult(false, project, taskId, []))
    else
      var row := TaskToSheetRow(phase, NewTask(taskId, name, description));
      (sheets[project := sheets[project] + [row]], UpdateResult(true, project, taskId, ["created"]))
  }

  /** An added task shows up, not started, under its phase in the progress
      read that leaves completed tasks out. */
  lemma {:induction false} AddThenGet(sheets: Sheets, project: string, phase: string, taskId: string, name: string,
                   description: string)
    requires project in sheets && |sheets[project]| > 0
    ensures var after := AddTask(sheets, project, phase, taskId, name, description).0;
      Listed(GetProgress(after, project, "", false).phases, phase, NewTask(taskId, name, description))
  {
    var t := NewTask(taskId, name, description);
    var row := TaskToSheetRow(phase, t);
    var after := AddTask(sheets, project, phase, taskId, name, description).0;
    var g := after[project];
    assert g[|g| - 1] == row;
    assert DataRows(g)[|g| - 2] == row;
    TaskRowRoundTrip(phase, t);
    KeptRowListed(after, project, "", false, row);
  }

  // ---- get_current_task ----

  /** Every (phase, task) pair, phase by phase, in listed order. */
  function Flatten(ps: seq<PhaseProgress>): (r: seq<(string, TaskProgress)>)
    ensures forall x :: x in r <==> exists i :: 0 <= i < |ps| && x.0 == ps[i].phase && x.1 in ps[i].tasks
  {
    if |ps| == 0 then []
    else
      var front := ps[..|ps| - 1];
      var p := ps[|ps| - 1];
      var pairs := seq(|p.tasks|, j requires 0 <= j < |p.tasks| => (p.phase, p.tasks[j]));
      assert forall x :: x in pairs <==> x.0 == p.phase && x.1 in p.tasks by {
        forall x: (string, TaskProgress) | x.0 == p.phase && x.1 in p.tasks
          ensures x in pairs
        {
          var j :| 0 <= j < |p.tasks| && p.tasks[j] == x.1;
          assert pairs[j] == x;
        }
      }
      Flatten(front) + pairs
  }

  /** Pair `i` is the first whose task has the given status. */
  predicate FirstPair(pairs: seq<(string, TaskProgress)>, i: int, status: string) {
    0 <= i < |pairs| && pairs[i].1.status == status && forall j :: 0 <= j < i ==> pairs[j].1.status != status
  }

  /** The index of the first pair whose task has the given status. */
  function FirstWith(pairs: seq<(string, TaskProgress)>, status: string): (r: Option<nat>)
    ensures r.None? <==> forall i :: 0 <= i < |pairs| ==> pairs[i].1.status != status
    ensures r.Some? ==> (r.value < |pairs| && pairs[r.value].1.status == status &&
      forall i :: 0 <= i < r.value ==> pairs[i].1.status != status)
  {
    if |pairs| == 0 then None
    else if pairs[0].1.status == status then Some(0)
    else
      match FirstWith(pairs[1..], status)
      case None => None
      case Some(i) => Some(i + 1)
  }

  /** The first in-progress pair, else the first not-started one, as
      (phase, task id). */
  function CurrentOf(pairs: seq<(string, TaskProgress)>): (r: Option<(string, string)>)
    ensures r.Some? <==> exists i :: 0 <= i < |pairs| && pairs[i].1.status in {InProgress, NotStarted}
    ensures forall i :: FirstPair(pairs, i, InProgress) ==> r == Some((pairs[i].0, pairs[i].1.taskId))
    ensures (forall i :: 0 <= i < |pairs| ==> pairs[i].1.status != InProgress) ==>
      forall i :: FirstPair(pairs, i, NotStarted) ==> r == Some((pairs[i].0, pairs[i].1.taskId))
  {
    match FirstWith(pairs, InProgress)
    case Some(i) => Some((pairs[i].0, pairs[i].1.taskId))
    case None =>
      match FirstWith(pairs, NotStarted)
      case Some(i) => Some((pairs[i].0, pairs[i].1.taskId))
      case None => None
  }

  /** `get_current_task`: over the progress without completed tasks, the
      first in-progress task, else the first not-started one; `None` when
      the sheet cannot be read. */
  function GetCurrentTask(sheets: Sheets, project: string): (r: Option<(string, string)>)
    ensures project !in sheets ==> r.None?
    ensures r == CurrentOf(Flatten(GetProgress(sheets, project, "", false).phases))
  {
    var progress := GetProgress(sheets, project, "", false);
    if !progress.success || |progress.phases| == 0 then None
    else CurrentOf(Flatten(progress.phases))
  }
}
