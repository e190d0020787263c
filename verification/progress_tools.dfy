/** The progress tools over the A:J range of a project's progress sheet:
    reading the phases, changing a task's status or fields, adding and
    deleting tasks. The sheet is named by the project's configuration; a
    status change is also recorded in the session state kept in Memory. */
module ProgressTools {
  import opened Wrappers
  import Clock
  import CatalogModel
  import MemoryClient
  import ProjectModel
  import opened ProjectRegistry
  import ProjectTools
  import SessionTools
  import opened Strings
  import opened Sheet
  import opened ProgressModel
  import opened PhaseGroups
  import opened ProgressRows

  // ---- locating the sheet ----

  /** The project a call works on and its configuration: `NoProject` when
      neither an argument nor the user's current project names one,
      `NoConfig` when the project has no readable configuration. */
  function Configured(reg: Registry, defaultUser: string, project: Option<string>, user: string,
                      now: Clock.Instant): (r: Result<(string, ProjectModel.ProjectConfig), Failure>)
    ensures var p := ProjectTools.ResolveProject(reg, defaultUser, project, user);
      && (r == Err(NoProject) <==> p == "")
      && (r == Err(NoConfig) <==> p != "" && ProjectTools.ConfigFor(reg, p, now).None?)
      && (r.Ok? <==> p != "" && ProjectTools.ConfigFor(reg, p, now).Some?)
      && (r.Ok? ==> r.value == (p, ProjectTools.ConfigFor(reg, p, now).value))
  {
    var p := ProjectTools.ResolveProject(reg, defaultUser, project, user);
    if p == "" then Err(NoProject)
    else match ProjectTools.ConfigFor(reg, p, now)
      case None => Err(NoConfig)
      case Some(config) => Ok((p, config))
  }

  /** The progress sheet of a configuration, as a key of the book. */
  function ProgressSheet(config: ProjectModel.ProjectConfig): (string, string) {
    (config.spreadsheetId, config.sheets.progress)
  }

  /** The project and the key of its progress sheet; `NoSheet` when the
      sheet does not exist. */
  function Locate(reg: Registry, defaultUser: string, book: Book, project: Option<string>, user: string,
                  now: Clock.Instant): (r: Result<(string, (string, string)), Failure>)
    ensures var c := Configured(reg, defaultUser, project, user, now);
      && (c.Err? ==> r == Err(c.error))
      && (c.Ok? ==> (r.Ok? <==> ProgressSheet(c.value.1) in book))
      && (c.Ok? && r.Err? ==> r.error == NoSheet)
    ensures r.Ok? ==> r.value.1 in book && r.value.0 == ProjectTools.ResolveProject(reg, defaultUser, project, user)
    ensures r.Err? ==> r.error in {NoProject, NoConfig, NoSheet}
  {
    match Configured(reg, defaultUser, project, user, now)
    case Err(e) => Err(e)
    case Ok((p, config)) =>
      if ProgressSheet(config) in book then Ok((p, ProgressSheet(config))) else Err(NoSheet)
  }

  /** Locating depends only on which sheets exist. */
  lemma {:induction false} LocateKeys(reg: Registry, defaultUser: string, book: Book, book2: Book, project: Option<string>,
                   user: string, now: Clock.Instant)
    requires book2.Keys == book.Keys
    ensures Locate(reg, defaultUser, book2, project, user, now) == Locate(reg, defaultUser, book, project, user, now)
  {
  }

  // ---- the rows a tool acts on ----

  /** The row `update_task_status` changes: the first match, with no check
      for an id that several phases share. */
  function FirstMatch(rows: seq<Row>, taskId: string, phase: string): (r: Result<nat, Failure>)
    ensures r == Err(NoData) <==> |rows| == 0
    ensures r == Err(NotFound) <==> |rows| > 0 && |Matches(rows, taskId, phase)| == 0
    ensures r.Ok? ==> r.value == Matches(rows, taskId, phase)[0]
    ensures r.Ok? ==> Start(rows) <= r.value < |rows| && Match(rows[r.value], taskId, phase)
  {
    if |rows| == 0 then Err(NoData)
    else
      var m := Matches(rows, taskId, phase);
      if |m| == 0 then Err(NotFound) else Ok(m[0])
  }

  /** The row `get_task`, `delete_task` and `update_task` act on: refused
      when the sheet is empty and when the id is ambiguous. */
  function Lookup(rows: seq<Row>, taskId: string, phase: string): (r: Result<nat, Failure>)
    ensures |rows| == 0 ==> r == Err(NoData)
    ensures |rows| > 0 ==> r == Select(rows, taskId, phase)
    ensures r.Ok? ==> Start(rows) <= r.value < |rows| && Match(rows[r.value], taskId, phase)
  {
    if |rows| == 0 then Err(NoData) else Select(rows, taskId, phase)
  }

  /** A task id matched by exactly one row is looked up as that row, even
      without a phase. */
  lemma {:induction false} SingleLookup(rows: seq<Row>, taskId: string, phase: string)
    requires |Matches(rows, taskId, phase)| == 1
    ensures Matches(rows, taskId, phase) == [Matches(rows, taskId, phase)[0]]
    ensures Lookup(rows, taskId, phase) == Ok(Matches(rows, taskId, phase)[0])
  {
  }

  /** Whenever the stricter choice picks a row, the first-match choice
      picks the same one. */
  lemma {:induction false} LookupAgrees(rows: seq<Row>, taskId: string, phase: string)
    requires Lookup(rows, taskId, phase).Ok?
    ensures FirstMatch(rows, taskId, phase) == Lookup(rows, taskId, phase)
  {
  }

  /** The chosen row, padded to ten cells. */
  function Padded(row: Row): (r: Row)
    requires |row| <= Width
    ensures |r| == Width && r[..|row|] == row
  {
    PadTo(row, Width)
  }

  /** `update_range` of row `k` over A..J with ten cells. */
  function WriteRow(g: Grid, k: nat, cells: Row): (r: Grid)
    requires k < |g| && |cells| == Width
    ensures |r| == |g|
    ensures ReadAJ(r)[k] == cells
    ensures |r[k]| >= |g[k]| && forall j :: Width <= j < |g[k]| ==> r[k][j] == g[k][j]
    ensures forall j :: 0 <= j < |g| && j != k ==> r[j] == g[j]
  {
    WrittenRead(g[k], cells);
    g[k := Overwrite(g[k], cells)]
  }

  /** The cells of rows that a write leaves alone read the same. */
  lemma {:induction false} ReadOthers(g: Grid, k: nat, cells: Row)
    requires k < |g| && |cells| == Width
    ensures forall j :: 0 <= j < |g| && j != k ==> ReadAJ(WriteRow(g, k, cells))[j] == ReadAJ(g)[j]
  {
  }

  /** Two readings whose rows match alike give the same matches. */
  lemma {:induction false} SameMatches(rows: seq<Row>, rows2: seq<Row>, taskId: string, phase: string)
    requires |rows2| == |rows| && HasHeader(rows2) == HasHeader(rows)
    requires forall j :: 0 <= j < |rows| ==> (Match(rows2[j], taskId, phase) <==> Match(rows[j], taskId, phase))
    ensures Matches(rows2, taskId, phase) == Matches(rows, taskId, phase)
  {
    var f := seq(|rows|, j requires 0 <= j < |rows| => Match(rows[j], taskId, phase));
    var f2 := seq(|rows2|, j requires 0 <= j < |rows2| => Match(rows2[j], taskId, phase));
    assert f2 == f;
  }

  // ---- session state ----

  /** The session record after a status change of `taskId`: the current
      task on a start, the last completed task on a completion, the
      blockers when supplied; nothing else changes. */
  function AfterStatus(s: MemoryClient.SessionState, taskId: string, status: string,
                       blockers: Option<seq<string>>): (t: MemoryClient.SessionState)
    ensures t.currentTask == (if status == InProgress then taskId else s.currentTask)
    ensures t.lastCompleted == (if status == Completed then taskId else s.lastCompleted)
    ensures t.blockers == blockers.GetOr(s.blockers)
    ensures t.(currentTask := s.currentTask, lastCompleted := s.lastCompleted, blockers := s.blockers) == s
  {
    s.(currentTask := if status == InProgress then taskId else s.currentTask,
       lastCompleted := if status == Completed then taskId else s.lastCompleted,
       blockers := if blockers.Some? then blockers.value else s.blockers)
  }

  /** Records a status change in the session state stored for the project
      and user; nothing happens when there is none. */
  function RecordStatus(reg: Registry, project: string, user: string, taskId: string, status: string,
                        blockers: Option<seq<string>>, now: Clock.Instant): (r: Registry)
    ensures SessionTools.StoredState(reg, project, user).None? ==> r == reg
    ensures SessionTools.StoredState(reg, project, user).Some? ==>
      var s := SessionTools.StoredState(reg, project, user).value;
      SessionTools.StoredState(r, s.project, s.user)
        == Some(AfterStatus(s, taskId, status, blockers).(updatedAt := Clock.IsoFormat(now)))
    ensures r == reg.(memory := r.memory)
  {
    match SessionTools.StoredState(reg, project, user)
    case None => reg
    case Some(s) => SessionTools.SaveState(reg, AfterStatus(s, taskId, status, blockers), now).0
  }

  // ---- get_progress ----

  datatype GetProgressResult = GetProgressResult(
    success: bool, project: string, currentPhase: string, phases: seq<PhaseProgress>)

  /** `get_progress`: fails where the sheet cannot be located, reports an
      empty sheet as no phases, and otherwise aggregates the rows. */
  function GetProgress(reg: Registry, defaultUser: string, book: Book, project: Option<string>, phase: string,
                       user: string, now: Clock.Instant): (r: GetProgressResult)
    ensures r.project == ProjectTools.ResolveProject(reg, defaultUser, project, user)
    ensures r.success <==> Locate(reg, defaultUser, book, project, user, now).Ok?
    ensures !r.success ==> r.currentPhase == "" && r.phases == []
    ensures r.success ==>
      var rows := ReadAJ(book[Locate(reg, defaultUser, book, project, user, now).value.1]);
      Progress(r.currentPhase, r.phases) == Aggregate(rows, phase)
  {
    var p := ProjectTools.ResolveProject(reg, defaultUser, project, user);
    match Locate(reg, defaultUser, book, project, user, now)
    case Err(_) => GetProgressResult(false, p, "", [])
    case Ok((_, key)) =>
      var rows := ReadAJ(book[key]);
      if |rows| == 0 then
        EmptyAggregate(phase);
        GetProgressResult(true, p, "", [])
      else
        var a := Aggregate(rows, phase);
        GetProgressResult(true, p, a.currentPhase, a.phases)
  }

  /** The phases `get_progress` reports for a located sheet. */
  lemma {:induction false} ProgressRead(reg: Registry, defaultUser: string, book: Book, project: Option<string>, phase: string,
                     user: string, now: Clock.Instant)
    requires Locate(reg, defaultUser, book, project, user, now).Ok?
    ensures GetProgress(reg, defaultUser, book, project, phase, user, now).phases
            == Aggregate(ReadAJ(book[Locate(reg, defaultUser, book, project, user, now).value.1]), phase).phases
  {
  }

  /** An empty sheet aggregates to no phases and no current phase. */
  lemma {:induction false} EmptyAggregate(phase: string)
    ensures Aggregate([], phase) == Progress("", [])
  {
    assert ShownRows([], phase) == [];
    assert Names([]) == [];
  }

  // ---- update_task_status ----

  datatype UpdateProgressResult = UpdateProgressResult(project: string, taskId: string,
                                                       outcome: Result<seq<Field>, Failure>)

  /** The sheet after `update_task_status` changed the first matching
      row. */
  function StatusGrid(g: Grid, taskId: string, phase: string, c: StatusChange, today: string): (r: Grid)
    requires FirstMatch(ReadAJ(g), taskId, phase).Ok?
    ensures |r| == |g|
  {
    var rows := ReadAJ(g);
    var k := FirstMatch(rows, taskId, phase).value;
    WriteRow(g, k, StatusCells(Padded(rows[k]), c, today))
  }

  /** After a status update the same row is found again, it reads back
      with the new status, the completion date rule and the supplied
      notes, and every other row is as it was. */
  lemma {:induction false} StatusGridRead(g: Grid, taskId: string, phase: string, c: StatusChange, today: string)
    requires FirstMatch(ReadAJ(g), taskId, phase).Ok?
    ensures var rows := ReadAJ(g);
      var k := FirstMatch(rows, taskId, phase).value;
      var read := ReadAJ(StatusGrid(g, taskId, phase, c, today));
      && |read| == |rows|
      && (forall j :: 0 <= j < |rows| && j != k ==> read[j] == rows[j])
      && FirstMatch(read, taskId, phase) == Ok(k)
      && StatusOf(read[k]) == c.status
      && Cell(read[k], NotesCol, "") == c.notes.GetOr(Cell(rows[k], NotesCol, ""))
      && Cell(read[k], CompletedCol, "")
         == (if Stamps(Padded(rows[k]), c.status) then today
             else if c.status != Completed then "" else Cell(rows[k], CompletedCol, ""))
  {
    var rows := ReadAJ(g);
    var k := FirstMatch(rows, taskId, phase).value;
    var row := Padded(rows[k]);
    var cells := StatusCells(row, c, today);
    var read := ReadAJ(WriteRow(g, k, cells));
    ReadOthers(g, k, cells);
    assert read[k] == cells;
    assert rows[k] == row[..|rows[k]|];
    if k == 0 {
      assert HasHeader(read) == HasHeader(rows);
    }
    SameMatches(rows, read, taskId, phase);
  }

  /** `update_task_status`: an invalid status is refused before anything
      else; then the sheet is located and the first row holding the id
      (inside the phase filter) gets the new status, the completion date
      rule and the supplied fields, and the session records the change. */
  function UpdateTaskStatus(reg: Registry, defaultUser: string, book: Book, taskId: string, phase: string,
                            c: StatusChange, project: Option<string>, user: string, now: Clock.Instant)
    : (r: (Book, Registry, UpdateProgressResult))
    ensures !ValidStatus(c.status) ==> r.2.outcome == Err(InvalidStatus)
    ensures r.2.outcome.Err? ==> r.0 == book && r.1 == reg
    ensures ValidStatus(c.status) ==>
      var loc := Locate(reg, defaultUser, book, project, user, now);
      && (loc.Err? ==> r.2.outcome == Err(loc.error))
      && (loc.Ok? ==> var rows := ReadAJ(book[loc.value.1]);
            (FirstMatch(rows, taskId, phase).Err? ==> r.2.outcome == Err(FirstMatch(rows, taskId, phase).error))
            && (FirstMatch(rows, taskId, phase).Ok? ==>
                  r.2.outcome == Ok(StatusFields(Padded(rows[FirstMatch(rows, taskId, phase).value]), c))))
    ensures r.2.outcome.Ok? ==>
      var (p, key) := Locate(reg, defaultUser, book, project, user, now).value;
      && r.0 == book[key := StatusGrid(book[key], taskId, phase, c, Clock.FormatDate(now))]
      && r.1 == RecordStatus(reg, p, ProjectTools.Who(user, defaultUser), taskId, c.status, c.blockers, now)
  {
    if !ValidStatus(c.status) then (book, reg, UpdateProgressResult("", taskId, Err(InvalidStatus)))
    else
      var p := ProjectTools.ResolveProject(reg, defaultUser, project, user);
      match Locate(reg, defaultUser, book, project, user, now)
      case Err(e) => (book, reg, UpdateProgressResult(p, taskId, Err(e)))
      case Ok((_, key)) =>
        var rows := ReadAJ(book[key]);
        match FirstMatch(rows, taskId, phase)
        case Err(e) => (book, reg, UpdateProgressResult(p, taskId, Err(e)))
        case Ok(k) =>
          (book[key := StatusGrid(book[key], taskId, phase, c, Clock.FormatDate(now))],
           RecordStatus(reg, p, ProjectTools.Who(user, defaultUser), taskId, c.status, c.blockers, now),
           UpdateProgressResult(p, taskId, Ok(StatusFields(Padded(rows[k]), c))))
  }

  /** The fields a successful status update reports are those of a
      full-width row of the located sheet. */
  lemma StatusOutcome(reg: Registry, defaultUser: string, book: Book, taskId: string, phase: string,
                      c: StatusChange, project: Option<string>, user: string, now: Clock.Instant)
    returns (row: Row)
    ensures var o := UpdateTaskStatus(reg, defaultUser, book, taskId, phase, c, project, user, now).2.outcome;
      o.Ok? ==> |row| == Width && o.value == StatusFields(row, c)
  {
    row := [];
    var loc := Locate(reg, defaultUser, book, project, user, now);
    if ValidStatus(c.status) && loc.Ok? {
      var rows := ReadAJ(book[loc.value.1]);
      if FirstMatch(rows, taskId, phase).Ok? {
        row := Padded(rows[FirstMatch(rows, taskId, phase).value]);
      }
    }
  }

  /** After a successful status update the task's row of the located sheet
      reads back with the new status, the notes as given or kept, and the
      completion date stamped, cleared or kept; every other row reads as
      before. */
  lemma {:induction false} StatusApplied(reg: Registry, defaultUser: string, book: Book, taskId: string,
                                         phase: string, c: StatusChange, project: Option<string>, user: string,
                                         now: Clock.Instant)
    requires UpdateTaskStatus(reg, defaultUser, book, taskId, phase, c, project, user, now).2.outcome.Ok?
    ensures Locate(reg, defaultUser, book, project, user, now).Ok?
    ensures var key := Locate(reg, defaultUser, book, project, user, now).value.1;
      var rows := ReadAJ(book[key]);
      var after := UpdateTaskStatus(reg, defaultUser, book, taskId, phase, c, project, user, now).0;
      && FirstMatch(rows, taskId, phase).Ok? && key in after
      && var k := FirstMatch(rows, taskId, phase).value;
         var read := ReadAJ(after[key]);
         && |read| == |rows|
         && (forall j :: 0 <= j < |rows| && j != k ==> read[j] == rows[j])
         && StatusOf(read[k]) == c.status
         && Cell(read[k], NotesCol, "") == c.notes.GetOr(Cell(rows[k], NotesCol, ""))
         && Cell(read[k], CompletedCol, "")
            == (if Stamps(Padded(rows[k]), c.status) then Clock.FormatDate(now)
                else if c.status != Completed then "" else Cell(rows[k], CompletedCol, ""))
  {
    var key := Locate(reg, defaultUser, book, project, user, now).value.1;
    StatusGridRead(book[key], taskId, phase, c, Clock.FormatDate(now));
  }

  /** `complete_task`: `update_task_status` with the completed status and
      the optional notes. On success the task reads back completed, dated
      today unless it already was completed, with the notes as given or
      kept; on failure nothing changes. */
  function CompleteTask(reg: Registry, defaultUser: string, book: Book, taskId: string, phase: string,
                        notes: Option<string>, project: Option<string>, user: string, now: Clock.Instant)
    : (r: (Book, Registry, UpdateProgressResult))
    ensures r.2.outcome.Err? ==> r.0 == book && r.1 == reg
    ensures r.2.outcome.Ok? ==>
      Locate(reg, defaultUser, book, project, user, now).Ok?
      && var key := Locate(reg, defaultUser, book, project, user, now).value.1;
      var rows := ReadAJ(book[key]);
      && FirstMatch(rows, taskId, phase).Ok? && key in r.0
      && var k := FirstMatch(rows, taskId, phase).value;
         var read := ReadAJ(r.0[key]);
         && |read| == |rows| && StatusOf(read[k]) == Completed
         && Cell(read[k], NotesCol, "") == notes.GetOr(Cell(rows[k], NotesCol, ""))
         && Cell(read[k], CompletedCol, "")
            == (if Padded(rows[k])[StatusCol] != Completed then Clock.FormatDate(now) else Cell(rows[k], CompletedCol, ""))
  {
    var c := StatusChange(Completed, None, notes, None, None, None);
    var r := UpdateTaskStatus(reg, defaultUser, book, taskId, phase, c, project, user, now);
    if r.2.outcome.Ok? then StatusApplied(reg, defaultUser, book, taskId, phase, c, project, user, now); r else r
  }

  /** Completing a task reports the status, reports the notes exactly when
      some were given, and never touches blockers. */
  lemma CompleteReports(reg: Registry, defaultUser: string, book: Book, taskId: string, phase: string,
                        notes: Option<string>, project: Option<string>, user: string, now: Clock.Instant)
    ensures var o := CompleteTask(reg, defaultUser, book, taskId, phase, notes, project, user, now).2.outcome;
      o.Ok? ==> StatusField in o.value && (NotesField in o.value <==> notes.Some?) && BlockersField !in o.value
  {
    var c := StatusChange(Completed, None, notes, None, None, None);
    var row := StatusOutcome(reg, defaultUser, book, taskId, phase, c, project, user, now);
    if |row| == Width {
      StatusFieldsListed(row, c);
    }
  }

  /** `start_task`: `update_task_status` with the in-progress status. On
      success the task reads back in progress with no completion date; on
      failure nothing changes. */
  function StartTask(reg: Registry, defaultUser: string, book: Book, taskId: string, phase: string,
                     project: Option<string>, user: string, now: Clock.Instant)
    : (r: (Book, Registry, UpdateProgressResult))
    ensures r.2.outcome.Err? ==> r.0 == book && r.1 == reg
    ensures r.2.outcome.Ok? ==>
      Locate(reg, defaultUser, book, project, user, now).Ok?
      && var key := Locate(reg, defaultUser, book, project, user, now).value.1;
      var rows := ReadAJ(book[key]);
      && FirstMatch(rows, taskId, phase).Ok? && key in r.0
      && var k := FirstMatch(rows, taskId, phase).value;
         var read := ReadAJ(r.0[key]);
         && |read| == |rows| && StatusOf(read[k]) == InProgress && Cell(read[k], CompletedCol, "") == ""
  {
    var c := StatusChange(InProgress, None, None, None, None, None);
    var r := UpdateTaskStatus(reg, defaultUser, book, taskId, phase, c, project, user, now);
    if r.2.outcome.Ok? then StatusApplied(reg, defaultUser, book, taskId, phase, c, project, user, now); r else r
  }

  /** Starting a task reports the status and never a completion date. */
  lemma StartReports(reg: Registry, defaultUser: string, book: Book, taskId: string, phase: string,
                     project: Option<string>, user: string, now: Clock.Instant)
    ensures var o := StartTask(reg, defaultUser, book, taskId, phase, project, user, now).2.outcome;
      o.Ok? ==> StatusField in o.value && CompletedAtField !in o.value
  {
    var c := StatusChange(InProgress, None, None, None, None, None);
    var row := StatusOutcome(reg, defaultUser, book, taskId, phase, c, project, user, now);
    if |row| == Width {
      StatusFieldsListed(row, c);
    }
  }

  /** `block_task`: `update_task_status` with the blocked status and the
      list of blockers. On success the task reads back blocked with no
      completion date; on failure nothing changes. */
  function BlockTask(reg: Registry, defaultUser: string, book: Book, taskId: string, blockers: seq<string>,
                     phase: string, project: Option<string>, user: string, now: Clock.Instant)
    : (r: (Book, Registry, UpdateProgressResult))
    ensures r.2.outcome.Err? ==> r.0 == book && r.1 == reg
    ensures r.2.outcome.Ok? ==>
      Locate(reg, defaultUser, book, project, user, now).Ok?
      && var key := Locate(reg, defaultUser, book, project, user, now).value.1;
      var rows := ReadAJ(book[key]);
      && FirstMatch(rows, taskId, phase).Ok? && key in r.0
      && var k := FirstMatch(rows, taskId, phase).value;
         var read := ReadAJ(r.0[key]);
         && |read| == |rows| && StatusOf(read[k]) == Blocked && Cell(read[k], CompletedCol, "") == ""
  {
    var c := StatusChange(Blocked, Some(blockers), None, None, None, None);
    var r := UpdateTaskStatus(reg, defaultUser, book, taskId, phase, c, project, user, now);
    if r.2.outcome.Ok? then StatusApplied(reg, defaultUser, book, taskId, phase, c, project, user, now); r else r
  }

  /** Blocking a task reports the status and the blockers, and never a
      completion date. */
  lemma BlockReports(reg: Registry, defaultUser: string, book: Book, taskId: string, blockers: seq<string>,
                     phase: string, project: Option<string>, user: string, now: Clock.Instant)
    ensures var o := BlockTask(reg, defaultUser, book, taskId, blockers, phase, project, user, now).2.outcome;
      o.Ok? ==> StatusField in o.value && BlockersField in o.value && CompletedAtField !in o.value
  {
    var c := StatusChange(Blocked, Some(blockers), None, None, None, None);
    var row := StatusOutcome(reg, defaultUser, book, taskId, phase, c, project, user, now);
    if |row| == Width {
      StatusFieldsListed(row, c);
    }
  }

  // ---- add_task ----

  /** The row the corrected `add_task` appends: a not-started task with
      no blockers and no completion date, an invalid priority read as
      "medium", then category and the `blocked_by` list in H..J. */
  function NewRow(phase: string, taskId: string, name: string, description: string, priority: string,
                  category: string, blockedBy: seq<string>): (r: Row)
    ensures |r| == Width && r[0] == phase && r[1] == taskId && r[StatusCol] == NotStarted
  {
    [phase, taskId, name, NotStarted, "", "", description,
     if ValidPriority(priority) then priority else "medium", category, Join(blockedBy, ",")]
  }

  /** `add_task` as written: once the sheet is located it builds a
      `TaskProgress` with `priority`, `category` and `blocked_by` keywords
      the dataclass does not declare, and the `TypeError` this raises is
      caught and reported as a failure. Nothing is ever appended. */
  function AddTaskAsWritten(reg: Registry, defaultUser: string, book: Book, phase: string, taskId: string,
                            name: string, description: string, priority: string, category: string,
                            blockedBy: seq<string>, project: Option<string>, user: string, now: Clock.Instant)
    : (r: (Book, UpdateProgressResult))
    ensures r.0 == book && r.1.outcome.Err?
    ensures r.1.project == ProjectTools.ResolveProject(reg, defaultUser, project, user) && r.1.taskId == taskId
    ensures Locate(reg, defaultUser, book, project, user, now).Err? ==>
      r.1.outcome.error == Locate(reg, defaultUser, book, project, user, now).error
    ensures Locate(reg, defaultUser, book, project, user, now).Ok? ==> r.1.outcome.error == Raised
  {
    var p := ProjectTools.ResolveProject(reg, defaultUser, project, user);
    match Locate(reg, defaultUser, book, project, user, now)
    case Err(e) => (book, UpdateProgressResult(p, taskId, Err(e)))
    case Ok(_) => (book, UpdateProgressResult(p, taskId, Err(Raised)))
  }

  /** As written, an add to a located sheet fails and appends nothing,
      where the corrected `add_task` succeeds and appends exactly one row. */
  lemma {:induction false} AddTaskNeverAppends(reg: Registry, defaultUser: string, book: Book, phase: string,
                  taskId: string, name: string, description: string, priority: string, category: string,
                  blockedBy: seq<string>, project: Option<string>, user: string, now: Clock.Instant)
    requires Locate(reg, defaultUser, book, project, user, now).Ok?
    ensures var w := AddTaskAsWritten(reg, defaultUser, book, phase, taskId, name, description, priority,
                                      category, blockedBy, project, user, now);
      w.0 == book && w.1.outcome == Err(Raised)
    ensures var key := Locate(reg, defaultUser, book, project, user, now).value.1;
      var c := AddTask(reg, defaultUser, book, phase, taskId, name, description, priority, category,
                       blockedBy, project, user, now);
      c.1.outcome.Ok? && key in c.0 && |c.0[key]| == |book[key]| + 1
  {
  }

  /** `add_task`, corrected: fails where the sheet cannot be located,
      otherwise appends the ten-cell row below the last one. */
  function AddTask(reg: Registry, defaultUser: string, book: Book, phase: string, taskId: string, name: string,
                   description: string, priority: string, category: string, blockedBy: seq<string>,
                   project: Option<string>, user: string, now: Clock.Instant)
    : (r: (Book, UpdateProgressResult))
    ensures r.1.outcome.Ok? <==> Locate(reg, defaultUser, book, project, user, now).Ok?
    ensures r.1.outcome.Err? ==> r.0 == book && r.1.outcome.error == Locate(reg, defaultUser, book, project, user, now).error
    ensures r.1.outcome.Ok? ==> r.1.outcome.value == [PhaseField, TaskIdField, NameField, StatusField]
    ensures r.1.outcome.Ok? ==>
      var key := Locate(reg, defaultUser, book, project, user, now).value.1;
      r.0 == book[key := book[key] + [NewRow(phase, taskId, name, description, priority, category, blockedBy)]]
  {
    var p := ProjectTools.ResolveProject(reg, defaultUser, project, user);
    match Locate(reg, defaultUser, book, project, user, now)
    case Err(e) => (book, UpdateProgressResult(p, taskId, Err(e)))
    case Ok((_, key)) =>
      var row := NewRow(phase, taskId, name, description, priority, category, blockedBy);
      (book[key := book[key] + [row]], UpdateProgressResult(p, taskId, Ok([PhaseField, TaskIdField, NameField, StatusField])))
  }

  /** The new row reads back as a not-started task with no blockers, no
      completion date and the description as notes. */
  lemma {:induction false} NewRowTask(phase: string, taskId: string, name: string, description: string, priority: string,
                   category: string, blockedBy: seq<string>)
    ensures TaskFromSheetRow(NewRow(phase, taskId, name, description, priority, category, blockedBy))
            == TaskProgress(taskId, name, NotStarted, [], None, description)
    ensures PhaseOf(NewRow(phase, taskId, name, description, priority, category, blockedBy)) == phase
  {
    var row := NewRow(phase, taskId, name, description, priority, category, blockedBy);
    assert row[2] == name && row[4] == "" && row[5] == "" && row[6] == description;
    assert SplitList(row[4]) == [];
    assert CompletedAt(row[5]) == None;
  }

  /** A row appended under an id no row below the header holds is the one
      row found for that id, unless it is taken for the header. */
  lemma {:induction false} AppendThenLookup(g: Grid, row: Row, taskId: string)
    requires |row| == Width && row[1] == taskId
    requires |Matches(ReadAJ(g), taskId, "")| == 0
    requires |g| > 0 || row[0] !in ["フェーズ", "Phase"]
    ensures Lookup(ReadAJ(g + [row]), taskId, "") == Ok(|g|)
    ensures ReadAJ(g + [row])[|g|] == row
  {
    var rows := ReadAJ(g);
    var read := ReadAJ(g + [row]);
    assert read == rows + [row];
    assert HasHeader(read) == HasHeader(rows);
    var m := Matches(read, taskId, "");
    forall j | Start(read) <= j < |g|
      ensures !Match(read[j], taskId, "")
    {
      assert read[j] == rows[j];
    }
    assert |g| in m;
    assert forall i :: 0 <= i < |m| ==> m[i] == |g|;
    AscendingBound(m, |g|, |g| + 1);
    assert m == [|g|];
  }

  /** A row appended with a phase is listed under that phase by the
      aggregation, unless it is taken for the header. */
  lemma {:induction false} AppendListed(g: Grid, row: Row)
    requires |row| == Width && row[0] != ""
    requires |g| > 0 || row[0] !in ["フェーズ", "Phase"]
    ensures Listed(Aggregate(ReadAJ(g + [row]), "").phases, row[0], TaskFromSheetRow(row))
  {
    var rows := ReadAJ(g);
    var read := ReadAJ(g + [row]);
    assert read == rows + [row];
    assert HasHeader(read) == HasHeader(rows);
    ShownRowListed(read, "", |g|);
  }

  /** After `add_task` the progress sheet is the old one with the new row
      below it, and it is located as before. */
  lemma {:induction false} AddedBook(reg: Registry, defaultUser: string, book: Book, phase: string, taskId: string, name: string,
                  description: string, priority: string, category: string, blockedBy: seq<string>,
                  project: Option<string>, user: string, now: Clock.Instant)
    requires Locate(reg, defaultUser, book, project, user, now).Ok?
    ensures var key := Locate(reg, defaultUser, book, project, user, now).value.1;
      var after := AddTask(reg, defaultUser, book, phase, taskId, name, description, priority, category,
                           blockedBy, project, user, now).0;
      && after == book[key := book[key] + [NewRow(phase, taskId, name, description, priority, category, blockedBy)]]
      && Locate(reg, defaultUser, after, project, user, now) == Locate(reg, defaultUser, book, project, user, now)
  {
    var key := Locate(reg, defaultUser, book, project, user, now).value.1;
    var after := AddTask(reg, defaultUser, book, phase, taskId, name, description, priority, category,
                         blockedBy, project, user, now).0;
    LocateKeys(reg, defaultUser, book, after, project, user, now);
  }

  /** A task added under a new id is what `get_task` then finds: its name,
      a not-started status, no blockers, no completion date and the
      description as notes, under its phase. Adding to an empty sheet a
      task whose phase is a header word is the exception: that row is
      taken for the header. */
  lemma {:induction false} AddThenGet(reg: Registry, defaultUser: string, book: Book, phase: string, taskId: string, name: string,
                   description: string, priority: string, category: string, blockedBy: seq<string>,
                   project: Option<string>, user: string, now: Clock.Instant)
    requires Locate(reg, defaultUser, book, project, user, now).Ok?
    requires var rows := ReadAJ(book[Locate(reg, defaultUser, book, project, user, now).value.1]);
      |Matches(rows, taskId, "")| == 0 && (|rows| > 0 || phase !in ["フェーズ", "Phase"])
    ensures var after := AddTask(reg, defaultUser, book, phase, taskId, name, description, priority, category,
                                 blockedBy, project, user, now).0;
      GetTask(reg, defaultUser, after, taskId, "", project, user, now).outcome
        == Ok((phase, TaskProgress(taskId, name, NotStarted, [], None, description)))
  {
    var key := Locate(reg, defaultUser, book, project, user, now).value.1;
    var row := NewRow(phase, taskId, name, description, priority, category, blockedBy);
    var after := AddTask(reg, defaultUser, book, phase, taskId, name, description, priority, category,
                         blockedBy, project, user, now).0;
    AddedBook(reg, defaultUser, book, phase, taskId, name, description, priority, category, blockedBy,
              project, user, now);
    assert |ReadAJ(book[key])| == |book[key]|;
    AppendThenLookup(book[key], row, taskId);
    assert after[key] == book[key] + [row];
    GetTaskFound(reg, defaultUser, after, taskId, "", project, user, now, key, |book[key]|);
    NewRowTask(phase, taskId, name, description, priority, category, blockedBy);
  }

  /** A task added under a non-empty phase is listed under that phase by
      `get_progress`, unless the sheet was empty and the phase is a header
      word. */
  lemma {:induction false} AddThenProgress(reg: Registry, defaultUser: string, book: Book, phase: string, taskId: string,
                        name: string, description: string, priority: string, category: string,
                        blockedBy: seq<string>, project: Option<string>, user: string, now: Clock.Instant)
    requires Locate(reg, defaultUser, book, project, user, now).Ok?
    requires phase != ""
    requires |book[Locate(reg, defaultUser, book, project, user, now).value.1]| > 0 || phase !in ["フェーズ", "Phase"]
    ensures var after := AddTask(reg, defaultUser, book, phase, taskId, name, description, priority, category,
                                 blockedBy, project, user, now).0;
      Listed(GetProgress(reg, defaultUser, after, project, "", user, now).phases, phase,
             TaskProgress(taskId, name, NotStarted, [], None, description))
  {
    var key := Locate(reg, defaultUser, book, project, user, now).value.1;
    var row := NewRow(phase, taskId, name, description, priority, category, blockedBy);
    var after := AddTask(reg, defaultUser, book, phase, taskId, name, description, priority, category,
                         blockedBy, project, user, now).0;
    AddedBook(reg, defaultUser, book, phase, taskId, name, description, priority, category, blockedBy,
              project, user, now);
    ProgressRead(reg, defaultUser, after, project, "", user, now);
    AppendListed(book[key], row);
    NewRowTask(phase, taskId, name, description, priority, category, blockedBy);
  }

  // ---- get_task ----

  datatype GetTaskResult = GetTaskResult(project: string, outcome: Result<(string, TaskProgress), Failure>)

  /** `get_task`: the phase and task of the chosen row. */
  function GetTask(reg: Registry, defaultUser: string, book: Book, taskId: string, phase: string,
                   project: Option<string>, user: string, now: Clock.Instant): (r: GetTaskResult)
    ensures r.project == ProjectTools.ResolveProject(reg, defaultUser, project, user)
    ensures Locate(reg, defaultUser, book, project, user, now).Err? ==>
      r.outcome == Err(Locate(reg, defaultUser, book, project, user, now).error)
    ensures Locate(reg, defaultUser, book, project, user, now).Ok? ==>
      var rows := ReadAJ(book[Locate(reg, defaultUser, book, project, user, now).value.1]);
      && (r.outcome.Ok? <==> Lookup(rows, taskId, phase).Ok?)
      && (r.outcome.Err? ==> r.outcome.error == Lookup(rows, taskId, phase).error)
      && (r.outcome.Ok? ==> var k := Lookup(rows, taskId, phase).value;
                            r.outcome.value == (PhaseOf(rows[k]), TaskFromSheetRow(rows[k])))
    ensures r.outcome.Ok? ==> r.outcome.value.1.taskId == taskId
    ensures r.outcome.Ok? && phase != "" ==> r.outcome.value.0 == phase
  {
    var p := ProjectTools.ResolveProject(reg, defaultUser, project, user);
    match Locate(reg, defaultUser, book, project, user, now)
    case Err(e) => GetTaskResult(p, Err(e))
    case Ok((_, key)) =>
      var rows := ReadAJ(book[key]);
      match Lookup(rows, taskId, phase)
      case Err(e) => GetTaskResult(p, Err(e))
      case Ok(k) => GetTaskResult(p, Ok((PhaseOf(rows[k]), TaskFromSheetRow(rows[k]))))
  }

  /** What `get_task` returns once the lookup in the located sheet picked
      row `k`. */
  lemma GetTaskFound(reg: Registry, defaultUser: string, book: Book, taskId: string, phase: string,
                     project: Option<string>, user: string, now: Clock.Instant, key: (string, string), k: nat)
    requires Locate(reg, defaultUser, book, project, user, now).Ok?
    requires Locate(reg, defaultUser, book, project, user, now).value.1 == key
    requires Lookup(ReadAJ(book[key]), taskId, phase) == Ok(k)
    ensures GetTask(reg, defaultUser, book, taskId, phase, project, user, now).outcome
            == Ok((PhaseOf(ReadAJ(book[key])[k]), TaskFromSheetRow(ReadAJ(book[key])[k])))
  {
  }

  /** `get_task` fails as the lookup in the located sheet does. */
  lemma GetTaskMissing(reg: Registry, defaultUser: string, book: Book, taskId: string, phase: string,
                       project: Option<string>, user: string, now: Clock.Instant, key: (string, string))
    requires Locate(reg, defaultUser, book, project, user, now).Ok?
    requires Locate(reg, defaultUser, book, project, user, now).value.1 == key
    requires Lookup(ReadAJ(book[key]), taskId, phase).Err?
    ensures GetTask(reg, defaultUser, book, taskId, phase, project, user, now).outcome
            == Err(Lookup(ReadAJ(book[key]), taskId, phase).error)
  {
  }

  // ---- delete_task ----

  /** The rows `Unblocked` may rewrite: each below the sheet's end and
      naming the task in column J, in increasing order. */
  predicate DependentRows(g: Grid, deps: seq<nat>, taskId: string) {
    && (forall i :: 0 <= i < |deps| ==> deps[i] < |g| && Dependent(UpToJ(g[deps[i]]), taskId))
    && (forall a, b :: 0 <= a < b < |deps| ==> deps[a] < deps[b])
  }

  /** The dependent rows written back in turn, each without the deleted id
      in column J. */
  function Unblocked(g: Grid, deps: seq<nat>, taskId: string): (r: Grid)
    requires forall i :: 0 <= i < |deps| ==> deps[i] < |g|
    ensures |r| == |g|
    decreases |deps|
  {
    if |deps| == 0 then g
    else
      var j := deps[|deps| - 1];
      var g1 := Unblocked(g, deps[..|deps| - 1], taskId);
      match Unblock(UpToJ(g1[j]), taskId)
      case Some(cells) => WriteRow(g1, j, cells)
      case None => g1
  }

  /** The rows before the last are dependent rows too, and the last is not
      among them. */
  lemma DependentFront(g: Grid, deps: seq<nat>, taskId: string)
    requires DependentRows(g, deps, taskId) && |deps| > 0
    ensures DependentRows(g, deps[..|deps| - 1], taskId)
    ensures deps[|deps| - 1] !in deps[..|deps| - 1]
  {
    var front := deps[..|deps| - 1];
    forall a | 0 <= a < |front|
      ensures front[a] != deps[|deps| - 1]
    {
      assert front[a] == deps[a];
    }
  }

  /** Each dependent row reads back without the id, and every other row is
      left as it was. */
  lemma {:induction false} UnblockedRow(g: Grid, deps: seq<nat>, taskId: string, j: nat)
    requires DependentRows(g, deps, taskId) && j < |g|
    ensures j !in deps ==> Unblocked(g, deps, taskId)[j] == g[j]
    ensures j in deps ==> ReadAJ(Unblocked(g, deps, taskId))[j] == Unblock(UpToJ(g[j]), taskId).value
    decreases |deps|
  {
    if |deps| > 0 {
      var front := deps[..|deps| - 1];
      var last := deps[|deps| - 1];
      DependentFront(g, deps, taskId);
      UnblockedRow(g, front, taskId, j);
      UnblockedRow(g, front, taskId, last);
      assert j in deps <==> j in front || j == last;
    }
  }

  /** The ids of the dependent tasks, as `delete_task` reports them. */
  function DependentIds(rows: seq<Row>, deps: seq<nat>): (r: seq<string>)
    requires forall i :: 0 <= i < |deps| ==> deps[i] < |rows|
    ensures |r| == |deps|
    ensures forall i :: 0 <= i < |deps| ==> r[i] == Cell(rows[deps[i]], 1, "")
  {
    seq(|deps|, i requires 0 <= i < |deps| => Cell(rows[deps[i]], 1, ""))
  }

  datatype DeleteTaskResult = DeleteTaskResult(project: string, taskId: string,
                                               outcome: Result<(string, seq<string>), Failure>)

  /** The sheet after deleting the task of row `k`: the dependents
      unblocked, then the row cleared over A..J. */
  function DeleteRows(g: Grid, k: nat, taskId: string): (r: Grid)
    requires k < |g|
    ensures |r| == |g|
  {
    var rows := ReadAJ(g);
    var deps := Dependents(rows, k, taskId, Start(rows));
    var g1 := Unblocked(g, deps, taskId);
    WriteRow(g1, k, Ten())
  }

  /** What deleting row `k` does to row `j`: the target reads back empty,
      another row below the header whose column J names the task reads back
      with that name removed once, and every other row is untouched. */
  lemma DeleteRowEffect(g: Grid, k: nat, taskId: string, j: nat)
    requires k < |g| && j < |g|
    ensures var rows := ReadAJ(g);
      var read := ReadAJ(DeleteRows(g, k, taskId));
      && (j == k ==> read[j] == Ten())
      && (j != k && Start(rows) <= j && Dependent(rows[j], taskId) ==>
            read[j] == Unblock(rows[j], taskId).value)
      && (j != k && !(Start(rows) <= j && Dependent(rows[j], taskId)) ==>
            DeleteRows(g, k, taskId)[j] == g[j])
  {
    var rows := ReadAJ(g);
    var deps := Dependents(rows, k, taskId, Start(rows));
    assert DependentRows(g, deps, taskId);
    assert j in deps <==> j != k && Start(rows) <= j && Dependent(rows[j], taskId);
    UnblockedRow(g, deps, taskId, j);
  }

  /** `delete_task`: the chosen row is cleared and its dependents
      unblocked; the result names the row's phase and the ids of the
      dependent tasks in sheet order. */
  function DeleteTask(reg: Registry, defaultUser: string, book: Book, taskId: string, phase: string,
                      project: Option<string>, user: string, now: Clock.Instant)
    : (r: (Book, DeleteTaskResult))
    ensures r.1.outcome.Err? ==> r.0 == book
    ensures Locate(reg, defaultUser, book, project, user, now).Err? ==>
      r.1.outcome == Err(Locate(reg, defaultUser, book, project, user, now).error)
    ensures Locate(reg, defaultUser, book, project, user, now).Ok? ==>
      var key := Locate(reg, defaultUser, book, project, user, now).value.1;
      var rows := ReadAJ(book[key]);
      var pick := Lookup(rows, taskId, phase);
      && (pick.Err? ==> r.1.outcome == Err(pick.error))
      && (pick.Ok? ==> r.0 == book[key := DeleteRows(book[key], pick.value, taskId)]
                       && r.1.outcome.Ok? && r.1.outcome.value.0 == PhaseOf(rows[pick.value]))
  {
    var p := ProjectTools.ResolveProject(reg, defaultUser, project, user);
    match Locate(reg, defaultUser, book, project, user, now)
    case Err(e) => (book, DeleteTaskResult(p, taskId, Err(e)))
    case Ok((_, key)) =>
      var rows := ReadAJ(book[key]);
      match Lookup(rows, taskId, phase)
      case Err(e) => (book, DeleteTaskResult(p, taskId, Err(e)))
      case Ok(k) =>
        var deps := Dependents(rows, k, taskId, Start(rows));
        (book[key := DeleteRows(book[key], k, taskId)],
         DeleteTaskResult(p, taskId, Ok((PhaseOf(rows[k]), DependentIds(rows, deps)))))
  }

  /** Deleting a row below the header keeps the header a header. */
  lemma {:induction false} DeleteKeepsHeader(g: Grid, k: nat, taskId: string)
    requires Start(ReadAJ(g)) <= k < |g|
    ensures HasHeader(ReadAJ(DeleteRows(g, k, taskId))) == HasHeader(ReadAJ(g))
  {
    var rows := ReadAJ(g);
    var read := ReadAJ(DeleteRows(g, k, taskId));
    DeleteRowEffect(g, k, taskId, 0);
    if k == 0 {
      assert read[0][0] == "";
    } else if Start(rows) == 0 && Dependent(rows[0], taskId) {
      assert read[0][0] == rows[0][0];
    } else {
      assert DeleteRows(g, k, taskId)[0] == g[0];
    }
  }

  /** After the delete, no row below the header other than the matches
      left alone matches a non-empty id. */
  lemma {:induction false} DeletedRowNoMatch(g: Grid, k: nat, taskId: string, phase: string, j: nat)
    requires taskId != "" && Matches(ReadAJ(g), taskId, phase) == [k]
    requires Start(ReadAJ(g)) <= j < |g|
    ensures k < |g| && !Match(ReadAJ(DeleteRows(g, k, taskId))[j], taskId, phase)
  {
    var rows := ReadAJ(g);
    var m := Matches(rows, taskId, phase);
    assert m[0] == k;
    var read := ReadAJ(DeleteRows(g, k, taskId));
    DeleteRowEffect(g, k, taskId, j);
    if j == k {
      assert read[j][1] == "";
    } else {
      assert j !in m;
      if Dependent(rows[j], taskId) {
        assert read[j][0] == rows[j][0] && read[j][1] == rows[j][1];
      } else {
        assert read[j] == rows[j];
      }
    }
  }

  /** Deleting the only row that matches a non-empty id leaves no row
      that matches it. */
  lemma {:induction false} DeleteRowsThenNone(g: Grid, k: nat, taskId: string, phase: string)
    requires taskId != "" && Matches(ReadAJ(g), taskId, phase) == [k]
    ensures k < |g|
    ensures |ReadAJ(DeleteRows(g, k, taskId))| == |g|
    ensures Matches(ReadAJ(DeleteRows(g, k, taskId)), taskId, phase) == []
  {
    var rows := ReadAJ(g);
    assert Matches(rows, taskId, phase)[0] == k;
    var read := ReadAJ(DeleteRows(g, k, taskId));
    DeleteKeepsHeader(g, k, taskId);
    forall j | Start(read) <= j < |read|
      ensures !Match(read[j], taskId, phase)
    {
      DeletedRowNoMatch(g, k, taskId, phase, j);
    }
    NoMatches(read, taskId, phase);
  }

  /** Deleting the only task with a non-empty id leaves no task with that
      id: looking it up again finds nothing. */
  lemma {:induction false} DeleteThenGet(reg: Registry, defaultUser: string, book: Book, taskId: string, phase: string,
                      project: Option<string>, user: string, now: Clock.Instant)
    requires taskId != ""
    requires Locate(reg, defaultUser, book, project, user, now).Ok?
    requires |Matches(ReadAJ(book[Locate(reg, defaultUser, book, project, user, now).value.1]), taskId, phase)| == 1
    ensures var after := DeleteTask(reg, defaultUser, book, taskId, phase, project, user, now).0;
      GetTask(reg, defaultUser, after, taskId, phase, project, user, now).outcome == Err(NotFound)
  {
    var key := Locate(reg, defaultUser, book, project, user, now).value.1;
    var k := DeletedBook(reg, defaultUser, book, taskId, phase, project, user, now);
    var after := DeleteTask(reg, defaultUser, book, taskId, phase, project, user, now).0;
    DeleteRowsThenNone(book[key], k, taskId, phase);
    GetTaskMissing(reg, defaultUser, after, taskId, phase, project, user, now, key);
  }

  /** With a single matching row `k`, `delete_task` rewrites only the
      located sheet, clearing `k`, and the sheet is located as before. */
  lemma DeletedBook(reg: Registry, defaultUser: string, book: Book, taskId: string, phase: string,
                    project: Option<string>, user: string, now: Clock.Instant)
    returns (k: nat)
    requires Locate(reg, defaultUser, book, project, user, now).Ok?
    requires |Matches(ReadAJ(book[Locate(reg, defaultUser, book, project, user, now).value.1]), taskId, phase)| == 1
    ensures var key := Locate(reg, defaultUser, book, project, user, now).value.1;
      var after := DeleteTask(reg, defaultUser, book, taskId, phase, project, user, now).0;
      && Matches(ReadAJ(book[key]), taskId, phase) == [k]
      && k < |book[key]|
      && after == book[key := DeleteRows(book[key], k, taskId)]
      && Locate(reg, defaultUser, after, project, user, now) == Locate(reg, defaultUser, book, project, user, now)
  {
    var key := Locate(reg, defaultUser, book, project, user, now).value.1;
    var rows := ReadAJ(book[key]);
    SingleLookup(rows, taskId, phase);
    k := Matches(rows, taskId, phase)[0];
    assert k < |book[key]|;
    var after := book[key := DeleteRows(book[key], k, taskId)];
    assert DeleteTask(reg, defaultUser, book, taskId, phase, project, user, now).0 == after;
    LocateKeys(reg, defaultUser, book, after, project, user, now);
  }

  /** Deleting a task removes its id once from the column J list of every
      dependent row, and leaves every other id there as it was. */
  lemma {:induction false} DeleteUnblocks(g: Grid, k: nat, taskId: string, j: nat)
    requires k < |g| && j < |g| && j != k
    requires Start(ReadAJ(g)) <= j && Dependent(ReadAJ(g)[j], taskId)
    ensures var before := SplitList(ReadAJ(g)[j][BlockedByCol]);
      var row := ReadAJ(DeleteRows(g, k, taskId))[j];
      && |row| == |ReadAJ(g)[j]|
      && taskId in before
      && multiset(SplitList(row[BlockedByCol])) == multiset(before) - multiset{taskId}
  {
    DeleteRowEffect(g, k, taskId, j);
    UnblockCounts(ReadAJ(g)[j], taskId);
  }

  // ---- update_task ----

  datatype TaskUpdate = TaskUpdate(fields: seq<Field>, phaseMoved: bool, oldPhase: string, newPhase: string)

  datatype UpdateTaskResult = UpdateTaskResult(project: string, taskId: string, outcome: Result<TaskUpdate, Failure>)

  /** The reported move of `update_task`: a new phase that differs from
      the old one. */
  function Move(e: TaskEdit, oldPhase: string): (r: (bool, string))
    ensures r.0 <==> e.newPhase.Some? && e.newPhase.value != oldPhase
    ensures r.1 == (if r.0 then e.newPhase.value else oldPhase)
    ensures r.1 == e.newPhase.GetOr(oldPhase)
  {
    if e.newPhase.Some? && e.newPhase.value != oldPhase then (true, e.newPhase.value) else (false, oldPhase)
  }

  /** `update_task`'s checks in order: project, configuration, status,
      priority, then the sheet. */
  function UpdateTarget(reg: Registry, defaultUser: string, book: Book, e: TaskEdit, project: Option<string>,
                        user: string, now: Clock.Instant): (r: Result<(string, (string, string)), Failure>)
    ensures var c := Configured(reg, defaultUser, project, user, now);
      && (c.Err? ==> r == Err(c.error))
      && (c.Ok? && e.status.Some? && !ValidStatus(e.status.value) ==> r == Err(InvalidStatus))
      && ((c.Ok? && (e.status.Some? ==> ValidStatus(e.status.value)) && e.priority.Some?
           && !ValidPriority(e.priority.value)) ==> r == Err(InvalidPriority))
    ensures r.Ok? <==> Locate(reg, defaultUser, book, project, user, now).Ok?
                       && (e.status.Some? ==> ValidStatus(e.status.value))
                       && (e.priority.Some? ==> ValidPriority(e.priority.value))
    ensures r.Ok? ==> r.value == Locate(reg, defaultUser, book, project, user, now).value
  {
    match Configured(reg, defaultUser, project, user, now)
    case Err(err) => Err(err)
    case Ok((p, config)) =>
      if e.status.Some? && !ValidStatus(e.status.value) then Err(InvalidStatus)
      else if e.priority.Some? && !ValidPriority(e.priority.value) then Err(InvalidPriority)
      else if ProgressSheet(config) !in book then Err(NoSheet)
      else Ok((p, ProgressSheet(config)))
  }

  /** The sheet after `update_task` wrote row `k`. */
  function TaskGrid(g: Grid, k: nat, e: TaskEdit, today: string): (r: Grid)
    requires k < |g|
    ensures |r| == |g|
  {
    WriteRow(g, k, TaskCells(Padded(ReadAJ(g)[k]), e, today))
  }

  /** The task an `update_task` edit leaves in a row holding a task id:
      the same id, and the new phase, name, status and notes where given,
      the padded row's otherwise. */
  lemma {:induction false} TaskCellsRead(row: Row, e: TaskEdit, today: string)
    requires 2 <= |row| <= Width
    ensures var cells := TaskCells(Padded(row), e, today);
      var t := TaskFromSheetRow(cells);
      && PhaseOf(cells) == e.newPhase.GetOr(PhaseOf(row))
      && t.taskId == TaskFromSheetRow(row).taskId
      && t.name == e.name.GetOr(TaskFromSheetRow(row).name)
      && t.status == e.status.GetOr(Padded(row)[StatusCol])
      && t.notes == e.description.GetOr(TaskFromSheetRow(row).notes)
  {
    var padded := Padded(row);
    assert padded[0] == row[0] && padded[1] == row[1];
    assert padded[2] == Cell(row, 2, "") && padded[6] == Cell(row, 6, "");
  }

  /** A supplied blockers list of plain items reads back as itself; the
      cell is kept otherwise. */
  lemma {:induction false} TaskCellsBlockers(row: Row, e: TaskEdit, today: string)
    requires 2 <= |row| <= Width
    requires e.blockers.Some? ==> AllListItems(e.blockers.value)
    ensures TaskFromSheetRow(TaskCells(Padded(row), e, today)).blockers
            == e.blockers.GetOr(TaskFromSheetRow(row).blockers)
  {
    var padded := Padded(row);
    assert padded[4] == Cell(row, 4, "");
    if e.blockers.Some? {
      CatalogModel.ListRead(e.blockers.value);
    }
  }

  /** After `update_task` wrote row `k`, that row reads back as the edited
      cells and every other row is as it was. */
  lemma {:induction false} TaskGridRead(g: Grid, k: nat, e: TaskEdit, today: string)
    requires k < |g|
    ensures var rows := ReadAJ(g);
      var read := ReadAJ(TaskGrid(g, k, e, today));
      && |read| == |rows|
      && read[k] == TaskCells(Padded(rows[k]), e, today)
      && (forall j :: 0 <= j < |rows| && j != k ==> read[j] == rows[j])
  {
    ReadOthers(g, k, TaskCells(Padded(ReadAJ(g)[k]), e, today));
  }

  /** `update_task`: every supplied field is written to the chosen row; a
      call that changes nothing reports no fields and writes nothing, and
      only a supplied status reaches the session state. */
  function UpdateTask(reg: Registry, defaultUser: string, book: Book, taskId: string, phase: string, e: TaskEdit,
                      project: Option<string>, user: string, now: Clock.Instant)
    : (r: (Book, Registry, UpdateTaskResult))
    ensures r.2.outcome.Err? ==> r.0 == book && r.1 == reg
    ensures e.status.None? ==> r.1 == reg
    ensures UpdateTarget(reg, defaultUser, book, e, project, user, now).Err? ==>
      r.2.outcome == Err(UpdateTarget(reg, defaultUser, book, e, project, user, now).error)
    ensures UpdateTarget(reg, defaultUser, book, e, project, user, now).Ok? ==>
      var key := UpdateTarget(reg, defaultUser, book, e, project, user, now).value.1;
      var rows := ReadAJ(book[key]);
      var pick := Lookup(rows, taskId, phase);
      && (pick.Err? ==> r.2.outcome == Err(pick.error))
      && (pick.Ok? ==> (r.2.outcome.Ok?
                        && r.2.outcome.value.fields == TaskFields(Padded(rows[pick.value]), e)
                        && r.2.outcome.value.oldPhase == PhaseOf(rows[pick.value])
                        && (|r.2.outcome.value.fields| > 0 ==>
                              r.0 == book[key := TaskGrid(book[key], pick.value, e, Clock.FormatDate(now))])))
    ensures r.2.outcome.Ok? ==>
      var u := r.2.outcome.value;
      && (u.phaseMoved <==> PhaseField in u.fields)
      && (|u.fields| == 0 ==> r.0 == book && !u.phaseMoved && u.newPhase == u.oldPhase)
      && (|u.fields| > 0 ==> u.newPhase == e.newPhase.GetOr(u.oldPhase))
  {
    var p := ProjectTools.ResolveProject(reg, defaultUser, project, user);
    match UpdateTarget(reg, defaultUser, book, e, project, user, now)
    case Err(err) => (book, reg, UpdateTaskResult(p, taskId, Err(err)))
    case Ok((_, key)) =>
      var rows := ReadAJ(book[key]);
      match Lookup(rows, taskId, phase)
      case Err(err) => (book, reg, UpdateTaskResult(p, taskId, Err(err)))
      case Ok(k) =>
        var (book1, reg1, u) := EditAt(reg, book, key, k, e, p, ProjectTools.Who(user, defaultUser), taskId, now);
        (book1, reg1, UpdateTaskResult(p, taskId, Ok(u)))
  }

  /** The edit of row `k` of sheet `key` that `update_task` makes once the
      row is chosen, and the report it gives. */
  function EditAt(reg: Registry, book: Book, key: (string, string), k: nat, e: TaskEdit, p: string, who: string,
                  taskId: string, now: Clock.Instant): (r: (Book, Registry, TaskUpdate))
    requires key in book && k < |book[key]|
    ensures var row := ReadAJ(book[key])[k];
      && r.2.fields == TaskFields(Padded(row), e)
      && r.2.oldPhase == PhaseOf(row)
      && (|r.2.fields| > 0 ==> r.0 == book[key := TaskGrid(book[key], k, e, Clock.FormatDate(now))])
    ensures e.status.None? ==> r.1 == reg
    ensures r.2.phaseMoved <==> PhaseField in r.2.fields
    ensures |r.2.fields| == 0 ==> r.0 == book && r.1 == reg && !r.2.phaseMoved && r.2.newPhase == r.2.oldPhase
    ensures |r.2.fields| > 0 ==> r.2.newPhase == e.newPhase.GetOr(r.2.oldPhase)
  {
    var rows := ReadAJ(book[key]);
    var row := Padded(rows[k]);
    var oldPhase := PhaseOf(rows[k]);
    assert row[0] == oldPhase;
    var fields := TaskFields(row, e);
    Reported(TaskFlags(row, e), PhaseField);
    if |fields| == 0 then
      (book, reg, TaskUpdate([], false, oldPhase, oldPhase))
    else
      var (moved, finalPhase) := Move(e, oldPhase);
      var reg1 := if e.status.Some? then RecordStatus(reg, p, who, taskId, e.status.value, e.blockers, now) else reg;
      (book[key := TaskGrid(book[key], k, e, Clock.FormatDate(now))], reg1, TaskUpdate(fields, moved, oldPhase, finalPhase))
  }
}
