/** A task row of the progress sheet as the repository reads and writes it:
    seven cells in header order. */
module ProgressModel {
  import opened Wrappers
  import opened Strings
  import Clock
  import CatalogModel
  import opened Sheet

  datatype TaskProgress = TaskProgress(
    taskId: string, name: string, status: string, blockers: seq<string>,
    completedAt: Option<Clock.Instant>, notes: string)

  /** A phase with the tasks read for it, in sheet order. */
  datatype PhaseProgress = PhaseProgress(phase: string, status: string, tasks: seq<TaskProgress>)

  const NotStarted := "not_started"
  const InProgress := "in_progress"
  const Completed := "completed"
  const Blocked := "blocked"

  predicate AllWith(tasks: seq<TaskProgress>, status: string) {
    forall i :: 0 <= i < |tasks| ==> tasks[i].status == status
  }

  predicate AnyWith(tasks: seq<TaskProgress>, status: string) {
    exists i :: 0 <= i < |tasks| && tasks[i].status == status
  }

  /** The task of every row, in row order. */
  function Tasks(rows: seq<Row>): (r: seq<TaskProgress>)
    ensures |r| == |rows|
    ensures forall i :: 0 <= i < |rows| ==> r[i] == TaskFromSheetRow(rows[i])
  {
    seq(|rows|, i requires 0 <= i < |rows| => TaskFromSheetRow(rows[i]))
  }

  /** A phase of that name lists the task. */
  predicate Listed(ps: seq<PhaseProgress>, phase: string, t: TaskProgress) {
    exists i :: 0 <= i < |ps| && ps[i].phase == phase && t in ps[i].tasks
  }

  const ProgressSheetHeaders: seq<string> := ["フェーズ", "タスクID", "タスク名", "ステータス", "ブロッカー", "完了日", "備考"]

  /** The completed-at cell: `None` when empty or malformed. */
  function CompletedAt(cell: string): (r: Option<Clock.Instant>)
    ensures cell == "" ==> r.None?
    ensures r.Some? ==> Clock.Valid(r.value)
  {
    if cell == "" then None else Clock.ParseIso(cell)
  }

  /** The status cell of a row, "not_started" when missing. */
  function StatusOf(row: seq<string>): string {
    Cell(row, 3, NotStarted)
  }

  /** `task_from_sheet_row`: missing cells read as "", a missing status as
      "not_started"; the phase column is not part of the task. */
  function TaskFromSheetRow(row: seq<string>): (t: TaskProgress)
    ensures |row| < 4 ==> t.status == NotStarted
    ensures AllListItems(t.blockers)
    ensures t.completedAt.Some? ==> Clock.Valid(t.completedAt.value)
  {
    TaskProgress(Cell(row, 1, ""), Cell(row, 2, ""), StatusOf(row),
                 SplitList(Cell(row, 4, "")), CompletedAt(Cell(row, 5, "")), Cell(row, 6, ""))
  }

  /** `task_to_sheet_row`. */
  function TaskToSheetRow(phase: string, t: TaskProgress): (row: seq<string>)
    ensures |row| == |ProgressSheetHeaders|
    ensures row[0] == phase && row[1] == t.taskId && row[3] == t.status
  {
    [phase, t.taskId, t.name, t.status, Join(t.blockers, ","),
     if t.completedAt.Some? then Clock.IsoFormat(t.completedAt.value) else "", t.notes]
  }

  predicate RowSafe(t: TaskProgress) {
    AllListItems(t.blockers) && (t.completedAt.Some? ==> Clock.Valid(t.completedAt.value))
  }

  /** A task whose blockers are non-empty, trimmed and comma-free reads back
      from its row unchanged, under any phase. */
  lemma {:induction false} TaskRowRoundTrip(phase: string, t: TaskProgress)
    requires RowSafe(t)
    ensures TaskFromSheetRow(TaskToSheetRow(phase, t)) == t
  {
    var row := TaskToSheetRow(phase, t);
    assert row[4] == Join(t.blockers, ",");
    CatalogModel.ListRead(t.blockers);
    CompletedRead(t.completedAt);
    assert TaskFromSheetRow(row) == TaskProgress(row[1], row[2], row[3], SplitList(row[4]), CompletedAt(row[5]), row[6]);
  }

  lemma {:induction false} CompletedRead(c: Option<Clock.Instant>)
    requires c.Some? ==> Clock.Valid(c.value)
    ensures CompletedAt(if c.Some? then Clock.IsoFormat(c.value) else "") == c
  {
    if c.Some? {
      Clock.IsoRoundTrip(c.value);
    }
  }
}
