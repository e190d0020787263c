/** The row logic of the progress tools over the A:J range of a project's
    progress sheet: header detection, phase aggregation, task lookup and the
    cell edits of the update and delete tools. Columns H..J hold priority,
    category and blocked_by. */
module ProgressRows {
  import opened Wrappers
  import opened Strings
  import Seqs
  import StringOrder
  import CatalogModel
  import opened Sheet
  import opened ProgressModel
  import opened PhaseGroups

  /** Columns A..J. */
  const Width := 10

  const StatusCol := 3
  const BlockersCol := 4
  const CompletedCol := 5
  const NotesCol := 6
  const PriorityCol := 7
  const CategoryCol := 8
  const BlockedByCol := 9

  predicate ValidStatus(s: string) {
    s in [NotStarted, InProgress, Completed, Blocked]
  }

  predicate ValidPriority(p: string) {
    p in ["high", "medium", "low"]
  }

  /** A row as an A:J range returns it. */
  function UpToJ(row: Row): (r: Row)
    ensures |r| <= Width && |r| <= |row|
    ensures r == row[..|r|]
    ensures |row| <= Width ==> r == row
  {
    if |row| <= Width then row else row[..Width]
  }

  /** The A:J range of a whole sheet. */
  function ReadAJ(g: Grid): (r: seq<Row>)
    ensures |r| == |g|
    ensures forall i :: 0 <= i < |g| ==> r[i] == UpToJ(g[i])
  {
    seq(|g|, i requires 0 <= i < |g| => UpToJ(g[i]))
  }

  /** A ten-cell row written over A..J reads back as itself. */
  lemma {:induction false} WrittenRead(row: Row, cells: Row)
    requires |cells| == Width
    ensures UpToJ(Overwrite(row, cells)) == cells
  {
  }

  /** The first row is a header iff its first cell is "フェーズ" or "Phase". */
  predicate HasHeader(rows: seq<Row>) {
    |rows| > 0 && |rows[0]| > 0 && rows[0][0] in ["フェーズ", "Phase"]
  }

  function Start(rows: seq<Row>): (r: nat)
    ensures r <= |rows|
  {
    if HasHeader(rows) then 1 else 0
  }

  // ---- get_progress ----

  /** The rows `get_progress` turns into tasks: at least three cells, a
      phase, and inside the phase filter ("" for none). */
  predicate Shown(row: Row, phase: string) {
    |row| >= 3 && PhaseOf(row) != "" && (phase == "" || PhaseOf(row) == phase)
  }

  function ShownRows(rows: seq<Row>, phase: string): (r: seq<Row>)
    ensures forall i :: 0 <= i < |r| ==> Shown(r[i], phase)
    ensures forall i :: Start(rows) <= i < |rows| && Shown(rows[i], phase) ==> rows[i] in r
    ensures forall row :: row in r ==> row in rows[Start(rows)..]
  {
    Seqs.Filter(row => Shown(row, phase), rows[Start(rows)..])
  }

  /** The tool's phase status; unlike the repository's it knows "blocked",
      and a completed task counts as progress. */
  function ToolStatus(tasks: seq<TaskProgress>): (r: string)
    ensures r == Completed <==> |tasks| > 0 && AllWith(tasks, Completed)
    ensures r == Blocked <==> !(|tasks| > 0 && AllWith(tasks, Completed)) && AnyWith(tasks, Blocked)
    ensures r == InProgress <==> !(|tasks| > 0 && AllWith(tasks, Completed)) && !AnyWith(tasks, Blocked)
                                 && (AnyWith(tasks, InProgress) || AnyWith(tasks, Completed))
    ensures r == NotStarted <==> !(|tasks| > 0 && AllWith(tasks, Completed)) && !AnyWith(tasks, Blocked)
                                 && !AnyWith(tasks, InProgress) && !AnyWith(tasks, Completed)
  {
    if |tasks| > 0 && AllWith(tasks, Completed) then Completed
    else if AnyWith(tasks, Blocked) then Blocked
    else if AnyWith(tasks, InProgress) || AnyWith(tasks, Completed) then InProgress
    else NotStarted
  }

  /** The phases sorted by name, each with its tasks in sheet order. */
  function SortedPhases(shown: seq<Row>): (r: seq<PhaseProgress>)
    ensures |r| == |StringOrder.SortedSet(Names(shown))|
    ensures forall i :: 0 <= i < |r| ==> r[i].phase == StringOrder.SortedSet(Names(shown))[i]
    ensures forall i :: 0 <= i < |r| ==>
      r[i].tasks == Tasks(RowsOf(shown, r[i].phase)) && r[i].status == ToolStatus(r[i].tasks)
  {
    var names := StringOrder.SortedSet(Names(shown));
    seq(|names|, i requires 0 <= i < |names| =>
      var tasks := Tasks(RowsOf(shown, names[i]));
      PhaseProgress(names[i], ToolStatus(tasks), tasks))
  }

  /** The index of the first row whose task is in progress. */
  function FirstInProgress(rows: seq<Row>): (r: Option<nat>)
    ensures r.None? <==> forall i :: 0 <= i < |rows| ==> StatusOf(rows[i]) != InProgress
    ensures r.Some? ==> (r.value < |rows| && StatusOf(rows[r.value]) == InProgress &&
      forall i :: 0 <= i < r.value ==> StatusOf(rows[i]) != InProgress)
  {
    if |rows| == 0 then None
    else if StatusOf(rows[0]) == InProgress then Some(0)
    else
      match FirstInProgress(rows[1..])
      case None => None
      case Some(i) => Some(i + 1)
  }

  /** The first phase that is not completed, "" when there is none. */
  function FirstOpenPhase(ps: seq<PhaseProgress>): (r: string)
    ensures (forall i :: 0 <= i < |ps| ==> ps[i].status == Completed) ==> r == ""
    ensures forall i :: (0 <= i < |ps| && ps[i].status != Completed &&
                         (forall j :: 0 <= j < i ==> ps[j].status == Completed)) ==> r == ps[i].phase
  {
    if |ps| == 0 then ""
    else if ps[0].status != Completed then ps[0].phase
    else
      var r := FirstOpenPhase(ps[1..]);
      assert forall i :: 1 <= i < |ps| ==> ps[1..][i - 1] == ps[i];
      r
  }

  datatype Progress = Progress(currentPhase: string, phases: seq<PhaseProgress>)

  /** The aggregation of `get_progress` over the A:J rows. */
  function Aggregate(rows: seq<Row>, phase: string): (r: Progress)
    ensures var shown := ShownRows(rows, phase);
      r.phases == SortedPhases(shown) &&
      (FirstInProgress(shown).Some? ==> r.currentPhase == PhaseOf(shown[FirstInProgress(shown).value])) &&
      (FirstInProgress(shown).None? ==> r.currentPhase == FirstOpenPhase(r.phases))
  {
    var shown := ShownRows(rows, phase);
    var ps := SortedPhases(shown);
    match FirstInProgress(shown)
    case Some(i) => Progress(PhaseOf(shown[i]), ps)
    case None => Progress(FirstOpenPhase(ps), ps)
  }

  /** The names of the listed phases, in order. */
  function PhaseNames(ps: seq<PhaseProgress>): (r: seq<string>)
    ensures |r| == |ps| && forall i :: 0 <= i < |ps| ==> r[i] == ps[i].phase
  {
    seq(|ps|, i requires 0 <= i < |ps| => ps[i].phase)
  }

  /** The phases come out in ascending name order, hence each once. */
  lemma AggregateSorted(rows: seq<Row>, phase: string)
    ensures StringOrder.Ascending(PhaseNames(Aggregate(rows, phase).phases))
  {
    var ps := Aggregate(rows, phase).phases;
    assert PhaseNames(ps) == StringOrder.SortedSet(Names(ShownRows(rows, phase)));
  }

  /** Every listed phase is named and inside the filter. */
  lemma {:induction false} AggregateFiltered(rows: seq<Row>, phase: string)
    ensures var ps := Aggregate(rows, phase).phases;
      forall i :: 0 <= i < |ps| ==> ps[i].phase != "" && (phase == "" || ps[i].phase == phase)
  {
    var shown := ShownRows(rows, phase);
    var ps := Aggregate(rows, phase).phases;
    var sorted := StringOrder.SortedSet(Names(shown));
    forall i | 0 <= i < |ps|
      ensures ps[i].phase != "" && (phase == "" || ps[i].phase == phase)
    {
      assert ps[i].phase == sorted[i];
      assert sorted[i] in Names(shown);
      assert sorted[i] in AllPhases(shown);
    }
  }

  /** A phase of that name is listed and is not completed. */
  predicate Open(ps: seq<PhaseProgress>, name: string) {
    exists i :: 0 <= i < |ps| && ps[i].phase == name && ps[i].status != Completed
  }

  /** A current phase is always one of the listed phases, and never a
      completed one. */
  lemma {:induction false} CurrentListed(rows: seq<Row>, phase: string)
    ensures var r := Aggregate(rows, phase);
      r.currentPhase != "" ==> Open(r.phases, r.currentPhase)
  {
    var shown := ShownRows(rows, phase);
    var r := Aggregate(rows, phase);
    match FirstInProgress(shown)
    case Some(k) =>
      var name := PhaseOf(shown[k]);
      assert AllPhases(shown)[k] == name;
      var sorted := StringOrder.SortedSet(Names(shown));
      assert name in sorted;
      var i :| 0 <= i < |sorted| && sorted[i] == name;
      InProgressNotCompleted(shown, name, k);
      assert r.phases[i].phase == name && r.phases[i].status != Completed;
    case None =>
      OpenPhaseListed(r.phases);
  }

  lemma {:induction false} InProgressNotCompleted(shown: seq<Row>, name: string, k: nat)
    requires k < |shown| && PhaseOf(shown[k]) == name && StatusOf(shown[k]) == InProgress
    ensures ToolStatus(Tasks(RowsOf(shown, name))) != Completed
  {
    var rows := RowsOf(shown, name);
    assert shown[k] in rows;
    var j :| 0 <= j < |rows| && rows[j] == shown[k];
    assert Tasks(rows)[j].status == InProgress;
  }

  lemma {:induction false} OpenPhaseListed(ps: seq<PhaseProgress>)
    ensures FirstOpenPhase(ps) != "" ==> Open(ps, FirstOpenPhase(ps))
  {
    if |ps| > 0 && ps[0].status == Completed {
      OpenPhaseListed(ps[1..]);
      if FirstOpenPhase(ps) != "" {
        var i :| 0 <= i < |ps[1..]| && ps[1..][i].phase == FirstOpenPhase(ps[1..]) && ps[1..][i].status != Completed;
        assert ps[i + 1] == ps[1..][i];
      }
    }
  }

  /** Every shown row's task is listed under its own phase. */
  lemma {:induction false} ShownRowListed(rows: seq<Row>, phase: string, i: nat)
    requires Start(rows) <= i < |rows| && Shown(rows[i], phase)
    ensures Listed(Aggregate(rows, phase).phases, PhaseOf(rows[i]), TaskFromSheetRow(rows[i]))
  {
    var shown := ShownRows(rows, phase);
    var row := rows[i];
    assert row in shown;
    var k :| 0 <= k < |shown| && shown[k] == row;
    var name := PhaseOf(row);
    assert AllPhases(shown)[k] == name;
    var sorted := StringOrder.SortedSet(Names(shown));
    assert name in sorted;
    var j :| 0 <= j < |sorted| && sorted[j] == name;
    var group := RowsOf(shown, name);
    assert row in group;
    var m :| 0 <= m < |group| && group[m] == row;
    assert Tasks(group)[m] == TaskFromSheetRow(row);
    assert Aggregate(rows, phase).phases[j].tasks == Tasks(group);
  }

  // ---- finding a task ----

  /** Row `row` holds the task id in column B and lies inside the phase
      filter ("" for none). */
  predicate Match(row: Row, taskId: string, phase: string) {
    HasAt(row, 1, taskId) && (phase == "" || PhaseOf(row) == phase)
  }

  /** The positions from `i` on whose flag is set, ascending. */
  function Where(flags: seq<bool>, i: nat): (r: seq<nat>)
    requires i <= |flags|
    ensures forall k :: 0 <= k < |r| ==> i <= r[k] < |flags| && flags[r[k]]
    ensures forall j :: i <= j < |flags| && flags[j] ==> j in r
    ensures forall k, l :: 0 <= k < l < |r| ==> r[k] < r[l]
    decreases |flags| - i
  {
    if i == |flags| then []
    else
      var rest := Where(flags, i + 1);
      if flags[i] then [i] + rest else rest
  }

  /** No flag set from `i` on: no position. */
  lemma {:induction false} WhereNone(flags: seq<bool>, i: nat)
    requires i <= |flags|
    requires forall j :: i <= j < |flags| ==> !flags[j]
    ensures Where(flags, i) == []
    decreases |flags| - i
  {
    if i < |flags| {
      WhereNone(flags, i + 1);
    }
  }

  /** An ascending list of positions inside `[lo, hi)` has at most
      `hi - lo` entries. */
  lemma {:induction false} AscendingBound(m: seq<nat>, lo: nat, hi: nat)
    requires lo <= hi
    requires forall i :: 0 <= i < |m| ==> lo <= m[i] < hi
    requires forall a, b :: 0 <= a < b < |m| ==> m[a] < m[b]
    ensures |m| <= hi - lo
  {
    if |m| > 0 {
      var rest := m[1..];
      assert forall i :: 0 <= i < |rest| ==> rest[i] == m[i + 1];
      assert lo <= m[0] < hi;
      AscendingBound(rest, m[0] + 1, hi);
      assert |m| == |rest| + 1;
    }
  }

  /** No row below the header matches: no matches. */
  lemma {:induction false} NoMatches(rows: seq<Row>, taskId: string, phase: string)
    requires forall j :: Start(rows) <= j < |rows| ==> !Match(rows[j], taskId, phase)
    ensures Matches(rows, taskId, phase) == []
  {
    WhereNone(seq(|rows|, j requires 0 <= j < |rows| => Match(rows[j], taskId, phase)), Start(rows));
  }

  /** The rows the tools consider the task, in sheet order below the header. */
  function Matches(rows: seq<Row>, taskId: string, phase: string): (r: seq<nat>)
    ensures forall k :: 0 <= k < |r| ==> Start(rows) <= r[k] < |rows| && Match(rows[r[k]], taskId, phase)
    ensures forall j :: Start(rows) <= j < |rows| && Match(rows[j], taskId, phase) ==> j in r
    ensures forall k, l :: 0 <= k < l < |r| ==> r[k] < r[l]
  {
    Where(seq(|rows|, j requires 0 <= j < |rows| => Match(rows[j], taskId, phase)), Start(rows))
  }

  /** The first matching row is below every other match. */
  lemma {:induction false} FirstMatchFirst(rows: seq<Row>, taskId: string, phase: string)
    requires |Matches(rows, taskId, phase)| > 0
    ensures forall j :: Start(rows) <= j < Matches(rows, taskId, phase)[0] ==> !Match(rows[j], taskId, phase)
  {
    var m := Matches(rows, taskId, phase);
    assert forall k :: 0 <= k < |m| ==> m[0] <= m[k];
  }

  /** Why a progress tool fails. `Raised` is an exception the tool's own
      `except` clause turns into a failed result. */
  datatype Failure = NoProject | NoConfig | InvalidStatus | InvalidPriority | NoSheet | NoData | NotFound
                   | Ambiguous(phases: seq<string>) | Raised

  /** The task's row for `get_task`, `delete_task` and `update_task`: the
      first match, refused when the id matches several rows and no phase is
      given. */
  function Select(rows: seq<Row>, taskId: string, phase: string): (r: Result<nat, Failure>)
    ensures r == Err(NotFound) <==> |Matches(rows, taskId, phase)| == 0
    ensures r.Err? && r != Err(NotFound) ==> r.error.Ambiguous?
    ensures r.Err? && r.error.Ambiguous? <==> |Matches(rows, taskId, phase)| > 1 && phase == ""
    ensures r.Ok? ==> r.value == Matches(rows, taskId, phase)[0]
    ensures r.Err? && r.error.Ambiguous? ==> |r.error.phases| == |Matches(rows, taskId, phase)|
  {
    var m := Matches(rows, taskId, phase);
    if |m| == 0 then Err(NotFound)
    else if |m| > 1 && phase == "" then
      Err(Ambiguous(seq(|m|, k requires 0 <= k < |m| => PhaseOf(rows[m[k]]))))
    else Ok(m[0])
  }

  // ---- row edits ----

  /** The names the tools report in `updated_fields`. */
  datatype Field = PhaseField | TaskIdField | NameField | StatusField | CompletedAtField | BlockersField
                 | NotesField | PriorityField | CategoryField | BlockedByField
  {
    function Label(): string {
      match this
      case PhaseField => "phase"
      case TaskIdField => "task_id"
      case NameField => "name"
      case StatusField => "status"
      case CompletedAtField => "completed_at"
      case BlockersField => "blockers"
      case NotesField => "notes"
      case PriorityField => "priority"
      case CategoryField => "category"
      case BlockedByField => "blocked_by"
    }

    /** The position of the field in every report, which follows the
        column order except that completed_at comes right after status. */
    function Index(): nat {
      match this
      case PhaseField => 0
      case TaskIdField => 1
      case NameField => 2
      case StatusField => 3
      case CompletedAtField => 4
      case BlockersField => 5
      case NotesField => 6
      case PriorityField => 7
      case CategoryField => 8
      case BlockedByField => 9
    }
  }

  /** `fields.append(f)` when `b` holds. */
  function With(fs: seq<Field>, b: bool, f: Field): (r: seq<Field>)
    ensures forall x :: x in r <==> x in fs || (b && x == f)
  {
    if b then fs + [f] else fs
  }

  /** The field at a report position. */
  function FieldAt(i: nat): (f: Field)
    requires i < 10
    ensures f.Index() == i
  {
    if i == 0 then PhaseField
    else if i == 1 then TaskIdField
    else if i == 2 then NameField
    else if i == 3 then StatusField
    else if i == 4 then CompletedAtField
    else if i == 5 then BlockersField
    else if i == 6 then NotesField
    else if i == 7 then PriorityField
    else if i == 8 then CategoryField
    else BlockedByField
  }

  /** The report for the first `n` of ten flags, one per field in report
      order: each field whose flag is set, in that order. */
  function Report(flags: seq<bool>, n: nat): (r: seq<Field>)
    requires n <= |flags| == 10
  {
    if n == 0 then []
    else With(Report(flags, n - 1), flags[n - 1], FieldAt(n - 1))
  }

  /** A field is reported exactly when its flag is set. */
  lemma {:induction false} ReportListed(flags: seq<bool>, n: nat)
    requires n <= |flags| == 10
    ensures forall f :: f in Report(flags, n) <==> f.Index() < n && flags[f.Index()]
  {
    if n > 0 {
      ReportListed(flags, n - 1);
      forall f ensures f == FieldAt(n - 1) <==> f.Index() == n - 1 {
        match f
        case PhaseField =>
        case TaskIdField =>
        case NameField =>
        case StatusField =>
        case CompletedAtField =>
        case BlockersField =>
        case NotesField =>
        case PriorityField =>
        case CategoryField =>
        case BlockedByField =>
      }
    }
  }

  /** A field is in the full report exactly when its flag is set. */
  lemma Reported(flags: seq<bool>, f: Field)
    requires |flags| == 10
    ensures f in Report(flags, 10) <==> flags[f.Index()]
  {
    ReportListed(flags, 10);
  }

  /** `target_row[col] = v` when a value is supplied. */
  function PutOpt(row: Row, col: nat, v: Option<string>): (r: Row)
    requires col < |row|
    ensures |r| == |row|
    ensures r[col] == v.GetOr(row[col])
    ensures forall j :: 0 <= j < |row| && j != col ==> r[j] == row[j]
  {
    if v.Some? then row[col := v.value] else row
  }

  function JoinOpt(v: Option<seq<string>>): (r: Option<string>)
    ensures r.Some? <==> v.Some?
    ensures v.Some? ==> r.value == Join(v.value, ",")
  {
    if v.Some? then Some(Join(v.value, ",")) else None
  }

  /** Column D gets the status; the completion date in column F is stamped
      on a move into "completed", kept on completed to completed, and
      cleared for any other status. The flag tells whether it was stamped. */
  function SetStatus(row: Row, status: string, today: string): (r: (Row, bool))
    requires |row| >= Width
    ensures |r.0| == |row|
    ensures r.0[StatusCol] == status
    ensures r.1 <==> status == Completed && row[StatusCol] != Completed
    ensures r.0[CompletedCol] == (if r.1 then today else if status != Completed then "" else row[CompletedCol])
    ensures forall j :: 0 <= j < |row| && j != StatusCol && j != CompletedCol ==> r.0[j] == row[j]
  {
    var before := row[StatusCol];
    var row1 := row[StatusCol := status];
    if status == Completed && before != Completed then (row1[CompletedCol := today], true)
    else if status != Completed then (row1[CompletedCol := ""], false)
    else (row1, false)
  }

  /** The supplied fields of `update_task_status`. */
  datatype StatusChange = StatusChange(
    status: string, blockers: Option<seq<string>>, notes: Option<string>, priority: Option<string>,
    category: Option<string>, blockedBy: Option<seq<string>>)

  /** The row edit of `update_task_status` on the padded row; an invalid
      priority is dropped without a word. */
  function StatusCells(row: Row, c: StatusChange, today: string): (r: Row)
    requires |row| == Width
    ensures |r| == Width && r[0] == row[0] && r[1] == row[1] && r[2] == row[2]
    ensures r[StatusCol] == c.status
    ensures r[BlockersCol] == JoinOpt(c.blockers).GetOr(row[BlockersCol])
    ensures r[NotesCol] == c.notes.GetOr(row[NotesCol])
    ensures r[PriorityCol] == (if c.priority.Some? && ValidPriority(c.priority.value) then c.priority.value
                               else row[PriorityCol])
    ensures r[CategoryCol] == c.category.GetOr(row[CategoryCol])
    ensures r[BlockedByCol] == JoinOpt(c.blockedBy).GetOr(row[BlockedByCol])
    ensures r[CompletedCol] == SetStatus(row, c.status, today).0[CompletedCol]
  {
    var row1 := SetStatus(row, c.status, today).0;
    var priority := if c.priority.Some? && ValidPriority(c.priority.value) then c.priority else None;
    var row2 := PutOpt(row1, BlockersCol, JoinOpt(c.blockers));
    var row3 := PutOpt(row2, NotesCol, c.notes);
    var row4 := PutOpt(row3, PriorityCol, priority);
    var row5 := PutOpt(row4, CategoryCol, c.category);
    PutOpt(row5, BlockedByCol, JoinOpt(c.blockedBy))
  }

  /** The flags of the `update_task_status` report, in report order. */
  function StatusFlags(row: Row, c: StatusChange): (r: seq<bool>)
    requires |row| == Width
    ensures |r| == 10
  {
    [false, false, false, true, Stamps(row, c.status), c.blockers.Some?, c.notes.Some?,
     c.priority.Some? && ValidPriority(c.priority.value), c.category.Some?, c.blockedBy.Some?]
  }

  /** The fields `update_task_status` reports. */
  function StatusFields(row: Row, c: StatusChange): seq<Field>
    requires |row| == Width
  {
    Report(StatusFlags(row, c), 10)
  }

  /** The report holds the status always, the completion date when it is
      stamped, and each other supplied field, where a priority counts only
      when it is valid. */
  lemma StatusFieldsListed(row: Row, c: StatusChange)
    requires |row| == Width
    ensures var r := StatusFields(row, c);
      && StatusField in r
      && (CompletedAtField in r <==> Stamps(row, c.status))
      && (BlockersField in r <==> c.blockers.Some?)
      && (NotesField in r <==> c.notes.Some?)
      && (PriorityField in r <==> c.priority.Some? && ValidPriority(c.priority.value))
      && (CategoryField in r <==> c.category.Some?)
      && (BlockedByField in r <==> c.blockedBy.Some?)
      && PhaseField !in r && TaskIdField !in r && NameField !in r
  {
    var flags := StatusFlags(row, c);
    Reported(flags, StatusField);
    Reported(flags, CompletedAtField);
    Reported(flags, BlockersField);
    Reported(flags, NotesField);
    Reported(flags, PriorityField);
    Reported(flags, CategoryField);
    Reported(flags, BlockedByField);
    Reported(flags, PhaseField);
    Reported(flags, TaskIdField);
    Reported(flags, NameField);
  }

  /** The supplied fields of `update_task`. */
  datatype TaskEdit = TaskEdit(
    newPhase: Option<string>, name: Option<string>, status: Option<string>, blockers: Option<seq<string>>,
    description: Option<string>, priority: Option<string>, category: Option<string>,
    blockedBy: Option<seq<string>>)

  /** Whether a status edit stamps the completion date: a move into
      "completed" from any other status. */
  predicate Stamps(row: Row, status: string)
    requires StatusCol < |row|
  {
    status == Completed && row[StatusCol] != Completed
  }

  /** The cells of the `update_task` edit on the padded row. */
  function TaskCells(row: Row, e: TaskEdit, today: string): (r: Row)
    requires |row| == Width
    ensures |r| == Width && r[1] == row[1]
    ensures r[0] == e.newPhase.GetOr(row[0])
    ensures r[2] == e.name.GetOr(row[2])
    ensures r[StatusCol] == e.status.GetOr(row[StatusCol])
    ensures e.status.None? ==> r[CompletedCol] == row[CompletedCol]
    ensures e.status.Some? ==> r[CompletedCol] == SetStatus(row, e.status.value, today).0[CompletedCol]
    ensures r[BlockersCol] == JoinOpt(e.blockers).GetOr(row[BlockersCol])
    ensures r[NotesCol] == e.description.GetOr(row[NotesCol])
    ensures r[PriorityCol] == e.priority.GetOr(row[PriorityCol])
    ensures r[CategoryCol] == e.category.GetOr(row[CategoryCol])
    ensures r[BlockedByCol] == JoinOpt(e.blockedBy).GetOr(row[BlockedByCol])
  {
    var row0 := PutOpt(row, 0, e.newPhase);
    var row1 := PutOpt(row0, 2, e.name);
    var row2 := if e.status.Some? then SetStatus(row1, e.status.value, today).0 else row1;
    var row3 := PutOpt(row2, BlockersCol, JoinOpt(e.blockers));
    var row4 := PutOpt(row3, NotesCol, e.description);
    var row5 := PutOpt(row4, PriorityCol, e.priority);
    var row6 := PutOpt(row5, CategoryCol, e.category);
    PutOpt(row6, BlockedByCol, JoinOpt(e.blockedBy))
  }

  /** The flags of the `update_task` report, in report order. */
  function TaskFlags(row: Row, e: TaskEdit): (r: seq<bool>)
    requires |row| == Width
    ensures |r| == 10
  {
    [e.newPhase.Some? && e.newPhase.value != row[0], false, e.name.Some?, e.status.Some?,
     e.status.Some? && Stamps(row, e.status.value), e.blockers.Some?, e.description.Some?,
     e.priority.Some?, e.category.Some?, e.blockedBy.Some?]
  }

  /** The fields `update_task` reports. */
  function TaskFields(row: Row, e: TaskEdit): seq<Field>
    requires |row| == Width
  {
    Report(TaskFlags(row, e), 10)
  }

  /** The report holds each supplied field, the phase only when it changes,
      and the completion date when it is stamped. */
  lemma TaskFieldsListed(row: Row, e: TaskEdit)
    requires |row| == Width
    ensures var r := TaskFields(row, e);
      && (PhaseField in r <==> e.newPhase.Some? && e.newPhase.value != row[0])
      && (NameField in r <==> e.name.Some?)
      && (StatusField in r <==> e.status.Some?)
      && (CompletedAtField in r <==> e.status.Some? && Stamps(row, e.status.value))
      && (BlockersField in r <==> e.blockers.Some?)
      && (NotesField in r <==> e.description.Some?)
      && (PriorityField in r <==> e.priority.Some?)
      && (CategoryField in r <==> e.category.Some?)
      && (BlockedByField in r <==> e.blockedBy.Some?)
      && TaskIdField !in r
  {
    var flags := TaskFlags(row, e);
    Reported(flags, PhaseField);
    Reported(flags, NameField);
    Reported(flags, StatusField);
    Reported(flags, CompletedAtField);
    Reported(flags, BlockersField);
    Reported(flags, NotesField);
    Reported(flags, PriorityField);
    Reported(flags, CategoryField);
    Reported(flags, BlockedByField);
    Reported(flags, TaskIdField);
  }

  // ---- delete_task ----

  /** `list.remove(x)`: drops the first occurrence. */
  function RemoveFirst(xs: seq<string>, x: string): (r: seq<string>)
    requires x in xs
    ensures |r| == |xs| - 1
    ensures multiset(r) == multiset(xs) - multiset{x}
  {
    if xs[0] == x then
      assert xs == [xs[0]] + xs[1..];
      xs[1..]
    else
      var rest := RemoveFirst(xs[1..], x);
      assert xs == [xs[0]] + xs[1..];
      [xs[0]] + rest
  }

  /** A row of ten cells whose column J names the task. */
  predicate Dependent(row: Row, taskId: string) {
    |row| >= Width && row[BlockedByCol] != "" && taskId in SplitList(row[BlockedByCol])
  }

  /** The dependency fix-up of one row: a row of ten cells whose column J
      names the task loses that name once. */
  function Unblock(row: Row, taskId: string): (r: Option<Row>)
    ensures r.Some? <==> Dependent(row, taskId)
    ensures r.Some? ==> (|r.value| == |row| &&
      r.value[BlockedByCol] == Join(RemoveFirst(SplitList(row[BlockedByCol]), taskId), ",") &&
      forall j :: 0 <= j < |row| && j != BlockedByCol ==> r.value[j] == row[j])
  {
    if |row| < Width || row[BlockedByCol] == "" then None
    else
      var list := SplitList(row[BlockedByCol]);
      if taskId in list then Some(row[BlockedByCol := Join(RemoveFirst(list, taskId), ",")]) else None
  }

  /** Removing an item from a list cell leaves one fewer of it when read
      back, and every other item as it was. */
  lemma {:induction false} UnblockCounts(row: Row, taskId: string)
    requires Dependent(row, taskId)
    ensures var before := SplitList(row[BlockedByCol]);
      var after := SplitList(Unblock(row, taskId).value[BlockedByCol]);
      taskId in before && multiset(after) == multiset(before) - multiset{taskId}
  {
    var list := SplitList(row[BlockedByCol]);
    var rest := RemoveFirst(list, taskId);
    RemovedItems(list, taskId);
    CatalogModel.ListRead(rest);
    assert Unblock(row, taskId).value[BlockedByCol] == Join(rest, ",");
  }

  lemma {:induction false} RemovedItems(list: seq<string>, x: string)
    requires x in list && AllListItems(list)
    ensures AllListItems(RemoveFirst(list, x))
  {
    var rest := RemoveFirst(list, x);
    forall i | 0 <= i < |rest|
      ensures IsListItem(rest[i])
    {
      assert rest[i] in multiset(rest);
      assert rest[i] in multiset(list);
      assert rest[i] in list;
    }
  }

  /** The rows `delete_task` rewrites, from row `i` on: every row other
      than the target whose column J names the task, in sheet order. */
  function Dependents(rows: seq<Row>, target: nat, taskId: string, i: nat): (r: seq<nat>)
    requires i <= |rows|
    ensures forall k :: 0 <= k < |r| ==> i <= r[k] < |rows| && r[k] != target && Dependent(rows[r[k]], taskId)
    ensures forall j :: i <= j < |rows| && j != target && Dependent(rows[j], taskId) ==> j in r
    ensures forall k, l :: 0 <= k < l < |r| ==> r[k] < r[l]
  {
    Where(seq(|rows|, j requires 0 <= j < |rows| => j != target && Dependent(rows[j], taskId)), i)
  }

  function Ten(): (r: Row)
    ensures |r| == Width && forall j :: 0 <= j < Width ==> r[j] == ""
  {
    seq(Width, j => "")
  }
}
