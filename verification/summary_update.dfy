/** `update_summary`: the summary sheet read as a two-column table of
    labels and values, the rows the tool writes for the supplied fields, and
    the table those writes leave behind. */
module SummaryUpdate {
  import opened Wrappers
  import opened Strings
  import Clock
  import Dict
  import opened Sheet
  import ProjectModel
  import ProjectRegistry
  import ProjectTools

  // ------------------------------------------------------------ the table

  /** The label of a row: its first cell; an empty row has none. */
  function Label(row: Row): Option<string> {
    if |row| > 0 then Some(row[0]) else None
  }

  /** The labels of all rows, in row order. */
  function Labels(rows: seq<Row>): (r: seq<Option<string>>)
    ensures |r| == |rows|
    ensures forall i :: 0 <= i < |rows| ==> r[i] == Label(rows[i])
  {
    seq(|rows|, i requires 0 <= i < |rows| => Label(rows[i]))
  }

  /** The last position whose label is `key`. */
  function LastIn(labels: seq<Option<string>>, key: string): (r: Option<nat>)
    ensures r.Some? ==> r.value < |labels| && labels[r.value] == Some(key)
    ensures r.Some? ==> forall j :: r.value < j < |labels| ==> labels[j] != Some(key)
    ensures r.None? <==> Some(key) !in labels
  {
    if |labels| == 0 then None
    else if labels[|labels| - 1] == Some(key) then Some(|labels| - 1)
    else
      var r := LastIn(labels[..|labels| - 1], key);
      assert labels == labels[..|labels| - 1] + [labels[|labels| - 1]];
      r
  }

  /** `key_to_row[key]`: rows are scanned top to bottom, so the last row
      carrying a label is the one it maps to. */
  function KeyRow(rows: seq<Row>, key: string): (r: Option<nat>)
    ensures r.Some? ==> r.value < |rows| && Label(rows[r.value]) == Some(key)
    ensures r.Some? ==> forall j :: r.value < j < |rows| ==> Label(rows[j]) != Some(key)
    ensures r.None? <==> forall j :: 0 <= j < |rows| ==> Label(rows[j]) != Some(key)
  {
    var labels := Labels(rows);
    var r := LastIn(labels, key);
    assert r.None? ==> forall j :: 0 <= j < |rows| ==> labels[j] != Some(key);
    r
  }

  /** The value the table shows for `key`: column B of its row, "" when
      that row has no second cell. */
  function Lookup(rows: seq<Row>, key: string): (r: Option<string>)
    ensures r.Some? <==> KeyRow(rows, key).Some?
  {
    match KeyRow(rows, key)
    case None => None
    case Some(i) => Some(Cell(rows[i], 1, ""))
  }

  // --------------------------------------------------------------- writes

  /** One queued write: `[[key, value]]` into columns A and B of a row. */
  datatype Update = Update(row: nat, key: string, value: string)

  /** The sheet after one write. Only columns A and B are modelled, so the
      row becomes exactly `[key, value]`; a write past the end adds the row
      (with empty rows before it, were there a gap). */
  function Write(rows: seq<Row>, u: Update): (r: seq<Row>)
    ensures u.row < |rows| ==> |r| == |rows|
    ensures u.row >= |rows| ==> |r| == u.row + 1
    ensures r[u.row] == [u.key, u.value]
    ensures forall j :: 0 <= j < |rows| && j != u.row ==> r[j] == rows[j]
  {
    if u.row < |rows| then rows[u.row := [u.key, u.value]]
    else rows + seq(u.row - |rows|, _ => []) + [[u.key, u.value]]
  }

  /** The writes performed in order. */
  function ApplyAll(rows: seq<Row>, us: seq<Update>): seq<Row> {
    if |us| == 0 then rows else Write(ApplyAll(rows, us[..|us| - 1]), us[|us| - 1])
  }

  /** The keys among `ps` that have no row in `rows`, in order. */
  function NewKeys(rows: seq<Row>, ps: seq<(string, string)>): (r: seq<Option<string>>)
    ensures |r| <= |ps|
  {
    if |ps| == 0 then []
    else
      var r := NewKeys(rows, ps[..|ps| - 1]);
      var k := ps[|ps| - 1].0;
      if KeyRow(rows, k).Some? then r else r + [Some(k)]
  }

  /** The row each queued pair is written to, decided against the table as
      read: a key that has a row goes to that row, and the n-th key that
      has none goes to row `len(rows) + n` (the `max_row` counter). */
  function Plan(rows: seq<Row>, ps: seq<(string, string)>): (r: seq<Update>)
    ensures |r| == |ps|
    ensures forall i :: 0 <= i < |ps| ==> r[i].key == ps[i].0 && r[i].value == ps[i].1
    ensures forall i :: 0 <= i < |ps| && KeyRow(rows, ps[i].0).Some? ==> r[i].row == KeyRow(rows, ps[i].0).value
    ensures forall i :: 0 <= i < |ps| && KeyRow(rows, ps[i].0).None? ==> r[i].row >= |rows|
  {
    if |ps| == 0 then []
    else
      var prefix := ps[..|ps| - 1];
      var (k, v) := ps[|ps| - 1];
      var row := match KeyRow(rows, k)
        case Some(i) => i
        case None => |rows| + |NewKeys(rows, prefix)|;
      Plan(rows, prefix) + [Update(row, k, v)]
  }

  // ------------------------------------------------- the table as a map

  /** The row `key` is written to so that the table shows the value: its
      last row, or a new row at the end. */
  function Target(rows: seq<Row>, key: string): (r: nat)
    ensures r <= |rows|
  {
    match KeyRow(rows, key)
    case Some(i) => i
    case None => |rows|
  }

  /** `rows[key] = value` for the table read as a map. */
  function Put(rows: seq<Row>, key: string, value: string): seq<Row> {
    Write(rows, Update(Target(rows, key), key, value))
  }

  /** Writing a key's own row keeps every label; a new key adds its label
      at the end. */
  lemma {:induction false} PutLabels(rows: seq<Row>, key: string, value: string)
    ensures Labels(Put(rows, key, value))
            == Labels(rows) + (if KeyRow(rows, key).Some? then [] else [Some(key)])
  {
    var r := Put(rows, key, value);
    if KeyRow(rows, key).None? {
      assert r == rows + [[key, value]];
    }
    assert Labels(r) == Labels(rows) + (if KeyRow(rows, key).Some? then [] else [Some(key)]);
  }

  /** The table behaves as a map under `Put`: the key shows the new value
      and every other key shows what it showed. */
  lemma {:induction false} PutLookup(rows: seq<Row>, key: string, value: string, k: string)
    ensures Lookup(Put(rows, key, value), k) == if k == key then Some(value) else Lookup(rows, k)
  {
    var r := Put(rows, key, value);
    PutLabels(rows, key, value);
    if k != key {
      if KeyRow(rows, key).None? {
        LastSkip(Labels(rows), Some(key), k);
      }
      assert KeyRow(r, k) == KeyRow(rows, k);
    } else if KeyRow(rows, key).None? {
      assert LastIn(Labels(r), k) == Some(|rows|);
    }
  }

  lemma {:induction false} LastSkip(labels: seq<Option<string>>, x: Option<string>, k: string)
    requires x != Some(k)
    ensures LastIn(labels + [x], k) == LastIn(labels, k)
  {
    assert (labels + [x])[..|labels|] == labels;
  }

  /** Several `Put`s in order. */
  function PutAll(rows: seq<Row>, ps: seq<(string, string)>): seq<Row> {
    if |ps| == 0 then rows else
      var (k, v) := ps[|ps| - 1];
      Put(PutAll(rows, ps[..|ps| - 1]), k, v)
  }

  /** The value of the last pair with key `k`. */
  function Latest(ps: seq<(string, string)>, k: string): (r: Option<string>)
    ensures r.Some? ==> (k, r.value) in ps
    ensures r.None? <==> forall i :: 0 <= i < |ps| ==> ps[i].0 != k
  {
    if |ps| == 0 then None
    else if ps[|ps| - 1].0 == k then Some(ps[|ps| - 1].1)
    else
      var r := Latest(ps[..|ps| - 1], k);
      assert forall i :: 0 <= i < |ps| - 1 ==> ps[i] == ps[..|ps| - 1][i];
      r
  }

  /** After the puts, a key shows its last written value; an unwritten key
      shows what it showed before. */
  lemma {:induction false} LookupPutAll(rows: seq<Row>, ps: seq<(string, string)>, k: string)
    ensures Lookup(PutAll(rows, ps), k) == if Latest(ps, k).Some? then Latest(ps, k) else Lookup(rows, k)
    decreases |ps|
  {
    if |ps| > 0 {
      var (key, value) := ps[|ps| - 1];
      LookupPutAll(rows, ps[..|ps| - 1], k);
      PutLookup(PutAll(rows, ps[..|ps| - 1]), key, value, k);
    }
  }

  // ---------------------------------------- the plan performs the puts

  /** Keys without a row are not repeated: in the tool they are either
      fixed labels that have a row, or the keys of one dictionary. */
  predicate NewKeysDistinct(rows: seq<Row>, ps: seq<(string, string)>) {
    forall i, j :: 0 <= i < j < |ps| && ps[i].0 == ps[j].0 ==> KeyRow(rows, ps[i].0).Some?
  }

  /** The writes the tool queues do what putting the pairs one by one does:
      the row chosen against the table as read is always the row `Put`
      would choose against the table as it is by then. */
  lemma {:induction false} PlanPuts(rows: seq<Row>, ps: seq<(string, string)>)
    requires NewKeysDistinct(rows, ps)
    ensures ApplyAll(rows, Plan(rows, ps)) == PutAll(rows, ps)
    decreases |ps|
  {
    if |ps| > 0 {
      var prefix := ps[..|ps| - 1];
      var (k, v) := ps[|ps| - 1];
      assert NewKeysDistinct(rows, prefix);
      PlanPuts(rows, prefix);
      PutAllLabels(rows, prefix);
      var cur := PutAll(rows, prefix);
      var us := Plan(rows, ps);
      assert us[..|us| - 1] == Plan(rows, prefix);
      assert KeyRow(rows, k).None? ==> forall i :: 0 <= i < |prefix| ==> prefix[i].0 != k;
      TargetAgrees(rows, prefix, cur, k);
    }
  }

  /** Putting the pairs one by one keeps the labels the table had and adds
      each new key once, in order. */
  lemma {:induction false} PutAllLabels(rows: seq<Row>, ps: seq<(string, string)>)
    requires NewKeysDistinct(rows, ps)
    ensures Labels(PutAll(rows, ps)) == Labels(rows) + NewKeys(rows, ps)
    decreases |ps|
  {
    if |ps| > 0 {
      var prefix := ps[..|ps| - 1];
      var (k, v) := ps[|ps| - 1];
      assert NewKeysDistinct(rows, prefix);
      PutAllLabels(rows, prefix);
      var cur := PutAll(rows, prefix);
      assert KeyRow(rows, k).None? ==> forall i :: 0 <= i < |prefix| ==> prefix[i].0 != k;
      TargetAgrees(rows, prefix, cur, k);
      PutLabels(cur, k, v);
      var added: seq<Option<string>> := if KeyRow(rows, k).Some? then [] else [Some(k)];
      assert PutAll(rows, ps) == Put(cur, k, v);
      assert NewKeys(rows, ps) == NewKeys(rows, prefix) + added;
      assert Labels(rows) + NewKeys(rows, prefix) + added == Labels(rows) + (NewKeys(rows, prefix) + added);
    }
  }

  /** The row the plan gives the next key is the row `Put` chooses in the
      table the earlier writes left. */
  lemma {:induction false} TargetAgrees(rows: seq<Row>, prefix: seq<(string, string)>, cur: seq<Row>, k: string)
    requires Labels(cur) == Labels(rows) + NewKeys(rows, prefix)
    requires KeyRow(rows, k).None? ==> forall i :: 0 <= i < |prefix| ==> prefix[i].0 != k
    ensures KeyRow(cur, k).Some? <==> KeyRow(rows, k).Some?
    ensures Target(cur, k) == match KeyRow(rows, k)
      case Some(i) => i
      case None => |rows| + |NewKeys(rows, prefix)|
  {
    NewKeysFrom(rows, prefix, k);
    AppendedSkip(Labels(rows), NewKeys(rows, prefix), k);
    assert |cur| == |Labels(cur)|;
  }

  /** A key is among the new keys only if it has no row and was queued. */
  lemma {:induction false} NewKeysFrom(rows: seq<Row>, ps: seq<(string, string)>, k: string)
    ensures Some(k) in NewKeys(rows, ps) ==> KeyRow(rows, k).None? && exists i :: 0 <= i < |ps| && ps[i].0 == k
    decreases |ps|
  {
    if |ps| > 0 {
      NewKeysFrom(rows, ps[..|ps| - 1], k);
      if Some(k) in NewKeys(rows, ps[..|ps| - 1]) {
        var i :| 0 <= i < |ps| - 1 && ps[..|ps| - 1][i].0 == k;
        assert ps[i].0 == k;
      }
    }
  }

  /** Labels appended after the table that do not mention `k` leave its
      last row as it was. */
  lemma {:induction false} AppendedSkip(labels: seq<Option<string>>, extra: seq<Option<string>>, k: string)
    requires Some(k) !in extra
    ensures LastIn(labels + extra, k) == LastIn(labels, k)
    decreases |extra|
  {
    if |extra| > 0 {
      var shorter := extra[..|extra| - 1];
      assert labels + extra == (labels + shorter) + [extra[|extra| - 1]];
      LastSkip(labels + shorter, extra[|extra| - 1], k);
      AppendedSkip(labels, shorter, k);
    } else {
      assert labels + extra == labels;
    }
  }

  // --------------------------------------------------------- the tool

  const DescriptionLabel := "説明"
  const PhaseLabel := "現在のフェーズ"
  const CompletedLabel := "完了タスク"
  const TotalLabel := "全タスク"
  const UpdatedLabel := "最終更新"

  /** `str(n)` for any integer. */
  function IntText(n: int): (r: string)
    ensures n >= 0 ==> r == Decimal(n)
    ensures n < 0 ==> r == "-" + Decimal(-n)
  {
    if n >= 0 then Decimal(n) else "-" + Decimal(-n)
  }

  function IntOption(n: Option<int>): Option<string> {
    match n
    case None => None
    case Some(v) => Some(IntText(v))
  }

  datatype SummaryRequest = SummaryRequest(
    description: Option<string>, currentPhase: Option<string>,
    completedTasks: Option<int>, totalTasks: Option<int>,
    customFields: Dict.Dict<string>)

  /** The fixed labels in the order the tool considers them, each with the
      value supplied for it; the update stamp (`%Y-%m-%d %H:%M`) is always
      supplied. */
  function Candidates(q: SummaryRequest, now: Clock.Instant): (r: Dict.Dict<Option<string>>)
    ensures Dict.UniqueKeys(r)
  {
    [(DescriptionLabel, q.description), (PhaseLabel, q.currentPhase),
     (CompletedLabel, IntOption(q.completedTasks)), (TotalLabel, IntOption(q.totalTasks)),
     (UpdatedLabel, Some(Clock.FormatMinute(now)))]
  }

  /** The candidates that are written: a value was supplied and the label
      has a row. */
  function Present(rows: seq<Row>, cs: Dict.Dict<Option<string>>): (r: seq<(string, string)>)
    ensures forall i :: 0 <= i < |r| ==> KeyRow(rows, r[i].0).Some?
  {
    if |cs| == 0 then []
    else
      var r := Present(rows, cs[..|cs| - 1]);
      var (k, v) := cs[|cs| - 1];
      if v.Some? && KeyRow(rows, k).Some? then r + [(k, v.value)] else r
  }

  /** The value written for `k`, if any: a custom field's value, or else
      the value supplied for a fixed label that has a row. */
  function Written(rows: seq<Row>, q: SummaryRequest, now: Clock.Instant, k: string): Option<string> {
    match Dict.Get(q.customFields, k)
    case Some(v) => Some(v)
    case None =>
      var c := Dict.Get(Candidates(q, now), k);
      if KeyRow(rows, k).Some? && c.Some? then c.value else None
  }

  /** All pairs queued, fixed labels first and then the custom fields in
      dictionary order. */
  function Pairs(rows: seq<Row>, q: SummaryRequest, now: Clock.Instant): seq<(string, string)> {
    Present(rows, Candidates(q, now)) + q.customFields
  }

  /** The rows after the tool's writes, and the updated fields it reports.
      The writes are the ones the tool queues, with their rows fixed against
      the table as read; they amount to putting each pair in turn. */
  function WriteSummary(rows: seq<Row>, q: SummaryRequest, now: Clock.Instant): (r: (seq<Row>, seq<string>))
    requires Dict.UniqueKeys(q.customFields)
    ensures r.0 == PutAll(rows, Pairs(rows, q, now))
    ensures |r.0| >= |rows| && Labels(r.0)[..|rows|] == Labels(rows)
  {
    var ps := Pairs(rows, q, now);
    PairsDistinct(rows, q, now);
    PlanPuts(rows, ps);
    PutAllLabels(rows, ps);
    (ApplyAll(rows, Plan(rows, ps)), Dict.Keys(ps))
  }

  lemma {:induction false} PairsDistinct(rows: seq<Row>, q: SummaryRequest, now: Clock.Instant)
    requires Dict.UniqueKeys(q.customFields)
    ensures NewKeysDistinct(rows, Pairs(rows, q, now))
  {
    var f := Present(rows, Candidates(q, now));
    var c := q.customFields;
    var ps := Pairs(rows, q, now);
    assert forall i :: 0 <= i < |f| ==> ps[i] == f[i];
    assert forall i :: |f| <= i < |ps| ==> ps[i] == c[i - |f|];
  }

  /** What a successful update leaves in the sheet: a key shows the value
      `Written` gives it, and a key nobody wrote shows what it showed; the
      reported fields are exactly the written keys. */
  lemma {:induction false} SummaryWritten(rows: seq<Row>, q: SummaryRequest, now: Clock.Instant, k: string)
    requires Dict.UniqueKeys(q.customFields)
    ensures var (after, fields) := WriteSummary(rows, q, now);
      var w := Written(rows, q, now, k);
      && Lookup(after, k) == (if w.Some? then w else Lookup(rows, k))
      && (k in fields <==> w.Some?)
  {
    var ps := Pairs(rows, q, now);
    var cs := Candidates(q, now);
    LookupPutAll(rows, ps, k);
    LatestSplit(Present(rows, cs), q.customFields, k);
    LatestPresent(rows, cs, k);
    assert forall i :: 0 <= i < |ps| ==> Dict.Keys(ps)[i] == ps[i].0;
    if k in Dict.Keys(ps) {
      var i :| 0 <= i < |ps| && Dict.Keys(ps)[i] == k;
      assert ps[i].0 == k;
    }
  }

  /** The update stamp is written whenever its label has a row and no
      custom field overrides it. */
  lemma {:induction false} StampWritten(rows: seq<Row>, q: SummaryRequest, now: Clock.Instant)
    requires Dict.UniqueKeys(q.customFields)
    requires KeyRow(rows, UpdatedLabel).Some? && Dict.Get(q.customFields, UpdatedLabel).None?
    ensures Lookup(WriteSummary(rows, q, now).0, UpdatedLabel) == Some(Clock.FormatMinute(now))
  {
    Dict.GetAt(Candidates(q, now), 4);
    SummaryWritten(rows, q, now, UpdatedLabel);
  }

  /** The last pair for `k` in `a + b` is in `b` when `b` has one. */
  lemma {:induction false} LatestSplit(a: seq<(string, string)>, b: seq<(string, string)>, k: string)
    requires Dict.UniqueKeys(b)
    ensures Latest(a + b, k) == if Dict.Get(b, k).Some? then Dict.Get(b, k) else Latest(a, k)
    decreases |b|
  {
    if |b| == 0 {
      assert a + b == a;
    } else {
      assert (a + b)[..|a + b| - 1] == a + b[..|b| - 1];
      LatestSplit(a, b[..|b| - 1], k);
      GetLast(b, k);
    }
  }

  /** The written candidates, looked up: the supplied value of a label that
      has a row. */
  lemma {:induction false} LatestPresent(rows: seq<Row>, cs: Dict.Dict<Option<string>>, k: string)
    requires Dict.UniqueKeys(cs)
    ensures Latest(Present(rows, cs), k)
            == if KeyRow(rows, k).Some? && Dict.Get(cs, k).Some? then Dict.Get(cs, k).value else None
    decreases |cs|
  {
    if |cs| > 0 {
      var front := cs[..|cs| - 1];
      assert Dict.UniqueKeys(front);
      LatestPresent(rows, front, k);
      GetLast(cs, k);
    }
  }

  /** Looking up in a dictionary with unique keys, split at its last pair. */
  lemma {:induction false} GetLast<V>(b: Dict.Dict<V>, k: string)
    requires Dict.UniqueKeys(b) && |b| > 0
    ensures Dict.Get(b, k) == if b[|b| - 1].0 == k then Some(b[|b| - 1].1) else Dict.Get(b[..|b| - 1], k)
  {
    var n := |b| - 1;
    if b[n].0 == k {
      Dict.GetAt(b, n);
    } else if Dict.Get(b[..n], k).None? {
      MissingBefore(b, k);
    } else {
      FoundBefore(b, k);
    }
  }

  /** A key missing from all but the last entry, and not the last entry's
      key, is missing. */
  lemma {:induction false} MissingBefore<V>(b: Dict.Dict<V>, k: string)
    requires |b| > 0 && b[|b| - 1].0 != k && Dict.Get(b[..|b| - 1], k).None?
    ensures Dict.Get(b, k).None?
  {
    var front := b[..|b| - 1];
    forall i | 0 <= i < |b|
      ensures Dict.Keys(b)[i] != k
    {
      if i < |front| {
        assert Dict.Keys(front)[i] == front[i].0 == b[i].0;
      }
    }
  }

  /** With unique keys, a key found before the last entry is found there. */
  lemma {:induction false} FoundBefore<V>(b: Dict.Dict<V>, k: string)
    requires Dict.UniqueKeys(b) && |b| > 0 && Dict.Get(b[..|b| - 1], k).Some?
    ensures Dict.Get(b, k) == Dict.Get(b[..|b| - 1], k)
  {
    var front := b[..|b| - 1];
    assert k in Dict.Keys(front);
    var i :| 0 <= i < |front| && Dict.Keys(front)[i] == k;
    assert front[i] == b[i];
    Dict.GetAt(front, i);
    Dict.GetAt(b, i);
  }

  // ------------------------------------------------------ the tool call

  datatype SummaryResult = SummaryResult(success: bool, project: string, updatedFields: seq<string>)

  /** The summary sheet of a project with a readable configuration. */
  function SheetOf(reg: ProjectRegistry.Registry, p: string, now: Clock.Instant): Option<(string, string)> {
    match ProjectTools.ConfigFor(reg, p, now)
    case None => None
    case Some(config) => Some((config.spreadsheetId, config.sheets.summary))
  }

  /** `update_summary` over the A:B contents of the sheets: it fails without a project, without a readable
      configuration and when the summary sheet does not exist, and then
      writes nothing; otherwise the summary sheet alone changes. */
  function UpdateSummary(reg: ProjectRegistry.Registry, defaultUser: string, book: Book,
                         project: Option<string>, user: string, q: SummaryRequest, now: Clock.Instant)
    : (r: (Book, SummaryResult))
    requires Dict.UniqueKeys(q.customFields)
    ensures !r.1.success ==> r.0 == book
    ensures var p := ProjectTools.ResolveProject(reg, defaultUser, project, user);
      r.1.success <==> (p != "" && SheetOf(reg, p, now).Some? && SheetOf(reg, p, now).value in book)
    ensures r.1.success ==>
      var key := SheetOf(reg, r.1.project, now);
      && r.1.project == ProjectTools.ResolveProject(reg, defaultUser, project, user)
      && key.Some? && key.value in book
      && r.0 == book[key.value := WriteSummary(book[key.value], q, now).0]
      && r.1.updatedFields == WriteSummary(book[key.value], q, now).1
  {
    var p := ProjectTools.ResolveProject(reg, defaultUser, project, user);
    if p == "" then (book, SummaryResult(false, "", []))
    else match SheetOf(reg, p, now)
      case None => (book, SummaryResult(false, p, []))
      case Some(key) =>
        if key !in book then (book, SummaryResult(false, p, []))
        else
          var (rows, fields) := WriteSummary(book[key], q, now);
          (book[key := rows], SummaryResult(true, p, fields))
  }
}
