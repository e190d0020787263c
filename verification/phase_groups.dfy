/** Task rows grouped by phase (column A), as both progress readers do by
    filling a dict keyed by phase name, row by row. */
module PhaseGroups {
  import opened Sheet
  import Seqs

  function PhaseOf(row: Row): string {
    Cell(row, 0, "")
  }

  /** The phase of every row, repeats included. */
  function AllPhases(rows: seq<Row>): (r: seq<string>)
    ensures |r| == |rows|
    ensures forall i :: 0 <= i < |rows| ==> r[i] == PhaseOf(rows[i])
  {
    seq(|rows|, i requires 0 <= i < |rows| => PhaseOf(rows[i]))
  }

  predicate Distinct(xs: seq<string>) {
    forall i, j :: 0 <= i < j < |xs| ==> xs[i] != xs[j]
  }

  /** The dict's keys: each phase once, in order of first appearance. */
  function Names(rows: seq<Row>): (r: seq<string>)
    ensures Distinct(r)
    ensures forall x :: x in r <==> x in AllPhases(rows)
  {
    if |rows| == 0 then []
    else
      var front := rows[..|rows| - 1];
      var n := Names(front);
      var p := PhaseOf(rows[|rows| - 1]);
      assert AllPhases(rows) == AllPhases(front) + [p];
      if p in n then n else n + [p]
  }

  /** The list the dict holds for a phase: its rows in sheet order. */
  function RowsOf(rows: seq<Row>, name: string): (r: seq<Row>)
    ensures forall i :: 0 <= i < |r| ==> PhaseOf(r[i]) == name
    ensures forall row :: row in rows && PhaseOf(row) == name ==> row in r
    ensures forall row :: row in r ==> row in rows
    ensures |r| > 0 <==> name in AllPhases(rows)
  {
    if |rows| == 0 then []
    else
      var front := rows[..|rows| - 1];
      var last := rows[|rows| - 1];
      assert rows == front + [last];
      assert AllPhases(rows) == AllPhases(front) + [PhaseOf(last)];
      RowsOf(front, name) + (if PhaseOf(last) == name then [last] else [])
  }

  /** The number of rows held under the given phases. */
  function SizeSum(rows: seq<Row>, names: seq<string>): nat {
    if |names| == 0 then 0
    else SizeSum(rows, names[..|names| - 1]) + |RowsOf(rows, names[|names| - 1])|
  }

  /** Every row is held under exactly one phase: the group sizes add up to
      the number of rows. */
  lemma {:induction false} GroupsCover(rows: seq<Row>)
    ensures SizeSum(rows, Names(rows)) == |rows|
    decreases |rows|
  {
    if |rows| > 0 {
      var front := rows[..|rows| - 1];
      var last := rows[|rows| - 1];
      var p := PhaseOf(last);
      var n := Names(front);
      GroupsCover(front);
      SumStep(front, last, n);
      Seqs.Snoc(rows);
      if p !in n {
        SumStep(front, last, n + [p]);
        assert (n + [p])[..|n|] == n;
        assert |RowsOf(front, p)| == 0;
      }
    }
  }

  /** One more row adds one to the sum of the group it joins. */
  lemma {:induction false} SumStep(front: seq<Row>, last: Row, names: seq<string>)
    requires Distinct(names)
    ensures SizeSum(front + [last], names)
            == SizeSum(front, names) + (if PhaseOf(last) in names then 1 else 0)
    decreases |names|
  {
    var rows := front + [last];
    assert rows[..|rows| - 1] == front;
    if |names| > 0 {
      var init := names[..|names| - 1];
      assert Distinct(init);
      SumStep(front, last, init);
      assert PhaseOf(last) in names <==> PhaseOf(last) in init || PhaseOf(last) == names[|names| - 1];
      assert PhaseOf(last) == names[|names| - 1] ==> PhaseOf(last) !in init;
    }
  }

  /** Phases are listed in order of first appearance: the phases of any
      leading part of the sheet come first, in the same order. */
  lemma {:induction false} NamesPrefix(rows: seq<Row>, k: nat)
    requires k <= |rows|
    ensures |Names(rows[..k])| <= |Names(rows)|
    ensures Names(rows[..k]) == Names(rows)[..|Names(rows[..k])|]
    decreases |rows|
  {
    if k < |rows| {
      var front := rows[..|rows| - 1];
      assert rows[..k] == front[..k];
      NamesPrefix(front, k);
    } else {
      assert rows[..k] == rows;
    }
  }
}
