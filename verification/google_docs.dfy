/** The Google Docs client's own logic: plain-text extraction from a
    document body, and the batch-update requests built for headings, new
    documents with content, and appends. The Docs API itself is modelled only
    by `Apply`, which performs `insertText` requests on the body's text. */
module GoogleDocs {
  import opened Wrappers
  import opened Strings

  /** A paragraph element: a text run (an absent `content` reads as ""), or
      anything else (an inline object, a page break, ...). */
  datatype ParaElement = TextRun(content: string) | NonText

  /** A structural element of a body or table cell, with its `endIndex`. */
  datatype Element = Element(kind: Kind, endIndex: Option<int>)

  datatype Kind =
    | Paragraph(elements: seq<ParaElement>)
    | Table(rows: seq<TableRow>)
    | OtherKind   // a section break or table of contents

  datatype TableRow = TableRow(cells: seq<TableCell>)
  datatype TableCell = TableCell(content: seq<Element>)

  // ---- _extract_text ----

  function RunsText(els: seq<ParaElement>): string {
    if |els| == 0 then ""
    else (if els[0].TextRun? then els[0].content else "") + RunsText(els[1..])
  }

  /** `_extract_text({"content": content})`. */
  function Text(content: seq<Element>): string
    decreases content, 3
  {
    if |content| == 0 then "" else KindText(content[0].kind, content[0]) + Text(content[1..])
  }

  function KindText(k: Kind, e: Element): string
    requires k == e.kind
    decreases e, 2
  {
    match k
    case Paragraph(els) => RunsText(els)
    case Table(rows) => RowsText(rows, e)
    case OtherKind => ""
  }

  /** Each row's cells, each followed by a tab, then a newline. */
  function RowsText(rows: seq<TableRow>, e: Element): string
    requires e.kind.Table? && forall r :: r in rows ==> r in e.kind.rows
    decreases e, 1, rows
  {
    if |rows| == 0 then ""
    else CellsText(rows[0].cells, e, rows[0]) + "\n" + RowsText(rows[1..], e)
  }

  function CellsText(cells: seq<TableCell>, e: Element, row: TableRow): string
    requires e.kind.Table? && row in e.kind.rows && forall c :: c in cells ==> c in row.cells
    decreases e, 0, cells
  {
    if |cells| == 0 then ""
    else
      assert cells[0] in row.cells;
      Text(cells[0].content) + "\t" + CellsText(cells[1..], e, row)
  }

  /** Text extraction distributes over concatenation of bodies. */
  lemma {:induction false} TextAppend(a: seq<Element>, b: seq<Element>)
    ensures Text(a + b) == Text(a) + Text(b)
    decreases |a|
  {
    if |a| == 0 {
      assert a + b == b;
    } else {
      assert (a + b)[1..] == a[1..] + b;
      TextAppend(a[1..], b);
    }
  }

  /** Elements that are neither paragraph nor table contribute nothing,
      wherever they sit. */
  lemma TextIgnoresOther(a: seq<Element>, end: Option<int>, b: seq<Element>)
    ensures Text(a + [Element(OtherKind, end)] + b) == Text(a + b)
  {
    TextAppend(a + [Element(OtherKind, end)], b);
    TextAppend(a, [Element(OtherKind, end)]);
    TextAppend(a, b);
  }

  /** A paragraph's text is its runs' contents in order, the other
      elements contributing nothing. */
  lemma {:induction false} RunsInOrder(r: string, els: seq<ParaElement>)
    ensures RunsText([TextRun(r)] + els) == r + RunsText(els)
    ensures RunsText([NonText] + els) == RunsText(els)
    ensures RunsText(els + [TextRun(r)]) == RunsText(els) + r
    decreases |els|
  {
    assert ([TextRun(r)] + els)[1..] == els;
    assert ([NonText] + els)[1..] == els;
    if |els| > 0 {
      assert (els + [TextRun(r)])[1..] == els[1..] + [TextRun(r)];
      RunsInOrder(r, els[1..]);
    }
  }

  /** A one-row table: each cell's text followed by a tab, then a newline. */
  lemma TableRowText(cells: seq<TableCell>, end: Option<int>)
    requires |cells| == 2
    ensures Text([Element(Table([TableRow(cells)]), end)])
         == Text(cells[0].content) + "\t" + Text(cells[1].content) + "\t" + "\n"
  {
    var e := Element(Table([TableRow(cells)]), end);
    var row := TableRow(cells);
    assert cells[1..][1..] == [] && cells[1..][0] == cells[1];
    var c1 := CellsText(cells[1..], e, row);
    assert CellsText(cells[1..][1..], e, row) == "";
    assert c1 == Text(cells[1].content) + "\t" + "";
    assert CellsText(cells, e, row) == Text(cells[0].content) + "\t" + c1;
    assert [row][1..] == [];
    assert RowsText([row], e) == CellsText(cells, e, row) + "\n" + "";
    assert [e][1..] == [];
    assert Text([e]) == KindText(e.kind, e) + "";
  }

  // ---- batch-update requests ----

  datatype Request =
    | InsertText(index: int, text: string)
    | HeadingStyle(startIndex: int, endIndex: int, level: int)

  /** `text` with a newline appended unless it already ends with one. */
  function HeadingLine(text: string): (r: string)
    ensures |text| <= |r| <= |text| + 1 && r[..|text|] == text
    ensures EndsWith(r, "\n")
    ensures EndsWith(text, "\n") ==> r == text
    ensures !EndsWith(text, "\n") ==> r == text + "\n"
  {
    if EndsWith(text, "\n") then text else text + "\n"
  }

  /** `insert_heading`: the line, and the heading style over exactly the
      inserted characters, the level capped at 6. */
  function InsertHeading(text: string, level: int, index: int): (r: seq<Request>)
    ensures |r| == 2 && r[0].InsertText? && r[1].HeadingStyle?
    ensures r[0].index == r[1].startIndex == index
    ensures r[1].endIndex - r[1].startIndex == |r[0].text|
    ensures |text| <= |r[0].text| <= |text| + 1 && r[0].text[..|text|] == text && EndsWith(r[0].text, "\n")
    ensures r[1].level <= 6 && (level <= 6 ==> r[1].level == level)
  {
    var line := HeadingLine(text);
    [InsertText(index, line), HeadingStyle(index, index + |line|, if level < 6 then level else 6)]
  }

  /** The heading line of `create_document_with_content`; none for an
      absent or empty heading. */
  function HeadText(heading: Option<string>): string {
    if heading.Some? && heading.value != "" then HeadingLine(heading.value) else ""
  }

  /** The requests of `create_document_with_content`: an optional level-1
      heading at index 1, then the content right after it; an empty heading
      or content adds nothing. */
  function ContentRequests(heading: Option<string>, content: string): seq<Request> {
    var head := if heading.Some? && heading.value != "" then
                  var line := HeadingLine(heading.value);
                  [InsertText(1, line), HeadingStyle(1, 1 + |line|, 1)]
                else [];
    var at := if |head| == 0 then 1 else 1 + |head[0].text|;
    head + (if content != "" then [InsertText(at, content)] else [])
  }

  /** `insertText` on a body whose index 1 is its first character; an
      index outside the body is rejected by the API. Styles leave the text
      alone. */
  function Apply(reqs: seq<Request>, body: string): Option<string> {
    if |reqs| == 0 then Some(body)
    else match reqs[0]
      case HeadingStyle(_, _, _) => Apply(reqs[1..], body)
      case InsertText(i, t) =>
        if 1 <= i <= |body| + 1 then Apply(reqs[1..], body[..i - 1] + t + body[i - 1..]) else None
  }

  /** The request list, case by case: the heading's insert and style first
      when there is one, the content's insert last when there is content. */
  lemma ContentRequestsShape(heading: Option<string>, content: string)
    ensures var h := HeadText(heading);
      var tail := if content != "" then [InsertText(1 + |h|, content)] else [];
      ContentRequests(heading, content)
        == (if h != "" then [InsertText(1, h), HeadingStyle(1, 1 + |h|, 1)] else []) + tail
  {
  }

  /** A new document's text is the heading line followed by the content,
      ahead of whatever the new body held. */
  lemma ContentLaidOut(heading: Option<string>, content: string, body: string)
    ensures Apply(ContentRequests(heading, content), body) == Some(HeadText(heading) + content + body)
  {
    var h := HeadText(heading);
    var tail := if content != "" then [InsertText(1 + |h|, content)] else [];
    ContentRequestsShape(heading, content);
    if h != "" {
      ApplyInsert(1, h, [HeadingStyle(1, 1 + |h|, 1)] + tail, body);
      assert body[..0] + h + body[0..] == h + body;
      ApplyStyle(1, 1 + |h|, 1, tail, h + body);
      ContentAfter(h, content, body);
    } else {
      assert [] + tail == tail;
      ContentAfter(h, content, body);
      assert h + body == body && h + content + body == content + body;
    }
  }

  /** The heading style covers exactly the inserted heading line, and with
      no content the only text inserted is that line. */
  lemma HeadingStyled(heading: Option<string>, content: string)
    ensures var h := HeadText(heading);
      && (h != "" ==> ContentRequests(heading, content)[1] == HeadingStyle(1, 1 + |h|, 1))
      && (content == "" ==> forall q :: q in ContentRequests(heading, content) && q.InsertText? ==> q.text == h)
  {
    ContentRequestsShape(heading, content);
  }

  lemma ApplyInsert(i: int, t: string, rest: seq<Request>, body: string)
    requires 1 <= i <= |body| + 1
    ensures Apply([InsertText(i, t)] + rest, body) == Apply(rest, body[..i - 1] + t + body[i - 1..])
  {
    assert ([InsertText(i, t)] + rest)[1..] == rest;
  }

  lemma ApplyStyle(a: int, b: int, level: int, rest: seq<Request>, body: string)
    ensures Apply([HeadingStyle(a, b, level)] + rest, body) == Apply(rest, body)
  {
    assert ([HeadingStyle(a, b, level)] + rest)[1..] == rest;
  }

  /** The content request alone, on a body that starts with the heading line. */
  lemma ContentAfter(h: string, content: string, body: string)
    ensures Apply(if content != "" then [InsertText(1 + |h|, content)] else [], h + body)
         == Some(h + content + body)
  {
    if content != "" {
      ApplyInsert(1 + |h|, content, [], h + body);
      assert [InsertText(1 + |h|, content)] + [] == [InsertText(1 + |h|, content)];
      assert (h + body)[..|h|] == h && (h + body)[|h|..] == body;
    } else {
      assert h + content + body == h + body;
    }
  }

  /** `append_text`'s insert index: just before the final newline, which
      ends the last structural element, or 1 for an empty body. */
  function AppendIndex(content: seq<Element>): int {
    if |content| == 0 then 1
    else
      var last := content[|content| - 1];
      (if last.endIndex.Some? then last.endIndex.value else 1) - 1
  }

  /** On a body whose last element ends after its final newline, appended
      text lands right before that newline. */
  lemma AppendBeforeNewline(content: seq<Element>, text: string, t: string)
    requires |content| > 0 && content[|content| - 1].endIndex == Some(|text| + 1)
    requires EndsWith(text, "\n")
    ensures Apply([InsertText(AppendIndex(content), t)], text)
         == Some(text[..|text| - 1] + t + "\n")
  {
    assert text[|text| - 1..] == "\n";
  }
}
