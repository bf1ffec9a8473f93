/** The document model of html_components.py: a closed set of node kinds,
    each rendering (`__str__`) to a string determined by its own fields and
    its children's renderings. Nodes are immutable here; the Python
    `add_component`, `add_cell` and `add_row` become functions returning the
    extended node. */
module Html {
  import opened Text
  import opened Decimal

  /** What a table cell holds: text (names, labels, dates) or a count, which
      the f-string `{data}` prints in decimal. */
  datatype Datum = Str(text: string) | Num(value: nat)

  function DatumText(d: Datum): string
  {
    match d
    case Str(t) => t
    case Num(n) => NatToString(n)
  }

  /** `HTMLTableCell(data, is_td)`. */
  datatype TableCell = TableCell(data: Datum, isTd: bool)

  /** `HTMLTableRow`: its cells in insertion order. */
  datatype TableRow = TableRow(cells: seq<TableCell>)

  /** The eight node kinds. `Cell` and `Row` wrap the cell and row records
      so that they can stand anywhere a component can, as in Python. */
  datatype Component =
    | Container(children: seq<Component>)
    | Cell(cell: TableCell)
    | Row(row: TableRow)
    | Table(head: TableRow, body: seq<TableRow>)
    | File(title: string, components: seq<Component>)
    | Paragraph(text: string, bold: bool)
    | Headline(text: string, level: nat)
    | IFrame(src: string)

  // ---------------------------------------------------------------------
  // Templates, byte for byte (the triple-quoted f-strings included)

  const ContainerOpen: string := "<div class=\"container\">"
  const ContainerClose: string := "</div>"
  const CellClose: string := "</td>"

  const TableTop: string := "\n        <table>\n            <thead>\n                "
  const RowOpen: string := "<tr>"
  const RowClose: string := "</tr>"
  const TableOpen: string := TableTop + RowOpen
  const HeadClose: string := "\n            </thead>"
  const BodyOpen: string := "\n            <tbody>\n            "
  const TableHeadEnd: string := HeadClose + BodyOpen
  const TableAfterHead: string := RowClose + TableHeadEnd
  const TableClose: string :=
    "\n            </tbody>\n        </table>\n        "

  const FileOpen: string :=
    "\n        <!DOCTYPE html>\n        <html lang=\"en\">\n            <head>\n"
    + "                <meta charset=\"UTF-8\">\n"
    + "                <meta http-equiv=\"X-UA-Compatible\" content=\"IE=edge\">\n"
    + "                <meta name=\"viewport\" content=\"width=device-width, initial-scale=1.0\">\n"
    + "                <link rel=\"stylesheet\" href=\"style.css\">\n"
    + "                <title>"
  const FileAfterTitle: string :=
    "</title>\n            </head>\n            <body>\n                "
  const FileClose: string :=
    "\n            </body>\n        </html>\n        "

  // ---------------------------------------------------------------------
  // Rendering

  /** A data cell opens with `<td>`, a header cell with `<th>`; both close
      with `</td>`. The slices below are how a reader would take the cell
      apart again. */
  function RenderCell(c: TableCell): (s: string)
    ensures |s| == 9 + |DatumText(c.data)|
    ensures s[..4] == (if c.isTd then "<td>" else "<th>")
    ensures s[4..|s| - 5] == DatumText(c.data)
    ensures s[|s| - 5..] == CellClose
  {
    (if c.isTd then "<td>" else "<th>") + DatumText(c.data) + CellClose
  }

  function CellTexts(cells: seq<TableCell>): (ss: seq<string>)
    ensures |ss| == |cells|
    ensures forall i :: 0 <= i < |cells| ==> ss[i] == RenderCell(cells[i])
  {
    seq(|cells|, i requires 0 <= i < |cells| => RenderCell(cells[i]))
  }

  function RenderRow(r: TableRow): string
  {
    RowOpen + Concat(CellTexts(r.cells)) + RowClose
  }

  function RowTexts(rows: seq<TableRow>): (ss: seq<string>)
    ensures |ss| == |rows|
    ensures forall i :: 0 <= i < |rows| ==> ss[i] == RenderRow(rows[i])
  {
    seq(|rows|, i requires 0 <= i < |rows| => RenderRow(rows[i]))
  }

  /** The table template around the rendered head row and the joined body. */
  function TableText(headText: string, bodyText: string): string
  {
    TableOpen + headText + TableAfterHead + bodyText + TableClose
  }

  /** The file template around the title and the joined components. */
  function FileText(title: string, bodyText: string): string
  {
    FileOpen + title + FileAfterTitle + bodyText + FileClose
  }

  /** `HTMLTable.__str__`: the head row goes inside the `<tr>` of the
      template, the body rows are joined by line breaks. */
  function RenderTable(head: TableRow, body: seq<TableRow>): string
  {
    TableText(RenderRow(head), Join(RowTexts(body), "\n"))
  }

  function RenderParagraph(text: string, bold: bool): string
  {
    if bold then "<p><strong>" + text + "</strong></p>" else "<p>" + text + "</p>"
  }

  function RenderHeadline(text: string, level: nat): string
  {
    var digits := NatToString(level);
    "<h" + digits + (">" + text + "</h" + digits + ">")
  }

  const IFrameOpen := "<iframe src=\""
  const IFrameClose := "\" frameborder=\"0\" height=\"400\"></iframe>"

  function RenderIFrame(src: string): string
  {
    IFrameOpen + src + IFrameClose
  }

  /** `str(component)`. */
  function Render(c: Component): string
    decreases c, 2
  {
    match c
    case Container(children) => RenderContainer(children)
    case Cell(cell) => RenderCell(cell)
    case Row(row) => RenderRow(row)
    case Table(head, body) => RenderTable(head, body)
    case File(title, components) => RenderFile(title, components)
    case Paragraph(text, bold) => RenderParagraph(text, bold)
    case Headline(text, level) => RenderHeadline(text, level)
    case IFrame(src) => RenderIFrame(src)
  }

  /** `HTMLContainer.__str__`: the children's markup back to back. */
  function RenderContainer(children: seq<Component>): string
    decreases children, 1
  {
    ContainerOpen + Concat(RenderAll(children)) + ContainerClose
  }

  /** `HTMLFile.__str__`: the components one per line inside the page. */
  function RenderFile(title: string, components: seq<Component>): string
    decreases components, 1
  {
    FileText(title, Join(RenderAll(components), "\n"))
  }

  /** `map(str, components)`. */
  function RenderAll(cs: seq<Component>): (ss: seq<string>)
    ensures |ss| == |cs|
    ensures forall i :: 0 <= i < |cs| ==> ss[i] == Render(cs[i])
    decreases cs, 0
  {
    if |cs| == 0 then [] else [Render(cs[0])] + RenderAll(cs[1..])
  }

  // ---------------------------------------------------------------------
  // Construction

  function NewContainer(): (c: Component)
    ensures c.Container? && c.children == []
  {
    Container([])
  }

  function NewFile(title: string): (f: Component)
    ensures f.File? && f.title == title && f.components == []
  {
    File(title, [])
  }

  /** `add_component` of `HTMLContainer` and of `HTMLFile`: the child goes
      last, everything before it and the file's title stay as they were. */
  function AddComponent(parent: Component, child: Component): (r: Component)
    requires parent.Container? || parent.File?
    ensures r.Container? == parent.Container? && r.File? == parent.File?
    ensures r.Container? ==> (
              && |r.children| == |parent.children| + 1
              && r.children[..|parent.children|] == parent.children
              && r.children[|parent.children|] == child)
    ensures r.File? ==> (
              && |r.components| == |parent.components| + 1
              && r.components[..|parent.components|] == parent.components
              && r.components[|parent.components|] == child
              && r.title == parent.title)
  {
    match parent
    case Container(children) => Container(children + [child])
    case File(title, components) => File(title, components + [child])
  }

  /** A container filled by calling `add_component` once per part, in
      order, holds exactly those parts in that order. */
  function Assemble(parts: seq<Component>): (c: Component)
    ensures c.Container? && c.children == parts
  {
    if |parts| == 0 then NewContainer()
    else
      assert parts == parts[..|parts| - 1] + [parts[|parts| - 1]];
      AddComponent(Assemble(parts[..|parts| - 1]), parts[|parts| - 1])
  }

  /** `add_cell`: the cell goes last. */
  function AddCell(row: TableRow, cell: TableCell): (r: TableRow)
    ensures |r.cells| == |row.cells| + 1
    ensures r.cells[..|row.cells|] == row.cells && r.cells[|row.cells|] == cell
  {
    TableRow(row.cells + [cell])
  }

  /** The row the `for item in data: row.add_cell(HTMLTableCell(item, is_td))`
      loops produce: one cell per item, in order. */
  function RowOf(items: seq<Datum>, isTd: bool): (r: TableRow)
    ensures |r.cells| == |items|
    ensures forall i :: 0 <= i < |items| ==> r.cells[i] == TableCell(items[i], isTd)
  {
    if |items| == 0 then TableRow([])
    else AddCell(RowOf(items[..|items| - 1], isTd), TableCell(items[|items| - 1], isTd))
  }

  /** `HTMLTable(head)`: a head row of header cells, one per label, and an
      empty body. */
  function NewTable(head: seq<Datum>): (t: Component)
    ensures t.Table? && t.body == []
    ensures |t.head.cells| == |head|
    ensures forall i :: 0 <= i < |head| ==> t.head.cells[i] == TableCell(head[i], false)
  {
    Table(RowOf(head, false), [])
  }

  /** `add_row(data)`: one more body row at the end, one data cell per item;
      the head row and the earlier rows are untouched. */
  function AddRow(t: Component, data: seq<Datum>): (r: Component)
    requires t.Table?
    ensures r.Table? && r.head == t.head
    ensures |r.body| == |t.body| + 1 && r.body[..|t.body|] == t.body
    ensures |r.body[|t.body|].cells| == |data|
    ensures forall i :: 0 <= i < |data| ==> r.body[|t.body|].cells[i] == TableCell(data[i], true)
  {
    Table(t.head, t.body + [RowOf(data, true)])
  }

  // ---------------------------------------------------------------------
  // How construction shows in the rendering

  /** `map(str, ...)` of one more component is one more string. */
  lemma RenderAllAppend(cs: seq<Component>, c: Component)
    ensures RenderAll(cs + [c]) == RenderAll(cs) + [Render(c)]
  {
  }

  /** A container's markup grows by the new child's markup just before the
      closing `</div>`. */
  lemma ContainerAppend(children: seq<Component>, child: Component)
    ensures var before := RenderContainer(children);
            |before| >= |ContainerClose|
            && RenderContainer(children + [child])
               == before[..|before| - |ContainerClose|] + Render(child) + ContainerClose
  {
    RenderAllAppend(children, child);
    ConcatAppend(RenderAll(children), Render(child));
    TemplateAppend(RenderContainer(children), RenderContainer(children + [child]), ContainerOpen,
                   Concat(RenderAll(children)), Render(child), ContainerClose);
  }

  /** Appending a child to a container inserts the child's markup right
      before the closing `</div>`; the text before it is unchanged. */
  lemma AddComponentRenderContainer(parent: Component, child: Component)
    requires parent.Container?
    ensures var before := Render(parent);
            |before| >= |ContainerClose|
            && Render(AddComponent(parent, child))
               == before[..|before| - |ContainerClose|] + Render(child) + ContainerClose
  {
    assert Render(parent) == RenderContainer(parent.children);
    assert Render(AddComponent(parent, child)) == RenderContainer(parent.children + [child]);
    ContainerAppend(parent.children, child);
  }

  /** The joined components grow by a line break (if there were any) and
      the new component's markup. */
  lemma ComponentsBodyAppend(cs: seq<Component>, c: Component)
    ensures Join(RenderAll(cs + [c]), "\n")
            == Join(RenderAll(cs), "\n") + (if |cs| == 0 then "" else "\n") + Render(c)
  {
    RenderAllAppend(cs, c);
    JoinAppend(RenderAll(cs), "\n", Render(c));
  }

  /** A file's markup grows by a line break (unless it had no components)
      and the new component's markup just before the closing template. */
  lemma FileAppend(title: string, components: seq<Component>, child: Component)
    ensures var before := RenderFile(title, components);
            |before| >= |FileClose|
            && RenderFile(title, components + [child])
               == before[..|before| - |FileClose|]
                  + (if |components| == 0 then "" else "\n") + Render(child) + FileClose
  {
    var body := Join(RenderAll(components), "\n");
    ComponentsBodyAppend(components, child);
    TemplateGrows(RenderFile(title, components), RenderFile(title, components + [child]),
                  FileOpen + title + FileAfterTitle, body,
                  if |components| == 0 then "" else "\n", Render(child), FileClose);
  }

  /** Appending a component to a file adds a line break (unless the body was
      empty) and the component's markup right before the closing template. */
  lemma AddComponentRenderFile(parent: Component, child: Component)
    requires parent.File?
    ensures var before := Render(parent);
            |before| >= |FileClose|
            && Render(AddComponent(parent, child))
               == before[..|before| - |FileClose|]
                  + (if |parent.components| == 0 then "" else "\n")
                  + Render(child) + FileClose
  {
    assert Render(parent) == RenderFile(parent.title, parent.components);
    assert Render(AddComponent(parent, child)) == RenderFile(parent.title, parent.components + [child]);
    FileAppend(parent.title, parent.components, child);
  }

  /** The joined body text grows by a line break (if there were rows) and
      the new row's markup. */
  lemma RowBodyAppend(rows: seq<TableRow>, row: TableRow)
    ensures Join(RowTexts(rows + [row]), "\n")
            == Join(RowTexts(rows), "\n") + (if |rows| == 0 then "" else "\n") + RenderRow(row)
  {
    assert RowTexts(rows + [row]) == RowTexts(rows) + [RenderRow(row)];
    JoinAppend(RowTexts(rows), "\n", RenderRow(row));
  }

  /** A table's markup grows by a line break (if it had rows) and the new
      row's markup just before the closing template. */
  lemma TableAppend(head: TableRow, body: seq<TableRow>, row: TableRow)
    ensures var before := RenderTable(head, body);
            |before| >= |TableClose|
            && RenderTable(head, body + [row])
               == before[..|before| - |TableClose|]
                  + (if |body| == 0 then "" else "\n") + RenderRow(row) + TableClose
  {
    RowBodyAppend(body, row);
    TemplateGrows(RenderTable(head, body), RenderTable(head, body + [row]),
                  TableOpen + RenderRow(head) + TableAfterHead, Join(RowTexts(body), "\n"),
                  if |body| == 0 then "" else "\n", RenderRow(row), TableClose);
  }

  /** Adding a row inserts a line break (unless the body was empty) and the
      new row's markup right before the table's closing template. */
  lemma AddRowRender(t: Component, data: seq<Datum>)
    requires t.Table?
    ensures var before := Render(t);
            |before| >= |TableClose|
            && Render(AddRow(t, data))
               == before[..|before| - |TableClose|]
                  + (if |t.body| == 0 then "" else "\n")
                  + RenderRow(RowOf(data, true)) + TableClose
  {
    assert Render(t) == RenderTable(t.head, t.body);
    assert Render(AddRow(t, data)) == RenderTable(t.head, t.body + [RowOf(data, true)]);
    TableAppend(t.head, t.body, RowOf(data, true));
  }

  /** The head row is wrapped in a second `<tr>`: the head part of a table's
      markup reads `<tr><tr>` followed by one `<th>…</td>` per label. */
  lemma TableHeadDoubleRow(head: seq<Datum>)
    ensures var s := Render(NewTable(head));
            var cells := Concat(CellTexts(RowOf(head, false).cells));
            s == TableTop + RowOpen + RowOpen + cells + RowClose + RowClose + TableHeadEnd + TableClose
  {
    var h := RowOf(head, false);
    assert Render(NewTable(head)) == TableText(RenderRow(h), "") by {
      assert Join(RowTexts([]), "\n") == "";
    }
    Regroup(TableTop, RowOpen, RowOpen, Concat(CellTexts(h.cells)), RowClose, RowClose, TableHeadEnd, TableClose);
  }

  // ---------------------------------------------------------------------
  // What each `__str__` consists of: the template's fixed pieces with the
  // node's own text between them, each piece recoverable from the markup

  /** `<div class="container">`, the children's markup back to back, `</div>`. */
  lemma ContainerMarkup(children: seq<Component>)
    ensures Wraps(Render(Container(children)), ContainerOpen, Concat(RenderAll(children)), ContainerClose)
  {
    WrapsConcat(ContainerOpen, Concat(RenderAll(children)), ContainerClose);
  }

  /** `<tr>`, the cells' markup back to back, `</tr>`. */
  lemma RowMarkup(r: TableRow)
    ensures Wraps(RenderRow(r), RowOpen, Concat(CellTexts(r.cells)), RowClose)
  {
    WrapsConcat(RowOpen, Concat(CellTexts(r.cells)), RowClose);
  }

  /** The table's opening template and `<tr>`, the head row, `</tr>` and the
      rest of the head template, the body rows joined by line breaks, and
      the closing template. */
  lemma TableMarkup(head: TableRow, body: seq<TableRow>)
    ensures var bodyText := Join(RowTexts(body), "\n");
            var inner := RenderRow(head) + TableAfterHead + bodyText;
            && Wraps(Render(Table(head, body)), TableOpen, inner, TableClose)
            && Wraps(inner, RenderRow(head), TableAfterHead, bodyText)
  {
    WrapsConcat5(TableOpen, RenderRow(head), TableAfterHead, Join(RowTexts(body), "\n"), TableClose);
  }

  /** The page template up to `<title>`, the title, the template from
      `</title>` to the body, the components joined by line breaks, and the
      closing template. */
  lemma FileMarkup(title: string, components: seq<Component>)
    ensures var bodyText := Join(RenderAll(components), "\n");
            var inner := title + FileAfterTitle + bodyText;
            && Wraps(Render(File(title, components)), FileOpen, inner, FileClose)
            && Wraps(inner, title, FileAfterTitle, bodyText)
  {
    var bodyText := Join(RenderAll(components), "\n");
    assert Render(File(title, components)) == FileText(title, bodyText);
    FileTextMarkup(title, bodyText);
  }

  lemma FileTextMarkup(title: string, bodyText: string)
    ensures Wraps(FileText(title, bodyText), FileOpen, title + FileAfterTitle + bodyText, FileClose)
    ensures Wraps(title + FileAfterTitle + bodyText, title, FileAfterTitle, bodyText)
  {
    WrapsConcat5(FileOpen, title, FileAfterTitle, bodyText, FileClose);
  }

  /** `<p>`, the text (inside `<strong>` when bold), `</p>`. */
  lemma ParagraphMarkup(text: string, bold: bool)
    ensures Wraps(Render(Paragraph(text, bold)), "<p>",
                  if bold then "<strong>" + text + "</strong>" else text, "</p>")
  {
    var inner := if bold then "<strong>" + text + "</strong>" else text;
    assert Render(Paragraph(text, bold)) == "<p>" + inner + "</p>";
    WrapsConcat("<p>", inner, "</p>");
  }

  /** A table with at least one row, whose cells hold no line break, lays its
      body out one row per line: splitting the body text at line breaks gives
      back the rendered rows, in order. (An empty body prints as `""`, which
      splits into one empty line rather than no rows.) */
  lemma TableBodyLines(t: Component)
    requires t.Table? && |t.body| > 0
    requires forall j, i :: 0 <= j < |t.body| && 0 <= i < |t.body[j].cells| ==>
               '\n' !in DatumText(t.body[j].cells[i].data)
    ensures Split(Join(RowTexts(t.body), "\n"), '\n') == RowTexts(t.body)
  {
    forall j | 0 <= j < |t.body|
      ensures '\n' !in RenderRow(t.body[j])
    {
      NoBreakInRow(t.body[j]);
    }
    SplitJoin(RowTexts(t.body), '\n');
  }

  lemma NoBreakInRow(r: TableRow)
    requires forall i :: 0 <= i < |r.cells| ==> '\n' !in DatumText(r.cells[i].data)
    ensures '\n' !in RenderRow(r)
  {
    var texts := CellTexts(r.cells);
    forall i | 0 <= i < |texts|
      ensures '\n' !in texts[i]
    {
      assert texts[i] == (if r.cells[i].isTd then "<td>" else "<th>")
                         + DatumText(r.cells[i].data) + CellClose;
    }
    NoBreakInConcat(texts);
  }

  lemma {:induction false} NoBreakInConcat(parts: seq<string>)
    requires forall i :: 0 <= i < |parts| ==> '\n' !in parts[i]
    ensures '\n' !in Concat(parts)
  {
    if |parts| > 0 {
      NoBreakInConcat(parts[1..]);
    }
  }

  /** The frame's markup is the fixed template around its source; the source
      can be read back from it, so different sources give different frames. */
  lemma IFrameSource(src: string, other: string)
    ensures Wraps(Render(IFrame(src)), IFrameOpen, src, IFrameClose)
    ensures var s := Render(IFrame(src));
            && |s| == |IFrameOpen| + |src| + |IFrameClose|
            && s[|IFrameOpen|..|IFrameOpen| + |src|] == src
    ensures Render(IFrame(src)) == Render(IFrame(other)) ==> src == other
  {
    var s := Render(IFrame(src));
    WrapsConcat(IFrameOpen, src, IFrameClose);
    assert s[|IFrameOpen|..|IFrameOpen| + |src|] == src;
    if Render(IFrame(src)) == Render(IFrame(other)) {
      var t := Render(IFrame(other));
      assert t[|IFrameOpen|..|IFrameOpen| + |other|] == other;
    }
  }

  /** A bold paragraph is the plain paragraph of the text wrapped in
      `<strong>`. */
  lemma BoldParagraph(text: string)
    ensures RenderParagraph(text, true) == RenderParagraph("<strong>" + text + "</strong>", false)
  {
    assert "<p><strong>" == "<p>" + "<strong>";
    assert "</strong></p>" == "</strong>" + "</p>";
  }

  /** The headline is the text between `<h`level`>` and `</h`level`>`, and
      the heading level can be read back from the opening tag. */
  lemma HeadlineLevel(text: string, level: nat)
    ensures var d := NatToString(level);
            Wraps(RenderHeadline(text, level), "<h" + d + ">", text, "</h" + d + ">")
    ensures var s := RenderHeadline(text, level);
            var n := |NatToString(level)|;
            && |s| >= 3 + n + |text|
            && s[..2] == "<h"
            && (forall i :: 2 <= i < 2 + n ==> IsDigit(s[i]))
            && ParseDecimal(s[2..2 + n]) == level
            && s[2 + n..3 + n + |text|] == ">" + text
  {
    var digits := NatToString(level);
    HeadlineWraps(text, digits);
    ParseNatToString(level);
  }

  /** The headline template over any digits and text, stated over plain
      variables so that no particular numeral is unfolded. */
  lemma HeadlineWraps(text: string, digits: string)
    ensures var s := "<h" + digits + (">" + text + "</h" + digits + ">");
            && Wraps(s, "<h" + digits + ">", text, "</h" + digits + ">")
            && |s| >= 3 + |digits| + |text|
            && s[..2] == "<h"
            && s[2..2 + |digits|] == digits
            && s[2 + |digits|..3 + |digits| + |text|] == ">" + text
  {
    var s := "<h" + digits + (">" + text + "</h" + digits + ">");
    var open := "<h" + digits;
    var rest := ">" + text + "</h" + digits + ">";
    assert s == open + rest;
    assert s[..|open|] == open;
    assert s[2..2 + |digits|] == digits;
    assert s[|open|..|open| + 1 + |text|] == rest[..1 + |text|];
    assert s == "<h" + digits + ">" + text + ("</h" + digits + ">");
    WrapsConcat("<h" + digits + ">", text, "</h" + digits + ">");
  }
}
