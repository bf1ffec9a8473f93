/** The older document model of html_renderer.py, still used by the legacy
    report script. It differs from html_components.py in its templates: a
    container holds exactly one child, paragraphs have no bold option, the
    table has a Bootstrap class and no `<thead>`, and the file is not itself
    a component and wraps its body in one more container `<div>`. */
module LegacyHtml {
  import opened Text
  import opened Decimal
  import Html

  type Datum = Html.Datum

  datatype TableCell = TableCell(data: Datum, isTd: bool)

  datatype TableRow = TableRow(cells: seq<TableCell>)

  datatype Component =
    | Container(child: Component)
    | Cell(cell: TableCell)
    | Row(row: TableRow)
    | Table(head: TableRow, body: seq<TableRow>)
    | Paragraph(text: string)
    | Headline(text: string, level: nat)

  /** `HTMLFile` of the legacy model: a title and its components. */
  datatype File = File(title: string, components: seq<Component>)

  // ---------------------------------------------------------------------
  // Templates, byte for byte

  const ContainerOpen: string := "<div class=\"container\">"
  const ContainerClose: string := "</div>"

  const TableTop: string := "\n        <table class=\"table table-striped\">\n            "
  const RowOpen: string := "<tr>"
  const RowClose: string := "</tr>"
  const TableOpen: string := TableTop + RowOpen
  const TableHeadEnd: string := "\n            <tbody>\n            "
  const TableAfterHead: string := RowClose + TableHeadEnd
  const TableClose: string := "\n            </tbody>\n        </table>\n        "

  const FileOpen: string :=
    "\n        <!DOCTYPE html>\n        <html lang=\"en\">\n            <head>\n"
    + "                <meta charset=\"UTF-8\">\n"
    + "                <meta http-equiv=\"X-UA-Compatible\" content=\"IE=edge\">\n"
    + "                <meta name=\"viewport\" content=\"width=device-width, initial-scale=1.0\">\n"
    + "                <link href=\"https://cdn.jsdelivr.net/npm/bootstrap@5.2.3/dist/css/bootstrap.min.css\""
    + " rel=\"stylesheet\" integrity=\"sha384-rbsA2VBKQhggwzxH7pPCaAqO46MgnOM80zW1RWuH61DGLwZJEdK2Kadq2F9CUG65\""
    + " crossorigin=\"anonymous\">\n"
    + "                <title>"
  const FileAfterTitle: string :=
    "</title>\n            </head>\n            <body>\n                <div class=\"container\">\n                "
  const FileClose: string :=
    "\n                </div>\n            </body>\n        </html>\n        "

  // ---------------------------------------------------------------------
  // Rendering

  function RenderCell(c: TableCell): string
  {
    if c.isTd then "<td>" + Html.DatumText(c.data) + "</td>"
    else "<th>" + Html.DatumText(c.data) + "</td>"
  }

  function CellTexts(cells: seq<TableCell>): (ss: seq<string>)
    ensures |ss| == |cells|
    ensures forall i :: 0 <= i < |cells| ==> ss[i] == RenderCell(cells[i])
  {
    seq(|cells|, i requires 0 <= i < |cells| => RenderCell(cells[i]))
  }

  function RenderRow(r: TableRow): string
  {
    RowOpen + Concat(CellTexts(r.cells)) + RowClose
  }

  function RowTexts(rows: seq<TableRow>): (ss: seq<string>)
    ensures |ss| == |rows|
    ensures forall i :: 0 <= i < |rows| ==> ss[i] == RenderRow(rows[i])
  {
    seq(|rows|, i requires 0 <= i < |rows| => RenderRow(rows[i]))
  }

  function TableText(headText: string, bodyText: string): string
  {
    TableOpen + headText + TableAfterHead + bodyText + TableClose
  }

  /** `str(component)`. */
  function Render(c: Component): string
  {
    match c
    case Container(child) => ContainerOpen + Render(child) + ContainerClose
    case Cell(cell) => RenderCell(cell)
    case Row(row) => RenderRow(row)
    case Table(head, body) => TableText(RenderRow(head), Join(RowTexts(body), "\n"))
    case Paragraph(text) => "<p>" + text + "</p>"
    case Headline(text, level) =>
      "<h" + NatToString(level) + ">" + text + "</h" + NatToString(level) + ">"
  }

  function RenderAll(cs: seq<Component>): (ss: seq<string>)
    ensures |ss| == |cs|
    ensures forall i :: 0 <= i < |cs| ==> ss[i] == Render(cs[i])
  {
    seq(|cs|, i requires 0 <= i < |cs| => Render(cs[i]))
  }

  function FileText(title: string, bodyText: string): string
  {
    FileOpen + title + FileAfterTitle + bodyText + FileClose
  }

  /** `str(file)`. */
  function RenderFile(f: File): string
  {
    FileText(f.title, Join(RenderAll(f.components), "\n"))
  }

  // ---------------------------------------------------------------------
  // Construction

  function RowOf(items: seq<Datum>, isTd: bool): (r: TableRow)
    ensures |r.cells| == |items|
    ensures forall i :: 0 <= i < |items| ==> r.cells[i] == TableCell(items[i], isTd)
  {
    if |items| == 0 then TableRow([])
    else
      var prev := RowOf(items[..|items| - 1], isTd);
      TableRow(prev.cells + [TableCell(items[|items| - 1], isTd)])
  }

  /** `HTMLTable(head)`: one header cell per label, no body rows. */
  function NewTable(head: seq<Datum>): (t: Component)
    ensures t.Table? && t.body == []
    ensures |t.head.cells| == |head|
    ensures forall i :: 0 <= i < |head| ==> t.head.cells[i] == TableCell(head[i], false)
  {
    Table(RowOf(head, false), [])
  }

  /** `add_row(data)`: one more body row of data cells, the rest untouched. */
  function AddRow(t: Component, data: seq<Datum>): (r: Component)
    requires t.Table?
    ensures r.Table? && r.head == t.head
    ensures |r.body| == |t.body| + 1 && r.body[..|t.body|] == t.body
    ensures |r.body[|t.body|].cells| == |data|
    ensures forall i :: 0 <= i < |data| ==> r.body[|t.body|].cells[i] == TableCell(data[i], true)
  {
    Table(t.head, t.body + [RowOf(data, true)])
  }

  /** `HTMLFile.add_component`: the component goes last, title unchanged. */
  function AddComponent(f: File, c: Component): (r: File)
    ensures r.title == f.title
    ensures |r.components| == |f.components| + 1
    ensures r.components[..|f.components|] == f.components
    ensures r.components[|f.components|] == c
  {
    File(f.title, f.components + [c])
  }

  // ---------------------------------------------------------------------
  // Properties

  /** The joined components grow by a line break (if there were any) and
      the new component's markup. */
  lemma FileBodyAppend(cs: seq<Component>, c: Component)
    ensures Join(RenderAll(cs + [c]), "\n")
            == Join(RenderAll(cs), "\n") + (if |cs| == 0 then "" else "\n") + Render(c)
  {
    assert RenderAll(cs + [c]) == RenderAll(cs) + [Render(c)];
    JoinAppend(RenderAll(cs), "\n", Render(c));
  }

  /** Appending a component to a file adds a line break (unless the body was
      empty) and the component's markup just before the closing template,
      inside the extra container `<div>`. */
  lemma AddComponentRender(f: File, c: Component)
    ensures var before := RenderFile(f);
            |before| >= |FileClose|
            && RenderFile(AddComponent(f, c))
               == before[..|before| - |FileClose|]
                  + (if |f.components| == 0 then "" else "\n")
                  + Render(c) + FileClose
  {
    var cs := f.components;
    var body := Join(RenderAll(cs), "\n");
    var sep := if |cs| == 0 then "" else "\n";
    FileBodyAppend(cs, c);
    TemplateGrows(RenderFile(f), RenderFile(AddComponent(f, c)), FileOpen + f.title + FileAfterTitle,
                  body, sep, Render(c), FileClose);
  }

  /** The joined body text grows by a line break (if there were rows) and
      the new row's markup. */
  lemma RowBodyAppend(rows: seq<TableRow>, row: TableRow)
    ensures Join(RowTexts(rows + [row]), "\n")
            == Join(RowTexts(rows), "\n") + (if |rows| == 0 then "" else "\n") + RenderRow(row)
  {
    assert RowTexts(rows + [row]) == RowTexts(rows) + [RenderRow(row)];
    JoinAppend(RowTexts(rows), "\n", RenderRow(row));
  }

  /** Adding a row inserts a line break (unless the body was empty) and the
      row's markup just before the table's closing template. */
  lemma AddRowRender(t: Component, data: seq<Datum>)
    requires t.Table?
    ensures var before := Render(t);
            |before| >= |TableClose|
            && Render(AddRow(t, data))
               == before[..|before| - |TableClose|]
                  + (if |t.body| == 0 then "" else "\n")
                  + RenderRow(RowOf(data, true)) + TableClose
  {
    var r := AddRow(t, data);
    var row := RenderRow(RowOf(data, true));
    var headText := RenderRow(t.head);
    var body := Join(RowTexts(t.body), "\n");
    var sep := if |t.body| == 0 then "" else "\n";
    RowBodyAppend(t.body, RowOf(data, true));
    assert Render(t) == TableText(headText, body) by {
      assert t == Table(t.head, t.body);
    }
    assert Render(r) == TableText(headText, body + sep + row) by {
      assert r == Table(t.head, t.body + [RowOf(data, true)]);
    }
    TemplateGrows(Render(t), Render(r), TableOpen + headText + TableAfterHead, body, sep, row, TableClose);
  }

  /** The legacy table has no `<thead>`: its head row follows the table's
      opening tag directly, wrapped in a second `<tr>`. */
  lemma TableHeadDoubleRow(head: seq<Datum>)
    ensures var cells := Concat(CellTexts(RowOf(head, false).cells));
            Render(NewTable(head))
            == TableTop + RowOpen + RowOpen + cells + RowClose + RowClose + TableHeadEnd + TableClose
  {
    var h := RowOf(head, false);
    assert Render(NewTable(head)) == TableText(RenderRow(h), "") by {
      assert Join(RowTexts([]), "\n") == "";
    }
    Regroup(TableTop, RowOpen, RowOpen, Concat(CellTexts(h.cells)), RowClose, RowClose, TableHeadEnd, TableClose);
  }

  /** `HTMLContainer.__str__` of the legacy model: the one child's markup
      inside `<div class="container">` and `</div>`. */
  lemma ContainerMarkup(child: Component)
    ensures Wraps(Render(Container(child)), ContainerOpen, Render(child), ContainerClose)
  {
    WrapsConcat(ContainerOpen, Render(child), ContainerClose);
  }

  /** The legacy table: its opening template and `<tr>`, the head row, `</tr>`
      and `<tbody>`, the body rows joined by line breaks, and the closing
      template. */
  lemma TableMarkup(head: TableRow, body: seq<TableRow>)
    ensures var bodyText := Join(RowTexts(body), "\n");
            var inner := RenderRow(head) + TableAfterHead + bodyText;
            && Wraps(Render(Table(head, body)), TableOpen, inner, TableClose)
            && Wraps(inner, RenderRow(head), TableAfterHead, bodyText)
  {
    WrapsConcat5(TableOpen, RenderRow(head), TableAfterHead, Join(RowTexts(body), "\n"), TableClose);
  }

  /** The legacy page: the template up to `<title>`, the title, the template
      from `</title>` to the extra container `<div>`, the components joined by
      line breaks, and the closing template. */
  lemma FileMarkup(f: File)
    ensures var bodyText := Join(RenderAll(f.components), "\n");
            var inner := f.title + FileAfterTitle + bodyText;
            && Wraps(RenderFile(f), FileOpen, inner, FileClose)
            && Wraps(inner, f.title, FileAfterTitle, bodyText)
  {
    WrapsConcat5(FileOpen, f.title, FileAfterTitle, Join(RenderAll(f.components), "\n"), FileClose);
  }

  /** A legacy paragraph is always plain: `<p>`, the text, `</p>`. */
  lemma ParagraphMarkup(text: string)
    ensures Wraps(Render(Paragraph(text)), "<p>", text, "</p>")
  {
    WrapsConcat("<p>", text, "</p>");
  }

  // ---------------------------------------------------------------------
  // Agreement with the newer model

  /** The newer node that corresponds to a legacy one: the single child
      becomes a one-element child list, the paragraph is not bold. */
  function ToCurrent(c: Component): Html.Component
  {
    match c
    case Container(child) => Html.Container([ToCurrent(child)])
    case Cell(cell) => Html.Cell(Html.TableCell(cell.data, cell.isTd))
    case Row(row) => Html.Row(CurrentRow(row))
    case Table(head, body) =>
      Html.Table(CurrentRow(head), seq(|body|, j requires 0 <= j < |body| => CurrentRow(body[j])))
    case Paragraph(text) => Html.Paragraph(text, false)
    case Headline(text, level) => Html.Headline(text, level)
  }

  function CurrentRow(r: TableRow): Html.TableRow
  {
    Html.TableRow(seq(|r.cells|, i requires 0 <= i < |r.cells| =>
      Html.TableCell(r.cells[i].data, r.cells[i].isTd)))
  }

  predicate HasTable(c: Component)
  {
    match c
    case Container(child) => HasTable(child)
    case Table(_, _) => true
    case _ => false
  }

  /** Cells and rows are printed the same way by both models. */
  lemma RowAgrees(r: TableRow)
    ensures Html.RenderRow(CurrentRow(r)) == RenderRow(r)
  {
    assert Html.CellTexts(CurrentRow(r).cells) == CellTexts(r.cells);
  }

  /** Apart from tables, every legacy node prints exactly like its newer
      counterpart. */
  lemma {:induction false} SameMarkupWithoutTables(c: Component)
    requires !HasTable(c)
    ensures Html.Render(ToCurrent(c)) == Render(c)
  {
    match c
    case Container(child) =>
      SameMarkupWithoutTables(child);
      assert Html.RenderAll([ToCurrent(child)]) == [Render(child)];
      assert Concat([Render(child)]) == Render(child);
    case Cell(cell) =>
    case Row(row) => RowAgrees(row);
    case Paragraph(text) =>
    case Headline(text, level) =>
  }

  /** The current template closes `</thead>` after the head row; apart
      from that, the text up to the body is the legacy one. */
  lemma TableHeadEndDiffers()
    ensures Html.TableHeadEnd == Html.HeadClose + TableHeadEnd
    ensures Html.HeadClose == "\n            </thead>"
  {
    assert Html.BodyOpen == TableHeadEnd;
  }

  /** The table tags differ: the legacy one carries a Bootstrap class. */
  lemma TableTopDiffers()
    ensures Html.TableTop != TableTop
  {
    assert Html.TableTop[15] == '>' && TableTop[15] == ' ';
  }

  /** Tables differ only in their templates: both models print the same
      head row text and the same body text, and close the same way. The
      opening templates differ (the legacy `<table>` carries a Bootstrap
      class and opens no `<thead>`), and so does the text after the head
      row: the current one closes `</thead>` before `<tbody>`. */
  lemma TableMarkupDiffers(head: TableRow, body: seq<TableRow>)
    ensures var headText := RenderRow(head);
            var bodyText := Join(RowTexts(body), "\n");
            && Render(Table(head, body)) == TableText(headText, bodyText)
            && Html.Render(ToCurrent(Table(head, body))) == Html.TableText(headText, bodyText)
            && TableClose == Html.TableClose
    ensures Html.TableHeadEnd == "\n            </thead>" + TableHeadEnd
    ensures Html.TableTop != TableTop
  {
    TableHeadEndDiffers();
    TableTopDiffers();
    var cur := ToCurrent(Table(head, body));
    RowAgrees(head);
    assert Html.RowTexts(cur.body) == RowTexts(body) by {
      forall j | 0 <= j < |body|
        ensures Html.RenderRow(cur.body[j]) == RenderRow(body[j])
      {
        RowAgrees(body[j]);
      }
    }
  }
}
