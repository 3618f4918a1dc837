/**
 * The demo page of App.tsx: three people and three columns, rendered with
 * only `data` and `columns` supplied.
 */
module Demo {
  import opened Wrappers
  import opened Columns
  import opened Selection
  import opened Seqs
  import opened Table

  function Person(id: int, name: string, age: int): Row
  {
    map["id" := Num(id), "name" := Text(name), "age" := Num(age)]
  }

  const People: seq<Row> := [Person(1, "John Doe", 25), Person(2, "Jane Smith", 30), Person(3, "Bob Johnson", 35)]

  /** A column with only `header`, `key` and possibly `textAlign` set. */
  function PlainColumn(header: string, key: string, align: Option<Align>): Column
  {
    Column(header, key, None, None, None, None, None, align)
  }

  const AppColumns: seq<Column> :=
    [PlainColumn("ID", "id", None), PlainColumn("Name", "name", Some(Center)), PlainColumn("Age", "age", None)]

  const AppProps: RawProps := RawProps(AppColumns, Some(People), None, None, None, None, None, None)

  /** The cells a person's row shows under the demo columns: id, name (centred), age. */
  function PersonCells(id: int, name: string, age: int): seq<BodyCell>
  {
    [BodyCell(Left, FieldValue(Some(Num(id)))), BodyCell(Center, FieldValue(Some(Text(name)))),
     BodyCell(Left, FieldValue(Some(Num(age))))]
  }

  /**
   * The demo renders three header cells ID, Name, Age of width 100, the Name
   * column centred and the others left-aligned, three rows whose cells are
   * the people's fields in input order, and no checkbox, summary or placeholder rows.
   */
  lemma AppRendersPeople(isMobile: bool)
    ensures var t := Render(WithDefaults(AppProps), Initial, isMobile);
      && t.header == HeaderRow(None, [HeaderCell("ID", 100, 100, Left), HeaderCell("Name", 100, 100, Center),
                                      HeaderCell("Age", 100, 100, Left)])
      && t.summary == None && t.noData == None
      && |t.body| == 3
      && t.body[0] == DataRow(0, None, PersonCells(1, "John Doe", 25))
      && t.body[1] == DataRow(1, None, PersonCells(2, "Jane Smith", 30))
      && t.body[2] == DataRow(2, None, PersonCells(3, "Bob Johnson", 35))
  {
    AppHeader(isMobile);
    AppRow(isMobile, 0, 1, "John Doe", 25);
    AppRow(isMobile, 1, 2, "Jane Smith", 30);
    AppRow(isMobile, 2, 3, "Bob Johnson", 35);
  }

  /** The `k`-th demo row shows the `k`-th person's fields. */
  lemma AppRow(isMobile: bool, k: nat, id: int, name: string, age: int)
    requires k < |People| && People[k] == Person(id, name, age)
    ensures var rows := DataRows(WithDefaults(AppProps), Initial, isMobile);
      |rows| == 3 && rows[k] == DataRow(k, None, PersonCells(id, name, age))
  {
    var p := WithDefaults(AppProps);
    assert p.columns == AppColumns && p.data == People && !p.showCheckboxes;
    assert DataRows(p, Initial, isMobile)[k] == DataRowFor(p, Initial, isMobile, k);
    PersonRow(isMobile, id, name, age);
  }

  /** No demo column sets `hideOnMobile`, so all three are shown at any width. */
  lemma AppColumnsAlwaysVisible(isMobile: bool)
    ensures VisibleColumns(AppColumns, isMobile) == AppColumns
  {
    FilterKeepsAll(AppColumns, (c: Column) => !Hidden(c, isMobile));
  }

  lemma AppHeader(isMobile: bool)
    ensures HeaderCells(AppColumns, isMobile) ==
      [HeaderCell("ID", 100, 100, Left), HeaderCell("Name", 100, 100, Center), HeaderCell("Age", 100, 100, Left)]
  {
    AppColumnsAlwaysVisible(isMobile);
    var header := HeaderCells(AppColumns, isMobile);
    assert header[0] == HeaderCellFor(AppColumns[0]);
    assert header[1] == HeaderCellFor(AppColumns[1]);
    assert header[2] == HeaderCellFor(AppColumns[2]);
  }

  lemma PersonRow(isMobile: bool, id: int, name: string, age: int)
    ensures RowCells(AppColumns, isMobile, Person(id, name, age)) == PersonCells(id, name, age)
  {
    AppColumnsAlwaysVisible(isMobile);
    var person := Person(id, name, age);
    var cells := RowCells(AppColumns, isMobile, person);
    assert "id" in person && person["id"] == Num(id);
    assert "name" in person && person["name"] == Text(name);
    assert "age" in person && person["age"] == Num(age);
    assert cells[0] == BodyCellFor(AppColumns[0], person) == BodyCell(Left, FieldValue(Some(Num(id))));
    assert cells[1] == BodyCellFor(AppColumns[1], person) == BodyCell(Center, FieldValue(Some(Text(name))));
    assert cells[2] == BodyCellFor(AppColumns[2], person) == BodyCell(Left, FieldValue(Some(Num(age))));
  }

  /** With the summary switched on, one summary row spanning the three columns follows the header. */
  lemma AppSummaryRow(isMobile: bool)
    ensures var raw := AppProps.(showTotal := Some(true), dataLength := Some(3), totalLength := Some(10),
                                 itemLabel := Some("users"));
      Render(WithDefaults(raw), Initial, isMobile).summary == Some(SpanRow(3, SummaryText(Some(3), Some(10), Some("users"))))
  {
  }
}
