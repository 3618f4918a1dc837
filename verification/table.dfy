/**
 * The `ZeTable` component (ZeTable.tsx, lines 17-39 and 73-187) as a pure
 * function from its props, its selection state and the viewport flag to the
 * shape of the rendered table. CSS classes and the DOM itself are not modelled.
 */
module Table {
  import opened Wrappers
  import opened Columns
  import opened Selection
  import Viewport

  /**
   * `CustomTableProps` as a caller passes them: optional props may be missing.
   * `itemLabel` is the `label` prop (`label` is a Dafny keyword).
   */
  datatype RawProps = RawProps(
    columns: seq<Column>,
    data: Option<seq<Row>>,
    showCheckboxes: Option<bool>,
    showTotal: Option<bool>,
    dataLength: Option<int>,
    totalLength: Option<int>,
    itemLabel: Option<string>,
    loading: Option<bool>)

  /** The props after destructuring with defaults; flags are plain booleans. */
  datatype Props = Props(
    columns: seq<Column>,
    data: seq<Row>,
    showCheckboxes: bool,
    showTotal: bool,
    dataLength: Option<int>,
    totalLength: Option<int>,
    itemLabel: Option<string>,
    loading: bool)

  datatype HeaderCell = HeaderCell(title: string, width: int, minWidth: int, align: Align)

  /** The header row: the select-all checkbox (its checked state) when shown, then the column cells. */
  datatype HeaderRow = HeaderRow(selectAllBox: Option<bool>, cells: seq<HeaderCell>)

  datatype BodyCell = BodyCell(align: Align, content: Content)

  /** The text of a row that spans the whole table. */
  datatype SpanText =
    | SummaryText(dataLength: Option<int>, totalLength: Option<int>, itemLabel: Option<string>)
    | LoadingText
    | NoDataText

  datatype SpanRow = SpanRow(colSpan: nat, text: SpanText)

  /** A row of `<tbody>`: the loading placeholder, or a data row with its checkbox state when shown. */
  datatype BodyRow =
    | Spanning(span: SpanRow)
    | DataRow(index: nat, checked: Option<bool>, cells: seq<BodyCell>)

  /** The rendered table: header, optional summary, `<tbody>` rows, optional "No Data Found" row. */
  datatype TableView = TableView(header: HeaderRow, summary: Option<SpanRow>, body: seq<BodyRow>, noData: Option<SpanRow>)

  /** Which of the three mutually exclusive body layouts applies. */
  datatype BodyMode = Loading | Empty | Populated

  /** Loading takes priority over Empty, which takes priority over Populated. */
  function Mode(loading: bool, rowCount: nat): BodyMode
  {
    if loading then Loading else if rowCount == 0 then Empty else Populated
  }

  /** Destructuring defaults: `data = []`, `showCheckboxes = false`, `loading = false`; a missing `showTotal` is falsy. */
  function WithDefaults(raw: RawProps): (p: Props)
    ensures p.columns == raw.columns
    ensures p.data == raw.data.GetOr([])
    ensures p.showCheckboxes <==> raw.showCheckboxes == Some(true)
    ensures p.showTotal <==> raw.showTotal == Some(true)
    ensures p.loading <==> raw.loading == Some(true)
    ensures (p.dataLength, p.totalLength, p.itemLabel) == (raw.dataLength, raw.totalLength, raw.itemLabel)
  {
    Props(raw.columns, raw.data.GetOr([]), raw.showCheckboxes.GetOr(false), raw.showTotal.GetOr(false),
          raw.dataLength, raw.totalLength, raw.itemLabel, raw.loading.GetOr(false))
  }

  /** `columns.length + (showCheckboxes ? 1 : 0)`: hidden columns are counted too. */
  function ColSpan(p: Props): nat
  {
    |p.columns| + (if p.showCheckboxes then 1 else 0)
  }

  function HeaderCellFor(c: Column): HeaderCell
  {
    HeaderCell(c.header, Width(c), Width(c), AlignOf(c))
  }

  function BodyCellFor(c: Column, item: Row): BodyCell
  {
    BodyCell(AlignOf(c), CellContent(c, item))
  }

  /** `columns.map(...)` in the header, where a hidden column yields `null`. */
  function HeaderCells(cols: seq<Column>, isMobile: bool): (r: seq<HeaderCell>)
    ensures |r| == |VisibleColumns(cols, isMobile)|
    ensures forall k :: 0 <= k < |r| ==> r[k] == HeaderCellFor(VisibleColumns(cols, isMobile)[k])
  {
    if |cols| == 0 then []
    else if Hidden(cols[0], isMobile) then
      assert VisibleColumns(cols, isMobile) == VisibleColumns(cols[1..], isMobile);
      HeaderCells(cols[1..], isMobile)
    else
      assert VisibleColumns(cols, isMobile) == [cols[0]] + VisibleColumns(cols[1..], isMobile);
      [HeaderCellFor(cols[0])] + HeaderCells(cols[1..], isMobile)
  }

  /** `columns.map(...)` in one body row, where a hidden column yields `null`. */
  function RowCells(cols: seq<Column>, isMobile: bool, item: Row): (r: seq<BodyCell>)
    ensures |r| == |VisibleColumns(cols, isMobile)|
    ensures forall k :: 0 <= k < |r| ==> r[k] == BodyCellFor(VisibleColumns(cols, isMobile)[k], item)
  {
    if |cols| == 0 then []
    else if Hidden(cols[0], isMobile) then
      assert VisibleColumns(cols, isMobile) == VisibleColumns(cols[1..], isMobile);
      RowCells(cols[1..], isMobile, item)
    else
      assert VisibleColumns(cols, isMobile) == [cols[0]] + VisibleColumns(cols[1..], isMobile);
      [BodyCellFor(cols[0], item)] + RowCells(cols[1..], isMobile, item)
  }

  /** The data row for `data[i]`: its checkbox reads `selectedRows.includes(i)`. */
  function DataRowFor(p: Props, sel: SelState, isMobile: bool, i: nat): BodyRow
    requires i < |p.data|
  {
    DataRow(i, if p.showCheckboxes then Some(i in sel.selectedRows) else None,
            RowCells(p.columns, isMobile, p.data[i]))
  }

  /** `data.length > 0 && data.map(...)`: one row per item, in input order. */
  function DataRows(p: Props, sel: SelState, isMobile: bool): seq<BodyRow>
  {
    seq(|p.data|, (i: int) requires 0 <= i < |p.data| => DataRowFor(p, sel, isMobile, i))
  }

  /** One render of the component. */
  function Render(p: Props, sel: SelState, isMobile: bool): TableView
  {
    var span := ColSpan(p);
    TableView(
      HeaderRow(if p.showCheckboxes then Some(sel.selectAll) else None, HeaderCells(p.columns, isMobile)),
      if p.showTotal then Some(SpanRow(span, SummaryText(p.dataLength, p.totalLength, p.itemLabel))) else None,
      if p.loading then [Spanning(SpanRow(span, LoadingText))] else DataRows(p, sel, isMobile),
      if !p.loading && |p.data| == 0 then Some(SpanRow(span, NoDataText)) else None)
  }

  /** A render at a measured viewport width. */
  function RenderAtWidth(p: Props, sel: SelState, width: int): TableView
  {
    Render(p, sel, Viewport.IsMobile(width))
  }

  /**
   * The three body layouts are exclusive and follow `Mode`: loading gives one
   * loading row and nothing else; no data gives no data row and one
   * "No Data Found" row; otherwise one data row per item, in order.
   */
  lemma BodyFollowsMode(p: Props, sel: SelState, isMobile: bool)
    ensures var t := Render(p, sel, isMobile);
      && (Mode(p.loading, |p.data|) == Loading ==>
            t.body == [Spanning(SpanRow(ColSpan(p), LoadingText))] && t.noData == None)
      && (Mode(p.loading, |p.data|) == Empty ==>
            t.body == [] && t.noData == Some(SpanRow(ColSpan(p), NoDataText)))
      && (Mode(p.loading, |p.data|) == Populated ==>
            && |t.body| == |p.data| && t.noData == None
            && forall i :: 0 <= i < |t.body| ==> t.body[i].DataRow? && t.body[i].index == i)
  {
    if !p.loading && |p.data| > 0 {
      var rows := DataRows(p, sel, isMobile);
      forall i | 0 <= i < |rows|
        ensures rows[i].DataRow? && rows[i].index == i
      {
        assert rows[i] == DataRowFor(p, sel, isMobile, i);
      }
    }
  }

  /** Exactly one placeholder row when loading or empty, exactly `|data|` rows otherwise. */
  lemma RowCountByMode(p: Props, sel: SelState, isMobile: bool)
    ensures var t := Render(p, sel, isMobile);
      |t.body| + (if t.noData.Some? then 1 else 0) ==
        (if Mode(p.loading, |p.data|) == Populated then |p.data| else 1)
  {
  }

  /** Every spanning row (summary, loading, empty) spans `|columns|` plus the checkbox column. */
  lemma SpanningRowsUseColumnCount(p: Props, sel: SelState, isMobile: bool)
    ensures var t := Render(p, sel, isMobile);
      && (p.showTotal <==> t.summary.Some?)
      && (t.summary.Some? ==> t.summary.value.colSpan == |p.columns| + (if p.showCheckboxes then 1 else 0))
      && (t.noData.Some? ==> t.noData.value.colSpan == |p.columns| + (if p.showCheckboxes then 1 else 0))
      && (forall r :: r in t.body && r.Spanning? ==>
            r.span.colSpan == |p.columns| + (if p.showCheckboxes then 1 else 0))
  {
  }

  /**
   * The span exceeds the rendered header by exactly the number of columns the
   * mobile rule hides; on a wide viewport it matches the header exactly.
   */
  lemma ColSpanCountsHiddenColumns(p: Props, sel: SelState, isMobile: bool)
    ensures var t := Render(p, sel, isMobile);
      ColSpan(p) == (if t.header.selectAllBox.Some? then 1 else 0) + |t.header.cells|
                    + |HiddenColumns(p.columns, isMobile)|
    ensures !isMobile ==>
      ColSpan(p) == (if p.showCheckboxes then 1 else 0) + |Render(p, sel, isMobile).header.cells|
  {
    VisibleAndHiddenPartition(p.columns, isMobile);
    VisibleOffMobile(p.columns);
  }

  /**
   * Header and body use the same columns: the k-th header cell and the k-th
   * cell of every data row come from the k-th visible column, with the same
   * alignment, and the header label, widths and cell content follow that column.
   */
  lemma HeaderMatchesEveryRow(p: Props, sel: SelState, isMobile: bool, i: nat)
    requires !p.loading && i < |p.data|
    ensures var t := Render(p, sel, isMobile);
      var vis := VisibleColumns(p.columns, isMobile);
      && t.body[i].DataRow?
      && |t.body[i].cells| == |t.header.cells| == |vis|
      && forall k :: 0 <= k < |vis| ==>
           && t.header.cells[k].title == vis[k].header
           && t.header.cells[k].width == t.header.cells[k].minWidth == Width(vis[k])
           && t.body[i].cells[k].align == t.header.cells[k].align == AlignOf(vis[k])
           && t.body[i].cells[k].content == CellContent(vis[k], p.data[i])
  {
  }

  /**
   * Above the breakpoint every column is shown, header and body alike, in
   * configured order: the k-th header cell and the k-th cell of every data row
   * are built from `columns[k]`.
   */
  lemma WideViewportShowsEveryColumn(p: Props, sel: SelState, width: int)
    requires !Viewport.IsMobile(width)
    ensures var t := RenderAtWidth(p, sel, width);
      && |t.header.cells| == |p.columns|
      && (forall k :: 0 <= k < |p.columns| ==> t.header.cells[k] == HeaderCellFor(p.columns[k]))
      && (!p.loading ==> forall i :: 0 <= i < |p.data| ==>
            t.body[i].cells == seq(|p.columns|, (k: int) requires 0 <= k < |p.columns| => BodyCellFor(p.columns[k], p.data[i])))
  {
    VisibleOffMobile(p.columns);
  }

  /** The checkboxes show the selection: the header shows `selectAll`, row `i` shows membership of `i`. */
  lemma CheckboxesShowSelection(p: Props, sel: SelState, isMobile: bool)
    ensures var t := Render(p, sel, isMobile);
      && (t.header.selectAllBox.Some? <==> p.showCheckboxes)
      && (p.showCheckboxes ==> t.header.selectAllBox.value == sel.selectAll)
      && forall r :: r in t.body && r.DataRow? ==>
           r.checked == (if p.showCheckboxes then Some(r.index in sel.selectedRows) else None)
  {
    var t := Render(p, sel, isMobile);
    forall r | r in t.body && r.DataRow?
      ensures r.checked == (if p.showCheckboxes then Some(r.index in sel.selectedRows) else None)
    {
      var i :| 0 <= i < |t.body| && t.body[i] == r;
    }
  }

  /**
   * Clicking row `i`'s checkbox flips that checkbox alone: the rendered table
   * after the click differs from the one before only in row `i`'s checked state.
   */
  lemma RowClickFlipsOnlyItsCheckbox(p: Props, sel: SelState, isMobile: bool, i: nat)
    requires p.showCheckboxes && !p.loading && i < |p.data|
    ensures var before, after := Render(p, sel, isMobile), Render(p, ToggleRow(sel, i), isMobile);
      after == before.(body := before.body[i := before.body[i].(checked := Some(!before.body[i].checked.value))])
  {
    var before, after := Render(p, sel, isMobile), Render(p, ToggleRow(sel, i), isMobile);
    var expected := before.body[i := before.body[i].(checked := Some(!before.body[i].checked.value))];
    assert |after.body| == |expected|;
    forall j | 0 <= j < |expected|
      ensures after.body[j] == expected[j]
    {
    }
  }

  /** The `headerCentered` and `bodyCentered` fields are never read by the renderer. */
  lemma CenteringFlagsIgnored(p: Props, sel: SelState, isMobile: bool, cols: seq<Column>)
    requires |cols| == |p.columns|
    requires forall k :: 0 <= k < |cols| ==>
      cols[k] == p.columns[k].(headerCentered := cols[k].headerCentered, bodyCentered := cols[k].bodyCentered)
    ensures Render(p.(columns := cols), sel, isMobile) == Render(p, sel, isMobile)
  {
    var q := p.(columns := cols);
    HeaderCellsIgnoreCentering(p.columns, cols, isMobile);
    DataRowsIgnoreCentering(p, sel, isMobile, cols);
    assert ColSpan(q) == ColSpan(p);
  }

  lemma DataRowsIgnoreCentering(p: Props, sel: SelState, isMobile: bool, cols: seq<Column>)
    requires |cols| == |p.columns|
    requires forall k :: 0 <= k < |cols| ==>
      cols[k] == p.columns[k].(headerCentered := cols[k].headerCentered, bodyCentered := cols[k].bodyCentered)
    ensures DataRows(p.(columns := cols), sel, isMobile) == DataRows(p, sel, isMobile)
  {
    var q := p.(columns := cols);
    forall i | 0 <= i < |p.data|
      ensures DataRowFor(q, sel, isMobile, i) == DataRowFor(p, sel, isMobile, i)
    {
      RowCellsIgnoreCentering(p.columns, cols, isMobile, p.data[i]);
    }
  }

  lemma {:induction false} HeaderCellsIgnoreCentering(a: seq<Column>, b: seq<Column>, isMobile: bool)
    requires |a| == |b|
    requires forall k :: 0 <= k < |b| ==>
      b[k] == a[k].(headerCentered := b[k].headerCentered, bodyCentered := b[k].bodyCentered)
    ensures HeaderCells(a, isMobile) == HeaderCells(b, isMobile)
  {
    if |a| > 0 {
      assert b[0] == a[0].(headerCentered := b[0].headerCentered, bodyCentered := b[0].bodyCentered);
      assert HeaderCellFor(a[0]) == HeaderCellFor(b[0]);
      forall k | 0 <= k < |b[1..]|
        ensures b[1..][k] == a[1..][k].(headerCentered := b[1..][k].headerCentered, bodyCentered := b[1..][k].bodyCentered)
      {
        assert b[1..][k] == b[k + 1] && a[1..][k] == a[k + 1];
      }
      HeaderCellsIgnoreCentering(a[1..], b[1..], isMobile);
    }
  }

  lemma {:induction false} RowCellsIgnoreCentering(a: seq<Column>, b: seq<Column>, isMobile: bool, item: Row)
    requires |a| == |b|
    requires forall k :: 0 <= k < |b| ==>
      b[k] == a[k].(headerCentered := b[k].headerCentered, bodyCentered := b[k].bodyCentered)
    ensures RowCells(a, isMobile, item) == RowCells(b, isMobile, item)
  {
    if |a| > 0 {
      assert b[0] == a[0].(headerCentered := b[0].headerCentered, bodyCentered := b[0].bodyCentered);
      assert BodyCellFor(a[0], item) == BodyCellFor(b[0], item);
      forall k | 0 <= k < |b[1..]|
        ensures b[1..][k] == a[1..][k].(headerCentered := b[1..][k].headerCentered, bodyCentered := b[1..][k].bodyCentered)
      {
        assert b[1..][k] == b[k + 1] && a[1..][k] == a[k + 1];
      }
      RowCellsIgnoreCentering(a[1..], b[1..], isMobile, item);
    }
  }

  /**
   * A caller passing only `columns` and `data` gets no checkbox column, no
   * summary row, and no loading row.
   */
  lemma MinimalPropsRenderPlainTable(columns: seq<Column>, data: seq<Row>, sel: SelState, isMobile: bool)
    ensures var t := Render(WithDefaults(RawProps(columns, Some(data), None, None, None, None, None, None)), sel, isMobile);
      && t.header.selectAllBox == None
      && t.summary == None
      && (forall r :: r in t.body ==> r.DataRow? && r.checked == None)
      && (t.noData.Some? <==> |data| == 0)
  {
    var p := WithDefaults(RawProps(columns, Some(data), None, None, None, None, None, None));
    var t := Render(p, sel, isMobile);
    forall r | r in t.body
      ensures r.DataRow? && r.checked == None
    {
      var i :| 0 <= i < |t.body| && t.body[i] == r;
    }
  }
}
