/**
 * Column descriptors and the per-column rendering rules of ZeTable.tsx
 * (lines 4-15, 95-106 and 148-163): which columns are shown, their width and
 * alignment defaults, and where a body cell's content comes from.
 */
module Columns {
  import opened Wrappers
  import opened Seqs

  /** The field values a row may hold: integers, strings and booleans (a subset of what JavaScript allows). */
  datatype Value = Num(n: int) | Text(s: string) | Flag(b: bool)

  /** `Record<string, any>`: a key absent from the map reads as `undefined`. */
  type Row = map<string, Value>

  /** Identifies a custom `cell` component; what it draws is outside the model. */
  type RendererId = nat

  datatype Align = Left | Center | Right

  /** The `Column` interface; every `?` field is an `Option`. */
  datatype Column = Column(
    header: string,
    key: string,
    cell: Option<RendererId>,
    minWidth: Option<int>,
    headerCentered: Option<bool>,
    bodyCentered: Option<bool>,
    hideOnMobile: Option<bool>,
    textAlign: Option<Align>)

  /** Where a body cell's content comes from: a plain field lookup or a custom renderer. */
  datatype CellSource = ByKey(key: string) | ByRenderer(renderer: RendererId)

  /**
   * What a body cell displays: a field value (`None` for `undefined`) or the
   * opaque output of a renderer given the whole row. React draws nothing for
   * `undefined` and for a boolean, so `FieldValue(None)` and
   * `FieldValue(Some(Flag(b)))` look the same on screen.
   */
  datatype Content = FieldValue(value: Option<Value>) | Rendered(renderer: RendererId, row: Row)

  /** Width and min-width used when `minWidth` is falsy. */
  const DefaultWidth: int := 100

  /** JavaScript truthiness of an optional number (NaN is not modelled). */
  predicate Truthy(n: Option<int>)
  {
    n.Some? && n.value != 0
  }

  /** `isMobile && column.hideOnMobile`: the one rule used for the header and every row. */
  predicate Hidden(c: Column, isMobile: bool)
  {
    isMobile && c.hideOnMobile == Some(true)
  }

  /** The columns that produce a header cell and a body cell, in their configured order. */
  function VisibleColumns(cols: seq<Column>, isMobile: bool): (r: seq<Column>)
    ensures forall k :: 0 <= k < |r| ==> r[k] in cols && !(isMobile && r[k].hideOnMobile == Some(true))
    ensures forall k :: 0 <= k < |cols| && !(isMobile && cols[k].hideOnMobile == Some(true)) ==> cols[k] in r
  {
    Filter(cols, (c: Column) => !Hidden(c, isMobile))
  }

  /** The shown columns keep their configured relative order. */
  lemma VisibleKeepsOrder(cols: seq<Column>, isMobile: bool)
    ensures IsSubsequence(VisibleColumns(cols, isMobile), cols)
  {
    FilterIsSubsequence(cols, (c: Column) => !Hidden(c, isMobile));
  }

  /** Off mobile nothing is hidden: every column is shown, in configured order. */
  lemma VisibleOffMobile(cols: seq<Column>)
    ensures VisibleColumns(cols, false) == cols
  {
    FilterKeepsAll(cols, (c: Column) => !Hidden(c, false));
  }

  /** The columns dropped by the mobile rule. */
  function HiddenColumns(cols: seq<Column>, isMobile: bool): seq<Column>
  {
    Filter(cols, (c: Column) => Hidden(c, isMobile))
  }

  /** `column.minWidth ? column.minWidth : 100`, used for both width and minWidth. */
  function Width(c: Column): int
  {
    if Truthy(c.minWidth) then c.minWidth.value else DefaultWidth
  }

  /** `column.textAlign ? column.textAlign : "left"`. */
  function AlignOf(c: Column): Align
  {
    c.textAlign.GetOr(Left)
  }

  /** A column is polymorphic over a key lookup and a custom renderer; the renderer wins. */
  function Source(c: Column): CellSource
  {
    match c.cell
    case Some(id) => ByRenderer(id)
    case None => ByKey(c.key)
  }

  /** `item[key]`, with `undefined` for a missing key. */
  function Lookup(item: Row, key: string): Option<Value>
  {
    if key in item then Some(item[key]) else None
  }

  /** The content of column `c`'s cell in the row `item`. */
  function CellContent(c: Column, item: Row): (r: Content)
    ensures c.cell.Some? ==> r == Rendered(c.cell.value, item)
    ensures c.cell.None? && c.key in item ==> r == FieldValue(Some(item[c.key]))
    ensures c.cell.None? && c.key !in item ==> r == FieldValue(None)
  {
    match Source(c)
    case ByRenderer(id) => Rendered(id, item)
    case ByKey(k) => FieldValue(Lookup(item, k))
  }

  /**
   * The defaults: a missing or zero `minWidth` gives 100, any other value is
   * kept (even a negative one); a missing `textAlign` gives left.
   */
  lemma ColumnDefaults(c: Column)
    ensures c.minWidth == None ==> Width(c) == DefaultWidth
    ensures c.minWidth == Some(0) ==> Width(c) == DefaultWidth
    ensures c.minWidth.Some? && c.minWidth.value != 0 ==> Width(c) == c.minWidth.value
    ensures c.textAlign == None ==> AlignOf(c) == Left
    ensures c.textAlign.Some? ==> AlignOf(c) == c.textAlign.value
  {
  }

  /** Every column is either shown or hidden, never both, and the counts add up. */
  lemma VisibleAndHiddenPartition(cols: seq<Column>, isMobile: bool)
    ensures |VisibleColumns(cols, isMobile)| + |HiddenColumns(cols, isMobile)| == |cols|
  {
    FilterPartition(cols, (c: Column) => !Hidden(c, isMobile), (c: Column) => Hidden(c, isMobile));
  }
}
