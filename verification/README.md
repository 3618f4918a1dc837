# ZeTable in Dafny

A model of `ZeTable`, the generic React data-table component of ze-suite
(`src/components/ZeTable/ZeTable.tsx`). The component takes column descriptors,
rows and feature flags, keeps a small row-selection state, tracks whether the
viewport is "mobile", and renders a header, an optional summary row and a body.
The body is a loading placeholder, a "No Data Found" row, or one row per item.

The model has two parts:

- **Row selection** (`Selection`). This is a state machine over
  `SelState(selectAll, selectedRows)`. There is one transition per checkbox handler
  (`ToggleRow`, `ToggleSelectAll`) and a `Run` over event sequences.
- **Rendering** (`Columns`, `Table`). Pure functions from the props, the selection
  and the `isMobile` flag to an abstract `TableView`: header cells, summary row,
  body rows and the no-data row. These functions carry the visibility rule, the
  width and alignment defaults, the cell source, `colSpan` and the body mode.
  `Viewport` holds the `width <= 992` breakpoint. `Demo` replays the page in
  `src/App.tsx`.

Modules:

| file | module | contents |
|---|---|---|
| wrappers.dfy | `Wrappers` | `Option`, used for every optional (`?`) field |
| seqs.dfy | `Seqs` | `Filter` (JavaScript `Array.prototype.filter`), `IsSubsequence`, `NoDuplicates` and their lemmas |
| selection.dfy | `Selection` | selection state, the two handlers, event runs, invariants |
| viewport.dfy | `Viewport` | the mobile breakpoint and the resize-measurement rule |
| columns.dfy | `Columns` | `Column`, `CellSource`, `Content`, visibility, defaults |
| table.dfy | `Table` | props and their defaults, the render function, render lemmas |
| demo.dfy | `Demo` | the App.tsx scenario |

Three behaviours of the code are worth stating up front:

- **Span width.** Spanning rows count hidden columns: `colSpan = columns.length + (showCheckboxes ? 1 : 0)`
  even when `hideOnMobile` columns are dropped, so on a narrow viewport they are wider than the
  header (`Table.ColSpanCountsHiddenColumns`).
- **Position of the "No Data Found" row.** It is rendered after `<tbody>`, not inside
  it. The model keeps it in a separate `noData` field.
- **Zero `minWidth`.** `minWidth: 0` is falsy, so it falls back to 100. A negative
  width is kept as given.

## Model

| member | source | states |
|---|---|---|
| Seqs.Filter | src/components/ZeTable/ZeTable.tsx:46 | a kept element is one of the input's that passes the predicate, every passing input element is kept, and the result is never longer than the input |
| Seqs.FilterKeepsAll | src/components/ZeTable/ZeTable.tsx:46 | when every element passes, filtering returns the list unchanged |
| Seqs.FilterIsSubsequence | src/components/ZeTable/ZeTable.tsx:46 | filtering only deletes elements; it never reorders the ones it keeps |
| Seqs.FilterDropsOne | src/components/ZeTable/ZeTable.tsx:46 | if the predicate rejects exactly position k, the result is the list with that one position cut out |
| Seqs.FilterKeepsNoDuplicates | src/components/ZeTable/ZeTable.tsx:46 | filtering a duplicate-free list gives a duplicate-free list |
| Seqs.AppendFreshKeepsNoDuplicates | src/components/ZeTable/ZeTable.tsx:48 | appending an index that is not yet present keeps the list duplicate-free |
| Selection.Without | src/components/ZeTable/ZeTable.tsx:46 | no contract; `selectedRows.filter((row) => row !== i)` as an instance of `Seqs.Filter`, characterised by Selection.ToggleRow, Selection.TogglePresentKeepsOrder and Selection.TogglePresentRemovesPosition |
| Selection.AllIndices | src/components/ZeTable/ZeTable.tsx:56 | `data.map((_, index) => index)` has length n and holds k at position k |
| Selection.ToggleRow | src/components/ZeTable/ZeTable.tsx:44-50 | a row toggle flips whether i is selected, keeps every other index's membership, and leaves `selectAll` alone |
| Selection.ToggleSelectAll | src/components/ZeTable/ZeTable.tsx:52-59 | the header toggle flips `selectAll`; from true it empties the list, from false it sets the list to exactly 0..n-1 |
| Selection.ToggleAbsentAppends | src/components/ZeTable/ZeTable.tsx:48 | selecting an unselected row appends it at the end and leaves every earlier entry in place |
| Selection.TogglePresentKeepsOrder | src/components/ZeTable/ZeTable.tsx:45-46 | deselecting a row removes every occurrence of it and keeps the rest in their original order, each other index exactly as many times as before |
| Selection.WithoutCounts | src/components/ZeTable/ZeTable.tsx:46 | `filter((row) => row !== i)` zeroes the count of i and keeps the count of every other index |
| Selection.TogglePresentRemovesPosition | src/components/ZeTable/ZeTable.tsx:45-46 | in a duplicate-free list, deselecting the entry at position k gives exactly the list without position k |
| Selection.ToggleRowKeepsNoDuplicates | src/components/ZeTable/ZeTable.tsx:44-50 | a row toggle never creates a duplicate |
| Selection.ToggleRowTwice | src/components/ZeTable/ZeTable.tsx:44-50 | toggling a row twice restores the set of selected indices, and restores the exact state when the row started unselected |
| Selection.AllIndicesNoDuplicates | src/components/ZeTable/ZeTable.tsx:56 | the full index list has no duplicates |
| Selection.ToggleSelectAllNoDuplicates | src/components/ZeTable/ZeTable.tsx:52-59 | after a header toggle the list is duplicate-free, whatever state it started from |
| Selection.ToggleSelectAllTwice | src/components/ZeTable/ZeTable.tsx:52-59 | two header toggles return `selectAll` to its start value; the list ends empty from false and full from true |
| Selection.Step | src/components/ZeTable/ZeTable.tsx:44-59 | no contract; dispatches a row click to `ToggleRow` and a header click to `ToggleSelectAll`, characterised by those two members' contracts |
| Selection.Run | src/components/ZeTable/ZeTable.tsx:40-59 | no contract; applies clicks in delivery order from a given state, characterised by Selection.RunKeepsNoDuplicates and Selection.SelectAllIsNotDerived |
| Selection.RunKeepsNoDuplicates | src/components/ZeTable/ZeTable.tsx:40-59 | any sequence of clicks keeps a duplicate-free selection duplicate-free |
| Selection.ReachableNoDuplicates | src/components/ZeTable/ZeTable.tsx:40-59 | every selection reachable from the initial empty state is duplicate-free |
| Selection.SelectAllIsNotDerived | src/components/ZeTable/ZeTable.tsx:52-59 | `selectAll` does not follow the list: select-all then one deselect leaves it true with one of two rows selected, and selecting both rows by hand leaves it false |
| Viewport.IsMobile | src/components/ZeTable/ZeTable.tsx:63 | no contract; `window.innerWidth <= 992`, characterised by Viewport.BreakpointIsInclusive and Viewport.MobileIsDownwardClosed |
| Viewport.AfterMeasurements | src/components/ZeTable/ZeTable.tsx:61-71 | no contract; one `handleResize` call per measured width, characterised by Viewport.LatestMeasurementWins |
| Viewport.BreakpointIsInclusive | src/components/ZeTable/ZeTable.tsx:63 | 992 pixels counts as mobile and 993 does not |
| Viewport.MobileIsDownwardClosed | src/components/ZeTable/ZeTable.tsx:63 | a narrower viewport is mobile whenever a wider one is |
| Viewport.LatestMeasurementWins | src/components/ZeTable/ZeTable.tsx:61-71 | after the mount-time call and any resizes, `isMobile` is the breakpoint test of the last width; with no measurement it keeps its initial value |
| Columns.Hidden | src/components/ZeTable/ZeTable.tsx:96 | no contract; `isMobile && column.hideOnMobile`, the test used at lines 96 and 149, characterised by Columns.VisibleColumns and Table.HeaderMatchesEveryRow |
| Columns.VisibleColumns | src/components/ZeTable/ZeTable.tsx:95-98 | the shown columns are exactly those not hidden by `isMobile && hideOnMobile` |
| Columns.VisibleKeepsOrder | src/components/ZeTable/ZeTable.tsx:95-98 | the shown columns are a subsequence of `columns`: hiding deletes columns but never reorders the rest |
| Columns.VisibleOffMobile | src/components/ZeTable/ZeTable.tsx:95-98 | when not mobile, every column is shown, in configured order |
| Columns.Truthy | src/components/ZeTable/ZeTable.tsx:104-105 | no contract; the `column.minWidth ?` test, true for a present non-zero integer, characterised by Columns.ColumnDefaults |
| Columns.Source | src/components/ZeTable/ZeTable.tsx:159 | no contract; the `column.cell ?` choice between the custom renderer and the key, characterised by Columns.CellContent |
| Columns.Lookup | src/components/ZeTable/ZeTable.tsx:162 | no contract; `item[column.key]`, `None` for a missing key, characterised by Columns.CellContent |
| Columns.Width | src/components/ZeTable/ZeTable.tsx:104-105 | no contract; `column.minWidth ? column.minWidth : 100`, characterised by Columns.ColumnDefaults and Table.HeaderMatchesEveryRow |
| Columns.AlignOf | src/components/ZeTable/ZeTable.tsx:106 | no contract; `column.textAlign ? column.textAlign : "left"` (also line 156), characterised by Columns.ColumnDefaults and Table.HeaderMatchesEveryRow |
| Columns.CellContent | src/components/ZeTable/ZeTable.tsx:159-163 | a cell shows the custom renderer applied to the whole row when `cell` is set, otherwise `item[key]`, or undefined when the key is missing |
| Columns.ColumnDefaults | src/components/ZeTable/ZeTable.tsx:104-106 | a missing or zero `minWidth` gives 100, any other value is kept; a missing `textAlign` gives left |
| Columns.VisibleAndHiddenPartition | src/components/ZeTable/ZeTable.tsx:95-98 | each column is either shown or hidden, so the two counts add up to `columns.length` |
| Table.WithDefaults | src/components/ZeTable/ZeTable.tsx:29-39 | missing `data` becomes `[]`; `showCheckboxes`, `showTotal` and `loading` are on only when passed as true; the other props pass through unchanged |
| Table.Mode | src/components/ZeTable/ZeTable.tsx:126-136 | no contract; loading before empty before populated (the empty test also at line 171), characterised by Table.BodyFollowsMode and Table.RowCountByMode |
| Table.ColSpan | src/components/ZeTable/ZeTable.tsx:118 | no contract; `columns.length + (showCheckboxes ? 1 : 0)` (also lines 129 and 174), characterised by Table.SpanningRowsUseColumnCount and Table.ColSpanCountsHiddenColumns |
| Table.HeaderCellFor | src/components/ZeTable/ZeTable.tsx:101-110 | no contract; one `<th>` showing `header`, with width and minWidth both `Columns.Width` and alignment `Columns.AlignOf`, characterised by Table.HeaderCells, Table.WideViewportShowsEveryColumn and Columns.ColumnDefaults |
| Table.BodyCellFor | src/components/ZeTable/ZeTable.tsx:153-164 | no contract; one `<td>` with alignment `Columns.AlignOf` and content `Columns.CellContent`, characterised by Table.RowCells, Table.WideViewportShowsEveryColumn and Columns.CellContent |
| Table.HeaderCells | src/components/ZeTable/ZeTable.tsx:95-112 | the header has one cell per visible column, in order, carrying that column's label, width and alignment |
| Table.RowCells | src/components/ZeTable/ZeTable.tsx:148-166 | each body row has one cell per visible column, in order, carrying that column's alignment and content |
| Table.DataRowFor | src/components/ZeTable/ZeTable.tsx:138-167 | no contract; row i's `<tr>` with its index, the checkbox `selectedRows.includes(i)` only under `showCheckboxes`, and its cells, characterised by Table.CheckboxesShowSelection and Table.RowClickFlipsOnlyItsCheckbox |
| Table.DataRows | src/components/ZeTable/ZeTable.tsx:136-168 | no contract; one row per item with its index, checkbox state and cells, characterised by Table.BodyFollowsMode, Table.HeaderMatchesEveryRow and Table.CheckboxesShowSelection |
| Table.Render | src/components/ZeTable/ZeTable.tsx:73-187 | no contract; the whole render, characterised by the Table lemmas below |
| Table.BodyFollowsMode | src/components/ZeTable/ZeTable.tsx:126-183 | loading gives one loading row and no other; no data gives no data row and one "No Data Found" row; otherwise there is one data row per item, in input order |
| Table.RowCountByMode | src/components/ZeTable/ZeTable.tsx:126-183 | exactly one placeholder row (the loading row in the body, or the No Data row after it) when loading or empty, and exactly `data.length` body rows otherwise |
| Table.SpanningRowsUseColumnCount | src/components/ZeTable/ZeTable.tsx:115-183 | the summary row is present exactly when `showTotal` is set, and every spanning row spans `columns.length` plus the checkbox column |
| Table.ColSpanCountsHiddenColumns | src/components/ZeTable/ZeTable.tsx:118 | the span equals the rendered header width plus the number of hidden columns; on a wide viewport it equals the header width |
| Table.HeaderMatchesEveryRow | src/components/ZeTable/ZeTable.tsx:95-166 | header and every data row use the same visible columns: the k-th cells come from the same column and have the same alignment |
| Table.WideViewportShowsEveryColumn | src/components/ZeTable/ZeTable.tsx:95-151 | above 992 pixels the k-th header cell is built from `columns[k]` and every data row's cells are exactly one per column, built from `columns[k]` and that row's item, in configured order |
| Table.CheckboxesShowSelection | src/components/ZeTable/ZeTable.tsx:82-147 | the header checkbox shows `selectAll`, and row i's checkbox shows whether i is selected; without `showCheckboxes` there are none |
| Table.RowClickFlipsOnlyItsCheckbox | src/components/ZeTable/ZeTable.tsx:139-147 | clicking row i changes the rendered table in exactly one place: row i's checked state flips; header, summary, every row's cells and index, other rows and the no-data row are unchanged |
| Table.CenteringFlagsIgnored | src/components/ZeTable/ZeTable.tsx:9-10 | changing `headerCentered` or `bodyCentered` on any column does not change the render |
| Table.MinimalPropsRenderPlainTable | src/components/ZeTable/ZeTable.tsx:29-39 | passing only `columns` and `data` gives no checkboxes, no summary and no loading row, and a "No Data Found" row exactly when `data` is empty |
| Demo.AppRendersPeople | src/App.tsx:3-20 | the demo page renders header cells ID, Name and Age with width 100, Name centred and the others left, exactly three body rows holding John Doe's, Jane Smith's and Bob Johnson's id, name and age in input order, and no summary or placeholder row |
| Demo.AppSummaryRow | src/components/ZeTable/ZeTable.tsx:115-124 | with `showTotal`, `dataLength` 3, `totalLength` 10 and label "users", one summary row spanning three columns carries those values |

## Left out

- CSS class strings, the sticky-header class and the `scrollable` prop. They only affect presentation.
- The resize listener's subscription and cleanup. `useState` batching and closures are also left out. Each handler is one atomic transition, and the viewport is reduced to a sequence of measured widths.
- The text of the summary row. Whether the row is present is modelled, and so are the raw `dataLength`, `totalLength` and `label` values it shows. How JavaScript turns `undefined` and numbers into text is not modelled.
- What a custom `cell` component draws. It is an opaque `RendererId`, and its output is the symbolic `Rendered(id, row)`.
- Row values. They are limited to integers, strings and booleans; fractional numbers, NaN, objects and other JavaScript values are not modelled. A boolean cell renders empty in React, the same as `undefined`; the model keeps the two apart as `FieldValue(Some(Flag(b)))` and `FieldValue(None)`.
- The `dataLength` and `totalLength` props. They are integers here; fractional and NaN values are not modelled.
- Columns.Truthy: `minWidth` is an integer. Fractional widths and NaN are not modelled; NaN is falsy and would fall back to 100.
- Keeping selection in step with new data. The component never reconciles `selectedRows` with a changed `data`, so no bound of selected indices by `data.length` is claimed.
- The nesting of the body-row checkbox. It is an `<input>` placed directly in `<tr>`, with no cell; the model records only its checked state.
