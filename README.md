# RTL table: a verified model

This project models the table-building core of `RtlTable`, a custom widget for an
analytics dashboard host. The widget shows a data-binding result set as a
right-to-left table. The model covers four things:

- the header: one label per dimension key and then per measure key, in feed order,
  each falling back to its key;
- the body: one row per result row, with one cell per column, using the `??`
  fallbacks;
- the in-place reversal of both lists, which puts the columns in right-to-left order;
- the single-row highlight, the property merge, and the events the widget dispatches.

The shadow DOM is replaced by plain state. `headerRows` stands for the `<tr>`
children of `<thead>` and `body` for the `<tr>` children of `<tbody>`. Each body
row holds its `data-index`, its cell texts and whether it carries the
`highlighted` class.

Modules:

- `Wrappers` (`wrappers.dfy`): `Option`, which stands for JavaScript's
  `undefined`/`null` versus a present value.
- `Layout` (`layout.dfy`): the metadata and result-row data model and the pure
  specification of the header and cells (`HeaderOf`, `CellsOf`). It also defines
  the reversal and proves its properties, including that the header and every row
  stay column-aligned.
- `Widget` (`widget.dfy`): the class `RtlTable` and its methods. The render spec
  `RenderView` gives the table after a render as a function of the table before
  it. The module also has the loops that build the header and the cells, the
  in-place array reversal, and a selection scenario.

Behaviour as the code has it:

- A render without a data binding, result set or metadata returns before it
  touches the table.
- Otherwise the table is cleared and then rebuilt.
- Building the header throws a TypeError in these cases: `metadata.feeds` is
  absent, or a feed has keys but its lookup dictionary (`dimensions` or
  `mainStructureMembers`) is absent. The throw comes after the clear and before
  anything is appended. The table is then left with no header row and no body,
  and `onResultChanged` is not dispatched: the exception escapes the render.
  The model calls this outcome `Failed`.
- With no columns configured, the table gets one empty header row and zero-cell
  body rows; no placeholder row is drawn.
- Selecting an out-of-range row clears the highlight rather than keeping the
  previous one (`Widget.SelectionScenario` shows this).

## Model

| member | source | states |
|---|---|---|
| Layout.DimensionLabel | rtl-table-dev.js:76-79 | a present, non-empty description wins; otherwise (missing or empty description) the label is the key; so the label is empty only when the key is |
| Layout.MeasureLabel | rtl-table-dev.js:81-84 | a present, non-empty member label wins; otherwise (missing or empty label) the label is the key; so the label is empty only when the key is |
| Layout.DimensionCell | rtl-table-dev.js:106-108 | a dimension cell is the row's label for the key whenever one is present, even an empty one; otherwise it is empty |
| Layout.MeasureCell | rtl-table-dev.js:110-112 | a measure cell is `formatted` when present (even if empty), else `raw` when present, else empty |
| Layout.Reversed | rtl-table-dev.js:87 | reversal keeps the length |
| Layout.ReversedAt | rtl-table-dev.js:87 | position k of the reversed list holds element \|s\|-1-k |
| Layout.ReversedConcat | rtl-table-dev.js:87 | reversing dimensions-then-measures gives reversed measures followed by reversed dimensions |
| Layout.ReversedTwice | rtl-table-dev.js:114 | reversal is its own inverse, so it loses and duplicates nothing |
| Layout.HeaderOf | rtl-table-dev.js:74-92 | the header has exactly one label per dimension key and per measure key; a missing feed counts as no keys |
| Layout.CellsOf | rtl-table-dev.js:104-118 | every row has exactly one cell per dimension key and per measure key |
| Layout.HeaderMeasuresFirst | rtl-table-dev.js:74-92 | the header is the measure labels in reverse feed order followed by the dimension labels in reverse feed order |
| Layout.CellsMeasuresFirst | rtl-table-dev.js:104-118 | each row is the measure cells in reverse feed order followed by the dimension cells in reverse feed order |
| Layout.LogicalAligned | rtl-table-dev.js:74-112 | before reversal, label i and cell i both come from logical column i (dimensions then measures) |
| Layout.ColumnsAligned | rtl-table-dev.js:74-118 | the header and every row are as wide as the column list; header position j and cell position j come from the same column, the j-th of the reversed logical order |
| Layout.WorkedExample | rtl-table-dev.js:74-118 | feeds week, year / sales give the header Sales, Year, Week and the row $100, 2021, W1 |
| Widget.Merge | rtl-table-dev.js:50-52 | the merged properties have the union of the keys; every changed key takes its new value and every other existing key keeps its old value |
| Widget.ClearIdempotent | rtl-table-dev.js:132-135 | clearing the highlight leaves no row highlighted and is idempotent |
| Widget.MissingDataKeepsTable | rtl-table-dev.js:60-66 | a render returns early exactly when the data binding, the result set or the metadata is missing, and then the previous header and body are unchanged |
| Widget.RenderKeepsWellFormed | rtl-table-dev.js:59-122 | every render keeps the table invariant: at most one header row, no body without a header, rows numbered in order and as wide as the header, at most one highlight |
| Widget.RenderForgetsPrior | rtl-table-dev.js:71-72 | a render that gets past the guard does not depend on the previous table, and no highlight survives it |
| Widget.RenderIdempotent | rtl-table-dev.js:59-122 | rendering twice with the same input gives the same table as rendering once |
| Widget.RebuiltShape | rtl-table-dev.js:86-121 | a successful render has exactly one header row even with zero columns; the body has one row per result row, in result-set order; row i has index i and the cells of result row i |
| Widget.ReverseInPlace | rtl-table-dev.js:87 | the in-place array reversal leaves the array equal to the reversal of its old contents |
| Widget.HeaderCells | rtl-table-dev.js:74-92 | the push, reverse and append loops of the header produce `HeaderOf`; they throw exactly when the metadata they read is absent |
| Widget.RowCells | rtl-table-dev.js:104-118 | the push, reverse and append loops of one row produce `CellsOf` for that row |
| Widget.RtlTable.constructor | rtl-table-dev.js:44-48 | a new widget has no properties, an empty header and body, and no events |
| Widget.RtlTable.BeforeUpdate | rtl-table-dev.js:50-52 | the stored properties become the merge of the old ones with the changed ones |
| Widget.RtlTable.Render | rtl-table-dev.js:59-122 | with data missing nothing changes; otherwise the table is cleared and becomes `RenderView`, either rebuilt or left empty after a throw; the table invariant is kept |
| Widget.RtlTable.ClearHighlight | rtl-table-dev.js:132-135 | every row loses its highlight and nothing else changes |
| Widget.RtlTable.HighlightRow | rtl-table-dev.js:124-130 | afterwards row j is highlighted exactly when j is the given index; an out-of-range index leaves none highlighted; indices and cells do not change |
| Widget.RtlTable.Click | rtl-table-dev.js:98-102 | a click on row i highlights exactly row i, then logs `onSelect` and `onRowClick` |
| Widget.RtlTable.AfterUpdate | rtl-table-dev.js:54-57 | render, then log `onResultChanged` unless the render threw |
| Widget.RtlTable.TriggerAfterDataEntryProcess | rtl-table-dev.js:137-139 | logs `onAfterDataEntryProcess` |
| Widget.SelectionScenario | rtl-table-dev.js:124-135 | with three rows, selecting row 1 and then row 2 leaves only row 2 highlighted; selecting row 5 then leaves none; a later render also leaves none |

## Left out

- DOM and styling: the template, CSS, the shadow root and `customElements.define` (rtl-table-dev.js:2-46, 146). These are browser APIs. The table is plain sequences instead.
- The host's `getDataBinding("mainBinding")` call is external. It becomes the boolean parameter `hasDataBinding`.
- Asynchrony: `async`/`await` is modelled as a sequential call. Overlapping renders are not modelled.
- Event dispatch becomes an appended log of event names. Listeners and `Event` objects are not modelled.
- Click listeners are modelled only through `Click`. `Click` can only be called for a row that is currently rendered: rows removed by a rebuild are gone from the document and cannot be clicked.
- `onCustomWidgetResize` (rtl-table-dev.js:141-143) is an empty stub.
- The `changedProps` argument of `onCustomWidgetAfterUpdate` is never read, so `AfterUpdate` does not take it.
- Values are modelled as strings or absent:
  - A `raw` number is modelled as its already-converted text.
  - Falsy non-string descriptions or labels (such as `0`) are not modelled. Only the empty string falls back under `||`.
  - Non-string cell values written to `textContent` are not modelled.
- A result row that is itself `null` is not modelled. Rows are maps from keys to cells, so the row loop cannot throw. In the code, when a feed has keys, such a row would throw partway through the body; with no keys it is never read and renders as an empty row.
- `HighlightRow` takes an integer index. String or fractional indices, which JavaScript would also accept on a NodeList, are not modelled.
- `push` onto `headers` and `rowCells` is modelled as a write at the next position of an array allocated with the final length, which is known from the feeds.
- Property values are never read by the component. They are modelled as a small `PropValue` type, and the insertion order of object keys is not modelled.
