/** The RTL table widget: its state (properties, the rendered header and body,
    the events it has dispatched) and the lifecycle, render and highlight
    operations that change it. The shadow DOM is replaced by plain sequences:
    `headerRows` are the `<tr>` children of `<thead>`, `body` the `<tr>`
    children of `<tbody>`. */
module Widget {
  import opened Wrappers
  import opened Layout

  /** A widget property value; the table stores properties but never reads them. */
  datatype PropValue = PropText(text: string) | PropNumber(number: int) | PropFlag(flag: bool) | PropNull

  /** `this.mainBinding`: the result set and the metadata, each possibly absent. */
  datatype Binding = Binding(data: Option<seq<ResultRow>>, metadata: Option<Metadata>)

  /** A rendered body row: its `data-index`, its cell texts, and whether it
      carries the `highlighted` class. */
  datatype Row = Row(index: nat, cells: seq<string>, highlighted: bool)

  /** The rendered table: header rows and body rows. */
  datatype View = View(headerRows: seq<seq<string>>, body: seq<Row>)

  /** How a render ends: it returned early, it rebuilt the table, or it threw
      (its promise rejects) after clearing the table. */
  datatype Outcome = Skipped | Rebuilt | Failed

  const OnResultChanged := "onResultChanged"
  const OnSelect := "onSelect"
  const OnRowClick := "onRowClick"
  const OnAfterDataEntryProcess := "onAfterDataEntryProcess"

  /** `{ ...current, ...changed }`: a right-biased merge. */
  function Merge<V>(current: map<string, V>, changed: map<string, V>): (merged: map<string, V>)
    ensures merged.Keys == current.Keys + changed.Keys
    ensures forall k :: k in changed ==> merged[k] == changed[k]
    ensures forall k :: k in current && k !in changed ==> merged[k] == current[k]
  {
    current + changed
  }

  /** The body rows for a result set, in result-set order, none highlighted. */
  function BodyOf(feeds: Feeds, rows: seq<ResultRow>): seq<Row> {
    seq(|rows|, i requires 0 <= i < |rows| => Row(i, CellsOf(feeds, rows[i]), false))
  }

  /** The guard of the render: a data binding, a result set and metadata are all present. */
  predicate HasData(hasDataBinding: bool, binding: Option<Binding>) {
    hasDataBinding && binding.Some? && binding.value.data.Some? && binding.value.metadata.Some?
  }

  function RenderOutcome(hasDataBinding: bool, binding: Option<Binding>): Outcome {
    if !HasData(hasDataBinding, binding) then Skipped
    else if HeaderThrows(binding.value.metadata.value) then Failed
    else Rebuilt
  }

  /** The table after a render, given the table before it. */
  function RenderView(prior: View, hasDataBinding: bool, binding: Option<Binding>): View {
    match RenderOutcome(hasDataBinding, binding)
    case Skipped => prior
    case Failed => View([], [])
    case Rebuilt =>
      var meta := binding.value.metadata.value;
      View([HeaderOf(meta)], BodyOf(meta.feeds.value, binding.value.data.value))
  }

  predicate AtMostOneHighlighted(rows: seq<Row>) {
    forall i, j :: 0 <= i < j < |rows| ==> !(rows[i].highlighted && rows[j].highlighted)
  }

  /** The invariant of the rendered table: at most one header row, no body
      without a header, rows numbered in order and as wide as the header, and
      at most one row highlighted. */
  predicate WellFormed(v: View) {
    && |v.headerRows| <= 1
    && (v.headerRows == [] ==> v.body == [])
    && (forall i :: 0 <= i < |v.body| ==> v.body[i].index == i && |v.body[i].cells| == |v.headerRows[0]|)
    && AtMostOneHighlighted(v.body)
  }

  /** The rows with the highlight removed. */
  function Plain(rows: seq<Row>): seq<Row> {
    seq(|rows|, i requires 0 <= i < |rows| => rows[i].(highlighted := false))
  }

  function Highlights(rows: seq<Row>): seq<bool> {
    seq(|rows|, i requires 0 <= i < |rows| => rows[i].highlighted)
  }

  /** Clearing the highlight twice is the same as clearing it once. */
  lemma ClearIdempotent(rows: seq<Row>)
    ensures Plain(Plain(rows)) == Plain(rows)
    ensures forall i :: 0 <= i < |rows| ==> !Plain(rows)[i].highlighted
  {
  }

  /** A render returns early exactly when the data binding, the result set or
      the metadata is missing, and then leaves the table as it was. */
  lemma MissingDataKeepsTable(prior: View, hasDataBinding: bool, binding: Option<Binding>)
    ensures RenderOutcome(hasDataBinding, binding) == Skipped <==> !HasData(hasDataBinding, binding)
    ensures !HasData(hasDataBinding, binding) ==> RenderView(prior, hasDataBinding, binding) == prior
  {
  }

  /** Rendering keeps the table well formed. */
  lemma RenderKeepsWellFormed(prior: View, hasDataBinding: bool, binding: Option<Binding>)
    requires WellFormed(prior)
    ensures WellFormed(RenderView(prior, hasDataBinding, binding))
  {
  }

  /** A render that gets past the guard does not depend on the table before
      it: it rebuilds from scratch, so no highlight survives it. */
  lemma RenderForgetsPrior(v1: View, v2: View, hasDataBinding: bool, binding: Option<Binding>)
    requires RenderOutcome(hasDataBinding, binding) != Skipped
    ensures RenderView(v1, hasDataBinding, binding) == RenderView(v2, hasDataBinding, binding)
    ensures forall i :: 0 <= i < |RenderView(v1, hasDataBinding, binding).body| ==>
      !RenderView(v1, hasDataBinding, binding).body[i].highlighted
  {
  }

  /** Rendering twice with the same input gives the same table as rendering once. */
  lemma RenderIdempotent(prior: View, hasDataBinding: bool, binding: Option<Binding>)
    ensures var once := RenderView(prior, hasDataBinding, binding);
      RenderView(once, hasDataBinding, binding) == once
  {
  }

  /** A successful render has exactly one header row (even with no columns),
      one body row per result row in result-set order, and each row is the
      row's cells laid out like the header. */
  lemma RebuiltShape(prior: View, hasDataBinding: bool, binding: Option<Binding>)
    requires RenderOutcome(hasDataBinding, binding) == Rebuilt
    ensures var v, rows, meta := RenderView(prior, hasDataBinding, binding), binding.value.data.value, binding.value.metadata.value;
      && |v.headerRows| == 1
      && |v.body| == |rows|
      && forall i :: 0 <= i < |rows| ==>
           v.body[i].index == i && v.body[i].cells == CellsOf(meta.feeds.value, rows[i])
           && |v.body[i].cells| == |v.headerRows[0]|
  {
  }

  /** Element-wise reversal of an array, as `Array.prototype.reverse` does it. */
  method ReverseInPlace<T>(a: array<T>)
    modifies a
    ensures a[..] == Reversed(old(a[..]))
  {
    var lo, hi := 0, a.Length - 1;
    while lo < hi
      invariant 0 <= lo <= a.Length && hi == a.Length - 1 - lo
      invariant forall k :: 0 <= k < lo || hi < k < a.Length ==> a[k] == old(a[a.Length - 1 - k])
      invariant forall k :: lo <= k <= hi ==> a[k] == old(a[k])
    {
      a[lo], a[hi] := a[hi], a[lo];
      lo, hi := lo + 1, hi - 1;
    }
    forall k | 0 <= k < a.Length
      ensures a[k] == Reversed(old(a[..]))[k]
    {
      ReversedAt(old(a[..]), k);
    }
  }

  /** The header loops of `renderTable`: push each dimension label, then each
      measure label, reverse, and append the labels to the header row. `None`
      when reading the metadata throws. */
  method HeaderCells(meta: Metadata) returns (header: Option<seq<string>>)
    ensures header.None? <==> HeaderThrows(meta)
    ensures header.Some? ==> header.value == HeaderOf(meta)
  {
    if meta.feeds.None? {
      return None;
    }
    var dimKeys, measKeys := DimensionKeys(meta.feeds.value), MeasureKeys(meta.feeds.value);
    var headers := new string[|dimKeys| + |measKeys|];
    for i := 0 to |dimKeys|
      invariant i > 0 ==> meta.dimensions.Some?
      invariant forall j :: 0 <= j < i ==> headers[j] == DimensionLabel(meta.dimensions.GetOr(map[]), dimKeys[j])
    {
      if meta.dimensions.None? {
        return None;
      }
      headers[i] := DimensionLabel(meta.dimensions.value, dimKeys[i]);
    }
    for i := 0 to |measKeys|
      invariant i > 0 ==> meta.mainStructureMembers.Some?
      invariant forall j :: 0 <= j < |dimKeys| ==> headers[j] == DimensionLabel(meta.dimensions.GetOr(map[]), dimKeys[j])
      invariant forall j :: 0 <= j < i ==> headers[|dimKeys| + j] == MeasureLabel(meta.mainStructureMembers.GetOr(map[]), measKeys[j])
    {
      if meta.mainStructureMembers.None? {
        return None;
      }
      headers[|dimKeys| + i] := MeasureLabel(meta.mainStructureMembers.value, measKeys[i]);
    }
    assert headers[..] == DimensionLabels(meta.dimensions.GetOr(map[]), dimKeys)
                          + MeasureLabels(meta.mainStructureMembers.GetOr(map[]), measKeys);
    ReverseInPlace(headers);
    var headerRow: seq<string> := [];
    for j := 0 to headers.Length
      invariant headerRow == headers[..j]
    {
      headerRow := headerRow + [headers[j]];
    }
    assert headers[..headers.Length] == headers[..];
    return Some(headerRow);
  }

  /** The cell loops of `renderTable` for one result row: push each dimension
      cell, then each measure cell, reverse, and append them to the row. */
  method RowCells(feeds: Feeds, row: ResultRow) returns (cells: seq<string>)
    ensures cells == CellsOf(feeds, row)
  {
    var dimKeys, measKeys := DimensionKeys(feeds), MeasureKeys(feeds);
    var rowCells := new string[|dimKeys| + |measKeys|];
    for i := 0 to |dimKeys|
      invariant forall j :: 0 <= j < i ==> rowCells[j] == DimensionCell(row, dimKeys[j])
    {
      rowCells[i] := DimensionCell(row, dimKeys[i]);
    }
    for i := 0 to |measKeys|
      invariant forall j :: 0 <= j < |dimKeys| ==> rowCells[j] == DimensionCell(row, dimKeys[j])
      invariant forall j :: 0 <= j < i ==> rowCells[|dimKeys| + j] == MeasureCell(row, measKeys[j])
    {
      rowCells[|dimKeys| + i] := MeasureCell(row, measKeys[i]);
    }
    assert rowCells[..] == DimensionCells(row, dimKeys) + MeasureCells(row, measKeys);
    ReverseInPlace(rowCells);
    cells := [];
    for j := 0 to rowCells.Length
      invariant cells == rowCells[..j]
    {
      cells := cells + [rowCells[j]];
    }
    assert rowCells[..rowCells.Length] == rowCells[..];
  }

  class RtlTable {
    var props: map<string, PropValue>
    var headerRows: seq<seq<string>>
    var body: seq<Row>
    /** The names of the events dispatched so far, oldest first. */
    var events: seq<string>

    function Current(): View
      reads this
    {
      View(headerRows, body)
    }

    predicate Valid()
      reads this
    {
      WellFormed(Current())
    }

    /** A fresh widget: no properties and the template's empty table. */
    constructor ()
      ensures Valid()
      ensures props == map[] && headerRows == [] && body == [] && events == []
    {
      props, headerRows, body, events := map[], [], [], [];
    }

    /** `onCustomWidgetBeforeUpdate`: merge the changed properties into the stored ones. */
    method BeforeUpdate(changedProps: map<string, PropValue>)
      requires Valid()
      modifies this`props
      ensures Valid()
      ensures props == Merge(old(props), changedProps)
    {
      props := Merge(props, changedProps);
    }

    /** `renderTable`: return early without touching the table when data is
        missing; otherwise clear the table and rebuild its header and body. */
    method Render(hasDataBinding: bool, binding: Option<Binding>) returns (outcome: Outcome)
      requires Valid()
      modifies this`headerRows, this`body
      ensures Valid()
      ensures outcome == RenderOutcome(hasDataBinding, binding)
      ensures Current() == RenderView(old(Current()), hasDataBinding, binding)
    {
      RenderKeepsWellFormed(Current(), hasDataBinding, binding);
      if !hasDataBinding {
        return Skipped;
      }
      var resultSet := if binding.Some? then binding.value.data else None;
      var metadata := if binding.Some? then binding.value.metadata else None;
      if resultSet.None? || metadata.None? {
        return Skipped;
      }
      var rows, meta := resultSet.value, metadata.value;
      headerRows, body := [], [];
      var header := HeaderCells(meta);
      if header.None? {
        return Failed;
      }
      headerRows := headerRows + [header.value];
      var feeds := meta.feeds.value;
      for r := 0 to |rows|
        invariant headerRows == [HeaderOf(meta)]
        invariant body == BodyOf(feeds, rows[..r])
      {
        var cells := RowCells(feeds, rows[r]);
        body := body + [Row(r, cells, false)];
      }
      assert rows[..|rows|] == rows;
      return Rebuilt;
    }

    /** `clearHighlight`: remove the highlight from every row. */
    method ClearHighlight()
      requires Valid()
      modifies this`body
      ensures Valid()
      ensures body == Plain(old(body))
    {
      var i := 0;
      while i < |body|
        invariant 0 <= i <= |body| == |old(body)|
        invariant forall j :: 0 <= j < i ==> body[j] == old(body)[j].(highlighted := false)
        invariant forall j :: i <= j < |body| ==> body[j] == old(body)[j]
      {
        body := body[i := body[i].(highlighted := false)];
        i := i + 1;
      }
    }

    /** `highlightRow`: clear every highlight, then highlight row `index` if
        there is such a row. An out-of-range index leaves no row highlighted. */
    method HighlightRow(index: int)
      requires Valid()
      modifies this`body
      ensures Valid()
      ensures Plain(body) == Plain(old(body))
      ensures forall j :: 0 <= j < |body| ==> (body[j].highlighted <==> j == index)
    {
      ClearHighlight();
      if 0 <= index < |body| {
        body := body[index := body[index].(highlighted := true)];
      }
    }

    /** The click listener of row `index`: highlight it, then dispatch `onSelect` and `onRowClick`. */
    method Click(index: nat)
      requires Valid() && index < |body|
      modifies this`body, this`events
      ensures Valid()
      ensures Plain(body) == Plain(old(body))
      ensures forall j :: 0 <= j < |body| ==> (body[j].highlighted <==> j == index)
      ensures events == old(events) + [OnSelect, OnRowClick]
    {
      HighlightRow(body[index].index);
      events := events + [OnSelect, OnRowClick];
    }

    /** `onCustomWidgetAfterUpdate`: render, then dispatch `onResultChanged`
        unless the render threw. */
    method AfterUpdate(hasDataBinding: bool, binding: Option<Binding>) returns (outcome: Outcome)
      requires Valid()
      modifies this`headerRows, this`body, this`events
      ensures Valid()
      ensures outcome == RenderOutcome(hasDataBinding, binding)
      ensures Current() == RenderView(old(Current()), hasDataBinding, binding)
      ensures events == old(events) + (if outcome == Failed then [] else [OnResultChanged])
    {
      outcome := Render(hasDataBinding, binding);
      if outcome != Failed {
        events := events + [OnResultChanged];
      }
    }

    /** `triggerAfterDataEntryProcess`: dispatch `onAfterDataEntryProcess`. */
    method TriggerAfterDataEntryProcess()
      requires Valid()
      modifies this`events
      ensures Valid()
      ensures events == old(events) + [OnAfterDataEntryProcess]
    {
      events := events + [OnAfterDataEntryProcess];
    }
  }

  /** Three rendered rows: selecting row 1 then row 2 leaves only row 2
      highlighted; selecting an out-of-range row then leaves none highlighted;
      a further render forgets the highlight as well. */
  method SelectionScenario() returns (afterSecond: seq<bool>, afterOutOfRange: seq<bool>, afterRerender: seq<bool>)
    ensures afterSecond == [false, false, true]
    ensures afterOutOfRange == [false, false, false]
    ensures afterRerender == [false, false, false]
  {
    var table := new RtlTable();
    var meta := Metadata(Some(Feeds(Some(["week"]), None)), Some(map[]), None);
    var rows: seq<ResultRow> := [map[], map[], map[]];
    var binding := Some(Binding(Some(rows), Some(meta)));
    var outcome := table.Render(true, binding);
    table.HighlightRow(1);
    table.HighlightRow(2);
    afterSecond := Highlights(table.body);
    table.HighlightRow(5);
    afterOutOfRange := Highlights(table.body);
    table.HighlightRow(0);
    outcome := table.Render(true, binding);
    afterRerender := Highlights(table.body);
  }
}
