/** The metadata interpreter of the RTL table: which columns exist, what their
    header labels and cell texts are, and the right-to-left reversal that the
    header row and every body row share. Everything here is a pure
    specification; the widget's methods are proved against it. */
module Layout {
  import opened Wrappers

  /** Metadata of one dimension; only its description is read. A `null`
      entry reads like `Dimension(None)`. */
  datatype Dimension = Dimension(description: Option<string>)

  /** Metadata of one measure (a main-structure member); only its `label`
      (here `labelText`, since `label` is a Dafny keyword) is read. */
  datatype Member = Member(labelText: Option<string>)

  /** The feeds: the dimension and measure keys in the order the host assigned
      them. `None` stands for a feed that is absent or has no `values`. */
  datatype Feeds = Feeds(dimensions: Option<seq<string>>, measures: Option<seq<string>>)

  /** The binding's metadata. Each part may be absent; an absent part is only
      an error when the table actually has to read it. */
  datatype Metadata = Metadata(
    feeds: Option<Feeds>,
    dimensions: Option<map<string, Dimension>>,
    mainStructureMembers: Option<map<string, Member>>)

  /** One cell of a result row (`labelText` is the cell's `label`). `None`
      stands for `undefined` or `null`. */
  datatype Cell = Cell(labelText: Option<string>, formatted: Option<string>, raw: Option<string>)

  /** A result row maps column keys to cells. */
  type ResultRow = map<string, Cell>

  /** A logical column: its kind decides both its header label and its cell text. */
  datatype Column = DimensionColumn(key: string) | MeasureColumn(key: string)

  function DimensionKeys(feeds: Feeds): seq<string> {
    feeds.dimensions.GetOr([])
  }

  function MeasureKeys(feeds: Feeds): seq<string> {
    feeds.measures.GetOr([])
  }

  /** `dim?.description || dimKey`: a missing or empty description falls back to the key. */
  function DimensionLabel(dimensions: map<string, Dimension>, key: string): (caption: string)
    ensures caption == key || (key in dimensions && dimensions[key].description == Some(caption))
    ensures caption == "" ==> key == ""
    ensures key in dimensions && dimensions[key].description.Some? && dimensions[key].description.value != ""
            ==> caption == dimensions[key].description.value
  {
    if key in dimensions && dimensions[key].description.Some? && dimensions[key].description.value != ""
    then dimensions[key].description.value
    else key
  }

  /** `meas?.label || measKey`: a missing or empty label falls back to the key. */
  function MeasureLabel(members: map<string, Member>, key: string): (caption: string)
    ensures caption == key || (key in members && members[key].labelText == Some(caption))
    ensures caption == "" ==> key == ""
    ensures key in members && members[key].labelText.Some? && members[key].labelText.value != ""
            ==> caption == members[key].labelText.value
  {
    if key in members && members[key].labelText.Some? && members[key].labelText.value != ""
    then members[key].labelText.value
    else key
  }

  /** `row[dimKey]?.label ?? ""`: only a missing label gives the empty text;
      an empty label is kept. */
  function DimensionCell(row: ResultRow, key: string): (text: string)
    ensures text == "" || (key in row && row[key].labelText == Some(text))
    ensures key in row && row[key].labelText.Some? ==> text == row[key].labelText.value
  {
    if key in row && row[key].labelText.Some? then row[key].labelText.value else ""
  }

  /** `row[measKey]?.formatted ?? row[measKey]?.raw ?? ""`. */
  function MeasureCell(row: ResultRow, key: string): (text: string)
    ensures text == ""
         || (key in row && (row[key].formatted == Some(text)
                            || (row[key].formatted.None? && row[key].raw == Some(text))))
    ensures key in row && row[key].formatted.Some? ==> text == row[key].formatted.value
    ensures key in row && row[key].formatted.None? && row[key].raw.Some? ==> text == row[key].raw.value
  {
    if key in row && row[key].formatted.Some? then row[key].formatted.value
    else if key in row && row[key].raw.Some? then row[key].raw.value
    else ""
  }

  function DimensionLabels(dimensions: map<string, Dimension>, keys: seq<string>): seq<string> {
    seq(|keys|, i requires 0 <= i < |keys| => DimensionLabel(dimensions, keys[i]))
  }

  function MeasureLabels(members: map<string, Member>, keys: seq<string>): seq<string> {
    seq(|keys|, i requires 0 <= i < |keys| => MeasureLabel(members, keys[i]))
  }

  function DimensionCells(row: ResultRow, keys: seq<string>): seq<string> {
    seq(|keys|, i requires 0 <= i < |keys| => DimensionCell(row, keys[i]))
  }

  function MeasureCells(row: ResultRow, keys: seq<string>): seq<string> {
    seq(|keys|, i requires 0 <= i < |keys| => MeasureCell(row, keys[i]))
  }

  /** `Array.prototype.reverse`, taking elements off the end one by one. */
  function Reversed<T>(s: seq<T>): (r: seq<T>)
    ensures |r| == |s|
  {
    if s == [] then [] else [s[|s| - 1]] + Reversed(s[..|s| - 1])
  }

  /** Building the header reads `metadata.feeds` and, for each dimension key,
      `metadata.dimensions[key]`, and for each measure key
      `metadata.mainStructureMembers[key]`: each of these throws a TypeError
      when the object it indexes is absent. */
  predicate HeaderThrows(meta: Metadata) {
    || meta.feeds.None?
    || (DimensionKeys(meta.feeds.value) != [] && meta.dimensions.None?)
    || (MeasureKeys(meta.feeds.value) != [] && meta.mainStructureMembers.None?)
  }

  /** The header row: dimension labels then measure labels, in feed order, reversed. */
  function HeaderOf(meta: Metadata): (header: seq<string>)
    requires !HeaderThrows(meta)
    ensures |header| == |DimensionKeys(meta.feeds.value)| + |MeasureKeys(meta.feeds.value)|
  {
    var feeds := meta.feeds.value;
    Reversed(DimensionLabels(meta.dimensions.GetOr(map[]), DimensionKeys(feeds))
             + MeasureLabels(meta.mainStructureMembers.GetOr(map[]), MeasureKeys(feeds)))
  }

  /** The cells of one body row: dimension cells then measure cells, in feed order, reversed. */
  function CellsOf(feeds: Feeds, row: ResultRow): (cells: seq<string>)
    ensures |cells| == |DimensionKeys(feeds)| + |MeasureKeys(feeds)|
  {
    Reversed(DimensionCells(row, DimensionKeys(feeds)) + MeasureCells(row, MeasureKeys(feeds)))
  }

  /** The logical (left-to-right feed) column order: dimensions first, then measures. */
  function Columns(feeds: Feeds): seq<Column> {
    var dims, meas := DimensionKeys(feeds), MeasureKeys(feeds);
    seq(|dims|, i requires 0 <= i < |dims| => DimensionColumn(dims[i]))
      + seq(|meas|, i requires 0 <= i < |meas| => MeasureColumn(meas[i]))
  }

  function ColumnLabel(meta: Metadata, c: Column): string {
    match c
    case DimensionColumn(k) => DimensionLabel(meta.dimensions.GetOr(map[]), k)
    case MeasureColumn(k) => MeasureLabel(meta.mainStructureMembers.GetOr(map[]), k)
  }

  function ColumnCell(row: ResultRow, c: Column): string {
    match c
    case DimensionColumn(k) => DimensionCell(row, k)
    case MeasureColumn(k) => MeasureCell(row, k)
  }

  /** Element k of the reversal is element |s|-1-k of the original. */
  lemma {:induction false} ReversedAt<T>(s: seq<T>, k: nat)
    requires k < |s|
    ensures Reversed(s)[k] == s[|s| - 1 - k]
  {
    if k > 0 {
      ReversedAt(s[..|s| - 1], k - 1);
    }
  }

  /** Reversing a concatenation swaps the parts and reverses each. */
  lemma ReversedConcat<T>(a: seq<T>, b: seq<T>)
    ensures Reversed(a + b) == Reversed(b) + Reversed(a)
  {
    var r, s := Reversed(a + b), Reversed(b) + Reversed(a);
    forall k | 0 <= k < |r|
      ensures r[k] == s[k]
    {
      ReversedAt(a + b, k);
      if k < |b| {
        ReversedAt(b, k);
      } else {
        ReversedAt(a, k - |b|);
      }
    }
  }

  /** Reversing twice gives back the original order. */
  lemma ReversedTwice<T>(s: seq<T>)
    ensures Reversed(Reversed(s)) == s
  {
    forall k | 0 <= k < |s|
      ensures Reversed(Reversed(s))[k] == s[k]
    {
      ReversedAt(Reversed(s), k);
      ReversedAt(s, |s| - 1 - k);
    }
  }

  /** In the rendered header the measures come first, in reverse feed order,
      then the dimensions, in reverse feed order. */
  lemma HeaderMeasuresFirst(meta: Metadata)
    requires !HeaderThrows(meta)
    ensures var feeds := meta.feeds.value;
      HeaderOf(meta)
        == Reversed(MeasureLabels(meta.mainStructureMembers.GetOr(map[]), MeasureKeys(feeds)))
         + Reversed(DimensionLabels(meta.dimensions.GetOr(map[]), DimensionKeys(feeds)))
  {
    var feeds := meta.feeds.value;
    ReversedConcat(DimensionLabels(meta.dimensions.GetOr(map[]), DimensionKeys(feeds)),
                   MeasureLabels(meta.mainStructureMembers.GetOr(map[]), MeasureKeys(feeds)));
  }

  /** Likewise every body row: measure cells first, then dimension cells, each group reversed. */
  lemma CellsMeasuresFirst(feeds: Feeds, row: ResultRow)
    ensures CellsOf(feeds, row)
         == Reversed(MeasureCells(row, MeasureKeys(feeds))) + Reversed(DimensionCells(row, DimensionKeys(feeds)))
  {
    ReversedConcat(DimensionCells(row, DimensionKeys(feeds)), MeasureCells(row, MeasureKeys(feeds)));
  }

  /** Before reversal, position i of the labels and of the cells belongs to column i. */
  lemma LogicalAligned(meta: Metadata, row: ResultRow, i: nat)
    requires !HeaderThrows(meta)
    requires i < |Columns(meta.feeds.value)|
    ensures var feeds := meta.feeds.value;
      var dims, meas := DimensionKeys(feeds), MeasureKeys(feeds);
      && (DimensionLabels(meta.dimensions.GetOr(map[]), dims) + MeasureLabels(meta.mainStructureMembers.GetOr(map[]), meas))[i]
           == ColumnLabel(meta, Columns(feeds)[i])
      && (DimensionCells(row, dims) + MeasureCells(row, meas))[i] == ColumnCell(row, Columns(feeds)[i])
  {
  }

  /** Header and rows stay aligned: position j of the header and position j of
      every row's cells belong to the same column, the j-th column of the
      reversed logical order, and every row is as wide as the header. */
  lemma ColumnsAligned(meta: Metadata, row: ResultRow)
    requires !HeaderThrows(meta)
    ensures |HeaderOf(meta)| == |CellsOf(meta.feeds.value, row)| == |Columns(meta.feeds.value)|
    ensures forall j :: 0 <= j < |Columns(meta.feeds.value)| ==>
      && HeaderOf(meta)[j] == ColumnLabel(meta, Reversed(Columns(meta.feeds.value))[j])
      && CellsOf(meta.feeds.value, row)[j] == ColumnCell(row, Reversed(Columns(meta.feeds.value))[j])
  {
    var feeds := meta.feeds.value;
    var dims, meas := DimensionKeys(feeds), MeasureKeys(feeds);
    var labels := DimensionLabels(meta.dimensions.GetOr(map[]), dims) + MeasureLabels(meta.mainStructureMembers.GetOr(map[]), meas);
    var texts := DimensionCells(row, dims) + MeasureCells(row, meas);
    var cols := Columns(feeds);
    assert HeaderOf(meta) == Reversed(labels);
    assert CellsOf(feeds, row) == Reversed(texts);
    forall j | 0 <= j < |cols|
      ensures Reversed(labels)[j] == ColumnLabel(meta, Reversed(cols)[j])
      ensures Reversed(texts)[j] == ColumnCell(row, Reversed(cols)[j])
    {
      ReversedAt(labels, j);
      ReversedAt(texts, j);
      ReversedAt(cols, j);
      LogicalAligned(meta, row, |cols| - 1 - j);
    }
  }

  /** A worked example: feeds week, year / sales. */
  lemma WorkedExample(meta: Metadata, row: ResultRow)
    requires meta == Metadata(
      Some(Feeds(Some(["week", "year"]), Some(["sales"]))),
      Some(map["week" := Dimension(Some("Week")), "year" := Dimension(Some("Year"))]),
      Some(map["sales" := Member(Some("Sales"))]))
    requires row == map["week" := Cell(Some("W1"), None, None),
                        "year" := Cell(Some("2021"), None, None),
                        "sales" := Cell(None, Some("$100"), None)]
    ensures !HeaderThrows(meta)
    ensures HeaderOf(meta) == ["Sales", "Year", "Week"]
    ensures CellsOf(meta.feeds.value, row) == ["$100", "2021", "W1"]
  {
    var feeds := meta.feeds.value;
    var labels := DimensionLabels(meta.dimensions.value, DimensionKeys(feeds)) + MeasureLabels(meta.mainStructureMembers.value, MeasureKeys(feeds));
    assert labels == ["Week", "Year", "Sales"];
    var texts := DimensionCells(row, DimensionKeys(feeds)) + MeasureCells(row, MeasureKeys(feeds));
    assert texts == ["W1", "2021", "$100"];
    assert labels[..2] == ["Week", "Year"];
    assert Reversed(labels) == ["Sales"] + Reversed(["Week", "Year"]);
    assert Reversed(["Week", "Year"]) == ["Year"] + Reversed(["Week"]);
    assert texts[..2] == ["W1", "2021"];
    assert Reversed(texts) == ["$100"] + Reversed(["W1", "2021"]);
    assert Reversed(["W1", "2021"]) == ["2021"] + Reversed(["W1"]);
  }
}
