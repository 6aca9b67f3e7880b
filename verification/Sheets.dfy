/**
 Worksheets as rows of cells: the reader that rebuilds rows from cell references and the writer
 (records, readXLSX and WriteXLSXWithOptions in internal/dataexchange/files.go).
 */
module Sheets {

  import opened Counting
  import opened Text
  import opened CellRef
  import opened Tables
  import opened Wrappers

  const MAX_CELLS := 2_000_000

  /** `Shared` carries the parsed index; a text that is no number stands as -1. */
  datatype Content = Inline(text: string) | Shared(index: int) | Plain(v: string)
  datatype Cell = Cell(ref: string, content: Content)

  ghost function ValueOf(shared: seq<string>, c: Cell): Result<string> {
    match c.content
    case Inline(text) => Ok(text)
    case Plain(v) => Ok(v)
    case Shared(i) => if 0 <= i < |shared| then Ok(shared[i]) else Err
  }

  ghost predicate CellOk(u: Unicode, shared: seq<string>, c: Cell) {
    0 <= ColumnOf(u, c.ref) < MAX_CELLS && ValueOf(shared, c).Ok?
  }

  ghost predicate CellsOk(u: Unicode, shared: seq<string>, cells: seq<Cell>) {
    forall i :: 0 <= i < |cells| ==> CellOk(u, shared, cells[i])
  }

  // ----- what a list of cells means

  /** The width the cells need: one more than the last column in use. */
  ghost function Extent(u: Unicode, cells: seq<Cell>): (w: nat)
    ensures forall i :: 0 <= i < |cells| ==> ColumnOf(u, cells[i].ref) < w
    ensures w > 0 ==> exists i :: 0 <= i < |cells| && ColumnOf(u, cells[i].ref) == w - 1
  {
    if cells == [] then 0
    else
      var n := |cells| - 1;
      var before, column := Extent(u, cells[..n]), ColumnOf(u, cells[n].ref);
      assert forall i :: 0 <= i < n ==> cells[..n][i] == cells[i];
      if column >= before then column + 1 else before
  }

  /** The text at a column: of the last cell that names it, empty if none does. */
  ghost function At(u: Unicode, shared: seq<string>, cells: seq<Cell>, column: int): string {
    if cells == [] then ""
    else
      var n := |cells| - 1;
      if ColumnOf(u, cells[n].ref) == column && ValueOf(shared, cells[n]).Ok? then ValueOf(shared, cells[n]).value
      else At(u, shared, cells[..n], column)
  }

  ghost predicate Rebuilt(u: Unicode, shared: seq<string>, cells: seq<Cell>, values: seq<string>) {
    && |values| == Extent(u, cells)
    && forall k :: 0 <= k < |values| ==> values[k] == At(u, shared, cells, k)
  }

  lemma {:induction false} BeyondExtentIsEmpty(u: Unicode, shared: seq<string>, cells: seq<Cell>, column: int)
    requires column >= Extent(u, cells)
    ensures At(u, shared, cells, column) == ""
  {
    hide ColumnOf, ValueOf;
    if cells != [] {
      BeyondExtentIsEmpty(u, shared, cells[..|cells| - 1], column);
    }
  }

  /** One row of `records`: cells are placed by reference, gaps are filled with empty text. */
  method RebuildRow(u: Unicode, shared: seq<string>, cells: seq<Cell>) returns (r: Result<seq<string>>)
    ensures r.Ok? <==> CellsOk(u, shared, cells)
    ensures r.Ok? ==> Rebuilt(u, shared, cells, r.value)
  {
    hide ColumnOf;
    var values: seq<string> := [];
    for i := 0 to |cells|
      invariant CellsOk(u, shared, cells[..i]) && Rebuilt(u, shared, cells[..i], values)
    {
      var index := ColumnIndex(u, cells[i].ref);
      if index < 0 || index >= MAX_CELLS {
        assert !CellOk(u, shared, cells[i]);
        return Err;
      }
      ghost var before := values;
      while |values| <= index
        invariant |before| <= |values| && values[..|before|] == before
        invariant |values| <= |before| || |values| <= index + 1
        invariant forall k :: |before| <= k < |values| ==> values[k] == ""
      {
        values := values + [""];
      }
      var value;
      match cells[i].content {
        case Inline(text) => value := text;
        case Plain(v) => value := v;
        case Shared(k) =>
          if k < 0 || k >= |shared| {
            assert !CellOk(u, shared, cells[i]);
            return Err;
          }
          value := shared[k];
      }
      values := values[index := value];
      OneMoreCell(u, shared, cells, i, before, values);
    }
    assert cells[..|cells|] == cells;
    return Ok(values);
  }

  lemma OneMoreCell(u: Unicode, shared: seq<string>, cells: seq<Cell>, i: nat, before: seq<string>, after: seq<string>)
    requires i < |cells| && Rebuilt(u, shared, cells[..i], before) && CellOk(u, shared, cells[i])
    requires var index := ColumnOf(u, cells[i].ref);
             && |after| == (if index < |before| then |before| else index + 1)
             && (forall k :: 0 <= k < |after| ==>
                   after[k] == if k == index then ValueOf(shared, cells[i]).value
                               else if k < |before| then before[k] else "")
    ensures Rebuilt(u, shared, cells[..i + 1], after)
  {
    hide ColumnOf, ValueOf;
    var front := cells[..i + 1];
    assert front[..i] == cells[..i] && front[i] == cells[i];
    forall k | 0 <= k < |after| ensures after[k] == At(u, shared, front, k) {
      if k >= |before| {
        BeyondExtentIsEmpty(u, shared, cells[..i], k);
      }
    }
  }

  // ----- the order of the cells does not matter

  ghost predicate DistinctColumns(u: Unicode, cells: seq<Cell>) {
    forall i, j :: 0 <= i < j < |cells| ==> ColumnOf(u, cells[i].ref) != ColumnOf(u, cells[j].ref)
  }

  lemma {:induction false} AtIsTheCell(u: Unicode, shared: seq<string>, cells: seq<Cell>, i: nat)
    requires i < |cells| && DistinctColumns(u, cells) && ValueOf(shared, cells[i]).Ok?
    ensures At(u, shared, cells, ColumnOf(u, cells[i].ref)) == ValueOf(shared, cells[i]).value
    decreases |cells|
  {
    hide ColumnOf, ValueOf;
    var n := |cells| - 1;
    if i < n {
      AtIsTheCell(u, shared, cells[..n], i);
    }
  }

  lemma {:induction false} AtWithoutCell(u: Unicode, shared: seq<string>, cells: seq<Cell>, column: int)
    requires forall i :: 0 <= i < |cells| ==> ColumnOf(u, cells[i].ref) != column
    ensures At(u, shared, cells, column) == ""
    decreases |cells|
  {
    hide ColumnOf, ValueOf;
    if cells != [] {
      AtWithoutCell(u, shared, cells[..|cells| - 1], column);
    }
  }

  lemma SameCells(x: seq<Cell>, y: seq<Cell>, i: nat) returns (j: nat)
    requires multiset(x) == multiset(y) && i < |x|
    ensures j < |y| && y[j] == x[i]
  {
    assert x[i] in multiset(y);
    j :| 0 <= j < |y| && y[j] == x[i];
  }

  lemma {:induction false} CountedOnce(u: Unicode, x: seq<Cell>, c: Cell)
    requires DistinctColumns(u, x)
    ensures multiset(x)[c] <= 1
    ensures c !in x ==> multiset(x)[c] == 0
  {
    hide ColumnOf;
    if x != [] {
      var n := |x| - 1;
      CountedOnce(u, x[..n], c);
      assert x == x[..n] + [x[n]];
      assert x[n] !in x[..n];
    }
  }

  lemma DistinctCarriesOver(u: Unicode, x: seq<Cell>, y: seq<Cell>)
    requires multiset(x) == multiset(y) && DistinctColumns(u, x)
    ensures DistinctColumns(u, y)
  {
    hide ColumnOf;
    forall i, j | 0 <= i < j < |y| ensures ColumnOf(u, y[i].ref) != ColumnOf(u, y[j].ref) {
      var k := SameCells(y, x, i);
      var m := SameCells(y, x, j);
      if k == m {
        TwiceCounted(y, i, j);
        CountedOnce(u, x, y[i]);
      }
    }
  }

  lemma ExtentDepends(u: Unicode, x: seq<Cell>, y: seq<Cell>)
    requires multiset(x) == multiset(y)
    ensures Extent(u, x) <= Extent(u, y)
  {
    hide ColumnOf, Extent;
    if Extent(u, x) > 0 {
      var i :| 0 <= i < |x| && ColumnOf(u, x[i].ref) == Extent(u, x) - 1;
      var j := SameCells(x, y, i);
    }
  }

  /** The cells of a row may come in any order. */
  lemma CellOrderDoesNotMatter(u: Unicode, shared: seq<string>, x: seq<Cell>, y: seq<Cell>, values: seq<string>)
    requires multiset(x) == multiset(y) && DistinctColumns(u, x) && CellsOk(u, shared, x)
    requires Rebuilt(u, shared, x, values)
    ensures CellsOk(u, shared, y) && Rebuilt(u, shared, y, values)
  {
    hide ColumnOf, ValueOf, At, Extent;
    DistinctCarriesOver(u, x, y);
    forall j | 0 <= j < |y| ensures CellOk(u, shared, y[j]) {
      var i := SameCells(y, x, j);
    }
    ExtentDepends(u, x, y);
    ExtentDepends(u, y, x);
    forall k | 0 <= k < |values| ensures At(u, shared, x, k) == At(u, shared, y, k) {
      if i :| 0 <= i < |x| && ColumnOf(u, x[i].ref) == k {
        var j := SameCells(x, y, i);
        AtIsTheCell(u, shared, x, i);
        AtIsTheCell(u, shared, y, j);
      } else {
        AtWithoutCell(u, shared, x, k);
        forall j | 0 <= j < |y| ensures ColumnOf(u, y[j].ref) != k {
          var i := SameCells(y, x, j);
        }
        AtWithoutCell(u, shared, y, k);
      }
    }
  }

  // ----- the sheet

  ghost predicate SheetRebuilt(u: Unicode, shared: seq<string>, rows: seq<seq<Cell>>, records: seq<seq<string>>) {
    |records| == |rows| && forall i :: 0 <= i < |rows| ==> Rebuilt(u, shared, rows[i], records[i])
  }

  ghost predicate SheetOk(u: Unicode, shared: seq<string>, rows: seq<seq<Cell>>) {
    forall i :: 0 <= i < |rows| ==> CellsOk(u, shared, rows[i])
  }

  method Records(u: Unicode, shared: seq<string>, rows: seq<seq<Cell>>) returns (r: Result<seq<seq<string>>>)
    ensures r.Ok? ==> SheetOk(u, shared, rows) && SheetRebuilt(u, shared, rows, r.value)
                      && Width(r.value) * |rows| <= MAX_CELLS
    ensures r.Err? ==> !SheetOk(u, shared, rows)
                           || exists records ::
                                SheetRebuilt(u, shared, rows, records) && Width(records) * |rows| > MAX_CELLS
  {
    hide CellsOk, Rebuilt, Width;
    var records: seq<seq<string>> := [];
    for i := 0 to |rows|
      invariant SheetOk(u, shared, rows[..i]) && SheetRebuilt(u, shared, rows[..i], records)
    {
      var row := RebuildRow(u, shared, rows[i]);
      if row.Err? {
        return Err;
      }
      records := records + [row.value];
    }
    assert rows[..|rows|] == rows;
    if Width(records) * |records| > MAX_CELLS {
      return Err;
    }
    return Ok(records);
  }

  /** readXLSX. */
  method ReadSheet(u: Unicode, shared: seq<string>, rows: seq<seq<Cell>>) returns (r: Result<Table>)
    requires Faithful(u)
    ensures r.Ok? ==> exists records :: Reads(u, shared, rows, records) && Holds(u, r.value, records[0], records[1..])
    ensures r.Err? ==> forall records :: Reads(u, shared, rows, records) ==> !Tabular(u, records)
  {
    hide SheetRebuilt, SheetOk, Width, HeadersOk, Fits, Holds, Built;
    var read := Records(u, shared, rows);
    if read.Err? {
      OnlyRecords(u, shared, rows);
      return Err;
    }
    OnlyRecords(u, shared, rows);
    var records := read.value;
    SizeOf(u, shared, rows, records);
    if |records| == 0 || Width(records) == 0 {
      return Err;
    }
    r := NewTable(u, records[0], records[1..]);
    assert Reads(u, shared, rows, records);
  }

  /** The rows are these records, within the size limit. */
  ghost predicate Reads(u: Unicode, shared: seq<string>, rows: seq<seq<Cell>>, records: seq<seq<string>>) {
    && SheetOk(u, shared, rows) && SheetRebuilt(u, shared, rows, records) && Width(records) * |rows| <= MAX_CELLS
    && |records| > 0
  }

  ghost predicate Tabular(u: Unicode, records: seq<seq<string>>) {
    && |records| > 0 && Width(records) > 0 && |records[0]| > 0
    && HeadersOk(u, records[0]) && Fits(records[0], records[1..])
  }

  lemma SizeOf(u: Unicode, shared: seq<string>, rows: seq<seq<Cell>>, records: seq<seq<string>>)
    requires SheetRebuilt(u, shared, rows, records)
    ensures |records| == |rows|
  {
  }

  /** Cells determine the records. */
  lemma OnlyRecords(u: Unicode, shared: seq<string>, rows: seq<seq<Cell>>)
    ensures forall x, y :: SheetRebuilt(u, shared, rows, x) && SheetRebuilt(u, shared, rows, y) ==> x == y
  {
    forall x, y | SheetRebuilt(u, shared, rows, x) && SheetRebuilt(u, shared, rows, y) ensures x == y {
      forall i | 0 <= i < |rows| ensures x[i] == y[i] {
        assert Rebuilt(u, shared, rows[i], x[i]) && Rebuilt(u, shared, rows[i], y[i]);
      }
    }
  }

  // ----- writing

  ghost function Line(t: Table, i: nat): seq<string>
    requires i <= |t.rows|
  {
    if i == 0 then t.headers else t.rows[i - 1].values
  }

  /** `decimal` is the text of a parsed decimal of at most eighteen places, if the value is one. */
  datatype Options = Options(sheetName: string, numeric: map<int, bool>, decimal: string -> Option<string>)

  ghost predicate Numeric(o: Options, column: int, value: string) {
    column in o.numeric && o.numeric[column] && value != ""
  }

  /** What a cell of the body shows. */
  ghost function Shown(o: Options, column: int, value: string): string {
    if Numeric(o, column, value) && o.decimal(value).Some? then o.decimal(value).value else value
  }

  ghost function ShownRow(o: Options, values: seq<string>): (r: seq<string>)
    ensures |r| == |values| && forall j :: 0 <= j < |r| ==> r[j] == Shown(o, j, values[j])
  {
    seq(|values|, j requires 0 <= j < |values| => Shown(o, j, values[j]))
  }

  /** The table as it is shown: numbers in their own spelling. */
  ghost function ShownTable(o: Options, t: Table): (r: Table)
    ensures r.headers == t.headers && |r.rows| == |t.rows|
    ensures forall i :: 0 <= i < |r.rows| ==> r.rows[i] == t.rows[i].(values := ShownRow(o, t.rows[i].values))
  {
    t.(rows := seq(|t.rows|, i requires 0 <= i < |t.rows| => t.rows[i].(values := ShownRow(o, t.rows[i].values))))
  }

  /** Headers are never numeric. */
  function OptionsOf(o: Options, i: nat): Options {
    if i == 0 then o.(numeric := map[]) else o
  }

  ghost predicate WrittenRow(o: Options, cells: seq<Cell>, values: seq<string>, row: nat) {
    && |cells| == |values|
    && forall j :: 0 <= j < |values| ==>
         && cells[j].ref == Letters(j) + Itoa(row)
         && cells[j].content == if Numeric(o, j, values[j]) then Plain(Shown(o, j, values[j])) else Inline(values[j])
  }

  ghost predicate WrittenSheet(o: Options, rows: seq<seq<Cell>>, t: Table) {
    && |rows| == |t.rows| + 1
    && forall i :: 0 <= i < |rows| ==> WrittenRow(OptionsOf(o, i), rows[i], Line(t, i), i + 1)
  }

  ghost predicate RowWritable(o: Options, values: seq<string>) {
    forall j :: 0 <= j < |values| && Numeric(o, j, values[j]) ==> o.decimal(values[j]).Some?
  }

  ghost predicate NameOk(u: Unicode, name: string) {
    var trimmed := Trim(u, name);
    |trimmed| <= 31 && forall c :: c in trimmed ==> c !in "[]:*?/\\"
  }

  ghost predicate Writable(u: Unicode, t: Table, o: Options) {
    && ValidTable(u, t) && NameOk(u, o.sheetName) && (forall c :: c in o.numeric ==> 0 <= c < |t.headers|)
    && forall i :: 0 <= i < |t.rows| ==> RowWritable(o, t.rows[i].values)
  }

  method WriteRow(o: Options, values: seq<string>, row: nat) returns (r: Result<seq<Cell>>)
    ensures r.Ok? <==> RowWritable(o, values)
    ensures r.Ok? ==> WrittenRow(o, r.value, values, row)
  {
    hide Letters, Itoa;
    var cells := [];
    for j := 0 to |values|
      invariant RowWritable(o, values[..j]) && WrittenRow(o, cells, values[..j], row)
    {
      var ref := ExcelRef(j, row);
      if j in o.numeric && o.numeric[j] && values[j] != "" {
        if o.decimal(values[j]).None? {
          return Err;
        }
        cells := cells + [Cell(ref, Plain(o.decimal(values[j]).value))];
      } else {
        cells := cells + [Cell(ref, Inline(values[j]))];
      }
    }
    assert values[..|values|] == values;
    return Ok(cells);
  }

  /** WriteXLSXWithOptions. */
  method WriteSheet(u: Unicode, t: Table, o: Options) returns (r: Result<seq<seq<Cell>>>)
    requires Faithful(u)
    ensures r.Ok? <==> Writable(u, t, o)
    ensures r.Ok? ==> WrittenSheet(o, r.value, t)
  {
    hide WrittenRow, HeadersOk, RowWritable;
    var ok := Validate(u, t);
    var name := Trim(u, o.sheetName);
    if || !ok || |name| > 31 || (exists k :: 0 <= k < |name| && name[k] in "[]:*?/\\")
       || exists c :: c in o.numeric && !(0 <= c < |t.headers|) {
      return Err;
    }
    HeadersAreWritable(o, t.headers);
    var first := WriteRow(OptionsOf(o, 0), t.headers, 1);
    var rows := [first.value];
    for i := 0 to |t.rows|
      invariant forall k :: 0 <= k < i ==> RowWritable(o, t.rows[k].values)
      invariant |rows| == i + 1
      invariant forall k :: 0 <= k <= i ==> WrittenRow(OptionsOf(o, k), rows[k], Line(t, k), k + 1)
    {
      var cells := WriteRow(o, t.rows[i].values, i + 2);
      if cells.Err? {
        return Err;
      }
      rows := rows + [cells.value];
    }
    return Ok(rows);
  }

  lemma HeadersAreWritable(o: Options, headers: seq<string>)
    ensures RowWritable(OptionsOf(o, 0), headers)
  {
  }

  // ----- the round trip

  lemma WrittenRowColumns(u: Unicode, o: Options, cells: seq<Cell>, values: seq<string>, row: nat)
    requires Faithful(u) && WrittenRow(o, cells, values, row) && |values| <= MAX_INT
    ensures forall j :: 0 <= j < |cells| ==> ColumnOf(u, cells[j].ref) == j
  {
    hide ColumnOf, Letters, Itoa, Faithful;
    forall j | 0 <= j < |cells| ensures ColumnOf(u, cells[j].ref) == j {
      WrittenRefReadsBack(u, j, row);
    }
  }

  /** A written row of at most two million columns reads back as it was shown. */
  lemma WrittenRowReadsBack(u: Unicode, o: Options, cells: seq<Cell>, values: seq<string>, row: nat)
    requires Faithful(u) && WrittenRow(o, cells, values, row) && |values| <= MAX_CELLS
    ensures CellsOk(u, [], cells) && Rebuilt(u, [], cells, ShownRow(o, values))
  {
    hide ColumnOf, Letters, Itoa, Faithful, Extent, At;
    WrittenRowColumns(u, o, cells, values, row);
    forall k | 0 <= k < |values| ensures Shown(o, k, values[k]) == At(u, [], cells, k) {
      AtIsTheCell(u, [], cells, k);
    }
    assert |values| > 0 ==> ColumnOf(u, cells[|values| - 1].ref) == |values| - 1;
  }

  lemma TooWideIsRefused(u: Unicode, o: Options, cells: seq<Cell>, values: seq<string>, row: nat)
    requires Faithful(u) && WrittenRow(o, cells, values, row) && |values| > MAX_CELLS
    ensures !CellsOk(u, [], cells)
  {
    hide ColumnOf, Letters, Itoa, Faithful;
    WrittenRefReadsBack(u, MAX_CELLS, row);
    assert !CellOk(u, [], cells[MAX_CELLS]);
  }

  ghost function Lines(t: Table): (r: seq<seq<string>>)
    ensures |r| == |t.rows| + 1 && forall i :: 0 <= i < |r| ==> r[i] == Line(t, i)
  {
    seq(|t.rows| + 1, i requires 0 <= i <= |t.rows| => Line(t, i))
  }

  lemma WidthOfLines(u: Unicode, t: Table)
    requires ValidTable(u, t)
    ensures Width(Lines(t)) == |t.headers|
  {
    hide HeadersOk, Width;
    assert Lines(t)[0] == t.headers;
    if Width(Lines(t)) > 0 {
      var i :| 0 <= i < |Lines(t)| && |Lines(t)[i]| == Width(Lines(t));
    }
  }

  lemma LineIsShown(o: Options, t: Table, i: nat)
    requires i <= |t.rows|
    ensures ShownRow(OptionsOf(o, i), Line(t, i)) == Line(ShownTable(o, t), i)
  {
    if i == 0 {
      assert ShownRow(OptionsOf(o, 0), t.headers) == t.headers;
    }
  }

  /** The written sheet holds the table's lines as they are shown, if every row is within the limit. */
  lemma WrittenSheetReadsBack(u: Unicode, o: Options, rows: seq<seq<Cell>>, t: Table)
    requires Faithful(u) && ValidTable(u, t) && WrittenSheet(o, rows, t)
    ensures SheetOk(u, [], rows) <==> |t.headers| <= MAX_CELLS
    ensures |t.headers| <= MAX_CELLS ==> SheetRebuilt(u, [], rows, Lines(ShownTable(o, t)))
  {
    hide CellsOk, Rebuilt, WrittenRow, HeadersOk, Faithful, OptionsOf;
    if |t.headers| <= MAX_CELLS {
      forall i | 0 <= i < |rows|
        ensures CellsOk(u, [], rows[i]) && Rebuilt(u, [], rows[i], Line(ShownTable(o, t), i))
      {
        WrittenRowReadsBack(u, OptionsOf(o, i), rows[i], Line(t, i), i + 1);
        LineIsShown(o, t, i);
      }
    } else {
      TooWideIsRefused(u, OptionsOf(o, 0), rows[0], Line(t, 0), 1);
      assert 0 < |rows|;
    }
  }

  /** Decimals are spelt without white space around them. */
  ghost predicate Spelt(u: Unicode, o: Options) {
    forall v :: o.decimal(v).Some? ==> Trimmed(u, o.decimal(v).value)
  }

  lemma ShownIsBuilt(u: Unicode, o: Options, t: Table)
    requires Built(u, t) && Spelt(u, o)
    ensures Built(u, ShownTable(o, t))
  {
    hide HeadersOk, Trimmed;
  }

  /** Without numeric columns the table is shown as it is. */
  lemma PlainOptionsChangeNothing(o: Options, t: Table)
    requires o.numeric == map[]
    ensures ShownTable(o, t) == t
  {
    forall i | 0 <= i < |t.rows| ensures ShownTable(o, t).rows[i] == t.rows[i] {
      assert ShownRow(o, t.rows[i].values) == t.rows[i].values;
    }
  }

  /**
   A table from NewTable that may be written survives being written and read, numbers in their own
   spelling, exactly when it has at most two million cells.
   */
  method WriteAndRead(u: Unicode, t: Table, o: Options) returns (written: bool, r: Result<Table>)
    requires Faithful(u) && Built(u, t) && Spelt(u, o)
    ensures written <==> Writable(u, t, o)
    ensures r == if written && |t.headers| * (|t.rows| + 1) <= MAX_CELLS then Ok(ShownTable(o, t)) else Err
  {
    hide SheetOk, SheetRebuilt, Width, HeadersOk, Holds, WrittenSheet, Lines, Faithful, Trimmed, Writable, Spelt;
    var sheet := WriteSheet(u, t, o);
    if sheet.Err? {
      return false, Err;
    }
    var rows := sheet.value;
    ghost var shown := ShownTable(o, t);
    ShownIsBuilt(u, o, t);
    WrittenSheetReadsBack(u, o, rows, t);
    WidthOfLines(u, shown);
    OnlyRecords(u, [], rows);
    RowCount(o, rows, t);
    LinesOf(u, shown);
    r := ReadSheet(u, [], rows);
    if |t.headers| * (|t.rows| + 1) <= MAX_CELLS {
      WithinLimit(|t.headers|, |t.rows| + 1);
      assert Reads(u, [], rows, Lines(shown)) && Tabular(u, Lines(shown));
      assert Holds(u, r.value, Lines(shown)[0], Lines(shown)[1..]);
      BuiltAgain(u, shown, r.value);
    }
    written := true;
  }

  lemma WithinLimit(w: nat, n: nat)
    requires n >= 1 && w * n <= MAX_CELLS
    ensures w <= MAX_CELLS
  {
    assert w <= w * n;
  }

  lemma RowCount(o: Options, rows: seq<seq<Cell>>, t: Table)
    requires WrittenSheet(o, rows, t)
    ensures |rows| == |t.rows| + 1
  {
  }

  lemma LinesOf(u: Unicode, t: Table)
    requires Built(u, t)
    ensures Lines(t)[0] == t.headers
    ensures Lines(t)[1..] == seq(|t.rows|, i requires 0 <= i < |t.rows| => t.rows[i].values)
    ensures Fits(t.headers, Lines(t)[1..]) && HeadersOk(u, t.headers)
  {
    hide HeadersOk;
  }
}
