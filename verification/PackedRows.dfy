/** Packed rows: flattened text with per-cell offsets, and maximal style runs. */
module PackedRows {
  import opened Cells

  datatype PackedCell = PackedCell(
    codepoint: nat, textOffset: nat, textLength: nat, styleIndex: nat, width: nat)

  datatype PackedRun = PackedRun(
    left: nat, cellCount: nat, styleIndex: nat, textOffset: nat, textLength: nat)

  datatype PackedRow = PackedRow(cells: seq<PackedCell>, text: Text, runs: seq<PackedRun>)

  datatype ChangedCell = ChangedCell(
    column: nat, row: nat, width: nat, codepoint: nat,
    styleIndex: nat, textOffset: nat, textLength: nat)

  /** What a packed cell stores, with its text resolved and its style still an index. */
  datatype RawCell = RawCell(codepoint: nat, text: Text, width: nat, styleIndex: nat)

  /** The bounds check the readers make before they touch a cell's text. */
  predicate InText(text: Text, offset: nat, length: nat) { offset + length <= |text| }

  function Slice(text: Text, offset: nat, length: nat): Text {
    if InText(text, offset, length) then text[offset..offset + length] else []
  }

  function RawOf(row: PackedRow, column: nat): RawCell
    requires column < |row.cells|
  {
    var cell := row.cells[column];
    RawCell(cell.codepoint, Slice(row.text, cell.textOffset, cell.textLength), cell.width, cell.styleIndex)
  }

  function RawOfChange(change: ChangedCell, changedText: Text): RawCell {
    RawCell(change.codepoint, Slice(changedText, change.textOffset, change.textLength),
            U8(change.width), change.styleIndex)
  }

  // ---- Representation invariant of a row ----

  function TextEnd(cell: PackedCell): nat { cell.textOffset + cell.textLength }

  function RunEnd(run: PackedRun): nat { run.left + run.cellCount }

  /** Cells own consecutive stretches of text, and together all of it. */
  ghost predicate TextTiles(cells: seq<PackedCell>, text: Text) {
    && (cells == [] ==> text == [])
    && (cells != [] ==> cells[0].textOffset == 0 && TextEnd(cells[|cells| - 1]) == |text|)
    && forall i, j | 0 <= i < j < |cells| && j == i + 1 :: cells[j].textOffset == TextEnd(cells[i])
  }

  /** `run` covers cells of one style and exactly their text. */
  ghost predicate RunFits(cells: seq<PackedCell>, run: PackedRun) {
    && run.cellCount > 0
    && RunEnd(run) <= |cells|
    && run.textOffset == cells[run.left].textOffset
    && run.textOffset + run.textLength == TextEnd(cells[RunEnd(run) - 1])
    && forall i | run.left <= i < RunEnd(run) :: cells[i].styleIndex == run.styleIndex
  }

  /** `runs` tile the first `n` cells, each run is homogeneous, and no two neighbours share a style. */
  ghost predicate TilesMaximally(cells: seq<PackedCell>, runs: seq<PackedRun>, n: nat) {
    && (|runs| == 0 <==> n == 0)
    && (|runs| > 0 ==> runs[0].left == 0 && RunEnd(runs[|runs| - 1]) == n)
    && (forall k | 0 <= k < |runs| :: RunFits(cells, runs[k]))
    && (forall j, k | 0 <= j < k < |runs| && k == j + 1 ::
          runs[k].left == RunEnd(runs[j]) && runs[k].styleIndex != runs[j].styleIndex)
  }

  ghost predicate ValidRow(row: PackedRow, columns: nat, styleCount: nat) {
    && |row.cells| == columns
    && TextTiles(row.cells, row.text)
    && TilesMaximally(row.cells, row.runs, columns)
    && forall i | 0 <= i < columns ::
         row.cells[i].styleIndex < styleCount && row.cells[i].textLength <= MAX_CELL_TEXT
  }

  lemma {:induction false} OffsetsAscend(cells: seq<PackedCell>, text: Text, i: nat, j: nat)
    requires TextTiles(cells, text) && i <= j < |cells|
    ensures cells[i].textOffset <= cells[j].textOffset && TextEnd(cells[i]) <= TextEnd(cells[j])
    decreases j - i
  {
    if i < j {
      OffsetsAscend(cells, text, i + 1, j);
    }
  }

  /** Every cell of a row owns a stretch inside the row text. */
  lemma CellTextInBounds(row: PackedRow, column: nat)
    requires TextTiles(row.cells, row.text) && column < |row.cells|
    ensures InText(row.text, row.cells[column].textOffset, row.cells[column].textLength)
  {
    OffsetsAscend(row.cells, row.text, column, |row.cells| - 1);
  }

  /** Total text length of the first `n` cells. */
  function LengthBefore(cells: seq<PackedCell>, n: nat): nat
    requires n <= |cells|
  {
    if n == 0 then 0 else LengthBefore(cells, n - 1) + cells[n - 1].textLength
  }

  lemma {:induction false} OffsetsArePrefixSums(cells: seq<PackedCell>, text: Text, n: nat)
    requires TextTiles(cells, text) && n < |cells|
    ensures cells[n].textOffset == LengthBefore(cells, n)
  {
    if n > 0 {
      OffsetsArePrefixSums(cells, text, n - 1);
      assert cells[n].textOffset == TextEnd(cells[n - 1]);
    }
  }

  /** The texts of cells `lo..hi`, one after the other. */
  function CellTexts(row: PackedRow, lo: nat, hi: nat): Text
    requires lo <= hi <= |row.cells|
    decreases hi
  {
    if lo == hi then [] else CellTexts(row, lo, hi - 1) + RawOf(row, hi - 1).text
  }

  /** A stretch of row text between two cell boundaries is the concatenation of its cells. */
  lemma {:induction false} TextOfCells(row: PackedRow, lo: nat, hi: nat)
    requires TextTiles(row.cells, row.text) && lo < hi <= |row.cells|
    ensures row.cells[lo].textOffset <= TextEnd(row.cells[hi - 1]) <= |row.text|
    ensures row.text[row.cells[lo].textOffset..TextEnd(row.cells[hi - 1])] == CellTexts(row, lo, hi)
    decreases hi
  {
    var cells := row.cells;
    OffsetsAscend(cells, row.text, lo, hi - 1);
    CellTextInBounds(row, hi - 1);
    if lo + 1 < hi {
      TextOfCells(row, lo, hi - 1);
      assert cells[hi - 1].textOffset == TextEnd(cells[hi - 2]);
      assert row.text[cells[lo].textOffset..TextEnd(cells[hi - 1])]
          == row.text[cells[lo].textOffset..cells[hi - 1].textOffset]
           + row.text[cells[hi - 1].textOffset..TextEnd(cells[hi - 1])];
    } else {
      assert CellTexts(row, lo, lo) == [];
    }
  }

  /** The text of a run is the concatenation of the texts of its cells. */
  lemma RunTextIsItsCells(row: PackedRow, run: PackedRun)
    requires TextTiles(row.cells, row.text) && RunFits(row.cells, run)
    ensures run.left < RunEnd(run) <= |row.cells|
    ensures Slice(row.text, run.textOffset, run.textLength) == CellTexts(row, run.left, RunEnd(run))
  {
    hide TextTiles, CellTexts;
    TextOfCells(row, run.left, RunEnd(run));
  }

  lemma {:induction false} RunEndsBefore(cells: seq<PackedCell>, runs: seq<PackedRun>, n: nat, k: nat)
    requires TilesMaximally(cells, runs, n) && k < |runs|
    ensures RunEnd(runs[k]) <= n
    ensures k + 1 < |runs| ==> RunEnd(runs[k]) < n
    decreases |runs| - k
  {
    if k + 1 < |runs| {
      RunEndsBefore(cells, runs, n, k + 1);
      assert RunFits(cells, runs[k + 1]);
      assert runs[k + 1].left == RunEnd(runs[k]);
    }
  }

  /** Of two runs of maximal tilings that start at the same cell, neither ends first. */
  lemma NoShorterRun(cells: seq<PackedCell>, a: seq<PackedRun>, b: seq<PackedRun>, n: nat, i: nat)
    requires TilesMaximally(cells, a, n) && TilesMaximally(cells, b, n)
    requires i < |a| && i < |b| && a[i].left == b[i].left
    ensures RunEnd(a[i]) >= RunEnd(b[i])
  {
    RunEndsBefore(cells, b, n, i);
    assert RunFits(cells, a[i]) && RunFits(cells, b[i]);
    assert a[i].styleIndex == cells[a[i].left].styleIndex == b[i].styleIndex;
    if i + 1 < |a| {
      assert RunFits(cells, a[i + 1]);
      assert a[i + 1].left == RunEnd(a[i]);
      assert a[i + 1].styleIndex == cells[RunEnd(a[i])].styleIndex;
    }
  }

  lemma {:induction false} TilingsAgree(
      cells: seq<PackedCell>, a: seq<PackedRun>, b: seq<PackedRun>, n: nat, k: nat)
    requires TilesMaximally(cells, a, n) && TilesMaximally(cells, b, n)
    requires k <= |a| && k <= |b|
    ensures forall i | 0 <= i < k :: a[i] == b[i]
  {
    if k > 0 {
      TilingsAgree(cells, a, b, n, k - 1);
      var i := k - 1;
      if i > 0 {
        assert a[i].left == RunEnd(a[i - 1]) && b[i].left == RunEnd(b[i - 1]);
      }
      NoShorterRun(cells, a, b, n, i);
      NoShorterRun(cells, b, a, n, i);
      assert RunFits(cells, a[i]) && RunFits(cells, b[i]);
    }
  }

  /** The runs of a row are determined by its cells: there is one maximal tiling. */
  lemma MaximalTilingIsUnique(cells: seq<PackedCell>, a: seq<PackedRun>, b: seq<PackedRun>, n: nat)
    requires TilesMaximally(cells, a, n) && TilesMaximally(cells, b, n)
    ensures a == b
  {
    var k := if |a| <= |b| then |a| else |b|;
    TilingsAgree(cells, a, b, n, k);
    if k > 0 {
      RunEndsBefore(cells, a, n, k - 1);
      RunEndsBefore(cells, b, n, k - 1);
    }
  }

  // ---- Building rows ----

  method BlankRow(columns: nat) returns (row: PackedRow)
    requires 0 < columns < TWO_32
    ensures ValidRow(row, columns, 1)
    ensures forall c | 0 <= c < columns :: RawOf(row, c) == RawCell(SPACE as nat, [SPACE], 1, 0)
  {
    var cells: seq<PackedCell> := [];
    for column := 0 to columns
      invariant |cells| == column
      invariant forall i | 0 <= i < column :: cells[i] == PackedCell(SPACE as nat, i, 1, 0, 1)
    {
      cells := cells + [PackedCell(SPACE as nat, column, 1, 0, 1)];
    }
    row := PackedRow(cells, seq(columns, _ => SPACE), [PackedRun(0, columns, 0, 0, columns)]);
  }

  lemma OpenRun(cells: seq<PackedCell>, runs: seq<PackedRun>, column: nat, run: PackedRun)
    requires TilesMaximally(cells, runs, column) && column < |cells|
    requires runs == [] || runs[|runs| - 1].styleIndex != cells[column].styleIndex
    requires run == PackedRun(
      column, 1, cells[column].styleIndex, cells[column].textOffset, cells[column].textLength)
    ensures TilesMaximally(cells, runs + [run], column + 1)
  {
    assert RunFits(cells, run);
  }

  lemma GrowRun(cells: seq<PackedCell>, runs: seq<PackedRun>, column: nat, grown: PackedRun)
    requires TilesMaximally(cells, runs, column) && 0 < column < |cells|
    requires runs[|runs| - 1].styleIndex == cells[column].styleIndex
    requires grown.left == runs[|runs| - 1].left && grown.cellCount == runs[|runs| - 1].cellCount + 1
    requires grown.styleIndex == cells[column].styleIndex
    requires grown.textOffset == runs[|runs| - 1].textOffset
    requires grown.textOffset + grown.textLength == TextEnd(cells[column])
    ensures TilesMaximally(cells, runs[..|runs| - 1] + [grown], column + 1)
  {
    var last := |runs| - 1;
    assert RunFits(cells, runs[last]);
    assert RunFits(cells, grown);
    var after := runs[..last] + [grown];
    forall j, k | 0 <= j < k < |after| && k == j + 1
      ensures after[k].left == RunEnd(after[j]) && after[k].styleIndex != after[j].styleIndex
    {
      assert runs[k].left == RunEnd(runs[j]) && runs[k].styleIndex != runs[j].styleIndex;
    }
  }

  method BuildRuns(cells: seq<PackedCell>, ghost text: Text) returns (runs: seq<PackedRun>)
    requires TextTiles(cells, text) && |text| < TWO_32
    ensures TilesMaximally(cells, runs, |cells|)
  {
    runs := [];
    for column := 0 to |cells|
      invariant TilesMaximally(cells, runs, column)
    {
      var cell := cells[column];
      OffsetsAscend(cells, text, column, |cells| - 1);
      if runs == [] || runs[|runs| - 1].styleIndex != cell.styleIndex {
        var run := PackedRun(column, 1, cell.styleIndex, cell.textOffset, cell.textLength);
        OpenRun(cells, runs, column, run);
        runs := runs + [run];
      } else {
        var last := runs[|runs| - 1];
        assert RunFits(cells, last);
        OffsetsAscend(cells, text, last.left, column);
        var end := U32(cell.textOffset + cell.textLength);
        var grown := last.(cellCount := last.cellCount + 1, textLength := end - last.textOffset);
        GrowRun(cells, runs, column, grown);
        runs := runs[..|runs| - 1] + [grown];
      }
    }
  }

  // ---- Rebuilding a row from its old cells and the cells that changed ----

  ghost predicate ChangeFits(change: ChangedCell, changedText: Text, columns: nat) {
    && change.column < columns
    && change.textLength <= MAX_CELL_TEXT
    && InText(changedText, change.textOffset, change.textLength)
  }

  /** Appending a cell and its text leaves the earlier cells as they were. */
  lemma AppendCell(cells: seq<PackedCell>, text: Text, cell: PackedCell, source: Text)
    requires TextTiles(cells, text) && cell.textOffset == |text| && cell.textLength == |source|
    ensures TextTiles(cells + [cell], text + source)
    ensures var row := PackedRow(cells + [cell], text + source, []);
            && RawOf(row, |cells|) == RawCell(cell.codepoint, source, cell.width, cell.styleIndex)
            && forall c | 0 <= c < |cells| :: RawOf(row, c) == RawOf(PackedRow(cells, text, []), c)
  {
    var row := PackedRow(cells + [cell], text + source, []);
    forall c | 0 <= c < |cells| ensures RawOf(row, c) == RawOf(PackedRow(cells, text, []), c) {
      CellTextInBounds(PackedRow(cells, text, []), c);
    }
  }

  ghost predicate ColumnsAscend(changes: seq<ChangedCell>, lo: nat, hi: nat)
    requires lo <= hi <= |changes|
  {
    forall j, k | lo <= j < k < hi :: changes[j].column < changes[k].column
  }

  /** The cell a rebuilt row must hold: the change for that column, or the old cell. */
  ghost function Overridden(base: PackedRow, changes: seq<ChangedCell>, lo: nat, hi: nat,
                            changedText: Text, column: nat): RawCell
    requires lo <= hi <= |changes| && column < |base.cells|
  {
    if k :| lo <= k < hi && changes[k].column == column
    then RawOfChange(changes[k], changedText)
    else RawOf(base, column)
  }

  /** The next cell to append, and how far the list of changes is used up. */
  method NextCell(base: PackedRow, changes: seq<ChangedCell>, ghost lo: nat, current: nat, hi: nat,
                  changedText: Text, column: nat)
    returns (cell: PackedCell, source: Text, next: nat)
    requires lo <= current <= hi <= |changes| && ColumnsAscend(changes, lo, hi)
    requires column < |base.cells| && TextTiles(base.cells, base.text)
    requires base.cells[column].textLength <= MAX_CELL_TEXT
    requires forall k | lo <= k < hi :: ChangeFits(changes[k], changedText, |base.cells|)
    requires forall k | lo <= k < current :: changes[k].column < column
    requires forall k | current <= k < hi :: changes[k].column >= column
    ensures RawCell(cell.codepoint, source, cell.width, cell.styleIndex)
         == Overridden(base, changes, lo, hi, changedText, column)
    ensures |source| <= MAX_CELL_TEXT
    ensures current <= next <= hi
    ensures forall k | lo <= k < next :: changes[k].column < column + 1
    ensures forall k | next <= k < hi :: changes[k].column >= column + 1
  {
    cell := PackedCell(SPACE as nat, 0, 0, 0, 1);
    source := [];
    next := current;
    if current < hi && changes[current].column == column {
      var change := changes[current];
      assert ChangeFits(change, changedText, |base.cells|);
      cell := cell.(codepoint := change.codepoint, styleIndex := change.styleIndex, width := U8(change.width));
      source := changedText[change.textOffset..change.textOffset + change.textLength];
      next := current + 1;
    } else if column < |base.cells| {
      assert forall k | lo <= k < hi :: changes[k].column != column;
      cell := base.cells[column];
      CellTextInBounds(base, column);
      if InText(base.text, cell.textOffset, cell.textLength) {
        source := base.text[cell.textOffset..cell.textOffset + cell.textLength];
      }
    }
  }

  method RebuildRow(columns: nat, base: PackedRow, changes: seq<ChangedCell>, lo: nat, hi: nat,
                    changedText: Text)
    returns (row: PackedRow)
    requires MAX_CELL_TEXT * columns < TWO_32
    requires |base.cells| == columns && TextTiles(base.cells, base.text)
    requires forall c | 0 <= c < columns :: base.cells[c].textLength <= MAX_CELL_TEXT
    requires lo <= hi <= |changes| && ColumnsAscend(changes, lo, hi)
    requires forall k | lo <= k < hi :: ChangeFits(changes[k], changedText, columns)
    ensures |row.cells| == columns && TextTiles(row.cells, row.text)
    ensures TilesMaximally(row.cells, row.runs, columns)
    ensures forall c | 0 <= c < columns ::
      && row.cells[c].textLength <= MAX_CELL_TEXT
      && RawOf(row, c) == Overridden(base, changes, lo, hi, changedText, c)
  {
    var cells: seq<PackedCell> := [];
    var text: Text := [];
    var current := lo;
    for column := 0 to columns
      invariant |cells| == column && TextTiles(cells, text)
      invariant |text| <= MAX_CELL_TEXT * column
      invariant lo <= current <= hi
      invariant forall k | lo <= k < current :: changes[k].column < column
      invariant forall k | current <= k < hi :: changes[k].column >= column
      invariant forall c | 0 <= c < column ::
        && cells[c].textLength <= MAX_CELL_TEXT
        && RawOf(PackedRow(cells, text, []), c) == Overridden(base, changes, lo, hi, changedText, c)
    {
      var cell, source, next := NextCell(base, changes, lo, current, hi, changedText, column);
      cell := cell.(textOffset := U32(|text|), textLength := U32(|source|));
      AppendCell(cells, text, cell, source);
      cells, text, current := cells + [cell], text + source, next;
    }
    var runs := BuildRuns(cells, text);
    row := PackedRow(cells, text, runs);
    forall c | 0 <= c < columns ensures RawOf(row, c) == RawOf(PackedRow(cells, text, []), c) {}
  }
}
