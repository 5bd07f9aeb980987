/** The cached grid of packed rows: style table, rotation, and rebuilding of changed rows. */
module PackedGrids {
  import opened Cells
  import opened PackedRows

  const MAX_STYLES: nat := 65535

  /** The cell a reader of the grid gets. */
  function CellViewOf(styles: seq<PackedStyle>, raw: RawCell): CellView {
    CellView(raw.codepoint, raw.text, raw.width,
             if raw.styleIndex < |styles| then styles[raw.styleIndex] else DEFAULT_STYLE)
  }

  function ShownRow(styles: seq<PackedStyle>, row: PackedRow): seq<CellView> {
    seq(|row.cells|, c requires 0 <= c < |row.cells| => CellViewOf(styles, RawOf(row, c)))
  }

  function Shown(styles: seq<PackedStyle>, rowData: seq<PackedRow>): Picture {
    seq(|rowData|, r requires 0 <= r < |rowData| => ShownRow(styles, rowData[r]))
  }

  ghost predicate ValidRows(rowData: seq<PackedRow>, columns: nat, styleCount: nat) {
    forall r | 0 <= r < |rowData| :: ValidRow(rowData[r], columns, styleCount)
  }

  ghost predicate DistinctStyles(styles: seq<PackedStyle>) {
    forall i, j | 0 <= i < j < |styles| :: styles[i] != styles[j]
  }

  /** New styles at the end of the table leave what the rows show as it was. */
  lemma MoreStylesShowTheSame(styles: seq<PackedStyle>, more: seq<PackedStyle>, rowData: seq<PackedRow>, columns: nat)
    requires ValidRows(rowData, columns, |styles|)
    ensures Shown(styles + more, rowData) == Shown(styles, rowData)
  {
    forall r | 0 <= r < |rowData| ensures ShownRow(styles + more, rowData[r]) == ShownRow(styles, rowData[r]) {
      assert ValidRow(rowData[r], columns, |styles|);
    }
  }

  // ---- Changes, in the order of the grid ----

  predicate Precedes(a: ChangedCell, b: ChangedCell) {
    a.row < b.row || (a.row == b.row && a.column < b.column)
  }

  predicate SamePlace(a: ChangedCell, b: ChangedCell) { a.row == b.row && a.column == b.column }

  ghost predicate OncePerCell(changes: seq<ChangedCell>) {
    forall i, j | 0 <= i < j < |changes| :: !SamePlace(changes[i], changes[j])
  }

  ghost predicate InGridOrder(changes: seq<ChangedCell>) {
    forall i, j | 0 <= i < j < |changes| :: Precedes(changes[i], changes[j])
  }

  function InsertInOrder(change: ChangedCell, changes: seq<ChangedCell>): seq<ChangedCell> {
    if changes == [] || Precedes(change, changes[0]) then [change] + changes
    else [changes[0]] + InsertInOrder(change, changes[1..])
  }

  function SortChanges(changes: seq<ChangedCell>): seq<ChangedCell> {
    if changes == [] then [] else InsertInOrder(changes[0], SortChanges(changes[1..]))
  }

  lemma {:induction false} InsertKeepsOrder(change: ChangedCell, changes: seq<ChangedCell>)
    requires InGridOrder(changes) && forall i | 0 <= i < |changes| :: !SamePlace(change, changes[i])
    ensures var after := InsertInOrder(change, changes);
            && InGridOrder(after) && |after| == |changes| + 1
            && forall other :: other in after <==> other == change || other in changes
  {
    if changes != [] && !Precedes(change, changes[0]) {
      InsertKeepsOrder(change, changes[1..]);
      var rest := InsertInOrder(change, changes[1..]);
      forall j | 0 <= j < |rest| ensures Precedes(changes[0], rest[j]) {
        assert rest[j] in rest;
      }
    }
  }

  lemma {:induction false} SortedChanges(changes: seq<ChangedCell>)
    requires OncePerCell(changes)
    ensures var after := SortChanges(changes);
            && InGridOrder(after) && |after| == |changes|
            && forall change :: change in after <==> change in changes
  {
    if changes != [] {
      SortedChanges(changes[1..]);
      var rest := SortChanges(changes[1..]);
      forall i | 0 <= i < |rest| ensures !SamePlace(changes[0], rest[i]) {
        assert rest[i] in changes[1..];
      }
      InsertKeepsOrder(changes[0], rest);
    }
  }

  // ---- Rebuilding every changed row ----

  ghost predicate ChangesFit(changes: seq<ChangedCell>, changedText: Text, columns: nat, rows: nat, styleCount: nat) {
    forall i | 0 <= i < |changes| ::
      ChangeFits(changes[i], changedText, columns) && changes[i].row < rows && changes[i].styleIndex < styleCount
  }

  /** What cell (r, c) holds after all changes: the change for it, or what it held before. */
  ghost function Override(base: PackedRow, changes: seq<ChangedCell>, changedText: Text, r: nat, c: nat): RawCell
    requires c < |base.cells|
  {
    if i :| 0 <= i < |changes| && changes[i].row == r && changes[i].column == c
    then RawOfChange(changes[i], changedText)
    else RawOf(base, c)
  }

  ghost predicate RowRebuilt(base: PackedRow, row: PackedRow, changes: seq<ChangedCell>, changedText: Text, r: nat) {
    && |row.cells| == |base.cells|
    && (forall c | 0 <= c < |base.cells| :: RawOf(row, c) == Override(base, changes, changedText, r, c))
    && ((forall i | 0 <= i < |changes| :: changes[i].row != r) ==> row == base)
  }

  /** The changes of one row, cut out of the sorted list, override that row as the whole list does. */
  lemma SliceOverridesRow(base: PackedRow, row: PackedRow, sorted: seq<ChangedCell>, lo: nat, hi: nat,
                          changedText: Text, r: nat)
    requires lo < hi <= |sorted| && InGridOrder(sorted) && |row.cells| == |base.cells|
    requires forall i | 0 <= i < |sorted| :: sorted[i].row == r <==> lo <= i < hi
    requires forall c | 0 <= c < |base.cells| ::
      RawOf(row, c) == Overridden(base, sorted, lo, hi, changedText, c)
    ensures RowRebuilt(base, row, sorted, changedText, r)
  {
    forall c | 0 <= c < |base.cells| ensures RawOf(row, c) == Override(base, sorted, changedText, r, c) {
      assert OncePerCell(sorted) by {
        forall i, j | 0 <= i < j < |sorted| ensures !SamePlace(sorted[i], sorted[j]) {
          assert Precedes(sorted[i], sorted[j]);
        }
      }
      assert forall i, j | 0 <= i < |sorted| && 0 <= j < |sorted| && SamePlace(sorted[i], sorted[j]) :: i == j;
    }
    assert sorted[lo].row == r;
  }

  /** A rebuilt row is valid: its style indices come from the changes or from the old row. */
  lemma RebuiltRowIsValid(base: PackedRow, row: PackedRow, sorted: seq<ChangedCell>, lo: nat, hi: nat,
                          changedText: Text, columns: nat, rows: nat, styleCount: nat)
    requires ValidRow(base, columns, styleCount) && ChangesFit(sorted, changedText, columns, rows, styleCount)
    requires lo <= hi <= |sorted| && |row.cells| == columns
    requires TextTiles(row.cells, row.text) && TilesMaximally(row.cells, row.runs, columns)
    requires forall c | 0 <= c < columns ::
      && row.cells[c].textLength <= MAX_CELL_TEXT
      && RawOf(row, c) == Overridden(base, sorted, lo, hi, changedText, c)
    ensures ValidRow(row, columns, styleCount)
  {
    forall c | 0 <= c < columns ensures row.cells[c].styleIndex < styleCount {
      assert RawOf(row, c) == Overridden(base, sorted, lo, hi, changedText, c);
      assert RawOf(row, c).styleIndex == row.cells[c].styleIndex;
      if k :| lo <= k < hi && sorted[k].column == c {
        assert ChangeFits(sorted[k], changedText, columns);
      }
    }
  }

  lemma SortedOverride(base: PackedRow, changes: seq<ChangedCell>, changedText: Text, r: nat, c: nat)
    requires OncePerCell(changes) && c < |base.cells|
    ensures Override(base, SortChanges(changes), changedText, r, c) == Override(base, changes, changedText, r, c)
  {
    var sorted := SortChanges(changes);
    SortedChanges(changes);
    if i :| 0 <= i < |sorted| && sorted[i].row == r && sorted[i].column == c {
      assert sorted[i] in changes;
      var j :| 0 <= j < |changes| && changes[j] == sorted[i];
      assert forall k | 0 <= k < |changes| && SamePlace(changes[k], changes[j]) :: k == j;
      assert forall k | 0 <= k < |sorted| && SamePlace(sorted[k], sorted[i]) :: sorted[k] in changes;
    } else {
      assert forall j | 0 <= j < |changes| :: changes[j] in sorted;
    }
  }

  /** The order of the changes does not matter to what they override. */
  lemma SortingKeepsOverrides(base: PackedRow, row: PackedRow, changes: seq<ChangedCell>, changedText: Text, r: nat)
    requires OncePerCell(changes) && RowRebuilt(base, row, SortChanges(changes), changedText, r)
    ensures RowRebuilt(base, row, changes, changedText, r)
  {
    hide Override, RawOf;
    forall c | 0 <= c < |base.cells|
      ensures Override(base, SortChanges(changes), changedText, r, c) == Override(base, changes, changedText, r, c)
    {
      SortedOverride(base, changes, changedText, r, c);
    }
    SortedChanges(changes);
    assert forall i | 0 <= i < |SortChanges(changes)| :: SortChanges(changes)[i] in changes;
  }

  method RebuildSlice(base: PackedRow, sorted: seq<ChangedCell>, lo: nat, hi: nat, changedText: Text,
                      columns: nat, ghost rows: nat, ghost styleCount: nat, ghost r: nat)
    returns (row: PackedRow)
    requires MAX_CELL_TEXT * columns < TWO_32
    requires ValidRow(base, columns, styleCount) && InGridOrder(sorted)
    requires ChangesFit(sorted, changedText, columns, rows, styleCount)
    requires lo < hi <= |sorted| && ColumnsAscend(sorted, lo, hi)
    requires forall i | 0 <= i < |sorted| :: sorted[i].row == r <==> lo <= i < hi
    ensures ValidRow(row, columns, styleCount) && RowRebuilt(base, row, sorted, changedText, r)
  {
    row := RebuildRow(columns, base, sorted, lo, hi, changedText);
    RebuiltRowIsValid(base, row, sorted, lo, hi, changedText, columns, rows, styleCount);
    SliceOverridesRow(base, row, sorted, lo, hi, changedText, r);
  }

  method RebuildRows(base: seq<PackedRow>, columns: nat, ghost styleCount: nat,
                     changes: seq<ChangedCell>, changedText: Text)
    returns (rowData: seq<PackedRow>)
    requires MAX_CELL_TEXT * columns < TWO_32
    requires ValidRows(base, columns, styleCount) && OncePerCell(changes)
    requires ChangesFit(changes, changedText, columns, |base|, styleCount)
    ensures |rowData| == |base| && ValidRows(rowData, columns, styleCount)
    ensures forall r | 0 <= r < |base| :: RowRebuilt(base[r], rowData[r], changes, changedText, r)
  {
    rowData := base;
    if changes == [] {
      return;
    }
    var sorted := SortChanges(changes);
    SortedChanges(changes);
    SortedChangesFit(changes, sorted, changedText, columns, |base|, styleCount);
    var changeIndex := 0;
    ghost var reached := 0;
    while changeIndex < |sorted|
      invariant 0 <= changeIndex <= |sorted|
      invariant |rowData| == |base| && reached <= |base|
      invariant forall i | 0 <= i < |sorted| :: sorted[i].row < reached <==> i < changeIndex
      invariant forall r | 0 <= r < reached ::
        ValidRow(rowData[r], columns, styleCount) && RowRebuilt(base[r], rowData[r], sorted, changedText, r)
      invariant forall r | reached <= r < |base| :: rowData[r] == base[r]
    {
      var rowIndex := sorted[changeIndex].row;
      var rowChange := RowEnd(sorted, changeIndex);
      RowSlice(sorted, changeIndex, rowChange, reached);
      var row := RebuildSlice(base[rowIndex], sorted, changeIndex, rowChange, changedText,
                              columns, |base|, styleCount, rowIndex);
      rowData := rowData[rowIndex := row];
      RowsBetween(base, sorted, changedText, reached, rowIndex);
      changeIndex := rowChange;
      reached := rowIndex + 1;
    }
    RowsBetween(base, sorted, changedText, reached, |base|);
    forall r | 0 <= r < |base|
      ensures ValidRow(rowData[r], columns, styleCount) && RowRebuilt(base[r], rowData[r], changes, changedText, r)
    {
      SortingKeepsOverrides(base[r], rowData[r], changes, changedText, r);
    }
  }

  /** Rows without a change stay what they were, and that is what the changes make of them. */
  lemma RowsBetween(base: seq<PackedRow>, sorted: seq<ChangedCell>, changedText: Text, lo: nat, hi: nat)
    requires hi <= |base|
    requires forall i | 0 <= i < |sorted| :: sorted[i].row < lo || hi <= sorted[i].row
    ensures forall r | lo <= r < hi :: RowRebuilt(base[r], base[r], sorted, changedText, r)
  {
  }

  lemma SortedChangesFit(changes: seq<ChangedCell>, sorted: seq<ChangedCell>, changedText: Text,
                         columns: nat, rows: nat, styleCount: nat)
    requires ChangesFit(changes, changedText, columns, rows, styleCount)
    requires forall change :: change in sorted <==> change in changes
    ensures ChangesFit(sorted, changedText, columns, rows, styleCount)
  {
    forall i | 0 <= i < |sorted|
      ensures ChangeFits(sorted[i], changedText, columns) && sorted[i].row < rows && sorted[i].styleIndex < styleCount
    {
      assert sorted[i] in changes;
    }
  }

  /** The end of the changes that share the row of the change at `start`. */
  method RowEnd(sorted: seq<ChangedCell>, start: nat) returns (end: nat)
    requires start < |sorted| && InGridOrder(sorted)
    ensures start < end <= |sorted|
    ensures forall i | start <= i < end :: sorted[i].row == sorted[start].row
    ensures forall i | end <= i < |sorted| :: sorted[i].row > sorted[start].row
    ensures ColumnsAscend(sorted, start, end)
  {
    end := start;
    while end < |sorted| && sorted[end].row == sorted[start].row
      invariant start <= end <= |sorted|
      invariant forall i | start <= i < end :: sorted[i].row == sorted[start].row
    {
      end := end + 1;
    }
    if end < |sorted| {
      assert Precedes(sorted[start], sorted[end]);
      assert forall i | end < i < |sorted| :: Precedes(sorted[end], sorted[i]);
    }
    assert forall i, j | start <= i < j < end :: Precedes(sorted[i], sorted[j]);
  }

  lemma RowSlice(sorted: seq<ChangedCell>, start: nat, end: nat, reached: nat)
    requires start < end <= |sorted|
    requires forall i | 0 <= i < |sorted| :: sorted[i].row < reached <==> i < start
    requires forall i | start <= i < end :: sorted[i].row == sorted[start].row
    requires forall i | end <= i < |sorted| :: sorted[i].row > sorted[start].row
    ensures forall i | 0 <= i < |sorted| :: sorted[i].row == sorted[start].row <==> start <= i < end
    ensures forall i | 0 <= i < |sorted| :: sorted[i].row < sorted[start].row + 1 <==> i < end
  {
  }
}
