/** The grid object that frames share with the engine. */
module GridCache {
  import opened Cells
  import opened PackedRows
  import opened PackedGrids
  import opened DrawPass

  /** Distinct styles of a palette that lacks one of its styles are fewer than the palette. */
  lemma {:induction false} DistinctStylesFit(styles: seq<PackedStyle>, palette: set<PackedStyle>)
    requires DistinctStyles(styles) && forall i | 0 <= i < |styles| :: styles[i] in palette
    ensures |styles| <= |palette|
  {
    if styles != [] {
      var n := |styles| - 1;
      DistinctStylesFit(styles[..n], palette - {styles[n]});
    }
  }

  ghost predicate ValidStyles(styles: seq<PackedStyle>, palette: set<PackedStyle>) {
    && DistinctStyles(styles)
    && (forall i | 0 <= i < |styles| :: styles[i] in palette)
    && (styles != [] ==> styles[0] == DEFAULT_STYLE)
  }

  class PackedGrid {
    var columns: nat
    var rows: nat
    var styles: seq<PackedStyle>
    var rowData: seq<PackedRow>

    ghost predicate Valid(palette: set<PackedStyle>)
      reads this
    {
      && ValidStyles(styles, palette)
      && (rows > 0 ==> styles != [] && columns > 0)
      && |rowData| == rows && ValidRows(rowData, columns, |styles|)
    }

    function Picture(): Picture
      reads this
    {
      Shown(styles, rowData)
    }

    constructor ()
      ensures columns == 0 && rows == 0 && styles == [] && rowData == []
    {
      columns, rows, styles, rowData := 0, 0, [], [];
    }

    constructor Clone(other: PackedGrid)
      ensures columns == other.columns && rows == other.rows && styles == other.styles && rowData == other.rowData
    {
      columns, rows, styles, rowData := other.columns, other.rows, other.styles, other.rowData;
    }

    /** The index of `style`, added at the end if it is new. A full table answers 0: the index is
        right exactly if the style is known or there is room for it. */
    method StyleIndex(style: PackedStyle) returns (index: nat)
      requires DistinctStyles(styles)
      modifies this`styles
      ensures styles == old(styles) || styles == old(styles) + [style]
      ensures style in old(styles) ==> styles == old(styles)
      ensures DistinctStyles(styles)
      ensures index < |styles| && styles[index] == style
         <==> style in old(styles) || |old(styles)| < 65535
    {
      for i := 0 to |styles|
        invariant styles == old(styles)
        invariant forall k | 0 <= k < i :: styles[k] != style
      {
        if styles[i] == style {
          return i;
        }
      }
      if |styles| >= MAX_STYLES {
        return 0;
      }
      styles := styles + [style];
      index := |styles| - 1;
    }

    method EnsurePackedGrid(columns: nat, rows: nat, ghost palette: set<PackedStyle>)
      requires Valid(palette) && DEFAULT_STYLE in palette
      requires 0 < columns < TWO_32 && rows > 0
      modifies this
      ensures Valid(palette) && this.columns == columns && this.rows == rows
      ensures old(this.columns) == columns && old(this.rows) == rows ==> unchanged(this)
      ensures old(this.columns) != columns || old(this.rows) != rows ==>
        Picture() == seq(rows, r => seq(columns, c => BLANK))
    {
      if styles == [] {
        styles := styles + [DEFAULT_STYLE];
      }
      if this.columns == columns && this.rows == rows && |rowData| == rows {
        return;
      }
      this.columns, this.rows := columns, rows;
      rowData := [];
      for row := 0 to rows
        invariant |rowData| == row && ValidRows(rowData, columns, |styles|)
        invariant forall r | 0 <= r < row :: IsBlank(rowData[r], columns)
        invariant this.columns == columns && this.rows == rows && ValidStyles(styles, palette) && styles != []
      {
        var blank := BlankRow(columns);
        MoreStyles(blank, columns, 1, |styles|);
        rowData := rowData + [blank];
      }
      BlankRowsShowBlanks(styles, rowData, columns);
    }

    method RotatePackedRows(delta: int, ghost palette: set<PackedStyle>)
      requires Valid(palette) && columns < TWO_32
      modifies this`rowData
      ensures Valid(palette)
      ensures Picture() == Rotated(old(Picture()), columns, delta)
    {
      if delta == 0 || rows == 0 {
        assert Picture() == Rotated(Picture(), columns, delta);
        return;
      }
      var rotated := RotateRows(rowData, columns, delta);
      ShownRotated(styles, rowData, rotated, columns, delta);
      rowData := rotated;
    }

    method RebuildPackedRows(changes: seq<ChangedCell>, changedText: Text, ghost palette: set<PackedStyle>)
      requires Valid(palette) && MAX_CELL_TEXT * columns < TWO_32
      requires OncePerCell(changes) && ChangesFit(changes, changedText, columns, rows, |styles|)
      modifies this`rowData
      ensures Valid(palette)
      ensures forall r | 0 <= r < rows :: RowRebuilt(old(rowData)[r], rowData[r], changes, changedText, r)
    {
      rowData := RebuildRows(rowData, columns, |styles|, changes, changedText);
    }
  }

  ghost predicate IsBlank(row: PackedRow, columns: nat) {
    && ValidRow(row, columns, 1)
    && forall c | 0 <= c < columns :: RawOf(row, c) == RawCell(SPACE as nat, [SPACE], 1, 0)
  }

  ghost predicate RowsRotated(rowData: seq<PackedRow>, rotated: seq<PackedRow>, columns: nat, delta: int) {
    && |rotated| == |rowData|
    && forall r | 0 <= r < |rowData| ::
         if 0 <= r + delta < |rowData| then rotated[r] == rowData[r + delta] else IsBlank(rotated[r], columns)
  }

  method RotateRows(rowData: seq<PackedRow>, columns: nat, delta: int) returns (rotated: seq<PackedRow>)
    requires 0 < columns < TWO_32
    ensures RowsRotated(rowData, rotated, columns, delta)
  {
    rotated := [];
    for row := 0 to |rowData|
      invariant |rotated| == row
      invariant forall r | 0 <= r < row ::
        if 0 <= r + delta < |rowData| then rotated[r] == rowData[r + delta] else IsBlank(rotated[r], columns)
    {
      var source := row + delta;
      if source >= 0 && source < |rowData| {
        rotated := rotated + [rowData[source]];
      } else {
        var blank := BlankRow(columns);
        rotated := rotated + [blank];
      }
    }
  }

  lemma ShownRotated(styles: seq<PackedStyle>, rowData: seq<PackedRow>, rotated: seq<PackedRow>,
                     columns: nat, delta: int)
    requires RowsRotated(rowData, rotated, columns, delta) && ValidRows(rowData, columns, |styles|)
    requires styles != [] && styles[0] == DEFAULT_STYLE
    ensures Shown(styles, rotated) == Rotated(Shown(styles, rowData), columns, delta)
    ensures ValidRows(rotated, columns, |styles|)
  {
    hide ValidRow, ShownRow, IsBlank;
    var shown := Rotated(Shown(styles, rowData), columns, delta);
    forall r | 0 <= r < |rotated|
      ensures ShownRow(styles, rotated[r]) == shown[r] && ValidRow(rotated[r], columns, |styles|)
    {
      if 0 <= r + delta < |rowData| {
        assert shown[r] == ShownRow(styles, rowData[r + delta]);
      } else {
        BlankRowShowsBlanks(styles, rotated[r], columns);
      }
    }
  }

  lemma BlankRowShowsBlanks(styles: seq<PackedStyle>, row: PackedRow, columns: nat)
    requires IsBlank(row, columns) && styles != [] && styles[0] == DEFAULT_STYLE
    ensures ValidRow(row, columns, |styles|)
    ensures ShownRow(styles, row) == seq(columns, c => BLANK)
  {
    MoreStyles(row, columns, 1, |styles|);
  }

  lemma BlankRowsShowBlanks(styles: seq<PackedStyle>, rowData: seq<PackedRow>, columns: nat)
    requires forall r | 0 <= r < |rowData| :: IsBlank(rowData[r], columns)
    requires styles != [] && styles[0] == DEFAULT_STYLE
    ensures Shown(styles, rowData) == seq(|rowData|, r => seq(columns, c => BLANK))
  {
    forall r | 0 <= r < |rowData| ensures ShownRow(styles, rowData[r]) == seq(columns, c => BLANK) {
      assert IsBlank(rowData[r], columns);
      BlankRowShowsBlanks(styles, rowData[r], columns);
    }
  }

  lemma MoreStyles(row: PackedRow, columns: nat, few: nat, many: nat)
    requires ValidRow(row, columns, few) && few <= many
    ensures ValidRow(row, columns, many)
  {
  }
}
