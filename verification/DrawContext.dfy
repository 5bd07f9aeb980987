/** Collecting the changed cells of one draw. */
module DrawContext {
  import opened Cells
  import opened PackedRows
  import opened PackedGrids
  import opened ScreenModel
  import opened DrawPass
  import opened GridCache
  import opened Dirty

  ghost predicate OnScreen(screen: Screen, visit: Visit) {
    Shaped(screen) && visit.row < screen.rows && visit.column < screen.columns
  }

  ghost function ViewAt(encode: Encoder, screen: Screen, visit: Visit): CellView
    requires OnScreen(screen, visit)
  {
    ViewOf(encode, Drawn(screen, visit.row, visit.column))
  }

  /** A visit is kept if the cell counts as changed, and is not what the rotated cache already shows. */
  ghost predicate Kept(params: DrawParams, base: Picture, encode: Encoder, screen: Screen, visit: Visit)
    requires OnScreen(screen, visit) && Sized(base, screen.columns, screen.rows)
  {
    && Changed(params, visit)
    && !(params.reuseScrolledRows && base[visit.row][visit.column] == ViewAt(encode, screen, visit))
  }

  ghost function KeptVisits(params: DrawParams, base: Picture, encode: Encoder, screen: Screen, visits: seq<Visit>)
    : seq<Visit>
    requires Sized(base, screen.columns, screen.rows) && forall i | 0 <= i < |visits| :: OnScreen(screen, visits[i])
  {
    if visits == [] then [] else
      var last := visits[|visits| - 1];
      KeptVisits(params, base, encode, screen, visits[..|visits| - 1])
      + if Kept(params, base, encode, screen, last) then [last] else []
  }

  ghost predicate NoRepeats(visits: seq<Visit>) {
    forall i, j | 0 <= i < j < |visits| :: visits[i].row != visits[j].row || visits[i].column != visits[j].column
  }

  lemma {:induction false} KeptVisitsMembers(
      params: DrawParams, base: Picture, encode: Encoder, screen: Screen, visits: seq<Visit>)
    requires Sized(base, screen.columns, screen.rows) && forall i | 0 <= i < |visits| :: OnScreen(screen, visits[i])
    ensures var kept := KeptVisits(params, base, encode, screen, visits);
            && |kept| <= |visits|
            && (forall visit :: visit in kept <==>
                  visit in visits && OnScreen(screen, visit) && Kept(params, base, encode, screen, visit))
            && (NoRepeats(visits) ==> NoRepeats(kept))
  {
    hide Kept, OnScreen, NoRepeats;
    if visits != [] {
      var last := visits[|visits| - 1];
      var front := visits[..|visits| - 1];
      KeptVisitsMembers(params, base, encode, screen, front);
      var kept := KeptVisits(params, base, encode, screen, front);
      assert forall visit :: visit in visits <==> visit in front || visit == last;
      KeptTooHasNoRepeats(visits, kept);
      assert kept + [] == kept;
    }
  }

  lemma KeptTooHasNoRepeats(visits: seq<Visit>, kept: seq<Visit>)
    requires visits != [] && forall k | 0 <= k < |kept| :: kept[k] in visits[..|visits| - 1]
    ensures NoRepeats(visits) ==> NoRepeats(visits[..|visits| - 1])
    ensures NoRepeats(visits) && NoRepeats(kept) ==> NoRepeats(kept + [visits[|visits| - 1]])
  {
  }

  /** `change` carries the view of the cell at `visit`. */
  ghost predicate ChangeShows(change: ChangedCell, changedText: Text, styles: seq<PackedStyle>,
                              encode: Encoder, screen: Screen, visit: Visit) {
    && OnScreen(screen, visit)
    && change.row == visit.row && change.column == visit.column
    && ChangeFits(change, changedText, screen.columns) && change.styleIndex < |styles|
    && CellViewOf(styles, RawOfChange(change, changedText)) == ViewAt(encode, screen, visit)
  }

  ghost predicate ChangesShow(changes: seq<ChangedCell>, changedText: Text, styles: seq<PackedStyle>,
                              encode: Encoder, screen: Screen, kept: seq<Visit>) {
    && |changes| == |kept|
    && forall k | 0 <= k < |kept| :: ChangeShows(changes[k], changedText, styles, encode, screen, kept[k])
  }

  /** Later text and later styles leave the recorded changes as they were. */
  lemma ChangesStillShow(changes: seq<ChangedCell>, changedText: Text, styles: seq<PackedStyle>,
                         encode: Encoder, screen: Screen, kept: seq<Visit>,
                         moreText: Text, moreStyles: seq<PackedStyle>)
    requires ChangesShow(changes, changedText, styles, encode, screen, kept)
    ensures ChangesShow(changes, changedText + moreText, styles + moreStyles, encode, screen, kept)
  {
    forall k | 0 <= k < |kept|
      ensures ChangeShows(changes[k], changedText + moreText, styles + moreStyles, encode, screen, kept[k])
    {
      assert ChangeShows(changes[k], changedText, styles, encode, screen, kept[k]);
      assert Slice(changedText + moreText, changes[k].textOffset, changes[k].textLength)
          == Slice(changedText, changes[k].textOffset, changes[k].textLength);
    }
  }

  /** What the draw has accumulated: changes with their text, and the two dirty summaries. */
  datatype Pass = Pass(changedCells: seq<ChangedCell>, changedText: Text, dirty: Region, dirtySpans: seq<Span>)

  /** The columns a visited cell takes up: a wide cell with its continuation. */
  function Extent(screen: Screen, visit: Visit): Span
    requires OnScreen(screen, visit)
  {
    var width := Drawn(screen, visit.row, visit.column).width;
    Span(visit.row, CellLeft(visit.column, width), CellRight(visit.column, width, screen.columns))
  }

  function Extents(screen: Screen, kept: seq<Visit>): seq<Span>
    requires forall k | 0 <= k < |kept| :: OnScreen(screen, kept[k])
  {
    seq(|kept|, k requires 0 <= k < |kept| => Extent(screen, kept[k]))
  }

  /** Both summaries are about the kept cells: the spans cover all of each kept cell, and the dirty region is
      the bounding box of the kept cells and of the spans. */
  ghost predicate DirtyCovers(pass: Pass, screen: Screen, kept: seq<Visit>) {
    && SpansFit(pass.dirtySpans, screen.columns, screen.rows) && pass.dirty == Hull(pass.dirtySpans)
    && (forall k | 0 <= k < |kept| :: OnScreen(screen, kept[k]))
    && pass.dirty == Hull(Extents(screen, kept))
    && (forall k | 0 <= k < |kept| :: CoversSpan(pass.dirtySpans, Extent(screen, kept[k])))
  }

  /** The cell comparison against the cache decides equality of what the two cells show. */
  lemma CacheComparisonDecides(row: PackedRow, column: nat, columns: nat, styles: seq<PackedStyle>,
                               encode: Encoder, cell: DrawnCell, styleIndex: nat)
    requires ValidRow(row, columns, |styles|) && column < columns && DistinctStyles(styles)
    requires styleIndex < |styles| && styles[styleIndex] == PackedStyleFor(cell.attr)
    ensures InText(row.text, row.cells[column].textOffset, row.cells[column].textLength)
    ensures CellViewOf(styles, RawOf(row, column)) == ViewOf(encode, cell) <==>
      var cached := row.cells[column];
      && cached.styleIndex == styleIndex && cached.width == cell.width
      && cached.codepoint == CellCodepoint(cell)
      && Slice(row.text, cached.textOffset, cached.textLength) == CellText(encode, cell)
  {
    CellTextInBounds(row, column);
    var cached := row.cells[column];
    if cached.styleIndex != styleIndex {
      assert styles[cached.styleIndex] != styles[styleIndex];
    }
  }

  lemma RecordedChangeShows(change: ChangedCell, changedText: Text, text: Text, encode: Encoder, screen: Screen,
                            visit: Visit, cell: DrawnCell, styles: seq<PackedStyle>, styleIndex: nat)
    requires OnScreen(screen, visit)
    requires cell == Drawn(screen, visit.row, visit.column) && text == CellText(encode, cell)
    requires |text| <= MAX_CELL_TEXT && cell.width < 256
    requires styleIndex < |styles| && styles[styleIndex] == PackedStyleFor(cell.attr)
    requires change == ChangedCell(visit.column, visit.row, cell.width, CellCodepoint(cell), styleIndex,
                                   |changedText|, |text|)
    ensures ChangeShows(change, changedText + text, styles, encode, screen, visit)
  {
    assert Slice(changedText + text, change.textOffset, change.textLength) == text;
  }

  method AppendChange(pass: Pass, encode: Encoder, ghost screen: Screen, visit: Visit, cell: DrawnCell,
                      ghost styles: seq<PackedStyle>, styleIndex: nat, text: Text, columns: nat, rows: nat,
                      ghost kept: seq<Visit>)
    returns (pass': Pass)
    requires OnScreen(screen, visit) && columns == screen.columns && rows == screen.rows
    requires cell == Drawn(screen, visit.row, visit.column) && text == CellText(encode, cell)
    requires |text| <= MAX_CELL_TEXT && cell.width < 256 && |pass.changedText| + MAX_CELL_TEXT < TWO_32
    requires styleIndex < |styles| && styles[styleIndex] == PackedStyleFor(cell.attr)
    requires ChangesShow(pass.changedCells, pass.changedText, styles, encode, screen, kept)
    requires DirtyCovers(pass, screen, kept)
    ensures ChangesShow(pass'.changedCells, pass'.changedText, styles, encode, screen, kept + [visit])
    ensures DirtyCovers(pass', screen, kept + [visit])
    ensures |pass'.changedText| <= |pass.changedText| + MAX_CELL_TEXT
    ensures |pass'.changedCells| == |pass.changedCells| + 1
  {
    hide DirtyCovers, IncludeDirty, IncludeCellSpan, ChangeShows;
    var dirty := IncludeDirty(pass.dirty, visit.column, visit.row, cell.width, columns, rows);
    var spans := IncludeCellSpan(pass.dirtySpans, visit.column, visit.row, cell.width, columns, rows);
    var changedText := pass.changedText + text;
    var offset := U32(|pass.changedText|);
    var change := ChangedCell(visit.column, visit.row, cell.width, CellCodepoint(cell), styleIndex,
                              offset, U32(|changedText| - offset));
    RecordedChangeShows(change, pass.changedText, text, encode, screen, visit, cell, styles, styleIndex);
    ChangesStillShow(pass.changedCells, pass.changedText, styles, encode, screen, kept, text, []);
    assert styles + [] == styles;
    pass' := Pass(pass.changedCells + [change], changedText, dirty, spans);
    DirtyGrows(pass, pass', screen, visit, cell.width, kept);
  }

  lemma ExtentsSnoc(screen: Screen, kept: seq<Visit>, visit: Visit)
    requires OnScreen(screen, visit) && forall k | 0 <= k < |kept| :: OnScreen(screen, kept[k])
    ensures forall k | 0 <= k < |kept + [visit]| :: OnScreen(screen, (kept + [visit])[k])
    ensures Hull(Extents(screen, kept + [visit])) == Join(Hull(Extents(screen, kept)), Box(Extent(screen, visit)))
  {
    hide Extent, OnScreen;
    assert Extents(screen, kept + [visit])[..|kept|] == Extents(screen, kept);
  }

  lemma DirtyGrows(pass: Pass, pass': Pass, screen: Screen, visit: Visit, width: nat, kept: seq<Visit>)
    requires OnScreen(screen, visit) && DirtyCovers(pass, screen, kept)
    requires width == Drawn(screen, visit.row, visit.column).width
    requires pass'.dirty == IncludeDirty(pass.dirty, visit.column, visit.row, width, screen.columns, screen.rows)
    requires pass'.dirtySpans
          == IncludeCellSpan(pass.dirtySpans, visit.column, visit.row, width, screen.columns, screen.rows)
    ensures DirtyCovers(pass', screen, kept + [visit])
  {
    hide IncludeDirty, IncludeCellSpan, Drawn, Extents, InSpan;
    IncludeCellIsExact(pass.dirtySpans, visit.column, visit.row, width, screen.columns, screen.rows);
    IncludeDirtyJoins(pass.dirty, visit.column, visit.row, width, screen.columns, screen.rows);
    ExtentsSnoc(screen, kept, visit);
    forall k | 0 <= k < |kept + [visit]|
      ensures CoversSpan(pass'.dirtySpans, Extent(screen, (kept + [visit])[k]))
    {
      if k < |kept| {
        assert CoversSpan(pass.dirtySpans, Extent(screen, kept[k]));
      }
    }
  }

  /** In particular every kept cell lies in some span. */
  lemma KeptCellsAreCovered(pass: Pass, screen: Screen, kept: seq<Visit>)
    requires DirtyCovers(pass, screen, kept)
    ensures forall k | 0 <= k < |kept| :: InSpans(pass.dirtySpans, kept[k].row, kept[k].column)
  {
    forall k | 0 <= k < |kept| ensures InSpans(pass.dirtySpans, kept[k].row, kept[k].column) {
      assert CoversSpan(pass.dirtySpans, Extent(screen, kept[k]));
    }
  }

  class PackedDrawContext {
    const grid: PackedGrid
    const params: DrawParams
    const encode: Encoder
    var pass: Pass
    var decodedCells: nat

    constructor (grid: PackedGrid, params: DrawParams, encode: Encoder, decodedCells: nat)
      ensures this.grid == grid && this.params == params && this.encode == encode
      ensures pass == Pass([], [], NOTHING, []) && this.decodedCells == decodedCells
    {
      this.grid, this.params, this.encode := grid, params, encode;
      pass, this.decodedCells := Pass([], [], NOTHING, []), decodedCells;
    }

    /** The grid still shows `base`, and the kept visits of `visits` have been collected. */
    ghost predicate Collected(palette: set<PackedStyle>, base: Picture, screen: Screen, visits: seq<Visit>)
      reads this, grid
    {
      && grid.Valid(palette) && grid.columns == screen.columns && grid.rows == screen.rows
      && Shaped(screen) && Sized(base, screen.columns, screen.rows) && grid.Picture() == base
      && (forall i | 0 <= i < |visits| :: OnScreen(screen, visits[i]))
      && var kept := KeptVisits(params, base, encode, screen, visits);
      && ChangesShow(pass.changedCells, pass.changedText, grid.styles, encode, screen, kept)
      && DirtyCovers(pass, screen, kept)
      && |pass.changedText| <= MAX_CELL_TEXT * |visits|
    }

    /** Is the drawn cell what the (rotated) cache already holds? */
    method CacheHolds(visit: Visit, cell: DrawnCell, styleIndex: nat, text: Text,
                      ghost palette: set<PackedStyle>) returns (same: bool)
      requires grid.Valid(palette) && visit.row < grid.rows && visit.column < grid.columns
      requires styleIndex < |grid.styles| && grid.styles[styleIndex] == PackedStyleFor(cell.attr)
      requires text == CellText(encode, cell)
      ensures same <==> params.reuseScrolledRows && grid.Picture()[visit.row][visit.column] == ViewOf(encode, cell)
    {
      if params.reuseScrolledRows && visit.row < |grid.rowData| {
        var row := grid.rowData[visit.row];
        assert ValidRow(row, grid.columns, |grid.styles|);
        if visit.column < |row.cells| {
          CacheComparisonDecides(row, visit.column, grid.columns, grid.styles, encode, cell, styleIndex);
          var cached := row.cells[visit.column];
          var textMatches := InText(row.text, cached.textOffset, cached.textLength)
            && cached.textLength == |text|
            && row.text[cached.textOffset..cached.textOffset + cached.textLength] == text;
          return cached.styleIndex == styleIndex && cached.width == cell.width
            && cached.codepoint == CellCodepoint(cell) && textMatches;
        }
      }
      same := false;
    }

    method DrawPackedCell(visit: Visit, cell: DrawnCell, ghost palette: set<PackedStyle>,
                          ghost base: Picture, ghost screen: Screen, ghost visits: seq<Visit>)
      requires Collected(palette, base, screen, visits) && OnScreen(screen, visit)
      requires cell == Drawn(screen, visit.row, visit.column)
      requires |CellText(encode, cell)| <= MAX_CELL_TEXT && cell.width < 256
      requires PackedStyleFor(cell.attr) in palette && |palette| <= MAX_STYLES
      requires MAX_CELL_TEXT * (|visits| + 1) < TWO_32
      modifies this`pass, this`decodedCells, grid`styles
      ensures Collected(palette, base, screen, visits + [visit])
      ensures decodedCells == old(decodedCells) + |pass.changedCells| - |old(pass.changedCells)|
      ensures old(grid.styles) <= grid.styles
    {
      hide DirtyCovers, ChangesShow;
      ghost var kept := KeptVisits(params, base, encode, screen, visits);
      assert (visits + [visit])[..|visits|] == visits && kept + [] == kept;
      if visit.column >= grid.columns || visit.row >= grid.rows {
        return;
      }
      if !Changed(params, visit) {
        return;
      }
      var styleIndex := AddStyle(PackedStyleFor(cell.attr), palette, base, screen, visits);
      var fits, text := EncodeCell(encode, cell);
      if !fits {
        return;
      }
      var same := CacheHolds(visit, cell, styleIndex, text, palette);
      if same {
        return;
      }
      decodedCells := decodedCells + 1;
      pass := AppendChange(pass, encode, screen, visit, cell, grid.styles, styleIndex, text,
                           grid.columns, grid.rows, kept);
    }

    /** Looking up the style of a cell may grow the table, and changes nothing else that matters. */
    method AddStyle(style: PackedStyle, ghost palette: set<PackedStyle>,
                    ghost base: Picture, ghost screen: Screen, ghost visits: seq<Visit>) returns (index: nat)
      requires Collected(palette, base, screen, visits)
      requires style in palette && |palette| <= MAX_STYLES
      modifies grid`styles
      ensures Collected(palette, base, screen, visits)
      ensures index < |grid.styles| && grid.styles[index] == style
      ensures old(grid.styles) <= grid.styles
    {
      ghost var before := grid.styles;
      RoomForStyle(before, style, palette);
      index := grid.StyleIndex(style);
      var added := grid.styles[|before|..];
      assert grid.styles == before + added;
      MoreStylesShowTheSame(before, added, grid.rowData, grid.columns);
      MoreStylesStayValid(grid.rowData, grid.columns, |before|, |grid.styles|);
      ChangesStillShow(pass.changedCells, pass.changedText, before, encode, screen,
                       KeptVisits(params, base, encode, screen, visits), [], added);
      assert pass.changedText + [] == pass.changedText;
    }
  }

  lemma RoomForStyle(styles: seq<PackedStyle>, style: PackedStyle, palette: set<PackedStyle>)
    requires ValidStyles(styles, palette) && style in palette && |palette| <= MAX_STYLES
    ensures style in styles || |styles| < MAX_STYLES
  {
    if style !in styles {
      DistinctStylesFit(styles, palette - {style});
    }
  }

  lemma MoreStylesStayValid(rowData: seq<PackedRow>, columns: nat, few: nat, many: nat)
    requires ValidRows(rowData, columns, few) && few <= many
    ensures ValidRows(rowData, columns, many)
  {
    forall r | 0 <= r < |rowData| ensures ValidRow(rowData[r], columns, many) {
      MoreStyles(rowData[r], columns, few, many);
    }
  }

  /** Rebuilding the changed rows turns the cached picture into the next one. */
  lemma RebuiltRowsShowNextPicture(
      params: DrawParams, base: Picture, encode: Encoder, screen: Screen, visits: seq<Visit>,
      styles: seq<PackedStyle>, before: seq<PackedRow>, after: seq<PackedRow>, pass: Pass)
    requires Shaped(screen) && Sized(base, screen.columns, screen.rows) && base == Shown(styles, before)
    requires forall i | 0 <= i < |visits| :: OnScreen(screen, visits[i])
    requires ChangesShow(pass.changedCells, pass.changedText, styles, encode, screen,
                         KeptVisits(params, base, encode, screen, visits))
    requires |after| == |before|
    requires forall r | 0 <= r < |before| ::
      RowRebuilt(before[r], after[r], pass.changedCells, pass.changedText, r)
    ensures Shown(styles, after) == NextPicture(params, base, encode, screen, visits)
  {
    var next := NextPicture(params, base, encode, screen, visits);
    forall r | 0 <= r < screen.rows ensures ShownRow(styles, after[r]) == next[r] {
      assert RowRebuilt(before[r], after[r], pass.changedCells, pass.changedText, r);
      assert |before[r].cells| == |base[r]| == screen.columns;
      forall c | 0 <= c < screen.columns ensures ShownRow(styles, after[r])[c] == next[r][c] {
        RebuiltCellShowsNext(params, base, encode, screen, visits, styles, before[r], pass, r, c);
      }
    }
  }

  lemma RebuiltCellShowsNext(
      params: DrawParams, base: Picture, encode: Encoder, screen: Screen, visits: seq<Visit>,
      styles: seq<PackedStyle>, before: PackedRow, pass: Pass, r: nat, c: nat)
    requires Shaped(screen) && Sized(base, screen.columns, screen.rows) && r < screen.rows && c < screen.columns
    requires |before.cells| == screen.columns && base[r] == ShownRow(styles, before)
    requires forall i | 0 <= i < |visits| :: OnScreen(screen, visits[i])
    requires ChangesShow(pass.changedCells, pass.changedText, styles, encode, screen,
                         KeptVisits(params, base, encode, screen, visits))
    ensures CellViewOf(styles, Override(before, pass.changedCells, pass.changedText, r, c))
         == NextPicture(params, base, encode, screen, visits)[r][c]
  {
    var kept := KeptVisits(params, base, encode, screen, visits);
    var changes := pass.changedCells;
    if i :| 0 <= i < |changes| && changes[i].row == r && changes[i].column == c {
      forall k | 0 <= k < |changes| && changes[k].row == r && changes[k].column == c
        ensures CellViewOf(styles, RawOfChange(changes[k], pass.changedText)) == ViewOf(encode, Drawn(screen, r, c))
      {
        assert ChangeShows(changes[k], pass.changedText, styles, encode, screen, kept[k]);
      }
      assert ChangeShows(changes[i], pass.changedText, styles, encode, screen, kept[i]);
      KeptIsPresented(params, base, encode, screen, visits, kept[i]);
    } else {
      forall k | 0 <= k < |kept| ensures kept[k].row != r || kept[k].column != c {
        assert ChangeShows(changes[k], pass.changedText, styles, encode, screen, kept[k]);
      }
      NotKeptIsCached(params, base, encode, screen, visits, r, c);
    }
  }

  lemma KeptIsPresented(params: DrawParams, base: Picture, encode: Encoder, screen: Screen,
                        visits: seq<Visit>, visit: Visit)
    requires Shaped(screen) && Sized(base, screen.columns, screen.rows)
    requires forall i | 0 <= i < |visits| :: OnScreen(screen, visits[i])
    requires visit in KeptVisits(params, base, encode, screen, visits)
    ensures Presented(params, visits, visit.row, visit.column)
  {
    KeptVisitsMembers(params, base, encode, screen, visits);
    var i :| 0 <= i < |visits| && visits[i] == visit;
  }

  /** A cell no kept visit belongs to holds what the (rotated) cache held. */
  lemma NotKeptIsCached(params: DrawParams, base: Picture, encode: Encoder, screen: Screen,
                        visits: seq<Visit>, r: nat, c: nat)
    requires Shaped(screen) && Sized(base, screen.columns, screen.rows) && r < screen.rows && c < screen.columns
    requires forall i | 0 <= i < |visits| :: OnScreen(screen, visits[i])
    requires var kept := KeptVisits(params, base, encode, screen, visits);
             forall k | 0 <= k < |kept| :: kept[k].row != r || kept[k].column != c
    ensures NextPicture(params, base, encode, screen, visits)[r][c] == base[r][c]
  {
    KeptVisitsMembers(params, base, encode, screen, visits);
    if Presented(params, visits, r, c) {
      var i :| 0 <= i < |visits| && visits[i].row == r && visits[i].column == c && Changed(params, visits[i]);
      assert visits[i] in visits;
      assert visits[i] !in KeptVisits(params, base, encode, screen, visits);
    }
  }

  /** The collected changes are fit to rebuild the grid with. */
  lemma CollectedChangesFit(
      params: DrawParams, base: Picture, encode: Encoder, screen: Screen, visits: seq<Visit>,
      styles: seq<PackedStyle>, pass: Pass)
    requires Shaped(screen) && Sized(base, screen.columns, screen.rows)
    requires forall i | 0 <= i < |visits| :: OnScreen(screen, visits[i])
    requires forall i, j | 0 <= i < j < |visits| ::
      visits[i].row != visits[j].row || visits[i].column != visits[j].column
    requires ChangesShow(pass.changedCells, pass.changedText, styles, encode, screen,
                         KeptVisits(params, base, encode, screen, visits))
    ensures OncePerCell(pass.changedCells) && |pass.changedCells| <= |visits|
    ensures ChangesFit(pass.changedCells, pass.changedText, screen.columns, screen.rows, |styles|)
  {
    var kept := KeptVisits(params, base, encode, screen, visits);
    KeptVisitsMembers(params, base, encode, screen, visits);
    forall k | 0 <= k < |kept|
      ensures ChangeShows(pass.changedCells[k], pass.changedText, styles, encode, screen, kept[k])
    {}
  }
}
