/** Turning a finished draw into frame metadata, and why that metadata is right. */
module FrameAssembly {
  import opened Cells
  import opened ScreenModel
  import opened DrawPass
  import opened DrawContext
  import opened Dirty
  import opened Frames

  function Abs(n: int): nat { if n < 0 then -n else n }

  /** Rows that a scroll by `delta` brings on screen. */
  predicate Exposed(delta: int, rows: nat, r: nat) { !(0 <= r + delta < rows) }

  /** The cell at (x, y), if it is on screen. */
  function CursorBox(x: nat, y: nat, columns: nat, rows: nat): Region {
    if x < columns && y < rows then Region(x, y, x + 1, y + 1) else NOTHING
  }

  function ExposedRows(delta: int, columns: nat, rows: nat): Region {
    if delta > 0 then Region(0, rows - Min(delta, rows), columns, rows) else Region(0, 0, columns, Min(-delta, rows))
  }

  /** `dirty` is the bounding box of what was drawn, both cursor cells if the cursor changed, and the rows
      a reused scroll exposed: it lies in exactly the regions that hold all of these. */
  ghost predicate BoundsExactly(dirty: Region, drawn: Region, params: DrawParams, delta: int, columns: nat, rows: nat) {
    forall outer :: Within(outer, dirty) <==>
      Within(outer, drawn) && HoldsCursorsAndExposed(outer, params, delta, columns, rows)
  }

  predicate HoldsCursorsAndExposed(outer: Region, params: DrawParams, delta: int, columns: nat, rows: nat) {
    && (params.cursorChanged ==>
          && Within(outer, CursorBox(params.previousX, params.previousY, columns, rows))
          && Within(outer, CursorBox(params.cursorX, params.cursorY, columns, rows)))
    && (params.reuseScrolledRows ==> Within(outer, ExposedRows(delta, columns, rows)))
  }

  lemma DeltaMattersOnlyForReuse(dirty: Region, drawn: Region, params: DrawParams, a: int, b: int,
                                 columns: nat, rows: nat)
    requires params.reuseScrolledRows ==> a == b
    ensures BoundsExactly(dirty, drawn, params, a, columns, rows) <==>
            BoundsExactly(dirty, drawn, params, b, columns, rows)
  {
    assert forall outer :: HoldsCursorsAndExposed(outer, params, a, columns, rows)
                      <==> HoldsCursorsAndExposed(outer, params, b, columns, rows);
  }

  method IncludeCursorCell(dirty: Region, spans: seq<Span>, x: nat, y: nat, columns: nat, rows: nat)
    returns (dirty': Region, spans': seq<Span>)
    requires SpansFit(spans, columns, rows) && dirty == Hull(spans)
    ensures SpansFit(spans', columns, rows) && dirty' == Hull(spans')
    ensures forall r: nat, c: nat | InSpans(spans, r, c) :: InSpans(spans', r, c)
    ensures x < columns && y < rows ==> InSpans(spans', y, x)
    ensures dirty' == Join(dirty, CursorBox(x, y, columns, rows))
  {
    dirty' := IncludeDirty(dirty, x, y, 1, columns, rows);
    spans' := IncludeCellSpan(spans, x, y, 1, columns, rows);
    if x < columns && y < rows {
      IncludeCellIsExact(spans, x, y, 1, columns, rows);
    }
  }

  /** The dirty region, the dirty spans and the repaint flag of a frame, after its draw. */
  method FinishDirty(pass: Pass, params: DrawParams, contentDelta: int, age: nat, columns: nat, rows: nat)
    returns (dirty: Region, spans: seq<Span>, fullRepaint: bool)
    requires columns > 0 && rows > 0
    requires SpansFit(pass.dirtySpans, columns, rows) && pass.dirty == Hull(pass.dirtySpans)
    requires params.fullRepaint ==>
      InSpans(pass.dirtySpans, 0, 0) && InSpans(pass.dirtySpans, rows - 1, columns - 1)
    requires params.reuseScrolledRows ==> 0 < Abs(contentDelta) < rows
    ensures SpansFit(spans, columns, rows) && dirty == Hull(spans)
    ensures params.fullRepaint || age == 0 ==> fullRepaint
    ensures fullRepaint <==> dirty == Whole(columns, rows)
    ensures fullRepaint ==> FullSpans(spans, columns, rows)
    ensures !params.fullRepaint && age != 0 ==> BoundsExactly(dirty, pass.dirty, params, contentDelta, columns, rows)
    ensures forall r: nat, c: nat | InSpans(pass.dirtySpans, r, c) :: InSpans(spans, r, c)
    ensures params.cursorChanged && params.previousX < columns && params.previousY < rows ==>
      InSpans(spans, params.previousY, params.previousX)
    ensures params.cursorChanged && params.cursorX < columns && params.cursorY < rows ==>
      InSpans(spans, params.cursorY, params.cursorX)
    ensures params.reuseScrolledRows ==>
      forall r: nat, c: nat | r < rows && c < columns && Exposed(contentDelta, rows, r) :: InSpans(spans, r, c)
  {
    hide BoundsExactly, Hull;
    dirty, spans, fullRepaint := pass.dirty, pass.dirtySpans, params.fullRepaint;
    if params.cursorChanged {
      dirty, spans := IncludeCursorCell(dirty, spans, params.previousX, params.previousY, columns, rows);
      dirty, spans := IncludeCursorCell(dirty, spans, params.cursorX, params.cursorY, columns, rows);
    }
    if params.reuseScrolledRows {
      var distance := Abs(contentDelta);
      if contentDelta > 0 {
        dirty, spans := IncludeRows(dirty, spans, rows - distance, rows, columns, rows);
      } else {
        dirty, spans := IncludeRows(dirty, spans, 0, distance, columns, rows);
      }
    }
    BoxOfAllParts(dirty, pass.dirty, params, contentDelta, columns, rows);
    if params.fullRepaint {
      CoveringSpansHaveWholeHull(spans, columns, rows);
    }
    if age == 0 {
      fullRepaint := true;
      dirty := Whole(columns, rows);
    }
    if fullRepaint && Empty(dirty) {
      dirty := Whole(columns, rows);
    }
    if !Empty(dirty) && dirty == Whole(columns, rows) {
      fullRepaint := true;
    }
    if fullRepaint {
      ghost var partial := spans;
      spans := IncludeFullSpans(columns, rows);
      FullSpansCoverAll(spans, columns, rows);
      CoveringSpansHaveWholeHull(spans, columns, rows);
      SpansStayOnScreen(partial, columns, rows);
    }
  }

  lemma BoxOfAllParts(dirty: Region, drawn: Region, params: DrawParams, delta: int, columns: nat, rows: nat)
    requires var cursor :=
               if params.cursorChanged
               then Join(Join(drawn, CursorBox(params.previousX, params.previousY, columns, rows)),
                         CursorBox(params.cursorX, params.cursorY, columns, rows))
               else drawn;
             dirty == if params.reuseScrolledRows then Join(cursor, ExposedRows(delta, columns, rows)) else cursor
    ensures BoundsExactly(dirty, drawn, params, delta, columns, rows)
  {
    hide Within, Join, CursorBox, ExposedRows;
    var first := Join(drawn, CursorBox(params.previousX, params.previousY, columns, rows));
    var both := Join(first, CursorBox(params.cursorX, params.cursorY, columns, rows));
    forall outer
      ensures Within(outer, dirty) <==>
        Within(outer, drawn) && HoldsCursorsAndExposed(outer, params, delta, columns, rows)
    {
      JoinIsLeast(drawn, CursorBox(params.previousX, params.previousY, columns, rows), outer);
      JoinIsLeast(first, CursorBox(params.cursorX, params.cursorY, columns, rows), outer);
      JoinIsLeast(if params.cursorChanged then both else drawn, ExposedRows(delta, columns, rows), outer);
    }
  }

  lemma SpansStayOnScreen(spans: seq<Span>, columns: nat, rows: nat)
    requires SpansFit(spans, columns, rows)
    ensures forall r: nat, c: nat | InSpans(spans, r, c) :: r < rows && c < columns
  {
  }

  /** If the draw presents every cell as changed and nothing is dropped, every cell is dirty. */
  lemma EverythingKept(params: DrawParams, base: Picture, encode: Encoder, last: Screen, screen: Screen,
                       visits: seq<Visit>, age: nat, pass: Pass)
    requires Shaped(screen) && Sized(base, screen.columns, screen.rows)
    requires Draws(last, screen, if params.fullRepaint then 0 else params.previousAge, visits, age)
    requires !params.reuseScrolledRows
    requires params.fullRepaint || age == 0 || Newer(screen, params.previousAge)
    requires DirtyCovers(pass, screen, KeptVisits(params, base, encode, screen, visits))
    ensures forall r: nat, c: nat | r < screen.rows && c < screen.columns :: InSpans(pass.dirtySpans, r, c)
  {
    var kept := KeptVisits(params, base, encode, screen, visits);
    KeptVisitsMembers(params, base, encode, screen, visits);
    KeptCellsAreCovered(pass, screen, kept);
    forall r: nat, c: nat | r < screen.rows && c < screen.columns ensures InSpans(pass.dirtySpans, r, c) {
      assert Visited(visits, r, c);
      var i :| 0 <= i < |visits| && visits[i].row == r && visits[i].column == c;
      assert visits[i] in visits && Kept(params, base, encode, screen, visits[i]);
      var k :| 0 <= k < |kept| && kept[k] == visits[i];
    }
  }

  /** A cell outside the dirty region holds what the (rotated) cache held. */
  lemma CleanCellsComeFromTheCache(params: DrawParams, base: Picture, encode: Encoder, screen: Screen,
                                   visits: seq<Visit>, pass: Pass, spans: seq<Span>, r: nat, c: nat)
    requires Shaped(screen) && Sized(base, screen.columns, screen.rows) && r < screen.rows && c < screen.columns
    requires forall i | 0 <= i < |visits| :: OnScreen(screen, visits[i])
    requires DirtyCovers(pass, screen, KeptVisits(params, base, encode, screen, visits))
    requires forall r: nat, c: nat | InSpans(pass.dirtySpans, r, c) :: InSpans(spans, r, c)
    requires !InSpans(spans, r, c)
    ensures NextPicture(params, base, encode, screen, visits)[r][c] == base[r][c]
  {
    KeptCellsAreCovered(pass, screen, KeptVisits(params, base, encode, screen, visits));
    NotKeptIsCached(params, base, encode, screen, visits, r, c);
  }

  lemma CellOutsideHullIsClean(spans: seq<Span>, columns: nat, rows: nat, r: nat, c: nat)
    requires SpansFit(spans, columns, rows) && !Inside(Hull(spans), r, c)
    ensures !InSpans(spans, r, c)
  {
    if InSpans(spans, r, c) {
      SpanCellIsInHull(spans, columns, rows, r, c);
    }
  }

  lemma CleanCellIsExplained(base: Picture, before: Picture, columns: nat, rows: nat, spans: seq<Span>,
                             reuse: bool, delta: int, r: nat, c: nat)
    requires Sized(before, columns, rows) && r < rows && c < columns && !InSpans(spans, r, c)
    requires if reuse then base == Rotated(before, columns, delta) else base == before && delta == 0
    requires reuse ==>
      forall r: nat, c: nat | r < rows && c < columns && Exposed(delta, rows, r) :: InSpans(spans, r, c)
    ensures 0 <= r + delta < rows && Sized(base, columns, rows) && base[r][c] == before[r + delta][c]
  {
    hide InSpans;
    if reuse {
      assert !Exposed(delta, rows, r);
    }
  }

  /** The frame metadata explain the new picture from the one before. */
  lemma MetadataExplainPicture(
      params: DrawParams, before: Picture, base: Picture, encode: Encoder, screen: Screen, visits: seq<Visit>,
      pass: Pass, dirty: Region, spans: seq<Span>, delta: int)
    requires Shaped(screen) && Sized(base, screen.columns, screen.rows)
    requires forall i | 0 <= i < |visits| :: OnScreen(screen, visits[i])
    requires DirtyCovers(pass, screen, KeptVisits(params, base, encode, screen, visits))
    requires forall r: nat, c: nat | InSpans(pass.dirtySpans, r, c) :: InSpans(spans, r, c)
    requires SpansFit(spans, screen.columns, screen.rows) && dirty == Hull(spans)
    requires Sized(before, screen.columns, screen.rows)
    requires if params.reuseScrolledRows then base == Rotated(before, screen.columns, delta)
             else base == before && delta == 0
    requires params.reuseScrolledRows ==>
      forall r: nat, c: nat | r < screen.rows && c < screen.columns && Exposed(delta, screen.rows, r) ::
        InSpans(spans, r, c)
    ensures Explains(before, NextPicture(params, base, encode, screen, visits),
                     screen.columns, screen.rows, delta, dirty)
  {
    hide DirtyCovers, KeptVisits, Hull, SpansFit, InSpans, Inside, Exposed, Rotated, OnScreen;
    var next := NextPicture(params, base, encode, screen, visits);
    forall r, c | 0 <= r < screen.rows && 0 <= c < screen.columns && !Inside(dirty, r, c)
      ensures 0 <= r + delta < screen.rows && next[r][c] == before[r + delta][c]
    {
      CellOutsideHullIsClean(spans, screen.columns, screen.rows, r, c);
      CleanCellsComeFromTheCache(params, base, encode, screen, visits, pass, spans, r, c);
      CleanCellIsExplained(base, before, screen.columns, screen.rows, spans, params.reuseScrolledRows, delta, r, c);
    }
  }
}
