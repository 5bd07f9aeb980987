/** What a take repaints, cell by cell: the reference for the dirty region of a frame. */
module DrawFacts {
  import opened Options
  import opened Cells
  import opened ScreenModel
  import opened DrawPass
  import opened DrawContext
  import opened Dirty
  import opened Frames
  import opened FrameAssembly
  import opened Sessions

  /** What a take starts from: the screen and what its draw visits, the age of the last draw, the cursors of the
      last frame and of this one, the picture last shown, and the pending content scroll. */
  datatype Drawing = Drawing(
    screen: Screen, encode: Encoder, visits: seq<Visit>, lastAge: nat, lastCursor: Cursor, cursor: Cursor,
    shown: Picture, content: int)
  {
    ghost predicate Fits() {
      && Shaped(screen) && Sized(shown, screen.columns, screen.rows)
      && forall i | 0 <= i < |visits| :: OnScreen(screen, visits[i])
    }

    /** The cell that the scroll moves to (r, c): blank if it comes from off screen. */
    ghost function MovedHere(r: nat, c: nat): CellView
      requires Fits() && r < screen.rows && c < screen.columns
    {
      if 0 <= r + content < screen.rows then shown[r + content][c] else BLANK
    }

    predicate CursorMovedFromOrTo(r: nat, c: nat) {
      && cursor != lastCursor
      && ((r == lastCursor.y && c == lastCursor.x) || (r == cursor.y && c == cursor.x))
    }

    /** The draw visits the cell as newer than the last draw, or under a changed cursor; and after a scroll it does
        not already show what was moved there. */
    ghost predicate Repaints(r: nat, c: nat)
      requires Fits()
    {
      && r < screen.rows && c < screen.columns
      && (exists i :: 0 <= i < |visits| && visits[i].row == r && visits[i].column == c
            && (visits[i].age == 0 || visits[i].age > lastAge || CursorMovedFromOrTo(r, c)))
      && (content != 0 ==> !ShowsAt(encode, MovedHere(r, c), screen, r, c))
    }

    /** A cell of width w takes up w columns; the second half of a wide cell takes up its neighbours. */
    predicate TakesUp(r: nat, c: nat, k: nat)
      requires Shaped(screen) && r < screen.rows && c < screen.columns
    {
      var width := screen.cells[r][c].width;
      if width == 0 then c <= k + 1 && k <= c + 1 else c <= k < c + width
    }

    /** The cell at (r, k) has to be painted anew. */
    ghost predicate Touches(r: nat, k: nat)
      requires Fits()
    {
      || (exists c: nat :: Repaints(r, c) && TakesUp(r, c, k))
      || CursorMovedFromOrTo(r, k)
      || (content != 0 && !(0 <= r + content < screen.rows))
    }

    /** `dirty` is the bounding box of the touched cells: a region holds it exactly if it holds each of them. */
    ghost predicate Bounds(dirty: Region)
      requires Fits()
    {
      forall outer :: Within(outer, dirty) <==> HoldsTouched(outer)
    }

    ghost predicate HoldsTouched(outer: Region)
      requires Fits()
    {
      forall r: nat, k: nat | r < screen.rows && k < screen.columns && Touches(r, k) :: Inside(outer, r, k)
    }

    /** Every touched cell lies in some span. */
    ghost predicate CoveredBy(spans: seq<Span>)
      requires Fits()
    {
      forall r: nat, k: nat | r < screen.rows && k < screen.columns && Touches(r, k) :: InSpans(spans, r, k)
    }
  }

  lemma BoxHoldsItsCells(outer: Region, span: Span)
    requires span.left < span.right
    ensures Within(outer, Box(span)) <==> forall k: nat | span.left <= k < span.right :: Inside(outer, span.row, k)
  {
    if forall k: nat | span.left <= k < span.right :: Inside(outer, span.row, k) {
      assert Inside(outer, span.row, span.left) && Inside(outer, span.row, span.right - 1);
    }
  }

  lemma ExtentIsWhatItTakesUp(d: Drawing, visit: Visit, k: nat)
    requires OnScreen(d.screen, visit)
    ensures InSpan(Extent(d.screen, visit), visit.row, k) <==>
      k < d.screen.columns && d.TakesUp(visit.row, visit.column, k)
    ensures var extent := Extent(d.screen, visit);
            extent.row == visit.row && extent.left < extent.right <= d.screen.columns
  {
  }

  /** The parameters and rows of a draw that is not forced to redraw everything. */
  ghost predicate Unforced(d: Drawing, params: DrawParams, base: Picture)
    requires d.Fits()
  {
    && !params.fullRepaint && params.previousAge == d.lastAge
    && params.cursorChanged == (d.cursor != d.lastCursor)
    && params.previousX == d.lastCursor.x && params.previousY == d.lastCursor.y
    && params.cursorX == d.cursor.x && params.cursorY == d.cursor.y
    && params.reuseScrolledRows == (d.content != 0)
    && base == CachedRows(d.shown, d.content != 0, d.screen.columns, d.content)
  }

  lemma KeptIsRepainted(d: Drawing, params: DrawParams, base: Picture, r: nat, c: nat)
    requires d.Fits() && Unforced(d, params, base) && Sized(base, d.screen.columns, d.screen.rows)
    ensures d.Repaints(r, c) <==>
      exists i :: 0 <= i < |d.visits| && d.visits[i].row == r && d.visits[i].column == c
                  && Kept(params, base, d.encode, d.screen, d.visits[i])
  {
    if r < d.screen.rows && c < d.screen.columns && d.content != 0 {
      ViewShowsScreenCell(d.encode, d.MovedHere(r, c), d.screen, r, c);
      assert base[r][c] == d.MovedHere(r, c);
    }
    hide ShowsAt, ViewOf, Drawn;
  }

  /** The kept cells' box lies in exactly the regions that hold all that the repainted cells take up. */
  lemma DrawnBoxIsExact(d: Drawing, params: DrawParams, base: Picture, pass: Pass, outer: Region)
    requires d.Fits() && Unforced(d, params, base) && Sized(base, d.screen.columns, d.screen.rows)
    requires DirtyCovers(pass, d.screen, KeptVisits(params, base, d.encode, d.screen, d.visits))
    ensures Within(outer, pass.dirty) <==>
      forall r: nat, c: nat, k: nat | d.Repaints(r, c) && k < d.screen.columns && d.TakesUp(r, c, k) ::
        Inside(outer, r, k)
  {
    hide Kept, Hull, Within, Inside, OnScreen;
    var kept := KeptVisits(params, base, d.encode, d.screen, d.visits);
    var extents := Extents(d.screen, kept);
    KeptVisitsMembers(params, base, d.encode, d.screen, d.visits);
    HullIsTheBoundingBox(extents, outer);
    if Within(outer, pass.dirty) {
      forall r: nat, c: nat, k: nat | d.Repaints(r, c) && k < d.screen.columns && d.TakesUp(r, c, k)
        ensures Inside(outer, r, k)
      {
        RepaintedIsKept(d, params, base, kept, r, c);
        var n :| 0 <= n < |kept| && kept[n].row == r && kept[n].column == c;
        ExtentIsWhatItTakesUp(d, kept[n], k);
        BoxHoldsItsCells(outer, extents[n]);
      }
    }
    if forall r: nat, c: nat, k: nat | d.Repaints(r, c) && k < d.screen.columns && d.TakesUp(r, c, k) ::
         Inside(outer, r, k)
    {
      forall n | 0 <= n < |kept| ensures Within(outer, Box(extents[n])) {
        KeptIsRepaintedAt(d, params, base, kept, n);
        forall k: nat | extents[n].left <= k < extents[n].right ensures Inside(outer, extents[n].row, k) {
          ExtentIsWhatItTakesUp(d, kept[n], k);
        }
        ExtentIsWhatItTakesUp(d, kept[n], 0);
        BoxHoldsItsCells(outer, extents[n]);
      }
    }
  }

  lemma RepaintedIsKept(d: Drawing, params: DrawParams, base: Picture, kept: seq<Visit>, r: nat, c: nat)
    requires d.Fits() && Unforced(d, params, base) && Sized(base, d.screen.columns, d.screen.rows)
    requires kept == KeptVisits(params, base, d.encode, d.screen, d.visits) && d.Repaints(r, c)
    ensures exists n :: 0 <= n < |kept| && kept[n].row == r && kept[n].column == c && OnScreen(d.screen, kept[n])
  {
    KeptVisitsMembers(params, base, d.encode, d.screen, d.visits);
    KeptIsRepainted(d, params, base, r, c);
    hide Kept;
    var i :| 0 <= i < |d.visits| && d.visits[i].row == r && d.visits[i].column == c
             && Kept(params, base, d.encode, d.screen, d.visits[i]);
    assert d.visits[i] in kept;
  }

  lemma KeptIsRepaintedAt(d: Drawing, params: DrawParams, base: Picture, kept: seq<Visit>, n: nat)
    requires d.Fits() && Unforced(d, params, base) && Sized(base, d.screen.columns, d.screen.rows)
    requires kept == KeptVisits(params, base, d.encode, d.screen, d.visits) && n < |kept|
    ensures OnScreen(d.screen, kept[n]) && d.Repaints(kept[n].row, kept[n].column)
  {
    KeptVisitsMembers(params, base, d.encode, d.screen, d.visits);
    KeptIsRepainted(d, params, base, kept[n].row, kept[n].column);
    assert kept[n] in kept;
  }

  lemma CursorBoxIsExact(outer: Region, x: nat, y: nat, columns: nat, rows: nat)
    ensures Within(outer, CursorBox(x, y, columns, rows)) <==> (x < columns && y < rows ==> Inside(outer, y, x))
  {
  }

  lemma ExposedRowsAreExact(outer: Region, delta: int, columns: nat, rows: nat)
    requires delta != 0 && columns > 0 && rows > 0
    ensures Within(outer, ExposedRows(delta, columns, rows)) <==>
      forall r: nat, k: nat | r < rows && k < columns && !(0 <= r + delta < rows) :: Inside(outer, r, k)
  {
    var exposed := ExposedRows(delta, columns, rows);
    if forall r: nat, k: nat | r < rows && k < columns && !(0 <= r + delta < rows) :: Inside(outer, r, k) {
      assert Inside(outer, exposed.top, 0) && Inside(outer, exposed.bottom - 1, columns - 1);
    }
  }

  lemma CursorsAndExposedAreExact(d: Drawing, params: DrawParams, base: Picture, outer: Region)
    requires d.Fits() && Unforced(d, params, base)
    ensures HoldsCursorsAndExposed(outer, params, d.content, d.screen.columns, d.screen.rows) <==>
      forall r: nat, k: nat | r < d.screen.rows && k < d.screen.columns
                              && (d.CursorMovedFromOrTo(r, k)
                                  || (d.content != 0 && !(0 <= r + d.content < d.screen.rows))) ::
        Inside(outer, r, k)
  {
    hide Within, Inside, CursorBox, ExposedRows;
    var columns, rows := d.screen.columns, d.screen.rows;
    CursorBoxIsExact(outer, d.lastCursor.x, d.lastCursor.y, columns, rows);
    CursorBoxIsExact(outer, d.cursor.x, d.cursor.y, columns, rows);
    if d.content != 0 {
      ExposedRowsAreExact(outer, d.content, columns, rows);
    }
    if d.cursor != d.lastCursor {
      assert d.CursorMovedFromOrTo(d.lastCursor.y, d.lastCursor.x) && d.CursorMovedFromOrTo(d.cursor.y, d.cursor.x);
    }
  }

  /** The dirty region of a frame that is not forced to redraw everything is exactly what it touches. */
  lemma DirtyIsExactlyTouched(d: Drawing, params: DrawParams, base: Picture, pass: Pass, dirty: Region)
    requires d.Fits() && Unforced(d, params, base) && Sized(base, d.screen.columns, d.screen.rows)
    requires DirtyCovers(pass, d.screen, KeptVisits(params, base, d.encode, d.screen, d.visits))
    requires BoundsExactly(dirty, pass.dirty, params, d.content, d.screen.columns, d.screen.rows)
    ensures d.Bounds(dirty)
  {
    hide Unforced, DirtyCovers, Within, Inside;
    forall outer ensures Within(outer, dirty) <==> d.HoldsTouched(outer) {
      DrawnBoxIsExact(d, params, base, pass, outer);
      CursorsAndExposedAreExact(d, params, base, outer);
      TouchedInParts(d, outer);
    }
  }

  lemma TouchedInParts(d: Drawing, outer: Region)
    requires d.Fits()
    ensures d.HoldsTouched(outer) <==>
      && (forall r: nat, c: nat, k: nat | d.Repaints(r, c) && k < d.screen.columns && d.TakesUp(r, c, k) ::
            Inside(outer, r, k))
      && (forall r: nat, k: nat | r < d.screen.rows && k < d.screen.columns
                                  && (d.CursorMovedFromOrTo(r, k)
                                      || (d.content != 0 && !(0 <= r + d.content < d.screen.rows))) ::
            Inside(outer, r, k))
  {
    hide Inside;
  }

  /** Nothing newer, the cursor where it was, and no scroll: nothing is touched, and nothing is dirty. */
  lemma QuietDrawTouchesNothing(d: Drawing, dirty: Region)
    requires d.Fits() && d.Bounds(dirty) && d.cursor == d.lastCursor && d.content == 0
    requires forall i | 0 <= i < |d.visits| :: 0 < d.visits[i].age <= d.lastAge
    ensures Empty(dirty)
  {
    assert Within(NOTHING, dirty) <==> d.HoldsTouched(NOTHING);
  }

  lemma TouchedIsCovered(d: Drawing, params: DrawParams, base: Picture, pass: Pass, spans: seq<Span>)
    requires d.Fits() && Unforced(d, params, base) && Sized(base, d.screen.columns, d.screen.rows)
    requires DirtyCovers(pass, d.screen, KeptVisits(params, base, d.encode, d.screen, d.visits))
    requires forall r: nat, c: nat | InSpans(pass.dirtySpans, r, c) :: InSpans(spans, r, c)
    requires params.cursorChanged && params.previousX < d.screen.columns && params.previousY < d.screen.rows ==>
      InSpans(spans, params.previousY, params.previousX)
    requires params.cursorChanged && params.cursorX < d.screen.columns && params.cursorY < d.screen.rows ==>
      InSpans(spans, params.cursorY, params.cursorX)
    requires params.reuseScrolledRows ==>
      forall r: nat, c: nat | r < d.screen.rows && c < d.screen.columns && Exposed(d.content, d.screen.rows, r) ::
        InSpans(spans, r, c)
    ensures d.CoveredBy(spans)
  {
    hide InSpans, KeptVisits, Kept, OnScreen, Hull;
    var kept := KeptVisits(params, base, d.encode, d.screen, d.visits);
    forall r: nat, k: nat | r < d.screen.rows && k < d.screen.columns && d.Touches(r, k) ensures InSpans(spans, r, k) {
      if c: nat :| d.Repaints(r, c) && d.TakesUp(r, c, k) {
        RepaintedIsKept(d, params, base, kept, r, c);
        var n :| 0 <= n < |kept| && kept[n].row == r && kept[n].column == c;
        ExtentIsWhatItTakesUp(d, kept[n], k);
        assert CoversSpan(pass.dirtySpans, Extent(d.screen, kept[n]));
      }
    }
  }

  // ---- What the frame of a take says ----

  /** What a take starts from: `mustRedraw` if there is no valid frame to build on, the size or the screen is another
      one, or the content scrolled and its rows cannot be reused. */
  datatype Start = Start(mustRedraw: bool, drawing: Option<Drawing>, content: int, viewport: int, generation: nat)

  /** Nothing newer, the cursor where it was, no content scroll. */
  ghost predicate Quiet(d: Drawing) {
    && d.cursor == d.lastCursor && d.content == 0
    && forall i | 0 <= i < |d.visits| :: 0 < d.visits[i].age <= d.lastAge
  }

  /** A frame repaints everything exactly if it must, the draw starts anew, or what it touches spans the grid; any
      other frame's dirty region is the bounding box of what it touches, and its spans cover that. A quiet take
      gives an unchanged frame. */
  ghost predicate Answers(start: Start, info: FrameInfo, screen: Screen, age: nat) {
    && (info.fullRepaint <==> start.mustRedraw || age == 0 || info.dirty == Whole(screen.columns, screen.rows))
    && (info.changed <==> info.fullRepaint || !Empty(info.dirty))
    && info.generation == start.generation + (if info.changed then 1 else 0)
    && info.scrollDelta == (if start.content != 0 then start.content else start.viewport)
    && info.scrollKind == ScrolledBy(start.content != 0, start.viewport != 0)
    && (!start.mustRedraw && age != 0 ==>
          && start.drawing.Some?
          && var d := start.drawing.value;
          && d.Fits() && d.Bounds(info.dirty) && d.CoveredBy(info.spans)
          && (Quiet(d) ==> Empty(info.dirty) && !info.changed && info.generation == start.generation))
  }

  lemma FrameAnswers(start: Start, info: FrameInfo, screen: Screen, age: nat)
    requires WellFormed(info) && info.columns == screen.columns && info.rows == screen.rows
    requires info.fullRepaint <==> start.mustRedraw || age == 0 || info.dirty == Whole(screen.columns, screen.rows)
    requires info.generation == start.generation + (if info.changed then 1 else 0)
    requires info.scrollDelta == if start.content != 0 then start.content else start.viewport
    requires info.scrollKind == ScrolledBy(start.content != 0, start.viewport != 0)
    requires !start.mustRedraw && age != 0 ==>
      && start.drawing.Some?
      && var d := start.drawing.value;
      && d.Fits() && d.Bounds(info.dirty) && d.CoveredBy(info.spans)
    ensures Answers(start, info, screen, age)
  {
    if !start.mustRedraw && age != 0 && Quiet(start.drawing.value) {
      QuietDrawTouchesNothing(start.drawing.value, info.dirty);
    }
  }
}
