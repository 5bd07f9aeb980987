/** The frame engine: feeding output, scrolling, resizing, and taking frames from a shared cache. */
module TerminalCore {
  import opened Options
  import opened Cells
  import opened PackedRows
  import opened PackedGrids
  import opened ScreenModel
  import opened DrawPass
  import opened GridCache
  import opened DrawContext
  import opened Dirty
  import opened Frames
  import opened FrameAssembly
  import opened Sessions
  import opened DrawFacts
  import ScrollDetection
  import CursorStyles

  class PackedFrame {
    const info: FrameInfo
    const grid: PackedGrid

    constructor (info: FrameInfo, grid: PackedGrid)
      ensures this.info == info && this.grid == grid
    {
      this.info, this.grid := info, grid;
    }
  }

  function CellsOn(screen: Screen): nat { screen.columns * screen.rows }

  lemma GridFits(screen: Screen)
    requires Shaped(screen) && MAX_CELL_TEXT * (screen.rows * screen.columns) < TWO_32
    ensures MAX_CELL_TEXT * screen.columns < TWO_32 && screen.columns < TWO_32
  {
    assert screen.rows * screen.columns == (screen.rows - 1) * screen.columns + screen.columns;
  }

  /** Everything a finished draw and its metadata say about the next frame. */
  ghost predicate Finished(plan: Plan, params: DrawParams, generation: nat, base: Picture, encode: Encoder,
                           lastScreen: Screen, screen: Screen, visits: seq<Visit>, age: nat, pass: Pass,
                           info: FrameInfo)
    requires Shaped(screen)
  {
    && Sized(base, screen.columns, screen.rows)
    && params.fullRepaint == plan.fullRepaint && params.reuseScrolledRows == plan.reuseScrolledRows
    && Draws(lastScreen, screen, if params.fullRepaint then 0 else params.previousAge, visits, age)
    && DirtyCovers(pass, screen, KeptVisits(params, base, encode, screen, visits))
    && SpansFit(info.spans, screen.columns, screen.rows) && info.dirty == Hull(info.spans)
    && (params.fullRepaint || age == 0 ==> info.fullRepaint)
    && (info.fullRepaint <==> info.dirty == Whole(screen.columns, screen.rows))
    && (info.fullRepaint ==> FullSpans(info.spans, screen.columns, screen.rows))
    && (forall r: nat, c: nat | InSpans(pass.dirtySpans, r, c) :: InSpans(info.spans, r, c))
    && (params.cursorChanged ==> InSpans(info.spans, params.cursorY, params.cursorX))
    && (params.reuseScrolledRows ==>
          forall r: nat, c: nat | r < screen.rows && c < screen.columns && Exposed(plan.scrollDelta, screen.rows, r) ::
            InSpans(info.spans, r, c))
    && info.columns == screen.columns && info.rows == screen.rows && info.scrollDelta == plan.scrollDelta
    && info.picture == NextPicture(params, base, encode, screen, visits)
    && info.changed == (info.fullRepaint || !Empty(info.dirty))
    && info.generation == generation + (if info.changed then 1 else 0)
  }

  lemma FinishedIsWellFormed(plan: Plan, params: DrawParams, generation: nat, base: Picture, encode: Encoder,
                             lastScreen: Screen, screen: Screen, visits: seq<Visit>, age: nat, pass: Pass,
                             info: FrameInfo)
    requires Shaped(screen)
    requires Finished(plan, params, generation, base, encode, lastScreen, screen, visits, age, pass, info)
    ensures WellFormed(info)
  {
  }

  /** The new frame follows the last one. */
  lemma NewFrameFollows(plan: Plan, params: DrawParams, last: FrameInfo, base: Picture, encode: Encoder,
                        lastScreen: Screen, screen: Screen, visits: seq<Visit>, age: nat, pass: Pass, info: FrameInfo,
                        content: int, viewport: int, moved: bool)
    requires Shaped(screen) && WellFormed(last)
    requires Finished(plan, params, last.generation, base, encode, lastScreen, screen, visits, age, pass, info)
    requires !plan.fullRepaint ==>
      && plan == PlanTake(true, true, content, viewport, ScrolledBack(screen), screen.rows)
      && last.columns == screen.columns && last.rows == screen.rows && last.alternate == info.alternate
      && base == CachedRows(last.picture, plan.reuseScrolledRows, screen.columns, content)
      && Tracks(lastScreen, screen, params.previousAge, moved) && (viewport != 0 ==> moved)
      && (!params.cursorChanged ==> info.cursor == last.cursor)
    ensures Follows(last, info)
  {
    if !info.fullRepaint {
      if plan.scrollDelta != 0 && !plan.reuseScrolledRows {
        EverythingKept(params, base, encode, lastScreen, screen, visits, age, pass);
        CoveringSpansHaveWholeHull(info.spans, screen.columns, screen.rows);
        assert false;
      }
      MetadataExplainPicture(params, last.picture, base, encode, screen, visits, pass, info.dirty, info.spans,
                             plan.scrollDelta);
      HullIsLeast(info.spans, screen.columns, screen.rows, NOTHING);
      if plan.reuseScrolledRows {
        var r := if content > 0 then screen.rows - 1 else 0;
        assert Exposed(content, screen.rows, r) && InSpans(info.spans, r, 0);
      }
    }
  }

  lemma UnmovedRowsShowNoShift(ids: seq<nat>, detected: int)
    requires ScrollDetection.Distinct(ids)
    requires detected != 0 ==> ScrollDetection.IsShift(ids, ids, detected)
    ensures detected == 0
  {
    if detected != 0 {
      ScrollDetection.UnmovedScreenHasNoShift(ids, detected);
    }
  }

  /** The frame has the size and the cursor of the screen it was taken from. */
  ghost predicate TakenFrom(frame: FrameInfo, screen: Screen)
    ensures TakenFrom(frame, screen) ==> Shaped(screen)
  {
    && Shaped(screen)
    && frame.columns == screen.columns && frame.rows == screen.rows && frame.alternate == screen.alternate
    && frame.cursor.x == screen.cursorX && frame.cursor.y == screen.cursorY
    && frame.cursor.visible == screen.cursorVisible
  }

  class Terminal {
    const encode: Encoder
    ghost const palette: set<PackedStyle>

    var screen: Screen
    var observedLines: seq<nat>
    var observedAlternate: bool
    var pendingContentScroll: int
    var pendingViewportScroll: int
    var tracker: CursorStyles.Tracker

    var cache: PackedGrid?
    var frameValid: bool
    var lastDrawAge: nat
    var generation: nat
    var lastColumns: nat
    var lastRows: nat
    var lastAlternate: bool
    var lastCursor: Cursor
    var cellsDecoded: nat
    var cellsReused: nat

    /** The frames that were taken and not yet freed. */
    var live: set<PackedFrame>

    /** All output fed so far. */
    ghost var stream: string
    /** Every frame taken so far, oldest first. */
    ghost var taken: seq<FrameInfo>
    /** The screen at the last take, and whether it has moved since. */
    ghost var lastScreen: Screen
    ghost var moved: bool
    /** Every scroll detected since the last take was detected against the rows actually shown. */
    ghost var synced: bool
    /** The cached grid shows the screen of the last take. */
    ghost var exact: bool
    ghost var cellsTaken: nat

    ghost predicate LimitsOk()
      reads `screen
    {
      && Shaped(screen) && WithinLimits(screen, encode, palette)
      && |palette| <= MAX_STYLES && DEFAULT_STYLE in palette
    }

    ghost predicate CountersOk()
      reads `tracker, `stream, `cellsDecoded, `cellsReused, `cellsTaken
    {
      CursorStyles.Matches(tracker, stream) && cellsDecoded + cellsReused == cellsTaken
    }

    ghost predicate HistoryOk()
      reads `taken, `generation, `lastColumns, `lastRows, `lastAlternate, `lastCursor
    {
      && Chain(taken)
      && (taken == [] <==> generation == 0)
      && (taken != [] ==>
            var last := taken[|taken| - 1];
            && last.generation == generation && last.cursor == lastCursor && last.alternate == lastAlternate
            && last.columns == lastColumns && last.rows == lastRows)
    }

    /** The last frame was taken from the last screen, and shows it if the cache is exact. */
    ghost predicate LastOk()
      reads `taken, `lastScreen, `exact
    {
      taken != [] ==>
        && TakenFrom(taken[|taken| - 1], lastScreen)
        && (exact ==> taken[|taken| - 1].picture == PictureOf(encode, lastScreen))
    }

    ghost predicate AgesOk()
      reads `frameValid, `lastDrawAge, `lastScreen, `screen, `moved, `generation
    {
      frameValid ==> generation > 0 && lastDrawAge > 0 && Tracks(lastScreen, screen, lastDrawAge, moved)
    }

    ghost predicate ScrollsOk()
      reads `frameValid, `moved, `synced, `pendingViewportScroll, `pendingContentScroll
    {
      && (frameValid && pendingViewportScroll != 0 ==> moved)
      && (frameValid && pendingContentScroll != 0 && synced ==> moved)
    }

    ghost predicate CacheOk()
      reads `cache, cache, `taken, `lastColumns, `lastRows
    {
      && (cache == null ==> taken == [])
      && (cache != null ==>
            && taken != []
            && cache.Valid(palette) && cache.columns == lastColumns && cache.rows == lastRows
            && cache.Picture() == taken[|taken| - 1].picture)
    }

    /** Every live frame still shows the picture it was taken with. */
    ghost predicate LiveOk()
      reads `live, set frame | frame in live :: frame.grid
    {
      forall frame | frame in live :: frame.grid.Picture() == frame.info.picture
    }

    /** The part of the state that input and scrolling change. */
    ghost predicate InputOk()
      reads `screen, `tracker, `stream, `cellsDecoded, `cellsReused, `cellsTaken
      reads `frameValid, `lastDrawAge, `lastScreen, `moved, `synced, `generation
      reads `pendingViewportScroll, `pendingContentScroll
    {
      LimitsOk() && CountersOk() && AgesOk() && ScrollsOk()
    }

    /** The part of the state that only taking and freeing frames change: input leaves it as it is. */
    ghost predicate FramesOk()
      reads `taken, `generation, `exact
      reads `lastScreen, `lastColumns, `lastRows, `lastAlternate, `lastCursor
      reads `live, `cache, cache, set frame | frame in live :: frame.grid
    {
      HistoryOk() && LastOk() && CacheOk() && LiveOk()
    }

    ghost predicate Valid()
      reads this, cache, set frame | frame in live :: frame.grid
    {
      InputOk() && FramesOk()
    }

    constructor (encode: Encoder, ghost palette: set<PackedStyle>, screen: Screen)
      requires Shaped(screen) && WithinLimits(screen, encode, palette)
      requires |palette| <= MAX_STYLES && DEFAULT_STYLE in palette
      ensures Valid() && live == {} && taken == [] && synced && exact && this.screen == screen
      ensures this.encode == encode && this.palette == palette && cache == null
      ensures Bookkeeping() == Session(screen, screen, false, 0, screen.rowIds, screen.alternate, 0, 0, false)
    {
      this.encode, this.palette, this.screen := encode, palette, screen;
      observedLines, observedAlternate := screen.rowIds, screen.alternate;
      pendingContentScroll, pendingViewportScroll := 0, 0;
      tracker, stream := CursorStyles.INITIAL, "";
      cache, frameValid, lastDrawAge, generation := null, false, 0, 0;
      lastColumns, lastRows, lastAlternate, lastCursor := 0, 0, false, Cursor(0, 0, false, Block);
      cellsDecoded, cellsReused, cellsTaken := 0, 0, 0;
      live, taken, lastScreen, moved, synced, exact := {}, [], screen, false, true, true;
      CursorStyles.InitialTrackerMatches();
    }

    /** The fields that input, scrolling and takes keep in step. */
    ghost function Bookkeeping(): Session
      reads `screen, `lastScreen, `frameValid, `lastDrawAge, `observedLines, `observedAlternate
      reads `pendingContentScroll, `pendingViewportScroll, `moved
    {
      Session(screen, lastScreen, frameValid, lastDrawAge, observedLines, observedAlternate,
              pendingContentScroll, pendingViewportScroll, moved)
    }

    /** Were the rows last observed the ones on screen now? Then a shift detected by the next feed
        is a movement of the screen. A viewport scroll since the last observation makes it false. */
    predicate InSync()
      reads `observedLines, `screen
    {
      LinesBefore() == screen.rowIds
    }

    /** The screen library changes the screen. */
    method ShowScreen(next: Screen)
      requires LimitsOk() && AgesOk() && ScrollsOk()
      requires Evolves(screen, next, lastDrawAge) && WithinLimits(next, encode, palette)
      modifies `screen, `moved
      ensures LimitsOk() && AgesOk() && ScrollsOk()
      ensures screen == next && moved == (old(moved) || Moved(old(screen), next))
    {
      if frameValid {
        TracksComposes(lastScreen, screen, next, lastDrawAge, moved);
      }
      moved := moved || Moved(screen, next);
      screen := next;
    }

    method ResetScreenObservation()
      modifies `observedLines, `observedAlternate
      ensures observedLines == screen.rowIds && observedAlternate == screen.alternate
    {
      observedLines, observedAlternate := screen.rowIds, screen.alternate;
    }

    /** Compares the rows on screen with the rows observed before the feed, and observes them anew.
        `shown` are the rows that were really on screen before the feed. */
    method ObserveScreenScroll(previousLines: seq<nat>, previousAlternate: bool, ghost shown: seq<nat>)
      requires LimitsOk() && ScrollsOk()
      requires previousLines == shown && shown != screen.rowIds ==> moved
      modifies `pendingContentScroll, `synced, `observedLines, `observedAlternate
      ensures ScrollsOk()
      ensures observedLines == screen.rowIds && observedAlternate == screen.alternate
      ensures synced == (old(synced) && (previousLines == shown || pendingContentScroll == old(pendingContentScroll)))
      ensures var detected := pendingContentScroll - old(pendingContentScroll);
              if previousAlternate == screen.alternate && !ScrolledBack(screen)
              then ScrollDetection.IsShift(previousLines, screen.rowIds, detected) else detected == 0
    {
      hide ScrollDetection.IsShift, ScrollDetection.Related, ScrollDetection.Distinct;
      if previousAlternate == screen.alternate && !ScrolledBack(screen) {
        var delta := ScrollDetection.DetectFullScreenShift(previousLines, screen.rowIds);
        if previousLines == shown && shown == screen.rowIds {
          UnmovedRowsShowNoShift(shown, delta);
        }
        if delta != 0 {
          pendingContentScroll := pendingContentScroll + delta;
          synced := synced && previousLines == shown;
        }
      }
      ResetScreenObservation();
    }

    method TrackOutput(data: string)
      requires CountersOk()
      modifies `tracker, `stream
      ensures CountersOk() && stream == old(stream) + data
    {
      tracker := CursorStyles.TrackCursorStyle(tracker, data, stream);
      stream := stream + data;
    }

    function LinesBefore(): seq<nat>
      reads `observedLines, `screen
    {
      RowsBefore(observedLines, screen)
    }

    function AlternateBefore(): bool
      reads `observedLines, `observedAlternate, `screen
    {
      AlternateScreenBefore(observedLines, observedAlternate, screen)
    }

    method FeedOutput(data: string, next: Screen)
      requires InputOk() && Evolves(screen, next, lastDrawAge) && WithinLimits(next, encode, palette)
      requires data == "" ==> next == screen
      modifies `screen, `moved, `synced, `tracker, `stream, `observedLines, `observedAlternate, `pendingContentScroll
      ensures InputOk()
      ensures screen == next && stream == old(stream) + data
      ensures moved == (old(moved) || (data != "" && Moved(old(screen), next)))
      ensures synced == (old(synced) && (old(InSync()) || pendingContentScroll == old(pendingContentScroll)))
      ensures if data == "" then unchanged(`observedLines, `observedAlternate, `pendingContentScroll)
              else observedLines == next.rowIds && observedAlternate == next.alternate
      ensures data != "" ==>
        var detected := pendingContentScroll - old(pendingContentScroll);
        if old(AlternateBefore()) == next.alternate && !ScrolledBack(next)
        then ScrollDetection.IsShift(old(LinesBefore()), next.rowIds, detected) else detected == 0
    {
      hide CountersOk, AgesOk, WithinLimits, Evolves, ScrollDetection.IsShift, ScrollDetection.Distinct;
      if |data| > 0 {
        if |observedLines| != screen.rows {
          ResetScreenObservation();
        }
        var previousLines, previousAlternate := observedLines, observedAlternate;
        TrackOutput(data);
        ghost var shown := screen.rowIds;
        ShowScreen(next);
        ObserveScreenScroll(previousLines, previousAlternate, shown);
      } else {
        assert stream + data == stream;
      }
    }

    /** Paging and line scrolling: the viewport moves by as many lines as the position says. */
    method ScrollViewport(next: Screen)
      requires InputOk() && Evolves(screen, next, lastDrawAge) && WithinLimits(next, encode, palette)
      modifies `screen, `moved, `pendingViewportScroll
      ensures InputOk()
      ensures screen == next && moved == (old(moved) || Moved(old(screen), next))
      ensures pendingViewportScroll == old(pendingViewportScroll) + next.sbPos - old(screen).sbPos
    {
      var before := screen.sbPos;
      ShowScreen(next);
      pendingViewportScroll := pendingViewportScroll + (next.sbPos - before);
    }

    method Resize(next: Screen, resized: bool)
      requires InputOk() && Evolves(screen, next, lastDrawAge) && WithinLimits(next, encode, palette)
      modifies `screen, `moved, `synced, `observedLines, `observedAlternate
      modifies `pendingContentScroll, `pendingViewportScroll
      ensures InputOk()
      ensures screen == next && moved == (old(moved) || Moved(old(screen), next))
      ensures resized ==> pendingContentScroll == pendingViewportScroll == 0 && InSync() && synced
      ensures resized ==> observedLines == next.rowIds && observedAlternate == next.alternate
      ensures !resized ==>
        unchanged(`pendingContentScroll, `pendingViewportScroll, `observedLines, `observedAlternate, `synced)
    {
      ShowScreen(next);
      if resized {
        ResetScreenObservation();
        ClearScrolls();
      }
    }

    method ClearScrolls()
      modifies `synced, `pendingContentScroll, `pendingViewportScroll
      ensures ScrollsOk() && pendingContentScroll == pendingViewportScroll == 0 && synced
    {
      pendingContentScroll, pendingViewportScroll, synced := 0, 0, true;
    }

    method FreeFrame(frame: PackedFrame)
      requires FramesOk()
      modifies `live
      ensures FramesOk() && live == old(live) - {frame}
    {
      live := live - {frame};
    }

    // ---- Taking a frame ----

    function NextPlan(): (plan: Plan)
      reads `screen, `frameValid, `lastColumns, `lastRows, `lastAlternate, `pendingContentScroll, `pendingViewportScroll
      ensures plan.reuseScrolledRows ==> frameValid && pendingContentScroll != 0
    {
      PlanTake(frameValid,
               screen.columns == lastColumns && screen.rows == lastRows && screen.alternate == lastAlternate,
               pendingContentScroll, pendingViewportScroll, ScrolledBack(screen), screen.rows)
    }

    /** The next frame shows everything anew: there is no valid frame to build on, the size or the screen is
        another one, or the content scrolled and its rows cannot be reused. */
    ghost predicate MustRedraw()
      reads `screen, `frameValid, `lastColumns, `lastRows, `lastAlternate, `pendingContentScroll, `pendingViewportScroll
    {
      || !frameValid
      || screen.columns != lastColumns || screen.rows != lastRows || screen.alternate != lastAlternate
      || (pendingContentScroll != 0
          && (pendingViewportScroll != 0 || screen.sbPos < screen.sbCount
              || pendingContentScroll >= screen.rows || -pendingContentScroll >= screen.rows))
    }

    lemma PlanRedrawsWhenItMust()
      ensures NextPlan().fullRepaint <==> MustRedraw()
      ensures NextPlan().scrollDelta ==
        if pendingContentScroll != 0 then pendingContentScroll else pendingViewportScroll
      ensures NextPlan().scrollKind == ScrolledBy(pendingContentScroll != 0, pendingViewportScroll != 0)
      ensures !MustRedraw() ==> (NextPlan().reuseScrolledRows <==> pendingContentScroll != 0)
    {
    }

    /** What the next take starts from. */
    ghost function NextDrawing(visits: seq<Visit>): Drawing
      requires taken != []
      reads `screen, `lastDrawAge, `lastCursor, `tracker, `taken, `pendingContentScroll
    {
      Drawing(screen, encode, visits, lastDrawAge, lastCursor, NextCursor(), taken[|taken| - 1].picture,
              pendingContentScroll)
    }

    ghost function NextStart(visits: seq<Visit>): Start
      reads `screen, `frameValid, `lastColumns, `lastRows, `lastAlternate, `pendingContentScroll, `pendingViewportScroll
      reads `lastDrawAge, `lastCursor, `tracker, `taken, `generation
    {
      Start(MustRedraw(), if taken == [] then None else Some(NextDrawing(visits)), pendingContentScroll,
            pendingViewportScroll, generation)
    }

    /** The decisions of a take depend on the bookkeeping alone. */
    lemma PlanOfBookkeeping()
      requires Valid()
      ensures NextPlan() == PlanOf(Bookkeeping()) && Since() == DrawnSince(Bookkeeping())
    {
    }

    function NextCursor(): Cursor
      reads `screen, `tracker
    {
      Cursor(screen.cursorX, screen.cursorY, screen.cursorVisible, tracker.style)
    }

    function NextParams(): DrawParams
      reads `screen, `frameValid, `lastColumns, `lastRows, `lastAlternate, `pendingContentScroll, `pendingViewportScroll
      reads `tracker, `lastCursor, `lastDrawAge
    {
      var plan, cursor := NextPlan(), NextCursor();
      DrawParams(lastDrawAge, plan.fullRepaint, frameValid && cursor != lastCursor,
                 lastCursor.x, lastCursor.y, cursor.x, cursor.y, plan.reuseScrolledRows)
    }

    /** Draw only what is newer than this; 0 draws everything. */
    function Since(): nat
      reads `screen, `frameValid, `lastColumns, `lastRows, `lastAlternate, `pendingContentScroll, `pendingViewportScroll
      reads `lastDrawAge
    {
      if NextPlan().fullRepaint then 0 else lastDrawAge
    }

    /** Makes the cached grid this engine's own, and gives it the size of the screen. */
    method PrepareGrid() returns (grid: PackedGrid)
      requires Valid()
      modifies this`cache, cache
      ensures cache == grid && (fresh(grid) || grid == old(cache))
      ensures forall frame | frame in live :: frame.grid != grid && unchanged(frame.grid)
      ensures grid.Valid(palette) && grid.columns == screen.columns && grid.rows == screen.rows
      ensures taken != [] && lastColumns == screen.columns && lastRows == screen.rows ==>
        grid.Picture() == taken[|taken| - 1].picture
    {
      GridFits(screen);
      if cache == null {
        cache := new PackedGrid();
      } else if exists frame :: frame in live && frame.grid == cache {
        cache := new PackedGrid.Clone(cache);
      }
      grid := cache;
      grid.EnsurePackedGrid(screen.columns, screen.rows, palette);
    }

    /** Draws into the grid: the changed cells are collected and their rows rebuilt. */
    method DecodeScreen(grid: PackedGrid, params: DrawParams, visits: seq<Visit>, age: nat, ghost base: Picture)
      returns (pass: Pass)
      requires LimitsOk() && CountersOk() && grid.Valid(palette)
      requires grid.columns == screen.columns && grid.rows == screen.rows
      requires base == grid.Picture() && Sized(base, screen.columns, screen.rows)
      requires Draws(lastScreen, screen, if params.fullRepaint then 0 else params.previousAge, visits, age)
      modifies this`cellsDecoded, this`cellsReused, this`cellsTaken, grid
      ensures CountersOk() && grid.Valid(palette)
      ensures grid.columns == screen.columns && grid.rows == screen.rows
      ensures grid.Picture() == NextPicture(params, base, encode, screen, visits)
      ensures DirtyCovers(pass, screen, KeptVisits(params, base, encode, screen, visits))
      ensures cellsTaken == old(cellsTaken) + CellsOn(screen)
      ensures cellsDecoded == old(cellsDecoded) + |KeptVisits(params, base, encode, screen, visits)|
    {
      GridFits(screen);
      AtMostOneVisitPerCell(visits, screen.rows, screen.columns);
      var context := new PackedDrawContext(grid, params, encode, cellsDecoded);
      assert visits[..0] == [];
      DrawSince(context, visits, palette, base);
      pass := context.pass;
      CollectedChangesFit(params, base, encode, screen, visits, grid.styles, pass);
      ghost var before := grid.rowData;
      grid.RebuildPackedRows(pass.changedCells, pass.changedText, palette);
      RebuiltRowsShowNextPicture(params, base, encode, screen, visits, grid.styles, before, grid.rowData, pass);
      var decoded, total := context.decodedCells - cellsDecoded, CellsOn(screen);
      cellsDecoded := context.decodedCells;
      if decoded < total {
        cellsReused := cellsReused + (total - decoded);
      }
      cellsTaken := cellsTaken + total;
    }

    method DrawSince(context: PackedDrawContext, visits: seq<Visit>, ghost palette: set<PackedStyle>,
                     ghost base: Picture)
      requires Shaped(screen) && WithinLimits(screen, encode, palette) && |palette| <= MAX_STYLES
      requires context.encode == encode && context.Collected(palette, base, screen, [])
      requires context.pass == Pass([], [], NOTHING, [])
      requires forall i | 0 <= i < |visits| :: OnScreen(screen, visits[i])
      requires |visits| <= screen.rows * screen.columns
      modifies context, context.grid`styles
      ensures context.Collected(palette, base, screen, visits)
      ensures context.decodedCells == old(context.decodedCells) + |context.pass.changedCells|
    {
      assert visits[..0] == [];
      for i := 0 to |visits|
        invariant context.Collected(palette, base, screen, visits[..i])
        invariant context.decodedCells == old(context.decodedCells) + |context.pass.changedCells|
      {
        var visit := visits[i];
        assert OnScreen(screen, visit);
        assert visits[..i + 1] == visits[..i] + [visit];
        context.DrawPackedCell(visit, Drawn(screen, visit.row, visit.column), palette, base, screen, visits[..i]);
      }
      assert visits[..|visits|] == visits;
    }

    /** The grid to draw into: this engine's own, and rotated if the rows scrolled. */
    method PrepareRows(plan: Plan) returns (grid: PackedGrid)
      requires Valid() && plan == NextPlan()
      modifies `cache, cache
      ensures cache == grid && (fresh(grid) || grid == old(cache))
      ensures forall frame | frame in live :: frame.grid != grid && unchanged(frame.grid)
      ensures grid.Valid(palette) && grid.columns == screen.columns && grid.rows == screen.rows
      ensures Sized(grid.Picture(), screen.columns, screen.rows)
      ensures !plan.fullRepaint ==> taken != []
      ensures !plan.fullRepaint ==>
        var last := taken[|taken| - 1].picture;
        grid.Picture() == CachedRows(last, plan.reuseScrolledRows, screen.columns, pendingContentScroll)
    {
      grid := PrepareGrid();
      GridFits(screen);
      if plan.reuseScrolledRows {
        grid.RotatePackedRows(pendingContentScroll, palette);
      }
      GridShape(grid.rowData, grid.columns, |grid.styles|, grid.styles, screen);
    }

    /** The state before a take, with the rows the draw starts from. */
    ghost function Known(base: Picture, visits: seq<Visit>): Before
      reads `taken, `lastScreen, `frameValid, `pendingContentScroll, `pendingViewportScroll, `moved, `exact
    {
      Before(if taken == [] then None else Some(taken[|taken| - 1]), base, encode, lastScreen, visits,
             frameValid, pendingContentScroll, pendingViewportScroll, moved, exact)
    }

    lemma KnownIsOk(plan: Plan, params: DrawParams, cursor: Cursor, base: Picture, visits: seq<Visit>)
      requires HistoryOk() && LastOk() && LimitsOk() && AgesOk() && ScrollsOk() && plan == NextPlan()
      requires Sized(base, screen.columns, screen.rows)
      requires !plan.fullRepaint ==> taken != []
      requires !plan.fullRepaint ==>
        base == CachedRows(taken[|taken| - 1].picture, plan.reuseScrolledRows, screen.columns, pendingContentScroll)
      requires cursor == NextCursor() && params == NextParams()
      ensures BeforeOk(Known(base, visits), plan, params, cursor, screen)
    {
      hide WellFormed, Follows, TakenFrom, WithinLimits, Tracks, Chain;
      ChainEndsWellFormed(taken);
    }

    /** Live frames whose grids were left alone still show what they did. */
    twostate lemma LiveStays()
      requires old(LiveOk()) && live == old(live) && forall frame | frame in live :: unchanged(frame.grid)
      ensures LiveOk()
    {
    }

    /** Draws the screen into the cache. */
    method DrawFrame(plan: Plan, visits: seq<Visit>, age: nat)
      returns (grid: PackedGrid, params: DrawParams, cursor: Cursor, pass: Pass, ghost base: Picture)
      requires Valid() && plan == NextPlan() && Draws(lastScreen, screen, Since(), visits, age)
      modifies `cache, `cellsDecoded, `cellsReused, `cellsTaken, cache
      ensures cache == grid && (fresh(grid) || grid == old(cache))
      ensures forall frame | frame in live :: frame.grid != grid && unchanged(frame.grid)
      ensures grid.Valid(palette) && grid.columns == screen.columns && grid.rows == screen.rows
      ensures CountersOk() && cellsTaken == old(cellsTaken) + CellsOn(screen)
      ensures HistoryOk() && LiveOk() && LimitsOk()
      ensures Shaped(screen) && Sized(base, screen.columns, screen.rows)
      ensures BeforeOk(Known(base, visits), plan, params, cursor, screen) && cursor.style == tracker.style
      ensures cursor == old(NextCursor()) && params == old(NextParams()) && (!plan.fullRepaint ==> taken != [])
      ensures !plan.fullRepaint ==>
        base == CachedRows(taken[|taken| - 1].picture, plan.reuseScrolledRows, screen.columns, pendingContentScroll)
      ensures Draws(lastScreen, screen, if params.fullRepaint then 0 else params.previousAge, visits, age)
      ensures DirtyCovers(pass, screen, KeptVisits(params, base, encode, screen, visits))
      ensures grid.Picture() == NextPicture(params, base, encode, screen, visits)
    {
      hide WellFormed, Follows, TakenFrom, Draws, DirtyCovers, WithinLimits, Tracks, Chain, KeptVisits, NextPicture;
      hide CellsOn, CountersOk, BeforeOk, LastOk, ValidRows, CachedRows, HistoryOk, LiveOk, CacheOk;
      grid := PrepareRows(plan);
      cursor, params := NextCursor(), NextParams();
      base := grid.Picture();
      KnownIsOk(plan, params, cursor, base, visits);
      pass := DecodeScreen(grid, params, visits, age, base);
      LiveStays();
    }

    /** Draws the screen into the cache and works out what the frame says about it. */
    method ComposeFrame(visits: seq<Visit>, age: nat) returns (grid: PackedGrid, info: FrameInfo, ghost plan: Plan)
      requires Valid() && Draws(lastScreen, screen, Since(), visits, age)
      modifies `cache, `cellsDecoded, `cellsReused, `cellsTaken, cache
      ensures cache == grid && (fresh(grid) || grid == old(cache))
      ensures forall frame | frame in live :: frame.grid != grid && unchanged(frame.grid)
      ensures grid.Valid(palette) && grid.columns == screen.columns && grid.rows == screen.rows
      ensures grid.Picture() == info.picture
      ensures CountersOk() && cellsTaken == old(cellsTaken) + CellsOn(screen)
      ensures HistoryOk() && LiveOk() && LimitsOk()
      ensures TakenFrom(info, screen) && info.cursor.style == tracker.style
      ensures info.columns == screen.columns && info.rows == screen.rows
      ensures plan == old(NextPlan()) && info.scrollDelta == plan.scrollDelta && info.scrollKind == plan.scrollKind
      ensures plan.fullRepaint || age == 0 ==> info.fullRepaint
      ensures WellFormed(info) && (if taken == [] then info.fullRepaint else Follows(taken[|taken| - 1], info))
      ensures info.generation == generation + (if info.changed then 1 else 0)
      ensures plan.fullRepaint || age == 0 || moved || (exact && !plan.reuseScrolledRows) ==>
        info.picture == PictureOf(encode, screen)
      ensures plan.reuseScrolledRows && synced ==> moved
      ensures Answers(old(NextStart(visits)), info, screen, age)
      ensures !plan.fullRepaint ==>
        && taken != []
        && Drew(info.picture, old(NextParams()), taken[|taken| - 1].picture, plan.reuseScrolledRows,
                pendingContentScroll, encode, screen, visits)
    {
      hide WellFormed, Follows, TakenFrom, Draws, DirtyCovers, WithinLimits, Tracks, Chain, KeptVisits, NextPicture;
      hide LimitsOk, CountersOk, LastOk, CacheOk, LiveOk, BeforeOk, CellsOn;
      PlanRedrawsWhenItMust();
      ghost var start := NextStart(visits);
      var next := NextPlan();
      plan := next;
      var params, cursor, pass;
      ghost var base;
      grid, params, cursor, pass, base := DrawFrame(next, visits, age);
      info := DescribeFrame(next, params, pass, age, generation, cursor, grid.Picture(), screen, Known(base, visits));
      FrameAnswers(start, info, screen, age);
    }

    /** The frame becomes one of the live frames, and the last one taken. */
    method RecordFrame(grid: PackedGrid, info: FrameInfo) returns (frame: PackedFrame)
      requires HistoryOk() && LiveOk() && lastScreen == screen && Shaped(screen)
      requires cache == grid && grid.Valid(palette) && grid.columns == info.columns && grid.rows == info.rows
      requires grid.Picture() == info.picture && TakenFrom(info, screen)
      requires WellFormed(info) && (if taken == [] then info.fullRepaint else Follows(taken[|taken| - 1], info))
      requires info.generation == generation + (if info.changed then 1 else 0)
      modifies `generation, `lastColumns, `lastRows, `lastAlternate, `lastCursor, `live, `taken, `exact
      ensures FramesOk() && generation > 0
      ensures fresh(frame) && frame.grid == grid && frame.info == info && live == old(live) + {frame}
      ensures taken == old(taken) + [info]
      ensures (exact <==> info.picture == PictureOf(encode, screen)) && generation == info.generation
    {
      hide WellFormed, Follows, Chain, TakenFrom, PictureOf, Shown, ValidRows, DistinctStyles, HistoryOk, LastOk;
      frame := new PackedFrame(info, grid);
      live := live + {frame};
      RecordHistory(info);
    }

    method RecordHistory(info: FrameInfo)
      requires HistoryOk() && lastScreen == screen && TakenFrom(info, screen)
      requires WellFormed(info) && (if taken == [] then info.fullRepaint else Follows(taken[|taken| - 1], info))
      requires info.generation == generation + (if info.changed then 1 else 0)
      modifies `generation, `lastColumns, `lastRows, `lastAlternate, `lastCursor, `taken, `exact
      ensures HistoryOk() && LastOk() && generation > 0 && taken == old(taken) + [info]
      ensures lastColumns == info.columns && lastRows == info.rows
      ensures (exact <==> info.picture == PictureOf(encode, screen)) && generation == info.generation
    {
      hide WellFormed, Follows, Chain, TakenFrom, PictureOf;
      ChainExtends(taken, info);
      taken := taken + [info];
      exact := info.picture == PictureOf(encode, screen);
      generation := info.generation;
      lastColumns, lastRows, lastAlternate, lastCursor := info.columns, info.rows, info.alternate, info.cursor;
    }

    /** The next draw starts from the screen as it is now. */
    method RestartFrom(age: nat)
      requires LimitsOk() && CountersOk() && lastScreen == screen && generation > 0
      modifies `frameValid, `lastDrawAge, `moved, `synced, `pendingContentScroll, `pendingViewportScroll
      ensures InputOk() && !moved && synced
      ensures pendingContentScroll == pendingViewportScroll == 0 && lastDrawAge == age && frameValid == (age != 0)
    {
      ClearScrolls();
      moved, frameValid, lastDrawAge := false, age != 0, age;
    }

    /** Remembers the frame and the screen it shows. */
    method CommitFrame(grid: PackedGrid, info: FrameInfo, age: nat) returns (frame: PackedFrame)
      requires HistoryOk() && LiveOk() && LimitsOk() && CountersOk()
      requires cache == grid && grid.Valid(palette) && grid.columns == info.columns && grid.rows == info.rows
      requires grid.Picture() == info.picture && TakenFrom(info, screen)
      requires WellFormed(info) && (if taken == [] then info.fullRepaint else Follows(taken[|taken| - 1], info))
      requires info.generation == generation + (if info.changed then 1 else 0)
      modifies `lastScreen, `generation, `lastColumns, `lastRows, `lastAlternate, `lastCursor, `live, `taken, `exact
      modifies `frameValid, `lastDrawAge, `moved, `synced, `pendingContentScroll, `pendingViewportScroll
      ensures InputOk() && FramesOk() && lastScreen == screen && !moved && synced
      ensures fresh(frame) && frame.grid == grid && frame.info == info
      ensures live == old(live) + {frame} && taken == old(taken) + [info]
      ensures (exact <==> info.picture == PictureOf(encode, screen)) && generation == info.generation
      ensures pendingContentScroll == pendingViewportScroll == 0 && lastDrawAge == age && frameValid == (age != 0)
    {
      hide WellFormed, Follows, TakenFrom, Chain, PictureOf, Shown, InputOk, FramesOk, CountersOk;
      lastScreen := screen;
      frame := RecordFrame(grid, info);
      RestartFrom(age);
    }

    /** A take: an immutable frame of the screen as it is, drawn from what changed. */
    method TakePackedFrame(visits: seq<Visit>, age: nat) returns (frame: PackedFrame, ghost plan: Plan)
      requires Valid() && Draws(lastScreen, screen, Since(), visits, age)
      modifies this, cache
      ensures InputOk() && FramesOk()
      ensures fresh(frame) && live == old(live) + {frame} && taken == old(taken) + [frame.info]
      ensures forall other | other in old(live) :: unchanged(other.grid)
      ensures screen == old(screen) == lastScreen && !moved && synced
      ensures observedLines == old(observedLines) && observedAlternate == old(observedAlternate)
      ensures cache == frame.grid && (fresh(frame.grid) || frame.grid == old(cache))
      ensures !plan.fullRepaint ==>
        && old(taken) != []
        && Drew(frame.info.picture, old(NextParams()), old(taken[|taken| - 1]).picture, plan.reuseScrolledRows,
                old(pendingContentScroll), encode, screen, visits)
      ensures exact <==> frame.info.picture == PictureOf(encode, screen)
      ensures plan == old(NextPlan())
      ensures plan.fullRepaint || age == 0 || old(moved) ==> exact
      ensures old(exact) && (old(synced) || !plan.reuseScrolledRows) ==> exact
      ensures TakenFrom(frame.info, screen) && frame.info.cursor.style == tracker.style == old(tracker).style
      ensures cellsTaken == old(cellsTaken) + CellsOn(screen)
      ensures pendingContentScroll == pendingViewportScroll == 0 && lastDrawAge == age && frameValid == (age != 0)
      ensures Answers(old(NextStart(visits)), frame.info, screen, age) && generation == frame.info.generation
      ensures exact ==> ShowsScreen(encode, frame.info.picture, screen)
    {
      hide WellFormed, Follows, TakenFrom, Draws, WithinLimits, Tracks, Chain, NextPlan, PictureOf, Shown;
      hide Valid, InputOk, FramesOk, LimitsOk, CountersOk, HistoryOk, LiveOk, CellsOn, Answers, NextStart, ShowsScreen;
      var grid, info;
      grid, info, plan := ComposeFrame(visits, age);
      frame := CommitFrame(grid, info, age);
      FullDecodeShowsScreen(encode, info.picture, screen);
    }
  }

  /** `picture` is the cached picture `last`, rotated if rows are reused, overwritten by what the draw
      presents: right or wrong, this is what a take shows that does not redraw everything. */
  ghost predicate Drew(picture: Picture, params: DrawParams, last: Picture, reuse: bool, content: int,
                       encode: Encoder, screen: Screen, visits: seq<Visit>) {
    && Shaped(screen)
    && var base := CachedRows(last, reuse, screen.columns, content);
    && Sized(base, screen.columns, screen.rows)
    && picture == NextPicture(params, base, encode, screen, visits)
  }

  /** What the proofs about a new frame know of the state before its take. */
  datatype Before = Before(
    last: Option<FrameInfo>, base: Picture, encode: Encoder, lastScreen: Screen, visits: seq<Visit>,
    frameValid: bool, content: int, viewport: int, moved: bool, exact: bool)

  /** When a take shows exactly the screen: it redraws everything, or the screen moved (so that every
      cell is newer), or the cache was exact and its rows stay where they are. */
  ghost predicate Exactly(before: Before, plan: Plan, age: nat) {
    plan.fullRepaint || age == 0 || before.moved || (before.exact && !plan.reuseScrolledRows)
  }

  ghost predicate BeforeOk(before: Before, plan: Plan, params: DrawParams, cursor: Cursor, screen: Screen) {
    && Shaped(screen) && Sized(before.base, screen.columns, screen.rows)
    && params.fullRepaint == plan.fullRepaint && params.reuseScrolledRows == plan.reuseScrolledRows
    && cursor.x == screen.cursorX && cursor.y == screen.cursorY && cursor.visible == screen.cursorVisible
    && params.cursorX == screen.cursorX && params.cursorY == screen.cursorY
    && (before.last.None? ==> !before.frameValid)
    && plan == PlanTake(before.frameValid, before.last.Some? && screen.columns == before.last.value.columns
                          && screen.rows == before.last.value.rows && screen.alternate == before.last.value.alternate,
                        before.content, before.viewport, ScrolledBack(screen), screen.rows)
    && (before.frameValid ==> Tracks(before.lastScreen, screen, params.previousAge, before.moved))
    && (before.frameValid && before.viewport != 0 ==> before.moved)
    && (before.last.Some? ==>
          var last := before.last.value;
          && WellFormed(last) && TakenFrom(last, before.lastScreen)
          && (before.exact ==> last.picture == PictureOf(before.encode, before.lastScreen))
          && params.previousX == last.cursor.x && params.previousY == last.cursor.y
          && params.cursorChanged == (before.frameValid && cursor != last.cursor)
          && (!plan.fullRepaint ==>
                before.base == CachedRows(last.picture, plan.reuseScrolledRows, screen.columns, before.content)))
  }

  method DescribeFrame(plan: Plan, params: DrawParams, pass: Pass, age: nat, generation: nat, cursor: Cursor,
                       picture: Picture, screen: Screen, ghost before: Before)
    returns (info: FrameInfo)
    requires BeforeOk(before, plan, params, cursor, screen)
    requires before.last.Some? ==> before.last.value.generation == generation
    requires Draws(before.lastScreen, screen, if params.fullRepaint then 0 else params.previousAge, before.visits, age)
    requires DirtyCovers(pass, screen, KeptVisits(params, before.base, before.encode, screen, before.visits))
    requires picture == NextPicture(params, before.base, before.encode, screen, before.visits)
    ensures WellFormed(info) && TakenFrom(info, screen) && info.cursor == cursor
    ensures info.picture == picture && info.columns == screen.columns && info.rows == screen.rows
    ensures info.scrollDelta == plan.scrollDelta && info.scrollKind == plan.scrollKind
    ensures info.generation == generation + (if info.changed then 1 else 0)
    ensures plan.fullRepaint || age == 0 ==> info.fullRepaint
    ensures before.last.Some? ==> Follows(before.last.value, info)
    ensures info.fullRepaint <==> plan.fullRepaint || age == 0 || info.dirty == Whole(screen.columns, screen.rows)
    ensures !plan.fullRepaint && age != 0 ==>
      && before.last.Some?
      && var d := DrawingOf(before, screen, params.previousAge, cursor);
      && d.Fits() && d.Bounds(info.dirty) && d.CoveredBy(info.spans)
    ensures Exactly(before, plan, age) ==> picture == PictureOf(before.encode, screen)
  {
    hide WellFormed, Follows, BoundsExactly, Tracks, CachedRows, Exactly;
    if plan.fullRepaint {
      EverythingKept(params, before.base, before.encode, before.lastScreen, screen, before.visits, age, pass);
    }
    var dirty, spans, fullRepaint := FinishDirty(pass, params, plan.scrollDelta, age, screen.columns, screen.rows);
    var changed := fullRepaint || !Empty(dirty);
    info := FrameInfo(if changed then generation + 1 else generation, changed, fullRepaint,
                      plan.scrollDelta, plan.scrollKind, screen.columns, screen.rows, cursor, screen.alternate,
                      dirty, spans, picture);
    if !plan.fullRepaint && age != 0 {
      UnforcedFrameIsExact(plan, params, before, screen, age, pass, cursor, dirty, spans);
    }
    assert Finished(plan, params, generation, before.base, before.encode, before.lastScreen, screen, before.visits,
                    age, pass, info);
    ComposedFrame(plan, params, before, screen, age, pass, info, generation);
  }

  /** What a take starts from, as far as its dirty region is concerned. */
  ghost function DrawingOf(before: Before, screen: Screen, lastAge: nat, cursor: Cursor): Drawing
    requires before.last.Some?
  {
    Drawing(screen, before.encode, before.visits, lastAge, before.last.value.cursor, cursor,
            before.last.value.picture, before.content)
  }

  lemma UnforcedFrameIsExact(plan: Plan, params: DrawParams, before: Before, screen: Screen, age: nat, pass: Pass,
                             cursor: Cursor, dirty: Region, spans: seq<Span>)
    requires BeforeOk(before, plan, params, cursor, screen) && !plan.fullRepaint && age != 0
    requires Draws(before.lastScreen, screen, params.previousAge, before.visits, age)
    requires DirtyCovers(pass, screen, KeptVisits(params, before.base, before.encode, screen, before.visits))
    requires BoundsExactly(dirty, pass.dirty, params, plan.scrollDelta, screen.columns, screen.rows)
    requires forall r: nat, c: nat | InSpans(pass.dirtySpans, r, c) :: InSpans(spans, r, c)
    requires params.cursorChanged && params.previousX < screen.columns && params.previousY < screen.rows ==>
      InSpans(spans, params.previousY, params.previousX)
    requires params.cursorChanged && params.cursorX < screen.columns && params.cursorY < screen.rows ==>
      InSpans(spans, params.cursorY, params.cursorX)
    requires params.reuseScrolledRows ==>
      forall r: nat, c: nat | r < screen.rows && c < screen.columns && Exposed(plan.scrollDelta, screen.rows, r) ::
        InSpans(spans, r, c)
    ensures before.last.Some?
    ensures var d := DrawingOf(before, screen, params.previousAge, cursor);
            d.Fits() && d.Bounds(dirty) && d.CoveredBy(spans)
  {
    hide DirtyCovers, BoundsExactly, InSpans, Tracks;
    var d := DrawingOf(before, screen, params.previousAge, cursor);
    DeltaMattersOnlyForReuse(dirty, pass.dirty, params, plan.scrollDelta, before.content, screen.columns, screen.rows);
    DirtyIsExactlyTouched(d, params, before.base, pass, dirty);
    TouchedIsCovered(d, params, before.base, pass, spans);
  }

  /** Why a composed frame is well-formed, follows the last one, and shows the screen. */
  lemma ComposedFrame(plan: Plan, params: DrawParams, before: Before, screen: Screen, age: nat, pass: Pass,
                      info: FrameInfo, generation: nat)
    requires BeforeOk(before, plan, params, info.cursor, screen) && info.alternate == screen.alternate
    requires before.last.Some? ==> before.last.value.generation == generation
    requires Finished(plan, params, generation, before.base, before.encode, before.lastScreen, screen, before.visits,
                      age, pass, info)
    ensures WellFormed(info)
    ensures before.last.Some? ==> Follows(before.last.value, info)
    ensures Exactly(before, plan, age) ==> info.picture == PictureOf(before.encode, screen)
  {
    FinishedIsWellFormed(plan, params, generation, before.base, before.encode, before.lastScreen, screen,
                         before.visits, age, pass, info);
    if before.last.Some? {
      NewFrameFollows(plan, params, before.last.value, before.base, before.encode, before.lastScreen, screen,
                      before.visits, age, pass, info, before.content, before.viewport, before.moved);
    }
    if Exactly(before, plan, age) {
      IncrementalDecodeIsFullDecode(params, before.base, before.encode, before.lastScreen, screen, before.visits,
                                    age, params.previousAge, before.moved);
    }
  }

  lemma ChainEndsWellFormed(frames: seq<FrameInfo>)
    requires Chain(frames)
    ensures frames != [] ==> WellFormed(frames[|frames| - 1])
  {
  }

  lemma GridShape(rowData: seq<PackedRow>, columns: nat, styleCount: nat, styles: seq<PackedStyle>, screen: Screen)
    requires ValidRows(rowData, columns, styleCount) && |rowData| == screen.rows && columns == screen.columns
    ensures Sized(Shown(styles, rowData), screen.columns, screen.rows)
  {
    forall r | 0 <= r < screen.rows ensures |ShownRow(styles, rowData[r])| == columns {
      assert ValidRow(rowData[r], columns, styleCount);
    }
  }
}
