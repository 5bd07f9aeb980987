# Terminal frame engine: a Dafny model

This project models the four stateful parts of the terminal and proves what each keeps over every run:

* **The packed-frame engine** (`src/terminal_core.cpp`). A cached grid of packed rows is brought up to date from
  a screen whose cells carry ages, and shared with the frames taken from it. Modules: `Cells`, `PackedRows`,
  `RunSpans`, `PackedGrids`, `GridCache`, `ScrollDetection`, `ScreenModel`, `DrawPass`, `DrawContext`, `Dirty`,
  `FrameAssembly`, `Frames`, `Sessions`, `DrawFacts`, `CursorStyles`, `TerminalCore`, `TerminalRuns`.
* **The PTY transport** (`src/pty_session.cpp`). A reader thread, an owner thread and the operating system
  interleave step by step. Modules: `OutputQueue`, `PtyTransport`, `PtyQueueSafety`, `PtyLifecycle`, `PtyDuties`,
  `PtyProgress`.
* **The renderer** (`src/wx/terminal_renderer.cpp`). Blit and partial repaint at cell level, the cache of glyph
  runs, and the percentile window. Modules: `Painter`, `GlyphCache`, `PaintWindow`.
* **The control** (`src/wx/terminal_ctrl.cpp`). The pending frame and its merge with later frames. Modules:
  `Coalescing`, `FrameControl`.

## How the engine is stated

The screen library is an abstract screen (`ScreenModel.Screen`): contents, ages, row ids, cursor, scrollback
position. `Evolves` says how it may change (a change of a cell, or any movement, makes cells newer than the last
draw), `Draws` says what a draw reports (each cell at most once, every cell that may differ, everything on a full
draw), and `WithinLimits` says what the packed format can hold: cell text of at most 128 bytes, row text that fits
in 32 bits, widths below 256, a palette of at most 65535 styles, and row ids that tell rows apart. The encoder is
an arbitrary function from code points to bytes.

What a frame should show and repaint is stated a second time, apart from the functions the engine calls.
`ScreenModel.ShowsScreen` says of each cell of a picture which colours, attribute bits, text and code point it has,
given the cell on screen and the cursor. `DrawFacts.Drawing` says of each cell of the grid whether a take has to paint
it anew, and `DrawFacts.Answers` what follows for the frame: when it may repaint everything, which dirty region it has
otherwise, and whether it is a new generation. Takes are proved against both.

`TerminalCore.Terminal` carries the fields of the engine and a ghost history: every frame taken, the screen at the
last take, whether the screen has moved since, and whether the cache shows it exactly. `Frames.Chain` says what a
run of frames is. The renderer and the control are proved against chains, so the engine's frames can be painted
by them. `Sessions` is the engine's bookkeeping as a function of the events of a run, and `TerminalRuns` drives the
engine through any run of feeds, scrolls, resizes, takes and frees.

## What turned out not to hold

1. **A stale row observation makes the engine rotate rows of a screen that did not move.** Scrolling the viewport
   (`src/terminal_core.cpp:1082-1122`) leaves the observed row ids as they were, so a later feed compares the rows
   on screen with rows that are no longer shown (`src/terminal_core.cpp:204-210`, `299-315`).
   `TerminalRuns.StaleFeedShowsWrongRows` is the input: from a new engine, scroll back, feed a byte, scroll down,
   take a frame, feed another byte that changes nothing, and the next frame shows the wrong rows. Scrolling changes
   no line in this run (`TerminalRuns.SameLinesLookTheSame`).
   The exact condition can be checked right after a take: compared with the rows on screen, the observed rows show
   no shift (`Sessions.NothingToReport`, what `DetectFullScreenShift` would answer).
   `Sessions.NextTakeIsExactExactlyWhenNothingToReport` proves that then, and only then, every possible next take is
   exact, whatever the screen shows and whatever is fed, scrolled or resized until then. Both halves are also proved
   of the engine itself: `TerminalRuns.TakeAgain` and `TerminalRuns.TakeStale`. Over whole runs,
   `TerminalRuns.Drive` proves every frame exact if every feed starts from the rows on screen.
2. **Coalescing does not move the earlier dirty box along with a later scroll**
   (`src/wx/terminal_ctrl.cpp:274-285`). `Coalescing.MergeIsSoundExactlyWhenCovered` proves that painting the
   merge of two partial frames is right for all pictures if and only if the earlier box, moved by the later scroll,
   lies in the join of both boxes; `Coalescing.UncoveredMergeLosesARow` is a concrete failing input, painted. For any number of merges whose
   later frames carry no scroll or make the merge a full repaint, `Coalescing.UnscrolledOrFullCoalescingIsSound`
   proves that painting once shows what painting each frame shows.
3. **A full style table answers style 0** (`src/terminal_core.cpp:426`). `GridCache.PackedGrid.StyleIndex` states
   exactly when the index is right.
4. **Cursor-style values are read modulo 2^32** (`src/terminal_core.cpp:735-737`), where `unsigned long` has 64 bits:
   4294967296 asks for a block (`CursorStyles.LargeValueAsksForABlock`). The cut changes the style asked for if and
   only if the number is at least 2^32 and its low 32 bits are at most 6
   (`CursorStyles.CutChangesTheStyleExactlyWhenLowBitsNameOne`). Where `unsigned long` has 32 bits, `strtoul`
   saturates instead, and such a request asks for no style; that platform is not modelled.

## Model

| member | source | states |
|---|---|---|
| Cells.EncodeCell | src/terminal_core.cpp:527-540 | a cell is encoded completely if its text has at most 128 bytes, and otherwise not at all |
| Cells.EncodeAllJoins | src/terminal_core.cpp:528-535 | the text of a cell is that of its code points, one after the other |
| Cells.ViewShowsCell | src/terminal_core.cpp:397-415 | a cell is shown as the engine computes it if and only if: inverse exchanges the colours, dim makes the foreground half of each, the flags are the bits 1, 2, 4, 8 and 16, the text is all code points in order and the code point the first, or a space, or nothing for a cell without width |
| PackedRows.OffsetsArePrefixSums | src/terminal_core.cpp:642-646 | every cell's text offset is the sum of the text lengths before it |
| PackedRows.RunTextIsItsCells | src/terminal_core.cpp:649-661 | a run's text is the concatenation of the texts of its cells |
| PackedRows.MaximalTilingIsUnique | src/terminal_core.cpp:649-661 | there is only one tiling of a row into maximal runs of one style |
| PackedRows.BlankRow | src/terminal_core.cpp:432-446 | a blank row is valid and every cell is a space in style 0 |
| PackedRows.BuildRuns | src/terminal_core.cpp:649-661 | the runs built are the maximal style-homogeneous tiling of the cells |
| PackedRows.RebuildRow | src/terminal_core.cpp:609-661 | the rebuilt row tiles its text and every cell is the change for its column, or the old cell |
| RunSpans.NextSpan | src/terminal_core.cpp:1304-1334 | each span fits its run, has at most the bound of cells, progresses, and does not cut a wide cell from its continuation |
| RunSpans.SpanTextsAreTheCells | src/terminal_core.cpp:1315-1334 | spans that cover a stretch of cells carry exactly those cells' text |
| RunSpans.ForEachPackedRunSpan | src/terminal_core.cpp:1290-1340 | succeeds exactly for a positive bound; the spans tile the run, their texts concatenate to the run's, each has at most max(2, bound) cells, fewer only at the end of its run or by one before a wide cell; no wide cell is cut |
| RunSpans.ForEachRowSpan | src/terminal_core.cpp:1701-1735 | the spans of all runs cover the row, their texts concatenate to the row text, each is as long as its run and the bound allow, and a boundary that cuts a wide cell from its continuation is the end of a run |
| Dirty.HullIsLeast | src/terminal_core.cpp:322-345 | the hull of spans holds every span, lies in every region that does, and is empty only for no spans |
| Dirty.HullIsTheBoundingBox | src/terminal_core.cpp:322-345 | a region holds the hull exactly if it holds every span |
| Dirty.IncludeSpanGrowsHull | src/terminal_core.cpp:354-369 | merging into the last span grows the hull by exactly the new stretch |
| Dirty.IncludeSpanLosesNothing | src/terminal_core.cpp:354-369 | after including a stretch, its cells and all cells already covered lie in some span |
| Dirty.IncludeCellIsExact | src/terminal_core.cpp:322-384 | box and spans stay two summaries of the same cells: box equals hull, the cell is covered, nothing is lost |
| Dirty.IncludeRows | src/terminal_core.cpp:479-501 | the rows' cells all lie in spans, the box stays the hull, and grows by exactly those rows |
| Dirty.IncludeFullSpans | src/terminal_core.cpp:386-395 | one full span for each row |
| Dirty.CoveringSpansHaveWholeHull | src/terminal_core.cpp:898-903 | spans that miss no cell have the whole grid as box |
| ScrollDetection.DetectFullScreenShift | src/terminal_core.cpp:270-297 | returns the shortest shift that relates every overlapping row, upwards first, and 0 exactly if there is none; a non-zero result relates all of them despite the early break |
| ScrollDetection.TrueShiftIsDetected | src/terminal_core.cpp:278-296 | with distinct ids and fresh ids on exposed rows, a true shift is returned exactly |
| ScrollDetection.UnmovedScreenHasNoShift | src/terminal_core.cpp:278-296 | with distinct ids an unmoved screen yields 0 |
| ScrollDetection.ShiftIsUnique | src/terminal_core.cpp:278-296 | two observations have one shift, so the engine reports no other |
| ScrollDetection.StaleObservationReportsAScroll | src/terminal_core.cpp:204-210 | rows observed while scrolled back, compared with the rows shown after scrolling down, report a shift although these did not move |
| ScreenModel.AtMostOneVisitPerCell | src/terminal_core.cpp:857-861 | a draw decodes at most as many cells as the grid has |
| ScreenModel.FullDecodeShowsScreen | src/terminal_core.cpp:503-588 | a picture is the full decode if and only if each cell of it shows the colours, bits, text and code point of the cell on screen, exchanged under the cursor |
| PackedGrids.InsertKeepsOrder | src/terminal_core.cpp:596-602 | sorting keeps the same changes, in strict grid order |
| PackedGrids.SortingKeepsOverrides | src/terminal_core.cpp:596-602 | the order of the changes does not matter to what they override |
| PackedGrids.MoreStylesShowTheSame | src/terminal_core.cpp:428-429 | new styles at the end of the table leave every decoded row as it was |
| PackedGrids.RowEnd | src/terminal_core.cpp:613-616 | the slice of sorted changes that belong to one row, in ascending columns |
| PackedGrids.RebuildRows | src/terminal_core.cpp:590-665 | every row is valid and decodes to the old row overridden by its changes; rows without a change are untouched |
| GridCache.DistinctStylesFit | src/terminal_core.cpp:417-430 | a style table never outgrows the palette its styles come from |
| GridCache.PackedGrid.StyleIndex | src/terminal_core.cpp:417-430 | the index is right if and only if the style is known or the table is below its cap; the table only grows at the end, without repeats |
| GridCache.PackedGrid.EnsurePackedGrid | src/terminal_core.cpp:448-462 | a grid of the right size is left alone, any other becomes blank and of the right size |
| GridCache.PackedGrid.RotatePackedRows | src/terminal_core.cpp:464-477 | the decoded picture moves by delta rows, blank where no row moves in |
| GridCache.PackedGrid.RebuildPackedRows | src/terminal_core.cpp:590-665 | the grid's rows become the rows overridden by the changes, and stay valid |
| GridCache.RotateRows | src/terminal_core.cpp:468-476 | each row is the row delta further on, or blank |
| DrawPass.IncrementalDecodeIsFullDecode | src/terminal_core.cpp:503-588 | overwriting the cache with the cells presented as changed gives a full decode of the screen: on full draws, after any movement whatever the rotation, and otherwise if the cache showed the last screen |
| DrawPass.StillScreenIsRotatedWrongly | src/terminal_core.cpp:834-835 | for every size, rows and shift, a screen that did not move, has nothing to draw, and is decoded wrongly after a rotation |
| DrawContext.CacheComparisonDecides | src/terminal_core.cpp:542-563 | the comparison of style index, width, code point and text decides whether both cells show the same |
| DrawContext.KeptVisitsMembers | src/terminal_core.cpp:516-563 | the cells collected are exactly the visited ones that are changed and not already held by the cache, each once |
| DrawContext.AppendChange | src/terminal_core.cpp:568-586 | the recorded change carries the cell's view, earlier changes keep theirs, and the dirty box is the bounding box of the kept cells |
| DrawContext.PackedDrawContext.CacheHolds | src/terminal_core.cpp:542-564 | true exactly if rows are reused and the cached cell shows what is drawn |
| DrawContext.PackedDrawContext.AddStyle | src/terminal_core.cpp:525-526 | the index is that of the style, and what is cached or collected shows the same as before |
| DrawContext.PackedDrawContext.DrawPackedCell | src/terminal_core.cpp:503-588 | one visit is collected, dropped or skipped so that the collected changes show exactly the kept visits |
| DrawContext.RebuiltRowsShowNextPicture | src/terminal_core.cpp:905-905 | rebuilding rows from the collected changes gives the cache overwritten by the presented cells, including the cells dropped as equal |
| FrameAssembly.FinishDirty | src/terminal_core.cpp:863-903 | box equals hull of spans; every drawn, cursor and exposed cell lies in a span; the box of a frame that is not forced to redraw is the bounding box of exactly these; a full repaint has the whole grid as box and one full span per row, and is forced, a first draw, or has parts that span the grid |
| FrameAssembly.EverythingKept | src/terminal_core.cpp:520-523 | when everything is redrawn, or everything is newer and nothing is reused, every cell is dirty |
| FrameAssembly.MetadataExplainPicture | src/terminal_core.cpp:827-909 | outside the dirty box each cell equals the previous picture's cell delta rows on, and that row exists |
| Frames.GenerationIsFaithful | src/terminal_core.cpp:909-911 | over any run generations never fall, grow exactly if some frame between changed, and equal generations mean equal size, cursor and picture |
| Frames.UnchangedFrameShowsTheSame | src/terminal_core.cpp:909-911 | an unchanged frame has the same picture, cursor and size |
| Frames.PaintReachesThePicture | src/wx/terminal_renderer.cpp:275-294 | blit and repaint of the dirty box gives the frame's picture, as a full repaint would |
| Frames.PaintAll | src/wx/terminal_renderer.cpp:254-298 | painting every frame of any run in order leaves the newest picture in the framebuffer |
| Sessions.AlwaysOnTheWay | src/terminal_core.cpp:197-212 | from one take to the next: unless the screen moved, the only shift that can be pending is the one the observation at the take already shows |
| Sessions.InSyncTakeIsExact | src/terminal_core.cpp:772-924 | after an exact take whose observation shows no shift, the next take is exact after any run of feeds, scrolls and resizes |
| Sessions.StaleTakeIsWrong | src/terminal_core.cpp:827-835 | for every observation that shows a shift, a screen and a one-byte run after which the next take is wrong |
| Sessions.NextTakeIsExactExactlyWhenNothingToReport | src/terminal_core.cpp:772-924 | after an exact take, every possible next take is exact if and only if the observed rows show no shift against the rows on screen |
| DrawFacts.DirtyIsExactlyTouched | src/terminal_core.cpp:503-588 | a region holds the dirty box if and only if it holds every cell that is newer and not already shown, in full width, every cell under a changed cursor, and every exposed row |
| DrawFacts.TouchedIsCovered | src/terminal_core.cpp:863-896 | every such cell lies in a dirty span |
| DrawFacts.QuietDrawTouchesNothing | src/terminal_core.cpp:898-911 | without a newer cell, a changed cursor or a scroll the dirty box is empty |
| DrawFacts.FrameAnswers | src/terminal_core.cpp:823-911 | so such a take gives an unchanged frame of the same generation; together with the conditions for a full repaint this is what a frame answers to the state it was taken in |
| CursorStyles.LastRequestWins | src/terminal_core.cpp:739-760 | the style after a stream is that of its last complete request for a known style |
| CursorStyles.RequestSetsTheStyle | src/terminal_core.cpp:731-756 | a request whose first 16 parameter bytes begin with a number that is 0 to 2 after the cut to 32 bits makes the cursor a block, 3 or 4 an underline, 5 or 6 a bar; any other leaves it |
| CursorStyles.OnlyRequestsSetTheStyle | src/terminal_core.cpp:702-770 | a byte that ends no request leaves the style, which is a block at first |
| CursorStyles.NumberReadsOn | src/terminal_core.cpp:733-737 | each further digit makes the number ten times as large, plus the digit |
| CursorStyles.NumberStops | src/terminal_core.cpp:733-737 | nothing after the digits counts |
| CursorStyles.CutChangesTheStyleExactlyWhenLowBitsNameOne | src/terminal_core.cpp:733-756 | cutting the number to 32 bits changes the style if and only if it is at least 2^32 and its low bits name a style |
| CursorStyles.LargeValueAsksForABlock | src/terminal_core.cpp:733-756 | 4294967296 is read as 0 and asks for a block |
| CursorStyles.StepRecognises | src/terminal_core.cpp:704-769 | the automaton state says exactly which part of a request the stream ends with, and the parameters are its first 16 bytes |
| CursorStyles.RequestIsRecognised | src/terminal_core.cpp:731-756 | a request ends with a byte exactly if the automaton completes one there, and asks for the recorded value |
| CursorStyles.TrackByte | src/terminal_core.cpp:704-769 | one byte keeps state, style and number of style changes equal to those of the whole stream |
| CursorStyles.TrackCursorStyle | src/terminal_core.cpp:702-770 | so does one chunk, hence any chunking of the stream |
| TerminalCore.Terminal.constructor | src/terminal_core.cpp:941-960 | a new engine satisfies the invariant, has taken no frame, and has observed the rows on screen |
| TerminalCore.Terminal.ObserveScreenScroll | src/terminal_core.cpp:299-315 | the pending scroll grows by the detected shift of the rows given, only on the same screen and not scrolled back; it stays sound for the cache as long as those rows were the rows shown |
| TerminalCore.Terminal.FeedOutput | src/terminal_core.cpp:197-212 | keeps the invariant, tracks the whole stream, and adds the shift from the observed rows to the pending scroll |
| TerminalCore.Terminal.ScrollViewport | src/terminal_core.cpp:1082-1122 | keeps the invariant; the pending viewport scroll grows by the move of the scrollback position |
| TerminalCore.Terminal.Resize | src/terminal_core.cpp:1013-1025 | keeps the invariant; a successful resize clears both pending scrolls and observes the rows anew |
| TerminalCore.Terminal.PlanOfBookkeeping | src/terminal_core.cpp:823-854 | what a take decides depends on the bookkeeping of the session alone |
| TerminalCore.Terminal.PlanRedrawsWhenItMust | src/terminal_core.cpp:823-835 | a take starts as a full repaint if and only if no valid frame is there to build on, the size or the alternate flag changed, or the content scrolled together with the viewport, scrolled back, or by at least the height; otherwise rows are reused exactly if the content scrolled |
| TerminalCore.Terminal.PrepareGrid | src/terminal_core.cpp:788-796 | the grid to draw into is reached by no live frame, all live grids are untouched, and it shows the last picture if the size is the same |
| TerminalCore.Terminal.PrepareRows | src/terminal_core.cpp:827-835 | the grid then shows the last picture, rotated by the content scroll if its rows are reused |
| TerminalCore.Terminal.DecodeScreen | src/terminal_core.cpp:853-905 | the grid shows the cache overwritten by the presented cells; decoded and reused cells add up to all cells taken |
| TerminalCore.DescribeFrame | src/terminal_core.cpp:803-911 | the frame is well-formed and follows the last one, with an exact dirty box; its picture is the full decode of the screen except after rows of an unmoved screen were reused |
| TerminalCore.NewFrameFollows | src/terminal_core.cpp:813-911 | scroll delta, dirty box and generation of the new frame explain its picture from the last frame's |
| TerminalCore.Terminal.ComposeFrame | src/terminal_core.cpp:788-911 | draws and describes a frame, without touching any live frame's grid |
| TerminalCore.Terminal.CommitFrame | src/terminal_core.cpp:912-923 | the frame is live and last in the run of frames, and the next draw starts from the screen as it is |
| TerminalCore.Terminal.TakePackedFrame | src/terminal_core.cpp:772-924 | a frame repaints everything if and only if it must, the draw starts anew, or what it touches spans the grid; any other frame's dirty box is the bounding box of exactly the cells it touches and its spans cover them; if nothing is newer, scrolled or under a changed cursor, the frame is unchanged; every take keeps the invariant and all live frames' grids unchanged, extends the run of frames by one and keeps its grid as the cache; a frame not redrawn in full shows the last picture, rotated if rows are reused, overwritten by what the draw presents; it shows exactly the screen if it redraws all, the screen moved, or the cache was exact and its rows stay or every detected scroll was in sync |
| TerminalCore.Terminal.FreeFrame | src/terminal_core.cpp:1585-1588 | freeing a frame leaves every other live frame and the cache as they were |
| TerminalRuns.Perform | src/terminal_core.cpp:197-212 | each event of a run changes the bookkeeping as specified, and keeps frames exact while feeds are in sync |
| TerminalRuns.Drive | src/terminal_core.cpp:772-924 | in any run of feeds, scrolls, resizes, takes and frees: if every feed is in sync, every frame taken shows exactly the screen it was taken from; decoded and reused cells grow by the cells of all frames taken; the live frames are those taken and not freed, and every frame that stays live is unchanged |
| TerminalRuns.UnfreedFramesStayLive | src/terminal_core.cpp:1572-1588 | a live frame that no free of the run names is live after the run |
| TerminalRuns.TakeAgain | src/terminal_core.cpp:772-924 | the engine: after an exact take with no shift to report, the next frame is exact whatever happens between |
| TerminalRuns.TakeStale | src/terminal_core.cpp:827-835 | the engine: after a stale feed to a still screen, the next frame is wrong |
| TerminalRuns.SameLinesLookTheSame | src/terminal_core.cpp:1082-1122 | in that run, rows with the same id show the same cells in both views |
| TerminalRuns.StaleFeedShowsWrongRows | src/terminal_core.cpp:1082-1122 | a run from a new engine, in which scrolling changes no line, that ends with a frame that does not show the screen |
| Coalescing.MergeReaches | src/wx/terminal_ctrl.cpp:258-296 | a merge that passes the check leads from the picture on screen to the newest picture |
| Coalescing.UnscrolledOrFullMergesAreCovered | src/wx/terminal_ctrl.cpp:262-286 | frames without a scroll, and merges into a full repaint, pass the check |
| Coalescing.UnscrolledOrFullRunsAreCovered | src/wx/terminal_ctrl.cpp:262-286 | if every later frame carries no scroll or makes the merge a full repaint, every merge passes the check |
| Coalescing.CoalescedPaintIsSound | src/wx/terminal_ctrl.cpp:258-296 | painting the merge of any number of frames once shows what painting each in order shows, if every merge passes the check |
| Coalescing.UnscrolledOrFullCoalescingIsSound | src/wx/terminal_ctrl.cpp:258-296 | painting such a merge of any number of frames once shows what painting each in order shows |
| Coalescing.JoinsAreSoundExactlyWhenCovered | src/wx/terminal_ctrl.cpp:274-285 | the same of any two boxes: joining them is enough for all pictures if and only if the first, moved by the second scroll, lies in the join |
| Coalescing.MergedDirtyOfPartials | src/wx/terminal_ctrl.cpp:278-285 | a region holds the merged box of two partial frames if and only if it holds both boxes |
| Coalescing.MergeMergesExactly | src/wx/terminal_ctrl.cpp:262-286 | scrolls add up, their kinds combine, the merge repaints everything if and only if either frame does, and otherwise its box is exactly the bounding box of both |
| Coalescing.MergeIsSoundExactlyWhenCovered | src/wx/terminal_ctrl.cpp:274-285 | painting the merge of two partial frames gives the newest picture for all pictures if and only if the earlier box, moved by the later scroll, lies in the join of both boxes |
| Coalescing.UncoveredMergeLosesARow | src/wx/terminal_ctrl.cpp:274-285 | two scrolls of a three-row screen, merged and painted once, leave the middle row blank |
| Painter.RenderRow | src/wx/terminal_renderer.cpp:628-666 | the spans paint each cell between left and right exactly once, and nothing else |
| Painter.Renderer.ScrollFramebuffer | src/wx/terminal_renderer.cpp:58-78 | the framebuffer is copied onto itself delta rows on; rows without a source stay |
| Painter.Renderer.RenderLine | src/wx/terminal_renderer.cpp:587-606 | a line painted through bounded spans or whole runs shows the packed row's cells |
| Painter.Renderer.RenderFrame | src/wx/terminal_renderer.cpp:553-741 | exactly the cells of the region take the frame's picture, and their number is counted |
| Painter.Renderer.PaintFrame | src/wx/terminal_renderer.cpp:254-298 | the framebuffer becomes what the paint of the frame specifies, with the repaint and cell counters to match |
| FrameControl.UnchangedFrameCanBeDropped | src/wx/terminal_ctrl.cpp:252-256 | leaving an unchanged frame out of a run leaves a run |
| FrameControl.Control.MergeWithPending | src/wx/terminal_ctrl.cpp:258-286 | computes the merge of the pending frame and the one just taken: scrolls add up, either full repaint makes it full, and the box is exactly the bounding box of both |
| FrameControl.Control.RequestFrameRefresh | src/wx/terminal_ctrl.cpp:242-296 | an unchanged frame leaves the pending one alone, a changed one replaces it by the merge, whose box is exactly the bounding box of both; the pending frame still leads to the newest picture as long as merges passed the check |
| FrameControl.Control.HandOver | src/wx/terminal_ctrl.cpp:388-411 | hands over the pending frame with its merged metadata, or the frame taken now, and clears the pending one |
| FrameControl.Control.OnPaint | src/wx/terminal_ctrl.cpp:388-428 | after a paint the framebuffer shows the newest frame if all merges since the last full repaint passed the check; a full repaint always restores that |
| GlyphCache.ColorKeyTellsColorsApart | src/wx/terminal_renderer.cpp:26-31 | two colours have the same key exactly if they are the same |
| GlyphCache.TrimmedIsTheLongestThatFits | src/wx/terminal_renderer.cpp:532-536 | eviction leaves the longest prefix of the recency list that is below the configured number of entries and leaves room for the new bytes |
| GlyphCache.BitmapBytesHoldAllBits | src/wx/terminal_renderer.cpp:367-378 | a bitmap counts the fewest whole bytes per pixel that hold its bits; one that could not be created counts none |
| GlyphCache.AfterLookupLooksUp | src/wx/terminal_renderer.cpp:492-550 | a hit moves its key to the front; a cacheable miss comes before as many of the others as there is room for; any other miss leaves the list alone |
| GlyphCache.RoomForAll | src/wx/terminal_renderer.cpp:532-536 | with room for one more entry and its bytes a miss evicts nothing |
| GlyphCache.MostRecentOrder | src/wx/terminal_renderer.cpp:492-550 | the most-recent-first list is in the order of the last lookups |
| GlyphCache.ListIsRecencyPrefix | src/wx/terminal_renderer.cpp:492-550 | after any lookups the list is a prefix of the distinct cacheable keys, most recent first, within both bounds |
| GlyphCache.MostRecentMembers | src/wx/terminal_renderer.cpp:492-550 | that most-recent-first list holds each cacheable key looked up, once |
| GlyphCache.MissesAreAccountedFor | src/wx/terminal_renderer.cpp:405-551 | over any sequence of lookups and clears, cacheable misses equal current entries plus evictions plus entries dropped by clears, and every lookup is a hit or a miss |
| GlyphCache.StoredKeys | src/wx/terminal_renderer.cpp:157-166 | map and list hold the same keys, each once, and the byte counter is the sum of their sizes |
| GlyphCache.IteratorIsValid | src/wx/terminal_renderer.cpp:157-161 | every entry's iterator leads to the one list node with its key, and its bitmap is the key's |
| GlyphCache.GlyphRunCache.ClearGlyphRunCache | src/wx/terminal_renderer.cpp:405-411 | the cache is empty, exactly its entries are added to those dropped, and no other counter changes |
| GlyphCache.GlyphRunCache.UpdateGeometry | src/wx/terminal_renderer.cpp:185-210 | a changed cell size clears the cache, an unchanged one leaves it; hits, misses, evictions and peak stay; reports exactly whether the grid size changed |
| GlyphCache.CellsThatFitFill | src/wx/terminal_renderer.cpp:200-204 | the grid has at least one cell each way, and no more and no fewer than fit |
| GlyphCache.GlyphRunCache.EvictLeastRecentlyUsedGlyphRun | src/wx/terminal_renderer.cpp:413-426 | drops exactly the last node and its entry, leaves an empty list alone, and keeps map, list, bytes and counters in step |
| GlyphCache.GlyphRunCache.MakeRoom | src/wx/terminal_renderer.cpp:532-536 | the loop ends with room for the new entry, has evicted from the back, and no entry more than needed |
| GlyphCache.GlyphRunCache.GlyphRunBitmap | src/wx/terminal_renderer.cpp:474-551 | the bitmap is always the one rendering the key gives; the key is cached exactly if the configured limits can hold it; a miss for which there is room evicts nothing and comes before all others, another keeps as many as there is room for; limits and recency order hold after every lookup, which counts one hit, one uncacheable miss, or one miss with exactly the evictions it needs |
| PaintWindow.SortSorts | src/wx/terminal_renderer.cpp:243-245 | the sorted prefix is an ascending arrangement of the same samples |
| PaintWindow.RankIsLeast | src/wx/terminal_renderer.cpp:362-363 | the rank is in bounds and is the least one that covers the percentage |
| PaintWindow.NearestRankIsUnique | src/wx/terminal_renderer.cpp:358-365 | samples have one nearest-rank value for each percentage |
| PaintWindow.NearestRankGrows | src/wx/terminal_renderer.cpp:246-251 | a higher percentage has no lower value |
| PaintWindow.PaintTimes.Store | src/wx/terminal_renderer.cpp:237-241 | the ring holds the last min(n, 256) durations, rotated by the cursor |
| PaintWindow.PaintTimes.PaintPercentile | src/wx/terminal_renderer.cpp:358-365 | the value read is the nearest-rank value of the recent durations |
| PaintWindow.PaintTimes.RecordPaintDuration | src/wx/terminal_renderer.cpp:232-252 | after any number of paints each percentile is the nearest-rank value of the last min(n, 256) durations and p50 <= p95 <= p99 <= the all-time maximum |
| OutputQueue.DrainTakesTheFirstBytes | src/pty_session.cpp:311-323 | a drain takes exactly the first min(limit, queued) bytes, and leaves the rest in order |
| OutputQueue.DrainSplitsAtMostOneChunk | src/pty_session.cpp:311-323 | chunks are taken whole, but for at most one that is split |
| OutputQueue.TakeOutput | src/pty_session.cpp:305-327 | the loop takes what a drain specifies, and counts its bytes |
| PtyQueueSafety.DrainIsSafe | src/pty_session.cpp:305-327 | a drain step delivers the first bytes and keeps the invariant before the counter is decreased |
| PtyQueueSafety.EnqueueStepIsSafe | src/pty_session.cpp:384-392 | each step of appending, counting and recording the maximum keeps the invariant |
| PtyQueueSafety.DiscardIsSafe | src/pty_session.cpp:329-334 | so does a discard, whose bytes count as dropped |
| PtyQueueSafety.NextIsSafe | src/pty_session.cpp:305-432 | every step of either thread or the environment keeps the queue invariant |
| PtyQueueSafety.RunsAreSafe | src/pty_session.cpp:305-432 | it holds in every state of every interleaving |
| PtyQueueSafety.CounterStaysInBounds | src/pty_session.cpp:305-391 | in every interleaving counter, queue and maximum stay within 1048576 bytes, the counter never wraps below zero, and the maximum is its high-water mark |
| PtyQueueSafety.HistoryGrows | src/pty_session.cpp:187-242 | each step only extends the streams, and stopping loses nothing |
| PtyQueueSafety.StreamAccounting | src/pty_session.cpp:305-393 | at any time the bytes read are, in order, the bytes delivered or dropped, the bytes queued, and the chunk in the reader's hand |
| PtyQueueSafety.TakeOutputDeliversInOrder | src/pty_session.cpp:305-327 | in every run each drain delivers exactly the first bytes queued at that moment |
| PtyLifecycle.ReapKeepsWorld | src/pty_session.cpp:413-416 | a successful wait is the first for that session, and reports how its child ended |
| PtyLifecycle.RecordKeepsWorld | src/pty_session.cpp:38-52 | a status is recorded only for a reaped child, only once, and is its own |
| PtyLifecycle.ReaderWaitStepIsSafe | src/pty_session.cpp:404-427 | the reader's wait for the child keeps the lifecycle invariant |
| PtyLifecycle.ReaderRecordStepIsSafe | src/pty_session.cpp:416-421 | so do its three stores of the status and the reaped mark |
| PtyLifecycle.OwnerStatusIsSafe | src/pty_session.cpp:348-356 | a snapshot taken load by load stays consistent with a reader that finishes meanwhile |
| PtyLifecycle.OwnerJoinStepIsSafe | src/pty_session.cpp:189-214 | stop joins the reader before it takes the terminal and the child away |
| PtyLifecycle.OwnerWaitStepIsSafe | src/pty_session.cpp:216-232 | the staged wait signals and reaps only an unreaped child of the session |
| PtyLifecycle.OwnerForkStepIsSafe | src/pty_session.cpp:138-167 | fork keeps the invariant, whether or not it succeeds |
| PtyLifecycle.OwnerLaunchStepIsSafe | src/pty_session.cpp:162-177 | so does launching the reader |
| PtyLifecycle.NextIsSafe | src/pty_session.cpp:110-432 | every step of either thread or the environment keeps the lifecycle invariant |
| PtyLifecycle.RunsAreSafe | src/pty_session.cpp:110-432 | it holds in every state of every interleaving |
| PtyLifecycle.ChildrenAreReapedOnce | src/pty_session.cpp:216-231 | each child is waited for and recorded at most once, with its own status |
| PtyLifecycle.SignalsGoToTheOwnUnreapedChild | src/pty_session.cpp:220-229 | TERM and KILL go only to a child of this session that has not been waited for |
| PtyLifecycle.TheReaderUsesAnOpenTerminal | src/pty_session.cpp:202-214 | the reader's descriptor is open as long as there is a reader, and closed only without one |
| PtyLifecycle.AfterStopNothingRuns | src/pty_session.cpp:187-242 | when Stop ends, the state is neither Starting nor Running, and terminal, child and reader are gone |
| PtyLifecycle.ExitedSnapshotsAreFinal | src/pty_session.cpp:348-356 | a snapshot showing Exited after the child was reaped carries its final code: the exit code and signal 0, or -1 and the signal; without a stop, Exited means reaped |
| PtyDuties.RunsKeepDuties | src/pty_session.cpp:110-432 | in every state of every interleaving: a reader done without a stop has stored Exited, the session runs exactly until its reader ends, a read asks for 1 to 8192 bytes, and the signals sent are those of the stage the wait has reached |
| PtyDuties.EndedReadersShowExited | src/pty_session.cpp:404-431 | in every interleaving a reader that has ended without a stop has left the state Exited, the child reaped and the session not running; a reader that has not ended is running |
| PtyDuties.StopGivesUpLast | src/pty_session.cpp:216-232 | Stop leaves a child behind only after it sent TERM and then KILL |
| PtyDuties.StopKeepsTheOutcome | src/pty_session.cpp:238-241 | Stop keeps the state of a session that exited or failed, and ends with one of Stopped, Exited and Failed |
| PtyDuties.StartEndsRunningOrFailed | src/pty_session.cpp:115-177 | Start ends with a reader for a running session and its child, or Failed without either |
| PtyDuties.EventsCountChunks | src/pty_session.cpp:384-388 | every chunk read is one read event |
| PtyProgress.NobodyIsStuck | src/pty_session.cpp:187-432 | in every state of every interleaving a live reader has a step on unless the owner holds the lock and has one, and an owner in an operation has one unless it joins a reader that has one |
| PtyProgress.SomeRunDeliversAndReportsTheExit | src/pty_session.cpp:110-432 | for every chunk and every way a child ends there is a run of a new transport that delivers the chunk and ends with a status that says Exited, reaped, with the code and signal 0, or with -1 and the signal |

## Left out

- FrameControl.Control.OnPaint: claims the newest picture only while merges pass the check, because the merge ignores the later scroll (see above).
- TerminalRuns.Drive: claims exact frames only if every feed is in sync, for the same reason.
- TerminalCore.Terminal.TakePackedFrame: does not claim an exact picture after a scroll detected out of sync on a screen that did not move, because the code then shows rotated rows (see above).
- PackedRows.BuildRuns: 32-bit arithmetic is written out, but texts are assumed to fit, as the format requires.
- The screen library and UTF-8 encoding: the screen contract and an arbitrary encoder stand for them. Selection is part of a cell's content.
- The limits of the packed format are preconditions; a cell text over 128 bytes (dropped by the draw) is only modelled in `Cells.EncodeCell`.
- `std::sort`, a library call, is represented by an insertion sort; `std::list` by a sequence of nodes with identities, which iterators hold.
- Shared rows (`shared_ptr<const PackedRow>`) are values; sharing and copy-on-write are modelled for grids, where the code mutates in place.
- Engines whose screen could not be created, frames without a grid, null pointers, and the checks of the C interface.
- The metrics' 64-bit wrap-around, latency metrics and thread-affinity assertions.
- Drawing in pixels: fonts, glyph overflow beyond a cell, backgrounds, underlines, the cursor outline, scroll animation, and which rectangles the window is asked to refresh.
- Creation of the backing bitmap: a parameter of `PaintFrame` says whether it was rebuilt.
- Rendering of a glyph run: an arbitrary function of the cache key.
- SIGHUP, which Stop sends from an earlier snapshot of the reaped flag; nothing is claimed about it.
- Write, Resize and the terminal's window size in the PTY transport; `fork`, `poll`, `read`, `waitpid` and timeouts may return any result the model's operating system allows.
- Threads are interleaved under sequential consistency, and sections under a lock that no other step observes are single steps.
- Wheel accumulation, cell lookup, palettes, window titles, selection commands, keyboard and mouse, and the Windows session.
