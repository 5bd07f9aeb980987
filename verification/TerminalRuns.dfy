/** Whole runs of the engine: feeds, scrolls, resizes, takes and frees, in any order. */
module TerminalRuns {
  import opened Cells
  import opened ScreenModel
  import opened ScrollDetection
  import opened DrawPass
  import opened Frames
  import opened Sessions
  import opened TerminalCore

  /** A feed that starts from the rows on screen, or at least reports no shift. */
  ghost predicate InSyncEvent(s: Session, event: Event) {
    event.Feed? && event.data != "" ==>
      RowsBefore(s.observed, s.screen) == s.screen.rowIds || Reported(s, event.next) == 0
  }

  ghost predicate AllInSync(s: Session, events: seq<Event>)
    decreases |events|
  {
    var n := |events| - 1;
    n >= 0 ==> AllInSync(s, events[..n]) && InSyncEvent(AfterAll(s, events[..n]), events[n])
  }

  /** The screens at the takes of a run, oldest first. */
  ghost function ScreensTaken(s: Session, events: seq<Event>): seq<Screen>
    decreases |events|
  {
    if events == [] then [] else
      var n := |events| - 1;
      ScreensTaken(s, events[..n]) + if events[n].Take? then [AfterAll(s, events[..n]).screen] else []
  }

  /** How many cells the frames of a run have. */
  ghost function CellsIn(infos: seq<FrameInfo>): nat {
    if infos == [] then 0
    else CellsIn(infos[..|infos| - 1]) + infos[|infos| - 1].columns * infos[|infos| - 1].rows
  }

  ghost function TakesIn(events: seq<Event>): nat {
    if events == [] then 0 else TakesIn(events[..|events| - 1]) + if events[|events| - 1].Take? then 1 else 0
  }

  /** The live frames after a run: those live before and those taken, without those freed since. `frames` are all
      frames handed out by the end, the first `known` of them before the run. */
  ghost function LiveAfter(live: set<PackedFrame>, frames: seq<PackedFrame>, known: nat, events: seq<Event>)
    : set<PackedFrame>
    requires known + TakesIn(events) <= |frames|
    decreases |events|
  {
    if events == [] then live else
      var n := |events| - 1;
      var before, handed := LiveAfter(live, frames, known, events[..n]), known + TakesIn(events[..n]);
      match events[n]
      case Take(_, _) => before + {frames[handed]}
      case Free(index) => if index < handed then before - {frames[index]} else before
      case _ => before
  }

  /** Frames handed out later do not matter. */
  lemma {:induction false} LiveAfterPrefix(live: set<PackedFrame>, frames: seq<PackedFrame>, more: seq<PackedFrame>,
                                           known: nat, events: seq<Event>)
    requires known + TakesIn(events) <= |frames| && frames <= more
    ensures LiveAfter(live, frames, known, events) == LiveAfter(live, more, known, events)
    decreases |events|
  {
    if events != [] {
      LiveAfterPrefix(live, frames, more, known, events[..|events| - 1]);
    }
  }

  /** Without frees, frames only become live; a frame no free names stays live. */
  lemma {:induction false} UnfreedFramesStayLive(live: set<PackedFrame>, frames: seq<PackedFrame>, known: nat,
                                                 events: seq<Event>, frame: PackedFrame)
    requires known + TakesIn(events) <= |frames| && frame in live
    requires forall i | 0 <= i < |events| && events[i].Free? && events[i].index < |frames| ::
      frames[events[i].index] != frame
    ensures frame in LiveAfter(live, frames, known, events)
    decreases |events|
  {
    if events != [] {
      UnfreedFramesStayLive(live, frames, known, events[..|events| - 1], frame);
    }
  }

  ghost predicate Shows(encode: Encoder, infos: seq<FrameInfo>, screens: seq<Screen>) {
    && |infos| == |screens|
    && forall i | 0 <= i < |infos| :: Shaped(screens[i]) && ShowsScreen(encode, infos[i].picture, screens[i])
  }

  method PerformFeed(t: Terminal, data: string, next: Screen)
    requires t.Valid() && Allowed(t.Bookkeeping(), Feed(data, next), t.encode, t.palette)
    modifies t
    ensures t.Valid() && t.Bookkeeping() == After(old(t.Bookkeeping()), Feed(data, next))
    ensures t.live == old(t.live) && t.cellsTaken == old(t.cellsTaken)
    ensures t.cache == old(t.cache) && t.taken == old(t.taken) && t.exact == old(t.exact)
    ensures old(t.synced) && InSyncEvent(old(t.Bookkeeping()), Feed(data, next)) ==> t.synced
  {
    hide Terminal.InputOk, Terminal.FramesOk, Evolves, WithinLimits, IsShift, ShiftOf, Moved;
    ghost var observed, content := t.LinesBefore(), t.pendingContentScroll;
    t.FeedOutput(data, next);
    if IsShift(observed, next.rowIds, t.pendingContentScroll - content) {
      ShiftIsUnique(observed, next.rowIds, t.pendingContentScroll - content);
    }
  }

  method PerformScroll(t: Terminal, next: Screen)
    requires t.Valid() && Allowed(t.Bookkeeping(), Scroll(next), t.encode, t.palette)
    modifies t
    ensures t.Valid() && t.Bookkeeping() == After(old(t.Bookkeeping()), Scroll(next))
    ensures t.live == old(t.live) && t.cellsTaken == old(t.cellsTaken)
    ensures t.cache == old(t.cache) && t.taken == old(t.taken) && t.exact == old(t.exact) && t.synced == old(t.synced)
  {
    hide Terminal.InputOk, Terminal.FramesOk, Evolves, WithinLimits;
    t.ScrollViewport(next);
  }

  method PerformResize(t: Terminal, next: Screen, resized: bool)
    requires t.Valid() && Allowed(t.Bookkeeping(), Resize(next, resized), t.encode, t.palette)
    modifies t
    ensures t.Valid() && t.Bookkeeping() == After(old(t.Bookkeeping()), Resize(next, resized))
    ensures t.live == old(t.live) && t.cellsTaken == old(t.cellsTaken)
    ensures t.cache == old(t.cache) && t.taken == old(t.taken) && t.exact == old(t.exact)
    ensures old(t.synced) ==> t.synced
  {
    hide Terminal.InputOk, Terminal.FramesOk, Evolves, WithinLimits;
    t.Resize(next, resized);
  }

  method PerformTake(t: Terminal, visits: seq<Visit>, age: nat) returns (frame: PackedFrame)
    requires t.Valid() && Allowed(t.Bookkeeping(), Take(visits, age), t.encode, t.palette)
    modifies t, t.cache
    ensures t.Valid() && t.Bookkeeping() == After(old(t.Bookkeeping()), Take(visits, age))
    ensures t.cache == frame.grid && (frame.grid == old(t.cache) || fresh(frame.grid))
    ensures t.taken == old(t.taken) + [frame.info] && t.synced
    ensures fresh(frame) && t.live == old(t.live) + {frame}
    ensures forall other | other in old(t.live) :: unchanged(other.grid)
    ensures t.cellsTaken == old(t.cellsTaken) + frame.info.columns * frame.info.rows
    ensures old(t.exact) && (old(t.moved) || old(t.pendingContentScroll) == 0) ==> t.exact
    ensures var screen := old(t.Bookkeeping()).screen;
            && Shaped(screen) && t.exact == (frame.info.picture == PictureOf(t.encode, screen))
            && t.exact == ShowsScreen(t.encode, frame.info.picture, screen)
    ensures old(t.exact) && old(t.synced) ==> t.exact
  {
    hide Terminal.InputOk, Terminal.FramesOk, Draws, PlanOf, Drew, ShowsScreen;
    t.PlanOfBookkeeping();
    ghost var plan;
    frame, plan := t.TakePackedFrame(visits, age);
    FullDecodeShowsScreen(t.encode, frame.info.picture, t.screen);
  }

  method PerformFree(t: Terminal, frames: seq<PackedFrame>, index: nat)
    requires t.Valid()
    modifies t`live
    ensures t.Valid() && t.Bookkeeping() == old(t.Bookkeeping())
    ensures t.live == if index < |frames| then old(t.live) - {frames[index]} else old(t.live)
  {
    hide Terminal.InputOk, Terminal.FramesOk;
    if index < |frames| {
      t.FreeFrame(frames[index]);
    }
  }

  /** One event of a run. `frames` are the frames handed out so far; freeing one of them keeps it listed. */
  method Perform(t: Terminal, event: Event, frames: seq<PackedFrame>) returns (frames': seq<PackedFrame>)
    requires t.Valid() && Allowed(t.Bookkeeping(), event, t.encode, t.palette)
    modifies t, t.cache
    ensures t.Valid() && t.Bookkeeping() == After(old(t.Bookkeeping()), event)
    ensures t.cache == old(t.cache) || fresh(t.cache)
    ensures if event.Take? then |frames'| == |frames| + 1 && frames'[..|frames|] == frames else frames' == frames
    ensures t.taken == old(t.taken) + if event.Take? then [frames'[|frames|].info] else []
    ensures t.live == match event {
      case Take(_, _) => old(t.live) + {frames'[|frames|]}
      case Free(index) => if index < |frames| then old(t.live) - {frames[index]} else old(t.live)
      case _ => old(t.live) }
    ensures event.Take? ==> fresh(frames'[|frames|])
    ensures forall frame | frame in old(t.live) :: unchanged(frame.grid)
    ensures t.cellsTaken == old(t.cellsTaken)
      + if event.Take? then frames'[|frames|].info.columns * frames'[|frames|].info.rows else 0
    ensures var screen := old(t.Bookkeeping()).screen;
            event.Take? ==>
              Shaped(screen) && t.exact == ShowsScreen(t.encode, frames'[|frames|].info.picture, screen)
    ensures old(t.synced) && InSyncEvent(old(t.Bookkeeping()), event) ==> t.synced
    ensures old(t.exact) && old(t.synced) ==> t.exact
    ensures !event.Take? ==> t.exact == old(t.exact)
  {
    hide Terminal.Valid, Allowed, Observing, Showing, Reported, Terminal.Bookkeeping, ShowsScreen, PictureOf;
    frames' := frames;
    match event {
      case Feed(data, next) => PerformFeed(t, data, next);
      case Scroll(next) => PerformScroll(t, next);
      case Resize(next, resized) => PerformResize(t, next, resized);
      case Take(visits, age) =>
        var frame := PerformTake(t, visits, age);
        frames' := frames + [frame];
      case Free(index) => PerformFree(t, frames, index);
    }
  }

  /** A whole run. If every feed is in sync, every frame taken shows exactly the screen it was taken from. The cells
      counted are those of the frames taken, and a frame that stays live is left alone. */
  method Drive(t: Terminal, events: seq<Event>, frames: seq<PackedFrame>)
    returns (frames': seq<PackedFrame>, ghost infos: seq<FrameInfo>)
    requires t.Valid() && AllAllowed(t.Bookkeeping(), events, t.encode, t.palette)
    modifies t, t.cache
    ensures t.Valid() && t.Bookkeeping() == AfterAll(old(t.Bookkeeping()), events)
    ensures t.cache == old(t.cache) || fresh(t.cache)
    ensures t.taken == old(t.taken) + infos
    ensures frames <= frames' && |frames'| == |frames| + TakesIn(events)
    ensures forall i | |frames| <= i < |frames'| :: fresh(frames'[i])
    ensures t.live == LiveAfter(old(t.live), frames', |frames|, events)
    ensures forall frame | frame in old(t.live) && frame in t.live :: unchanged(frame.grid)
    ensures t.cellsTaken == old(t.cellsTaken) + CellsIn(infos)
    ensures NoTake(events) ==> t.exact == old(t.exact)
    ensures |infos| == |ScreensTaken(old(t.Bookkeeping()), events)|
    ensures old(t.exact) && old(t.synced) && AllInSync(old(t.Bookkeeping()), events) ==>
      t.exact && t.synced && Shows(t.encode, infos, ScreensTaken(old(t.Bookkeeping()), events))
    decreases |events|
  {
    hide Terminal.Valid, Allowed, After, Terminal.Bookkeeping, PictureOf, ShowsScreen;
    frames', infos := frames, [];
    if events != [] {
      var n := |events| - 1;
      var before;
      before, infos := Drive(t, events[..n], frames);
      frames' := Perform(t, events[n], before);
      LiveAfterPrefix(old(t.live), before, frames', |frames|, events[..n]);
      if events[n].Take? {
        infos := infos + [frames'[|before|].info];
      }
    }
  }

  /** From one exact take to the next, whatever happens between: if right after the first one the observed rows
      show no shift, the second one is exact. */
  method TakeAgain(t: Terminal, events: seq<Event>, visits: seq<Visit>, age: nat, frames: seq<PackedFrame>)
    returns (frame: PackedFrame)
    requires t.Valid() && t.exact && JustTaken(t.Bookkeeping(), t.encode, t.palette)
    requires NoTake(events) && AllAllowed(t.Bookkeeping(), events, t.encode, t.palette)
    requires Allowed(AfterAll(t.Bookkeeping(), events), Take(visits, age), t.encode, t.palette)
    modifies t, t.cache
    ensures t.Valid() && t.lastScreen == AfterAll(old(t.Bookkeeping()), events).screen && Shaped(t.lastScreen)
    ensures Reported(old(t.Bookkeeping()), old(t.screen)) == 0 ==>
      frame.info.picture == PictureOf(t.encode, t.lastScreen)
  {
    hide Terminal.Valid, Allowed, Tracks, WithinLimits, Reported, PictureOf;
    AlwaysOnTheWay(t.Bookkeeping(), events, t.encode, t.palette);
    var frames', infos := Drive(t, events, frames);
    frame := PerformTake(t, visits, age);
  }

  // ---- A run that goes wrong ----

  /** Two of the lines 0, 1 and 2, one cell each. Line 1 is bold: the lower row scrolled back, the upper one at the
      bottom. */
  function TwoRows(first: nat, sbPos: nat): Screen
    requires first <= 1
  {
    StillScreen(1, [first, first + 1], 1 - first, false, sbPos, 1)
  }

  /** Scrolling between the two views changes no line: rows with the same id show the same cells. */
  lemma SameLinesLookTheSame(a: nat, aPos: nat, b: nat, bPos: nat)
    requires a <= 1 && b <= 1
    ensures var here, there := TwoRows(a, aPos), TwoRows(b, bPos);
            forall r, q | 0 <= r < 2 && 0 <= q < 2 && here.rowIds[r] == there.rowIds[q] ::
              here.cells[r] == there.cells[q]
  {
  }

  ghost const STYLES := {DEFAULT_STYLE, PackedStyleFor(BOLD_CELL.attr)}

  lemma TwoRowsFit(encode: Encoder, first: nat, sbPos: nat)
    requires first <= 1
    ensures var screen := TwoRows(first, sbPos);
            && Shaped(screen) && WithinLimits(screen, encode, STYLES) && screen.rows == 2 && screen.columns == 1
            && screen.rowIds == [first, first + 1] && screen.sbPos == sbPos && screen.sbCount == 1 && !screen.alternate
    ensures |STYLES| <= 2
  {
  }

  lemma TwoRowsEvolve(first: nat, sbPos: nat, next: nat, nextPos: nat)
    requires first <= 1 && next <= 1
    ensures Evolves(TwoRows(first, sbPos), TwoRows(next, nextPos), 0)
    ensures Evolves(TwoRows(first, sbPos), TwoRows(first, sbPos), 1)
  {
  }

  lemma TwoRowsDrawn(last: Screen, sbPos: nat)
    ensures Draws(last, TwoRows(1, sbPos), 0, [Visit(0, 0, 1), Visit(1, 0, 1)], 1)
  {
    var visits := [Visit(0, 0, 1), Visit(1, 0, 1)];
    forall r, c | 0 <= r < 2 && 0 <= c < 1 ensures Visited(visits, r, c) {
      assert visits[r].row == r && visits[r].column == c;
    }
  }

  /** The rows of the upper screen were observed while the lower one was out of sight. */
  const STALE := Observation([0, 1], false, [1, 2], false, 1, 1)

  lemma StaleRowsReportAScroll()
    ensures ShiftOf([0, 1], [1, 2]) == 1 && !NothingToReport(STALE)
  {
    assert Consecutive(0, 2) == [0, 1] && Consecutive(0 + 1, 2) == [1, 2];
    StaleObservationReportsAScroll(0, 2, 1, ShiftOf([0, 1], [1, 2]));
    if IsShift([0, 1], [1, 2], 0) {
      ShiftIsUnique([0, 1], [1, 2], 0);
    }
  }

  /** Scrolling back, a byte fed there, scrolling down again, and a take of everything. */
  const STALE_EVENTS := [
    Scroll(TwoRows(0, 0)), Feed("x", TwoRows(0, 0)), Scroll(TwoRows(1, 1)), Take([Visit(0, 0, 1), Visit(1, 0, 1)], 1)]

  function NewSession(screen: Screen): Session {
    Session(screen, screen, false, 0, screen.rowIds, screen.alternate, 0, 0, false)
  }

  lemma OneMoreEvent(s: Session, events: seq<Event>, now: Session, event: Event, encode: Encoder,
                     palette: set<PackedStyle>)
    requires AllAllowed(s, events, encode, palette) && AllInSync(s, events) && AfterAll(s, events) == now
    requires Allowed(now, event, encode, palette) && InSyncEvent(now, event)
    ensures AllAllowed(s, events + [event], encode, palette) && AllInSync(s, events + [event])
    ensures AfterAll(s, events + [event]) == After(now, event)
  {
    hide Allowed, InSyncEvent, After;
    assert (events + [event])[..|events|] == events;
  }

  /** The sessions on the way: scrolled back, fed there, and back down before the take. */
  const SCROLLED_BACK := Session(TwoRows(0, 0), TwoRows(1, 1), false, 0, [1, 2], false, 0, -1, true)
  const FED_THERE := SCROLLED_BACK.(observed := [0, 1])
  const BEFORE_TAKE := FED_THERE.(screen := TwoRows(1, 1), viewport := 0)

  lemma ScrollsBack(encode: Encoder)
    ensures var s := NewSession(TwoRows(1, 1));
            Allowed(s, Scroll(TwoRows(0, 0)), encode, STYLES) && After(s, Scroll(TwoRows(0, 0))) == SCROLLED_BACK
  {
    hide WithinLimits, Evolves, TwoRows;
    TwoRowsFit(encode, 1, 1);
    TwoRowsFit(encode, 0, 0);
    TwoRowsEvolve(1, 1, 0, 0);
  }

  lemma MayFeedThere(encode: Encoder)
    ensures Allowed(SCROLLED_BACK, Feed("x", TwoRows(0, 0)), encode, STYLES)
    ensures InSyncEvent(SCROLLED_BACK, Feed("x", TwoRows(0, 0)))
  {
    hide WithinLimits, Evolves, TwoRows, Reported;
    TwoRowsFit(encode, 0, 0);
    TwoRowsEvolve(0, 0, 0, 0);
    ScrolledBackReportsNothing(SCROLLED_BACK, TwoRows(0, 0));
  }

  lemma FeedsThere(encode: Encoder)
    ensures After(SCROLLED_BACK, Feed("x", TwoRows(0, 0))) == FED_THERE
  {
    hide TwoRows, After;
    TwoRowsFit(encode, 0, 0);
    FeedWhileScrolledBack(SCROLLED_BACK, "x");
  }

  lemma FeedWhileScrolledBack(s: Session, data: string)
    requires data != "" && ScrolledBack(s.screen)
    ensures After(s, Feed(data, s.screen))
         == s.(observed := s.screen.rowIds, observedAlternate := s.screen.alternate)
  {
    ScrolledBackReportsNothing(s, s.screen);
  }

  lemma ScrolledBackReportsNothing(s: Session, next: Screen)
    requires ScrolledBack(next)
    ensures Reported(s, next) == 0
  {
  }

  lemma ScrollsDown(encode: Encoder)
    ensures Allowed(FED_THERE, Scroll(TwoRows(1, 1)), encode, STYLES)
    ensures After(FED_THERE, Scroll(TwoRows(1, 1))) == BEFORE_TAKE
  {
    hide WithinLimits, Evolves, TwoRows;
    TwoRowsFit(encode, 1, 1);
    TwoRowsFit(encode, 0, 0);
    TwoRowsEvolve(0, 0, 1, 1);
  }

  lemma ScrolledBackAndDown(encode: Encoder)
    ensures AllAllowed(NewSession(TwoRows(1, 1)), STALE_EVENTS[..3], encode, STYLES)
    ensures AllInSync(NewSession(TwoRows(1, 1)), STALE_EVENTS[..3])
    ensures AfterAll(NewSession(TwoRows(1, 1)), STALE_EVENTS[..3]) == BEFORE_TAKE
  {
    hide Allowed, TwoRows, AllAllowed, AllInSync, AfterAll, After, SCROLLED_BACK, FED_THERE, BEFORE_TAKE;
    ScrollsBack(encode);
    MayFeedThere(encode);
    FeedsThere(encode);
    ScrollsDown(encode);
    var s, shown, above := NewSession(TwoRows(1, 1)), TwoRows(1, 1), TwoRows(0, 0);
    NoEvents(s, encode, STYLES);
    OneMoreEvent(s, [], s, Scroll(above), encode, STYLES);
    OneMoreEvent(s, [] + [Scroll(above)], SCROLLED_BACK, Feed("x", above), encode, STYLES);
    OneMoreEvent(s, [] + [Scroll(above)] + [Feed("x", above)], FED_THERE, Scroll(shown), encode, STYLES);
    assert STALE_EVENTS[..3] == [] + [Scroll(above)] + [Feed("x", above)] + [Scroll(shown)];
  }

  lemma NoEvents(s: Session, encode: Encoder, palette: set<PackedStyle>)
    ensures AllAllowed(s, [], encode, palette) && AllInSync(s, []) && AfterAll(s, []) == s
  {
  }

  lemma StaleEventsLeaveStaleRows(encode: Encoder)
    ensures AllAllowed(NewSession(TwoRows(1, 1)), STALE_EVENTS, encode, STYLES)
    ensures AllInSync(NewSession(TwoRows(1, 1)), STALE_EVENTS)
    ensures AfterAll(NewSession(TwoRows(1, 1)), STALE_EVENTS) == StillSession(1, STALE, 0)
  {
    hide Draws, AllAllowed, AllInSync, AfterAll;
    ScrolledBackAndDown(encode);
    TwoRowsFit(encode, 1, 1);
    TwoRowsDrawn(TwoRows(1, 1), 1);
    OneMoreEvent(NewSession(TwoRows(1, 1)), STALE_EVENTS[..3], BEFORE_TAKE, STALE_EVENTS[3], encode, STYLES);
    assert STALE_EVENTS == STALE_EVENTS[..3] + [STALE_EVENTS[3]];
  }

  /** A new engine after these events. */
  method StartStale(encode: Encoder) returns (t: Terminal)
    ensures fresh(t) && (t.cache == null || fresh(t.cache)) && t.Valid() && t.exact
    ensures t.encode == encode && t.palette == STYLES && t.Bookkeeping() == StillSession(1, STALE, 0)
  {
    hide Terminal.Valid, WithinLimits, TwoRows, AllAllowed, AllInSync, AfterAll, Terminal.Bookkeeping, Shows;
    TwoRowsFit(encode, 1, 1);
    StaleEventsLeaveStaleRows(encode);
    t := new Terminal(encode, STYLES, TwoRows(1, 1));
    var frames, infos := Drive(t, STALE_EVENTS, []);
  }

  /** A take of a still screen after a stale feed shows its rows rotated. */
  method TakeStale(t: Terminal, columns: nat, seen: Observation) returns (frame: PackedFrame)
    requires columns > 0 && seen.ids != [] && Distinct(seen.ids) && !NothingToReport(seen)
    requires t.Valid() && t.exact
    requires var marked := EdgeRow(|seen.ids|, ShiftOf(seen.observed, seen.ids));
             var s := StillSession(columns, seen, marked);
             t.Bookkeeping() == After(s, Feed("x", s.screen))
    modifies t, t.cache
    ensures t.Valid() && Shaped(t.screen) && frame.info.picture != PictureOf(t.encode, t.screen) && !t.exact
  {
    hide Draws, Evolves, WithinLimits, NothingToReport, PictureOf, NextPicture, Rotated, IsShift, ReachesTake;
    hide PlanOf, Reported, Terminal.InputOk, Terminal.FramesOk;
    ghost var delta := ShiftOf(seen.observed, seen.ids);
    ghost var marked := EdgeRow(|seen.ids|, delta);
    ghost var s := StillSession(columns, seen, marked);
    StillScreenHasNothingToDraw(s.screen, columns, seen, marked);
    TakenSoFar(t, s.screen);
    StaleFeedRotates(s, t.Bookkeeping(), t.encode, t.palette, seen);
    ShiftIsShort(seen.observed, seen.ids);
    t.PlanOfBookkeeping();
    StillScreenIsRotatedWrongly(t.NextParams(), t.encode, s.screen, columns, seen.ids, seen.alternate, seen.sbPos,
                                seen.sbCount, delta);
    ghost var plan;
    frame, plan := t.TakePackedFrame([], 1);
  }

  lemma TakenSoFar(t: Terminal, screen: Screen)
    requires t.Valid() && t.exact && t.Bookkeeping().screen == screen == t.Bookkeeping().lastScreen
    ensures Shaped(screen) && WithinLimits(screen, t.encode, t.palette)
    ensures t.taken != [] ==> t.taken[|t.taken| - 1].picture == PictureOf(t.encode, screen)
  {
  }

  /** From a new engine: one byte fed in vain, and the engine shows the wrong rows. */
  method StaleFeedShowsWrongRows(encode: Encoder) returns (t: Terminal, frame: PackedFrame)
    ensures fresh(t) && t.Valid() && Shaped(t.screen) && t.encode == encode
    ensures !t.exact && frame.info.picture != PictureOf(encode, t.screen)
  {
    hide Terminal.Valid, Shaped, WithinLimits, Evolves, Draws, NothingToReport, PictureOf;
    StaleRowsReportAScroll();
    t := StartStale(encode);
    TwoRowsFit(encode, 1, 1);
    TwoRowsEvolve(1, 1, 1, 1);
    PerformFeed(t, "x", TwoRows(1, 1));
    frame := TakeStale(t, 1, STALE);
  }
}
