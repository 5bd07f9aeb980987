/** What input, scrolling and takes do to the engine's bookkeeping, and when that keeps frames exact. */
module Sessions {
  import opened Cells
  import opened ScreenModel
  import opened DrawPass
  import opened Frames
  import opened FrameAssembly
  import opened ScrollDetection

  /** What a take decides before it draws. */
  datatype Plan = Plan(fullRepaint: bool, reuseScrolledRows: bool, scrollDelta: int, scrollKind: ScrollKind)

  function PlanTake(frameValid: bool, sameShape: bool, content: int, viewport: int,
                    scrolledBack: bool, rows: nat): Plan {
    var full := !frameValid || !sameShape;
    var reuse := !full && content != 0 && viewport == 0 && !scrolledBack && Abs(content) < rows;
    Plan(full || (content != 0 && !reuse), reuse,
         if content != 0 then content else viewport,
         if content != 0 && viewport != 0 then MixedScroll
         else if content != 0 then ContentScroll
         else if viewport != 0 then ViewportScroll
         else NoScroll)
  }

  /** What the cache holds before the draw: the last picture, rotated if the rows scrolled. */
  ghost function CachedRows(last: Picture, reuse: bool, columns: nat, delta: int): Picture {
    if reuse then Rotated(last, columns, delta) else last
  }

  /** The rows and the screen that a feed starts from: as observed, unless the height changed. */
  function RowsBefore(observed: seq<nat>, screen: Screen): seq<nat> {
    if |observed| != screen.rows then screen.rowIds else observed
  }

  function AlternateScreenBefore(observed: seq<nat>, observedAlternate: bool, screen: Screen): bool {
    if |observed| != screen.rows then screen.alternate else observedAlternate
  }

  /** The bookkeeping between takes. `lastScreen` is the screen at the last take, and `moved` says
      whether the screen has moved since. */
  datatype Session = Session(
    screen: Screen, lastScreen: Screen, frameValid: bool, lastAge: nat,
    observed: seq<nat>, observedAlternate: bool, content: int, viewport: int, moved: bool)

  datatype Event =
    | Feed(data: string, next: Screen)
    | Scroll(next: Screen)
    | Resize(next: Screen, resized: bool)
    | Take(visits: seq<Visit>, age: nat)
    | Free(index: nat)

  /** The shift that a feed leading to `next` reports. */
  ghost function Reported(s: Session, next: Screen): int {
    if AlternateScreenBefore(s.observed, s.observedAlternate, s.screen) == next.alternate && !ScrolledBack(next)
    then ShiftOf(RowsBefore(s.observed, s.screen), next.rowIds)
    else 0
  }

  function PlanOf(s: Session): Plan {
    PlanTake(s.frameValid,
             s.screen.columns == s.lastScreen.columns && s.screen.rows == s.lastScreen.rows
               && s.screen.alternate == s.lastScreen.alternate,
             s.content, s.viewport, ScrolledBack(s.screen), s.screen.rows)
  }

  function DrawnSince(s: Session): nat { if PlanOf(s).fullRepaint then 0 else s.lastAge }

  function Observing(s: Session): Session {
    s.(observed := s.screen.rowIds, observedAlternate := s.screen.alternate)
  }

  function Showing(s: Session, next: Screen): Session {
    s.(screen := next, moved := s.moved || Moved(s.screen, next))
  }

  ghost function After(s: Session, event: Event): Session {
    match event
    case Feed(data, next) =>
      if data == "" then s else Observing(Showing(s, next)).(content := s.content + Reported(s, next))
    case Scroll(next) =>
      Showing(s, next).(viewport := s.viewport + next.sbPos - s.screen.sbPos)
    case Resize(next, resized) =>
      if resized then Observing(Showing(s, next)).(content := 0, viewport := 0) else Showing(s, next)
    case Take(_, age) =>
      s.(lastScreen := s.screen, frameValid := age != 0, lastAge := age, content := 0, viewport := 0, moved := false)
    case Free(_) => s
  }

  /** What the screen library may answer. */
  ghost predicate Allowed(s: Session, event: Event, encode: Encoder, palette: set<PackedStyle>) {
    match event
    case Feed(data, next) => ScreenAllowed(s, next, encode, palette) && (data == "" ==> next == s.screen)
    case Scroll(next) => ScreenAllowed(s, next, encode, palette)
    case Resize(next, _) => ScreenAllowed(s, next, encode, palette)
    case Take(visits, age) => Shaped(s.screen) && Draws(s.lastScreen, s.screen, DrawnSince(s), visits, age)
    case Free(_) => true
  }

  ghost predicate ScreenAllowed(s: Session, next: Screen, encode: Encoder, palette: set<PackedStyle>) {
    Evolves(s.screen, next, s.lastAge) && WithinLimits(next, encode, palette)
  }

  ghost function AfterAll(s: Session, events: seq<Event>): Session
    decreases |events|
  {
    if events == [] then s else After(AfterAll(s, events[..|events| - 1]), events[|events| - 1])
  }

  ghost predicate AllAllowed(s: Session, events: seq<Event>, encode: Encoder, palette: set<PackedStyle>)
    decreases |events|
  {
    var n := |events| - 1;
    n >= 0 ==>
      && AllAllowed(s, events[..n], encode, palette)
      && Allowed(AfterAll(s, events[..n]), events[n], encode, palette)
  }

  ghost predicate NoTake(events: seq<Event>) { forall i | 0 <= i < |events| :: !events[i].Take? }

  /** The state right after a take that later draws can build on. */
  ghost predicate JustTaken(s: Session, encode: Encoder, palette: set<PackedStyle>) {
    && s.frameValid && s.lastAge > 0 && s.content == s.viewport == 0 && !s.moved
    && s.lastScreen == s.screen && Shaped(s.screen) && WithinLimits(s.screen, encode, palette)
  }

  // ---- From one take to the next ----

  /** What holds on the way from the take at `s` to the next one: as long as the screen has not moved,
      either nothing was fed yet, or the rows are observed as shown and the one shift that can have
      been reported is the one already reported at `s`. */
  ghost predicate OnTheWay(s: Session, now: Session) {
    && now.frameValid && now.lastScreen == s.screen && now.lastAge == s.lastAge
    && Tracks(s.screen, now.screen, s.lastAge, now.moved) && Distinct(now.screen.rowIds)
    && (now.viewport != 0 ==> now.moved)
    && (!now.moved ==>
          || (now.observed == s.observed && now.observedAlternate == s.observedAlternate && now.content == 0)
          || (now.observed == now.screen.rowIds && now.observedAlternate == now.screen.alternate
              && (now.content == 0 || now.content == Reported(s, s.screen))))
  }

  lemma OneStepOnTheWay(s: Session, now: Session, event: Event, encode: Encoder, palette: set<PackedStyle>)
    requires JustTaken(s, encode, palette) && OnTheWay(s, now) && !event.Take?
    requires Allowed(now, event, encode, palette)
    ensures OnTheWay(s, After(now, event))
  {
    if !event.Free? {
      TracksComposes(s.screen, now.screen, event.next, s.lastAge, now.moved);
      if event.Feed? && !now.moved && !Moved(now.screen, event.next) {
        UnmovedFeedReportsTheSame(s, now, event.next);
      }
    }
  }

  /** Feeds that move nothing report what the take left to report, and only once. */
  lemma UnmovedFeedReportsTheSame(s: Session, now: Session, next: Screen)
    requires Shaped(s.screen) && Shaped(now.screen) && Shaped(next)
    requires OnTheWay(s, now) && !now.moved && !Moved(now.screen, next)
    ensures now.observed == s.observed && now.observedAlternate == s.observedAlternate ==>
      Reported(now, next) == Reported(s, s.screen)
    ensures now.observed == now.screen.rowIds ==> Reported(now, next) == 0
  {
    if now.observed == now.screen.rowIds {
      UnmovedScreenHasNoShift(next.rowIds, ShiftOf(next.rowIds, next.rowIds));
    }
  }

  lemma {:induction false} AlwaysOnTheWay(s: Session, events: seq<Event>, encode: Encoder, palette: set<PackedStyle>)
    requires JustTaken(s, encode, palette) && NoTake(events) && AllAllowed(s, events, encode, palette)
    ensures OnTheWay(s, AfterAll(s, events))
    decreases |events|
  {
    if events != [] {
      var n := |events| - 1;
      AlwaysOnTheWay(s, events[..n], encode, palette);
      OneStepOnTheWay(s, AfterAll(s, events[..n]), events[n], encode, palette);
    }
  }

  // ---- When the next take is exact ----

  /** `params` and `base` are those of a take at `now` whose cache shows `shown`. */
  ghost predicate TakeStarts(now: Session, params: DrawParams, base: Picture, shown: Picture) {
    var plan := PlanOf(now);
    && Sized(base, now.screen.columns, now.screen.rows)
    && params.fullRepaint == plan.fullRepaint && params.reuseScrolledRows == plan.reuseScrolledRows
    && ParamsFor(params, now.lastScreen, now.screen, now.lastAge)
    && (!plan.fullRepaint ==> base == CachedRows(shown, plan.reuseScrolledRows, now.screen.columns, now.content))
  }

  /** What the engine has observed, and the rows on screen, right after a take. */
  datatype Observation = Observation(
    observed: seq<nat>, observedAlternate: bool, ids: seq<nat>, alternate: bool, sbPos: nat, sbCount: nat)

  predicate Observes(s: Session, seen: Observation) {
    && s.observed == seen.observed && s.observedAlternate == seen.observedAlternate
    && s.screen.rowIds == seen.ids && s.screen.alternate == seen.alternate
    && s.screen.sbPos == seen.sbPos && s.screen.sbCount == seen.sbCount
  }

  /** A run from a take at `s`, which leaves the observation `seen`, to the next take. */
  ghost predicate ReachesTake(s: Session, events: seq<Event>, now: Session, visits: seq<Visit>, age: nat,
                              encode: Encoder, palette: set<PackedStyle>) {
    && JustTaken(s, encode, palette) && NoTake(events) && AllAllowed(s, events, encode, palette)
    && now == AfterAll(s, events) && Allowed(now, Take(visits, age), encode, palette)
  }

  /** After an exact take that leaves this observation, the next take is exact: whatever the screen
      shows, and whatever happens until then. */
  ghost predicate NextTakeIsExact(encode: Encoder, palette: set<PackedStyle>, columns: nat, seen: Observation) {
    forall s, events, now, visits, age, params, base |
      && ReachesTake(s, events, now, visits, age, encode, palette)
      && s.screen.columns == columns && Observes(s, seen)
      && TakeStarts(now, params, base, PictureOf(encode, s.screen)) ::
      NextPicture(params, base, encode, now.screen, visits) == PictureOf(encode, now.screen)
  }

  /** The check: compared with the rows on screen, the observed rows show no shift. */
  ghost predicate NothingToReport(seen: Observation) {
    var sameHeight := |seen.observed| == |seen.ids|;
    || (sameHeight && seen.observedAlternate != seen.alternate)
    || seen.sbPos < seen.sbCount
    || IsShift(if sameHeight then seen.observed else seen.ids, seen.ids, 0)
  }

  lemma ReportedByObservation(s: Session, seen: Observation)
    requires Shaped(s.screen) && Observes(s, seen)
    ensures Reported(s, s.screen) == 0 <==> NothingToReport(seen)
  {
    var before := RowsBefore(s.observed, s.screen);
    if IsShift(before, seen.ids, 0) {
      ShiftIsUnique(before, seen.ids, 0);
    }
  }

  /** After a take whose observation shows no shift, every next take is exact. */
  lemma InSyncTakeIsExact(s: Session, events: seq<Event>, now: Session, visits: seq<Visit>, age: nat,
                          params: DrawParams, base: Picture, encode: Encoder, palette: set<PackedStyle>)
    requires ReachesTake(s, events, now, visits, age, encode, palette) && Reported(s, s.screen) == 0
    requires TakeStarts(now, params, base, PictureOf(encode, s.screen))
    ensures NextPicture(params, base, encode, now.screen, visits) == PictureOf(encode, now.screen)
  {
    hide Reported, WithinLimits;
    AlwaysOnTheWay(s, events, encode, palette);
    IncrementalDecodeIsFullDecode(params, base, encode, now.lastScreen, now.screen, visits, age, now.lastAge,
                                  now.moved);
  }

  /** The exact condition: right after an exact take, every possible next take is exact if and only if the
      observed rows show no shift against the rows on screen. The palette has room for two styles. */
  lemma NextTakeIsExactExactlyWhenNothingToReport(
      encode: Encoder, palette: set<PackedStyle>, columns: nat, seen: Observation)
    requires columns > 0 && seen.ids != [] && Distinct(seen.ids)
    requires MAX_CELL_TEXT * (|seen.ids| * columns) < TWO_32
    requires PackedStyleFor(PLAIN_CELL.attr) in palette && PackedStyleFor(BOLD_CELL.attr) in palette
    ensures NextTakeIsExact(encode, palette, columns, seen) <==> NothingToReport(seen)
  {
    if NothingToReport(seen) {
      forall s, events, now, visits, age, params, base |
        && ReachesTake(s, events, now, visits, age, encode, palette)
        && s.screen.columns == columns && Observes(s, seen)
        && TakeStarts(now, params, base, PictureOf(encode, s.screen))
        ensures NextPicture(params, base, encode, now.screen, visits) == PictureOf(encode, now.screen)
      {
        ReportedByObservation(s, seen);
        InSyncTakeIsExact(s, events, now, visits, age, params, base, encode, palette);
      }
    } else {
      StaleTakeIsWrong(encode, palette, columns, seen);
    }
  }

  /** The state right after a take of a still screen. */
  ghost function StillSession(columns: nat, seen: Observation, marked: nat): Session
    requires columns > 0 && marked < |seen.ids|
  {
    var screen := StillScreen(columns, seen.ids, marked, seen.alternate, seen.sbPos, seen.sbCount);
    Session(screen, screen, true, 1, seen.observed, seen.observedAlternate, 0, 0, false)
  }

  lemma OneEvent(s: Session, event: Event, encode: Encoder, palette: set<PackedStyle>)
    ensures AfterAll(s, [event]) == After(s, event)
    ensures AllAllowed(s, [event], encode, palette) <==> Allowed(s, event, encode, palette)
  {
    hide After, Allowed;
    assert [event][..0] == [];
  }

  /** One byte fed to a still screen: the take that follows would reuse rotated rows. */
  lemma StaleFeedRotates(s: Session, now: Session, encode: Encoder, palette: set<PackedStyle>, seen: Observation)
    requires Shaped(s.screen) && WithinLimits(s.screen, encode, palette) && Evolves(s.screen, s.screen, 1)
    requires s == Session(s.screen, s.screen, true, 1, seen.observed, seen.observedAlternate, 0, 0, false)
    requires Draws(s.screen, s.screen, 1, [], 1) && Observes(s, seen) && !NothingToReport(seen)
    requires Distinct(seen.ids) && now == After(s, Feed("x", s.screen))
    ensures |seen.observed| == |seen.ids| && Reported(s, s.screen) == ShiftOf(seen.observed, seen.ids) != 0
    ensures now.content == ShiftOf(seen.observed, seen.ids) && PlanOf(now).reuseScrolledRows
    ensures now.screen == now.lastScreen == s.screen && now.lastAge == 1 && !PlanOf(now).fullRepaint
    ensures ReachesTake(s, [Feed("x", s.screen)], now, [], 1, encode, palette)
  {
    hide Draws, WithinLimits, Evolves, AfterAll, AllAllowed;
    ReportedByObservation(s, seen);
    if |seen.observed| != |seen.ids| {
      UnmovedScreenHasNoShift(seen.ids, ShiftOf(seen.ids, seen.ids));
    }
    OneEvent(s, Feed("x", s.screen), encode, palette);
  }

  /** One byte that changes nothing on screen, and the next take shows the wrong rows. */
  lemma StaleTakeIsWrong(encode: Encoder, palette: set<PackedStyle>, columns: nat, seen: Observation)
    requires columns > 0 && seen.ids != [] && Distinct(seen.ids) && !NothingToReport(seen)
    requires MAX_CELL_TEXT * (|seen.ids| * columns) < TWO_32
    requires PackedStyleFor(PLAIN_CELL.attr) in palette && PackedStyleFor(BOLD_CELL.attr) in palette
    ensures !NextTakeIsExact(encode, palette, columns, seen)
  {
    hide WithinLimits, Draws, Evolves, NextPicture, PictureOf, Rotated, ReachesTake, NothingToReport, IsShift, After;
    var delta := ShiftOf(seen.observed, seen.ids);
    var marked := EdgeRow(|seen.ids|, delta);
    var s := StillSession(columns, seen, marked);
    StillScreenFits(encode, palette, s.screen, columns, seen, marked);
    var params := DrawParams(1, false, false, 0, 0, 0, 0, true);
    StillScreenHasNothingToDraw(s.screen, columns, seen, marked);
    var now := After(s, Feed("x", s.screen));
    StaleFeedRotates(s, now, encode, palette, seen);
    ShiftIsShort(seen.observed, seen.ids);
    StillScreenIsRotatedWrongly(params, encode, s.screen, columns, seen.ids, seen.alternate, seen.sbPos, seen.sbCount,
                                delta);
    assert TakeStarts(now, params, Rotated(PictureOf(encode, s.screen), columns, delta), PictureOf(encode, s.screen));
  }

  lemma ShiftIsShort(previous: seq<nat>, current: seq<nat>)
    ensures ShiftOf(previous, current) == 0 || -|current| < ShiftOf(previous, current) < |current|
  {
    assert IsShift(previous, current, ShiftOf(previous, current));
  }

  lemma StillScreenHasNothingToDraw(screen: Screen, columns: nat, seen: Observation, marked: nat)
    requires columns > 0 && marked < |seen.ids|
    requires screen == StillScreen(columns, seen.ids, marked, seen.alternate, seen.sbPos, seen.sbCount)
    ensures Shaped(screen) && Draws(screen, screen, 1, [], 1) && Evolves(screen, screen, 1)
  {
  }

  lemma StillScreenFits(encode: Encoder, palette: set<PackedStyle>, screen: Screen, columns: nat, seen: Observation,
                        marked: nat)
    requires columns > 0 && marked < |seen.ids| && Distinct(seen.ids)
    requires screen == StillScreen(columns, seen.ids, marked, seen.alternate, seen.sbPos, seen.sbCount)
    requires MAX_CELL_TEXT * (|seen.ids| * columns) < TWO_32
    requires PackedStyleFor(PLAIN_CELL.attr) in palette && PackedStyleFor(BOLD_CELL.attr) in palette
    ensures Shaped(screen) && WithinLimits(screen, encode, palette) && Evolves(screen, screen, 1)
  {
  }
}
