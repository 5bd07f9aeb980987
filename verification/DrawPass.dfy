/** Which cells a draw decodes, and what the cached picture becomes. */
module DrawPass {
  import opened Cells
  import opened ScreenModel

  datatype DrawParams = DrawParams(
    previousAge: nat, fullRepaint: bool, cursorChanged: bool,
    previousX: nat, previousY: nat, cursorX: nat, cursorY: nat, reuseScrolledRows: bool)

  predicate Changed(params: DrawParams, visit: Visit) {
    || params.fullRepaint || visit.age == 0 || visit.age > params.previousAge
    || (params.cursorChanged &&
        ((visit.column == params.previousX && visit.row == params.previousY) ||
         (visit.column == params.cursorX && visit.row == params.cursorY)))
  }

  ghost predicate Presented(params: DrawParams, visits: seq<Visit>, r: nat, c: nat) {
    exists i :: 0 <= i < |visits| && visits[i].row == r && visits[i].column == c && Changed(params, visits[i])
  }

  /** The cached picture `base`, overwritten by every cell the draw presents as changed. */
  ghost function NextPicture(params: DrawParams, base: Picture, encode: Encoder, screen: Screen,
                             visits: seq<Visit>): Picture
    requires Shaped(screen) && Sized(base, screen.columns, screen.rows)
  {
    seq(screen.rows, r requires 0 <= r < screen.rows =>
      seq(screen.columns, c requires 0 <= c < screen.columns =>
        if Presented(params, visits, r, c) then ViewOf(encode, Drawn(screen, r, c)) else base[r][c]))
  }

  /** A picture moved by `delta` rows, blank where no row moves in. */
  ghost function Rotated(picture: Picture, columns: nat, delta: int): Picture {
    seq(|picture|, r requires 0 <= r < |picture| =>
      if 0 <= r + delta < |picture| then picture[r + delta] else seq(columns, c => BLANK))
  }

  /** How the engine parameterises a draw, from the screen at the last take and the screen now. */
  ghost predicate ParamsFor(params: DrawParams, last: Screen, screen: Screen, lastAge: nat) {
    && params.previousAge == lastAge
    && params.previousX == last.cursorX && params.previousY == last.cursorY
    && params.cursorX == screen.cursorX && params.cursorY == screen.cursorY
    && (last.cursorX != screen.cursorX || last.cursorY != screen.cursorY || last.cursorVisible != screen.cursorVisible
        ==> params.cursorChanged)
  }

  /** The incremental decode equals the full decode: on a full repaint, when the draw resets the
      ages, when the screen moved (whatever rows the cache was rotated to), and otherwise when the
      cache held the last screen. */
  lemma IncrementalDecodeIsFullDecode(
      params: DrawParams, base: Picture, encode: Encoder, last: Screen, screen: Screen,
      visits: seq<Visit>, age: nat, lastAge: nat, moved: bool)
    requires Shaped(screen) && Sized(base, screen.columns, screen.rows)
    requires params.previousAge == lastAge
    requires Draws(last, screen, if params.fullRepaint then 0 else lastAge, visits, age)
    requires !params.fullRepaint ==> Tracks(last, screen, lastAge, moved) && ParamsFor(params, last, screen, lastAge)
    requires params.fullRepaint || age == 0 || moved || base == PictureOf(encode, last)
    ensures NextPicture(params, base, encode, screen, visits) == PictureOf(encode, screen)
  {
    var next := NextPicture(params, base, encode, screen, visits);
    forall r | 0 <= r < screen.rows ensures next[r] == PictureOf(encode, screen)[r] {
      forall c | 0 <= c < screen.columns ensures next[r][c] == ViewOf(encode, Drawn(screen, r, c)) {
        if !Presented(params, visits, r, c) {
          if Visited(visits, r, c) {
            var i :| 0 <= i < |visits| && visits[i].row == r && visits[i].column == c;
            assert !Changed(params, visits[i]);
          }
          assert !params.fullRepaint && !moved;
          assert Drawn(last, r, c) == Drawn(screen, r, c);
        }
      }
    }
  }

  const PLAIN := Attr(Rgb(0, 0, 0), Rgb(0, 0, 0), false, false, false, false, false, false)
  const PLAIN_CELL := DrawnCell([], 1, PLAIN)
  const BOLD_CELL := DrawnCell([], 1, PLAIN.(bold := true))

  /** A screen with one bold row, drawn at age 1 and left alone since. */
  function StillScreen(columns: nat, ids: seq<nat>, marked: nat, alternate: bool, sbPos: nat, sbCount: nat): Screen
    requires columns > 0 && marked < |ids|
  {
    Screen(columns, |ids|,
      seq(|ids|, r => seq(columns, c => if r == marked then BOLD_CELL else PLAIN_CELL)),
      seq(|ids|, r => seq(columns, c => 1)), ids, 0, 0, false, alternate, sbPos, sbCount)
  }

  /** The row that a shift by `delta` brings to the edge it moves away from. */
  function EdgeRow(rows: nat, delta: int): nat
    requires rows > 0
  {
    if delta > 0 then 0 else rows - 1
  }

  /** The failing family: a still screen of any rows, its cached rows rotated by any shift, and nothing
      for the draw to report. */
  lemma StillScreenIsRotatedWrongly(params: DrawParams, encode: Encoder, screen: Screen, columns: nat, ids: seq<nat>,
                                    alternate: bool, sbPos: nat, sbCount: nat, delta: int)
    requires columns > 0 && 0 < (if delta < 0 then -delta else delta) < |ids|
    requires screen == StillScreen(columns, ids, EdgeRow(|ids|, delta), alternate, sbPos, sbCount)
    ensures Shaped(screen)
    ensures var rotated := Rotated(PictureOf(encode, screen), columns, delta);
            && Sized(rotated, columns, |ids|)
            && NextPicture(params, rotated, encode, screen, []) != PictureOf(encode, screen)
  {
    var target := EdgeRow(|ids|, delta);
    var rotated := Rotated(PictureOf(encode, screen), columns, delta);
    var next := NextPicture(params, rotated, encode, screen, []);
    assert next[target][0] == rotated[target][0] == PictureOf(encode, screen)[target + delta][0];
    assert next[target][0].style.attributes == 0;
    assert PictureOf(encode, screen)[target][0].style.attributes == 1;
  }
}
