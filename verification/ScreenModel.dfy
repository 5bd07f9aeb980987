/** The screen library as the frame engine sees it: contents, ages, and what a draw reports. */
module ScreenModel {
  import opened Cells
  import ScrollDetection

  /** `cells` holds the contents without the inversion of the cursor cell, which a draw adds. */
  datatype Screen = Screen(
    columns: nat, rows: nat, cells: seq<seq<DrawnCell>>, ages: seq<seq<nat>>, rowIds: seq<nat>,
    cursorX: nat, cursorY: nat, cursorVisible: bool, alternate: bool, sbPos: nat, sbCount: nat)

  datatype Visit = Visit(row: nat, column: nat, age: nat)

  predicate ScrolledBack(screen: Screen) { screen.sbPos < screen.sbCount }

  ghost predicate Shaped(screen: Screen) {
    && screen.columns > 0 && screen.rows > 0
    && |screen.cells| == screen.rows && |screen.ages| == screen.rows && |screen.rowIds| == screen.rows
    && (forall r | 0 <= r < screen.rows ::
          |screen.cells[r]| == screen.columns && |screen.ages[r]| == screen.columns)
    && screen.cursorX < screen.columns && screen.cursorY < screen.rows
  }

  predicate CursorAt(screen: Screen, r: nat, c: nat) {
    screen.cursorVisible && !ScrolledBack(screen) && r == screen.cursorY && c == screen.cursorX
  }

  /** The content a draw presents for cell (r, c). */
  function Drawn(screen: Screen, r: nat, c: nat): DrawnCell
    requires r < |screen.cells| && c < |screen.cells[r]|
  {
    if CursorAt(screen, r, c) then screen.cells[r][c].Inverted() else screen.cells[r][c]
  }

  /** The full decode of the screen. */
  ghost function PictureOf(encode: Encoder, screen: Screen): Picture
    requires Shaped(screen)
  {
    seq(screen.rows, r requires 0 <= r < screen.rows =>
      seq(screen.columns, c requires 0 <= c < screen.columns => ViewOf(encode, Drawn(screen, r, c))))
  }

  /** `view` shows the cell at (r, c), with the colours exchanged if the cursor is there, visible, and the view is
      not scrolled back. */
  ghost predicate ShowsAt(encode: Encoder, view: CellView, screen: Screen, r: nat, c: nat)
    requires r < |screen.cells| && c < |screen.cells[r]|
  {
    var cell := screen.cells[r][c];
    var cursor := screen.cursorVisible && screen.sbCount <= screen.sbPos && r == screen.cursorY && c == screen.cursorX;
    ShowsCell(encode, view, cell, if cursor then !cell.attr.inverse else cell.attr.inverse)
  }

  /** `picture` shows every cell of the screen. */
  ghost predicate ShowsScreen(encode: Encoder, picture: Picture, screen: Screen)
    requires Shaped(screen)
  {
    && Sized(picture, screen.columns, screen.rows)
    && forall r: nat, c: nat | r < screen.rows && c < screen.columns :: ShowsAt(encode, picture[r][c], screen, r, c)
  }

  lemma ViewShowsScreenCell(encode: Encoder, view: CellView, screen: Screen, r: nat, c: nat)
    requires Shaped(screen) && r < screen.rows && c < screen.columns
    ensures ShowsAt(encode, view, screen, r, c) <==> view == ViewOf(encode, Drawn(screen, r, c))
  {
    hide ShowsCell, ViewOf;
    InversionAside(encode, view, screen.cells[r][c]);
    ViewShowsCell(encode, view, Drawn(screen, r, c));
  }

  /** The full decode is the picture that shows the screen. */
  lemma FullDecodeShowsScreen(encode: Encoder, picture: Picture, screen: Screen)
    requires Shaped(screen)
    ensures ShowsScreen(encode, picture, screen) <==> picture == PictureOf(encode, screen)
  {
    hide ShowsAt, ViewOf, Drawn;
    var full := PictureOf(encode, screen);
    if Sized(picture, screen.columns, screen.rows) {
      forall r: nat, c: nat | r < screen.rows && c < screen.columns
        ensures full[r][c] == ViewOf(encode, Drawn(screen, r, c))
        ensures ShowsAt(encode, picture[r][c], screen, r, c) <==> picture[r][c] == full[r][c]
      {
        ViewShowsScreenCell(encode, picture[r][c], screen, r, c);
      }
      if ShowsScreen(encode, picture, screen) {
        forall r | 0 <= r < screen.rows ensures picture[r] == full[r] {
          forall c | 0 <= c < screen.columns ensures picture[r][c] == full[r][c] {}
        }
      }
    }
  }

  lemma InversionAside(encode: Encoder, view: CellView, cell: DrawnCell)
    ensures ShowsCell(encode, view, cell.Inverted(), !cell.attr.inverse) <==>
            ShowsCell(encode, view, cell, !cell.attr.inverse)
  {
  }

  /** The limits of the packed format (cell text, row text, cell width, style table), and row ids
      that tell rows apart. */
  ghost predicate WithinLimits(screen: Screen, encode: Encoder, palette: set<PackedStyle>)
    requires Shaped(screen)
  {
    && ScrollDetection.Distinct(screen.rowIds)
    && MAX_CELL_TEXT * (screen.rows * screen.columns) < TWO_32
    && forall r, c | 0 <= r < screen.rows && 0 <= c < screen.columns ::
         && |CellText(encode, Drawn(screen, r, c))| <= MAX_CELL_TEXT
         && screen.cells[r][c].width < 256
         && PackedStyleFor(Drawn(screen, r, c).attr) in palette
  }

  // ---- How the screen may change between two draws ----

  /** Every cell is newer than `age`. */
  ghost predicate Newer(screen: Screen, age: nat)
    requires Shaped(screen)
  {
    forall r, c | 0 <= r < screen.rows && 0 <= c < screen.columns :: screen.ages[r][c] > age
  }

  /** A content scroll, viewport move, screen swap or resize happened. */
  predicate Moved(before: Screen, after: Screen) {
    || before.columns != after.columns || before.rows != after.rows
    || before.rowIds != after.rowIds || before.alternate != after.alternate
    || ScrolledBack(before) != ScrolledBack(after) || before.sbPos != after.sbPos
  }

  /** Movements make every cell newer than the last draw; otherwise ages never fall, and a cell
      whose content changes becomes newer. */
  ghost predicate Evolves(before: Screen, after: Screen, lastAge: nat) {
    && Shaped(before) && Shaped(after)
    && if Moved(before, after) then Newer(after, lastAge) else
         forall r, c | 0 <= r < after.rows && 0 <= c < after.columns ::
           && after.ages[r][c] >= before.ages[r][c]
           && (after.cells[r][c] != before.cells[r][c] ==> after.ages[r][c] > lastAge)
  }

  /** What `Evolves` adds up to since the screen was last drawn as `last`. */
  ghost predicate Tracks(last: Screen, screen: Screen, lastAge: nat, moved: bool) {
    && Shaped(last) && Shaped(screen)
    && if moved then Newer(screen, lastAge) else
         && !Moved(last, screen)
         && forall r, c | 0 <= r < screen.rows && 0 <= c < screen.columns ::
              screen.cells[r][c] != last.cells[r][c] ==> screen.ages[r][c] > lastAge
  }

  lemma TracksComposes(last: Screen, before: Screen, after: Screen, lastAge: nat, moved: bool)
    requires Tracks(last, before, lastAge, moved) && Evolves(before, after, lastAge)
    ensures Tracks(last, after, lastAge, moved || Moved(before, after))
  {
  }

  // ---- A draw ----

  ghost predicate Visited(visits: seq<Visit>, r: nat, c: nat) {
    exists i :: 0 <= i < |visits| && visits[i].row == r && visits[i].column == c
  }

  /** A draw of everything newer than `since` reports each cell at most once, and every cell that may
      differ from the last draw; it reports everything if `since` is 0 or if it returns 0. */
  ghost predicate Draws(last: Screen, screen: Screen, since: nat, visits: seq<Visit>, age: nat)
    requires Shaped(screen)
  {
    && (forall i | 0 <= i < |visits| ::
          && visits[i].row < screen.rows && visits[i].column < screen.columns
          && visits[i].age == if age == 0 then 0 else screen.ages[visits[i].row][visits[i].column])
    && (forall i, j | 0 <= i < j < |visits| ::
          visits[i].row != visits[j].row || visits[i].column != visits[j].column)
    && forall r, c | 0 <= r < screen.rows && 0 <= c < screen.columns ::
         (|| since == 0 || age == 0 || screen.ages[r][c] > since
          || !Shaped(last) || Moved(last, screen) || Drawn(last, r, c) != Drawn(screen, r, c))
         ==> Visited(visits, r, c)
  }

  // ---- At most one visit per cell means at most rows * columns visits ----

  ghost function RowPlaces(r: nat, columns: nat): set<(nat, nat)> {
    if columns == 0 then {} else RowPlaces(r, columns - 1) + {(r, columns - 1)}
  }

  ghost function Places(rows: nat, columns: nat): set<(nat, nat)> {
    if rows == 0 then {} else Places(rows - 1, columns) + RowPlaces(rows - 1, columns)
  }

  lemma {:induction false} RowPlacesCount(r: nat, columns: nat)
    ensures |RowPlaces(r, columns)| == columns
    ensures forall p: (nat, nat) :: p in RowPlaces(r, columns) <==> p.0 == r && p.1 < columns
  {
    if columns > 0 {
      RowPlacesCount(r, columns - 1);
    }
  }

  lemma {:induction false} PlacesMembers(rows: nat, columns: nat)
    ensures forall p: (nat, nat) :: p in Places(rows, columns) <==> p.0 < rows && p.1 < columns
  {
    if rows > 0 {
      PlacesMembers(rows - 1, columns);
      RowPlacesCount(rows - 1, columns);
    }
  }

  ghost function Repeated(columns: nat, rows: nat): nat {
    if rows == 0 then 0 else Repeated(columns, rows - 1) + columns
  }

  lemma {:induction false} RepeatedIsProduct(columns: nat, rows: nat)
    ensures Repeated(columns, rows) == rows * columns
  {
    if rows > 0 {
      RepeatedIsProduct(columns, rows - 1);
      assert rows * columns == (rows - 1) * columns + columns;
    }
  }

  lemma {:induction false} PlacesCount(rows: nat, columns: nat)
    ensures |Places(rows, columns)| == Repeated(columns, rows)
  {
    if rows > 0 {
      PlacesCount(rows - 1, columns);
      PlacesMembers(rows - 1, columns);
      RowPlacesCount(rows - 1, columns);
      assert Places(rows - 1, columns) !! RowPlaces(rows - 1, columns);
    }
  }

  lemma {:induction false} VisitedPlaces(visits: seq<Visit>) returns (places: set<(nat, nat)>)
    requires forall i, j | 0 <= i < j < |visits| ::
      visits[i].row != visits[j].row || visits[i].column != visits[j].column
    ensures |places| == |visits|
    ensures forall p: (nat, nat) ::
      p in places <==> exists i :: 0 <= i < |visits| && p == (visits[i].row, visits[i].column)
  {
    if visits == [] {
      places := {};
    } else {
      var n := |visits| - 1;
      var front := VisitedPlaces(visits[..n]);
      var p := (visits[n].row, visits[n].column);
      assert p !in front;
      places := front + {p};
    }
  }

  lemma AtMostOneVisitPerCell(visits: seq<Visit>, rows: nat, columns: nat)
    requires forall i | 0 <= i < |visits| :: visits[i].row < rows && visits[i].column < columns
    requires forall i, j | 0 <= i < j < |visits| ::
      visits[i].row != visits[j].row || visits[i].column != visits[j].column
    ensures |visits| <= rows * columns
  {
    var places := VisitedPlaces(visits);
    PlacesCount(rows, columns);
    RepeatedIsProduct(columns, rows);
    PlacesMembers(rows, columns);
    SubsetSize(places, Places(rows, columns));
  }

  lemma {:induction false} SubsetSize<T>(a: set<T>, b: set<T>)
    requires a <= b
    ensures |a| <= |b|
  {
    if a != {} {
      var x :| x in a;
      SubsetSize(a - {x}, b - {x});
    }
  }
}
