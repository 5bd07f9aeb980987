/** Dirty regions and dirty spans: two summaries of the same set of cells. */
module Dirty {

  datatype Region = Region(left: nat, top: nat, right: nat, bottom: nat)
  datatype Span = Span(row: nat, left: nat, right: nat)

  const NOTHING := Region(0, 0, 0, 0)

  function Min(a: nat, b: nat): nat { if a < b then a else b }
  function Max(a: nat, b: nat): nat { if a < b then b else a }

  predicate Empty(region: Region) { region.left >= region.right || region.top >= region.bottom }

  predicate Inside(region: Region, row: nat, column: nat) {
    region.left <= column < region.right && region.top <= row < region.bottom
  }

  predicate Contains(outer: Region, inner: Region) {
    outer.left <= inner.left && outer.top <= inner.top && inner.right <= outer.right && inner.bottom <= outer.bottom
  }

  function Join(a: Region, b: Region): Region {
    if Empty(a) then b else if Empty(b) then a else
      Region(Min(a.left, b.left), Min(a.top, b.top), Max(a.right, b.right), Max(a.bottom, b.bottom))
  }

  function Box(span: Span): Region { Region(span.left, span.row, span.right, span.row + 1) }

  predicate InSpan(span: Span, row: nat, column: nat) { span.row == row && span.left <= column < span.right }

  ghost predicate InSpans(spans: seq<Span>, row: nat, column: nat) {
    exists k :: 0 <= k < |spans| && InSpan(spans[k], row, column)
  }

  ghost predicate CoversSpan(spans: seq<Span>, span: Span) {
    forall c: nat | span.left <= c < span.right :: InSpans(spans, span.row, c)
  }

  ghost predicate SpansFit(spans: seq<Span>, columns: nat, rows: nat) {
    forall k | 0 <= k < |spans| :: spans[k].left < spans[k].right <= columns && spans[k].row < rows
  }

  /** `outer` holds every cell of `region`. */
  predicate Within(outer: Region, region: Region) { Empty(region) || Contains(outer, region) }

  /** The box of a join lies in exactly the regions that hold both parts. */
  lemma JoinIsLeast(a: Region, b: Region, outer: Region)
    ensures Within(outer, Join(a, b)) <==> Within(outer, a) && Within(outer, b)
  {
  }

  /** The bounding box of a list of spans. */
  function Hull(spans: seq<Span>): Region {
    if spans == [] then NOTHING else Join(Hull(spans[..|spans| - 1]), Box(spans[|spans| - 1]))
  }

  /** The hull holds every span, and lies in every region that does. */
  lemma {:induction false} HullIsLeast(spans: seq<Span>, columns: nat, rows: nat, outer: Region)
    requires SpansFit(spans, columns, rows)
    ensures Empty(Hull(spans)) <==> spans == []
    ensures Contains(Region(0, 0, columns, rows), Hull(spans))
    ensures forall k | 0 <= k < |spans| :: Contains(Hull(spans), Box(spans[k]))
    ensures (forall k | 0 <= k < |spans| :: Contains(outer, Box(spans[k]))) && spans != []
            ==> Contains(outer, Hull(spans))
  {
    if spans != [] {
      var front := spans[..|spans| - 1];
      assert SpansFit(front, columns, rows);
      HullIsLeast(front, columns, rows, outer);
    }
  }

  /** The hull lies in exactly the regions that hold every span. */
  lemma {:induction false} HullIsTheBoundingBox(spans: seq<Span>, outer: Region)
    ensures Within(outer, Hull(spans)) <==> forall k | 0 <= k < |spans| :: Within(outer, Box(spans[k]))
  {
    if spans != [] {
      var n := |spans| - 1;
      HullIsTheBoundingBox(spans[..n], outer);
      JoinIsLeast(Hull(spans[..n]), Box(spans[n]), outer);
    }
  }

  // ---- Growing both summaries ----

  function CellLeft(column: nat, width: nat): nat { if width == 0 && column > 0 then column - 1 else column }

  function CellRight(column: nat, width: nat, columns: nat): nat {
    Min(columns, column + if width == 0 then 2 else Max(1, width))
  }

  function IncludeDirty(dirty: Region, column: nat, row: nat, width: nat, columns: nat, rows: nat): Region {
    if columns == 0 || rows == 0 || row >= rows || column >= columns then dirty else
      var left, right := CellLeft(column, width), CellRight(column, width, columns);
      if Empty(dirty) then Region(left, row, right, row + 1)
      else Region(Min(dirty.left, left), Min(dirty.top, row), Max(dirty.right, right), Max(dirty.bottom, row + 1))
  }

  function IncludeSpan(spans: seq<Span>, row: nat, left: nat, right: nat): seq<Span> {
    if left >= right then spans
    else if spans != [] && spans[|spans| - 1].row == row && left <= spans[|spans| - 1].right then
      var previous := spans[|spans| - 1];
      spans[..|spans| - 1] + [Span(row, Min(previous.left, left), Max(previous.right, right))]
    else spans + [Span(row, left, right)]
  }

  function IncludeCellSpan(spans: seq<Span>, column: nat, row: nat, width: nat, columns: nat, rows: nat): seq<Span> {
    if columns == 0 || rows == 0 || row >= rows || column >= columns then spans else
      IncludeSpan(spans, row, CellLeft(column, width), CellRight(column, width, columns))
  }

  lemma JoinAssociates(a: Region, b: Region, c: Region)
    requires !Empty(b) && !Empty(c)
    ensures Join(Join(a, b), c) == Join(a, Join(b, c)) && !Empty(Join(b, c))
  {
  }

  /** Merging into the last span only grows the hull by exactly the new stretch. */
  lemma IncludeSpanGrowsHull(spans: seq<Span>, row: nat, left: nat, right: nat, columns: nat, rows: nat)
    requires SpansFit(spans, columns, rows) && left < right <= columns && row < rows
    ensures var after := IncludeSpan(spans, row, left, right);
            SpansFit(after, columns, rows) && Hull(after) == Join(Hull(spans), Box(Span(row, left, right)))
  {
    var after := IncludeSpan(spans, row, left, right);
    var last := |after| - 1;
    if |after| == |spans| {
      assert after[..last] == spans[..last];
      JoinAssociates(Hull(spans[..last]), Box(spans[last]), Box(Span(row, left, right)));
      assert Join(Box(spans[last]), Box(Span(row, left, right))) == Box(after[last]);
    } else {
      assert after[..last] == spans;
    }
  }

  /** ... and loses no cell. */
  lemma IncludeSpanLosesNothing(spans: seq<Span>, row: nat, left: nat, right: nat)
    requires left < right
    ensures forall r: nat, c: nat | InSpans(spans, r, c) || (r == row && left <= c < right) ::
      InSpans(IncludeSpan(spans, row, left, right), r, c)
  {
    var after := IncludeSpan(spans, row, left, right);
    forall r: nat, c: nat | InSpans(spans, r, c) || (r == row && left <= c < right) ensures InSpans(after, r, c) {
      if InSpans(spans, r, c) {
        var k :| 0 <= k < |spans| && InSpan(spans[k], r, c);
        assert InSpan(after[k], r, c);
      } else {
        assert InSpan(after[|after| - 1], r, c);
      }
    }
  }

  lemma IncludeCellIsExact(spans: seq<Span>, column: nat, row: nat, width: nat, columns: nat, rows: nat)
    requires SpansFit(spans, columns, rows) && column < columns && row < rows
    ensures var after := IncludeCellSpan(spans, column, row, width, columns, rows);
            && SpansFit(after, columns, rows)
            && Hull(after) == IncludeDirty(Hull(spans), column, row, width, columns, rows)
            && InSpans(after, row, column)
            && CoversSpan(after, Span(row, CellLeft(column, width), CellRight(column, width, columns)))
            && (forall r: nat, c: nat :: InSpans(spans, r, c) ==> InSpans(after, r, c))
  {
    IncludeSpanGrowsHull(spans, row, CellLeft(column, width), CellRight(column, width, columns), columns, rows);
    IncludeSpanLosesNothing(spans, row, CellLeft(column, width), CellRight(column, width, columns));
  }

  lemma IncludeDirtyJoins(dirty: Region, column: nat, row: nat, width: nat, columns: nat, rows: nat)
    requires column < columns && row < rows
    ensures IncludeDirty(dirty, column, row, width, columns, rows)
         == Join(dirty, Box(Span(row, CellLeft(column, width), CellRight(column, width, columns))))
  {
  }

  /** Joining one more full row below the rows `top..row`. */
  lemma RowsBelow(hull: Region, columns: nat, top: nat, row: nat)
    requires columns > 0 && top <= row
    ensures var before := if row == top then hull else Join(hull, Region(0, top, columns, row));
            Join(before, Box(Span(row, 0, columns))) == Join(hull, Region(0, top, columns, row + 1))
  {
    if top < row {
      JoinAssociates(hull, Region(0, top, columns, row), Box(Span(row, 0, columns)));
    }
  }

  method IncludeRows(dirty: Region, spans: seq<Span>, firstRow: nat, endRow: nat, columns: nat, rows: nat)
    returns (dirty': Region, spans': seq<Span>)
    requires SpansFit(spans, columns, rows) && dirty == Hull(spans)
    requires columns > 0
    ensures SpansFit(spans', columns, rows) && dirty' == Hull(spans')
    ensures forall r: nat, c: nat :: InSpans(spans, r, c) ==> InSpans(spans', r, c)
    ensures forall r: nat, c: nat | firstRow <= r < Min(endRow, rows) && c < columns :: InSpans(spans', r, c)
    ensures firstRow < Min(endRow, rows) ==> !Empty(dirty')
    ensures firstRow < Min(endRow, rows) ==> dirty' == Join(dirty, Region(0, firstRow, columns, Min(endRow, rows)))
  {
    var top, bottom := Min(firstRow, rows), Min(endRow, rows);
    if columns == 0 || top >= bottom {
      return dirty, spans;
    }
    dirty' := if Empty(dirty) then Region(0, top, columns, bottom)
              else Region(0, Min(dirty.top, top), Max(dirty.right, columns), Max(dirty.bottom, bottom));
    spans' := spans;
    for row := top to bottom
      invariant SpansFit(spans', columns, rows)
      invariant Hull(spans') == if row == top then Hull(spans) else Join(Hull(spans), Region(0, top, columns, row))
      invariant forall r: nat, c: nat :: InSpans(spans, r, c) ==> InSpans(spans', r, c)
      invariant forall r: nat, c: nat | top <= r < row && c < columns :: InSpans(spans', r, c)
    {
      IncludeSpanGrowsHull(spans', row, 0, columns, columns, rows);
      IncludeSpanLosesNothing(spans', row, 0, columns);
      RowsBelow(Hull(spans), columns, top, row);
      spans' := IncludeSpan(spans', row, 0, columns);
    }
  }

  method IncludeFullSpans(columns: nat, rows: nat) returns (spans: seq<Span>)
    ensures columns > 0 ==> FullSpans(spans, columns, rows)
    ensures columns == 0 ==> spans == []
  {
    spans := [];
    if columns == 0 {
      return;
    }
    for row := 0 to rows
      invariant |spans| == row
      invariant forall r | 0 <= r < row :: spans[r] == Span(r, 0, columns)
    {
      spans := spans + [Span(row, 0, columns)];
    }
  }

  ghost predicate FullSpans(spans: seq<Span>, columns: nat, rows: nat) {
    |spans| == rows && forall r | 0 <= r < rows :: spans[r] == Span(r, 0, columns)
  }

  lemma FullSpansCoverAll(spans: seq<Span>, columns: nat, rows: nat)
    requires FullSpans(spans, columns, rows)
    ensures forall r: nat, c: nat | r < rows && c < columns :: InSpans(spans, r, c)
  {
    forall r: nat, c: nat | r < rows && c < columns ensures InSpans(spans, r, c) {
      assert InSpan(spans[r], r, c);
    }
  }

  /** Spans that miss no cell of the grid have the whole grid as hull. */
  lemma CoveringSpansHaveWholeHull(spans: seq<Span>, columns: nat, rows: nat)
    requires columns > 0 && rows > 0 && SpansFit(spans, columns, rows)
    requires InSpans(spans, 0, 0) && InSpans(spans, rows - 1, columns - 1)
    ensures Hull(spans) == Region(0, 0, columns, rows)
  {
    HullIsLeast(spans, columns, rows, NOTHING);
    var i :| 0 <= i < |spans| && InSpan(spans[i], 0, 0);
    var j :| 0 <= j < |spans| && InSpan(spans[j], rows - 1, columns - 1);
    assert Contains(Hull(spans), Box(spans[i])) && Contains(Hull(spans), Box(spans[j]));
  }

  /** A cell of some span is a cell of the hull. */
  lemma SpanCellIsInHull(spans: seq<Span>, columns: nat, rows: nat, r: nat, c: nat)
    requires SpansFit(spans, columns, rows) && InSpans(spans, r, c)
    ensures Inside(Hull(spans), r, c)
  {
    HullIsLeast(spans, columns, rows, NOTHING);
    var i :| 0 <= i < |spans| && InSpan(spans[i], r, c);
    assert Contains(Hull(spans), Box(spans[i]));
  }
}
