/** Bounded spans of style runs: what a renderer visits row by row. */
module RunSpans {
  import opened Cells
  import opened PackedRows

  /** `spans` tile the cells `lo..hi`; each lies in one style and owns exactly its cells' text. */
  ghost predicate Cover(cells: seq<PackedCell>, spans: seq<PackedRun>, lo: nat, hi: nat) {
    && (spans == [] <==> lo == hi)
    && (spans != [] ==> spans[0].left == lo && RunEnd(spans[|spans| - 1]) == hi)
    && (forall k | 0 <= k < |spans| :: RunFits(cells, spans[k]))
    && (forall j, k | 0 <= j < k < |spans| && k == j + 1 :: spans[k].left == RunEnd(spans[j]))
  }

  /** Cell `column` starts with the second half of the wide cell before it. */
  ghost predicate SplitsWideCell(cells: seq<PackedCell>, column: nat)
    requires 0 < column < |cells|
  {
    cells[column - 1].width > 1 && cells[column].width == 0
  }

  /** No boundary between two spans of the same run cuts a wide cell from its continuation. */
  ghost predicate KeepsWideCells(cells: seq<PackedCell>, spans: seq<PackedRun>, lo: nat, hi: nat) {
    forall k | 0 <= k < |spans| && lo < RunEnd(spans[k]) < hi <= |cells| ::
      !SplitsWideCell(cells, RunEnd(spans[k]))
  }

  function SpanTexts(text: Text, spans: seq<PackedRun>): Text {
    if spans == [] then [] else
      var last := spans[|spans| - 1];
      SpanTexts(text, spans[..|spans| - 1]) + Slice(text, last.textOffset, last.textLength)
  }

  /** Every span has at least one and at most `bound` cells, and a style below `styleCount`. */
  ghost predicate Bounded(spans: seq<PackedRun>, bound: nat, styleCount: nat) {
    forall k | 0 <= k < |spans| :: 0 < spans[k].cellCount <= bound && spans[k].styleIndex < styleCount
  }

  /** What holds of the spans of `source` produced so far, up to column `reached`. */
  ghost predicate Progress(row: PackedRow, source: PackedRun, spans: seq<PackedRun>, reached: nat, bound: nat) {
    && Cover(row.cells, spans, source.left, reached)
    && KeepsWideCells(row.cells, spans, source.left, RunEnd(source))
    && Bounded(spans, bound, source.styleIndex + 1)
    && AllAsLongAsAllowed(row.cells, source, spans, bound)
  }

  lemma ProgressSnoc(row: PackedRow, source: PackedRun, spans: seq<PackedRun>, span: PackedRun, bound: nat)
    requires Progress(row, source, spans, span.left, bound) && source.left <= span.left
    requires RunFits(row.cells, span) && span.styleIndex == source.styleIndex && span.cellCount <= bound
    requires RunEnd(span) < RunEnd(source) <= |row.cells| ==> !SplitsWideCell(row.cells, RunEnd(span))
    requires AsLongAsAllowed(row.cells, source, span, bound)
    ensures Progress(row, source, spans + [span], RunEnd(span), bound)
  {
  }

  lemma {:induction false} CoverConcat(
      cells: seq<PackedCell>, a: seq<PackedRun>, b: seq<PackedRun>, lo: nat, mid: nat, hi: nat)
    requires Cover(cells, a, lo, mid) && Cover(cells, b, mid, hi) && lo <= mid <= hi
    ensures Cover(cells, a + b, lo, hi)
  {
    var all := a + b;
    forall j, k | 0 <= j < k < |all| && k == j + 1 ensures all[k].left == RunEnd(all[j]) {
      if k < |a| {
        assert a[k].left == RunEnd(a[j]);
      } else if j >= |a| {
        assert b[k - |a|].left == RunEnd(b[j - |a|]);
      }
    }
  }

  /** Without its last span, a cover covers up to where that span starts. */
  lemma CoverFront(cells: seq<PackedCell>, spans: seq<PackedRun>, lo: nat, hi: nat)
    requires Cover(cells, spans, lo, hi) && spans != []
    ensures var last := |spans| - 1;
            && Cover(cells, spans[..last], lo, spans[last].left) && lo <= spans[last].left
            && RunFits(cells, spans[last]) && spans[last].left < RunEnd(spans[last]) == hi
  {
    var last := |spans| - 1;
    var front := spans[..last];
    SpansAscend(cells, spans, lo, hi, last);
    assert forall j, k | 0 <= j < k < last && k == j + 1 :: front[k].left == RunEnd(front[j]) by {
      forall j, k | 0 <= j < k < last && k == j + 1 ensures front[k].left == RunEnd(front[j]) {
        assert spans[k].left == RunEnd(spans[j]);
      }
    }
    if last > 0 {
      assert spans[last].left == RunEnd(spans[last - 1]);
    }
  }

  /** The spans' texts, one after the other, are the text of the cells they cover. */
  lemma {:induction false} SpanTextsAreTheCells(row: PackedRow, spans: seq<PackedRun>, lo: nat, hi: nat)
    requires TextTiles(row.cells, row.text) && Cover(row.cells, spans, lo, hi) && lo <= hi <= |row.cells|
    ensures SpanTexts(row.text, spans) == CellTexts(row, lo, hi)
    decreases |spans|
  {
    hide TextTiles, RunFits, Slice, Cover;
    if spans != [] {
      var last := spans[|spans| - 1];
      CoverFront(row.cells, spans, lo, hi);
      SpanTextsAreTheCells(row, spans[..|spans| - 1], lo, last.left);
      RunTextIsItsCells(row, last);
      CellTextsSplit(row, lo, last.left, hi);
    } else {
      EmptyCover(row.cells, lo, hi);
    }
  }

  lemma EmptyCover(cells: seq<PackedCell>, lo: nat, hi: nat)
    requires Cover(cells, [], lo, hi)
    ensures lo == hi
  {
  }

  lemma {:induction false} SpansAscend(
      cells: seq<PackedCell>, spans: seq<PackedRun>, lo: nat, hi: nat, k: nat)
    requires Cover(cells, spans, lo, hi) && k < |spans|
    ensures lo <= spans[k].left
    ensures 0 < k ==> lo < spans[k].left
    decreases k
  {
    if k > 0 {
      SpansAscend(cells, spans, lo, hi, k - 1);
      assert RunFits(cells, spans[k - 1]);
      assert spans[k].left == RunEnd(spans[k - 1]);
    }
  }

  lemma {:induction false} CellTextsSplit(row: PackedRow, lo: nat, mid: nat, hi: nat)
    requires lo <= mid <= hi <= |row.cells|
    ensures CellTexts(row, lo, hi) == CellTexts(row, lo, mid) + CellTexts(row, mid, hi)
    decreases hi
  {
    if mid < hi {
      CellTextsSplit(row, lo, mid, hi - 1);
    } else {
      assert CellTexts(row, mid, hi) == [];
    }
  }

  lemma CoverMeansText(row: PackedRow, source: PackedRun, spans: seq<PackedRun>)
    requires TextTiles(row.cells, row.text) && RunFits(row.cells, source)
    requires Cover(row.cells, spans, source.left, RunEnd(source))
    ensures SpanTexts(row.text, spans) == Slice(row.text, source.textOffset, source.textLength)
  {
    hide Cover, TextTiles, RunFits, SpanTexts, CellTexts, Slice;
    RunTextIsItsCells(row, source);
    SpanTextsAreTheCells(row, spans, source.left, RunEnd(source));
  }

  /** A span ends with its run, is as long as the bound allows, or leaves out a wide cell that would be cut. */
  ghost predicate AsLongAsAllowed(cells: seq<PackedCell>, source: PackedRun, span: PackedRun, bound: nat) {
    || RunEnd(span) == RunEnd(source) || span.cellCount == bound
    || (span.cellCount == bound - 1 && RunEnd(span) < |cells| && cells[RunEnd(span)].width > 1)
  }

  ghost predicate AllAsLongAsAllowed(cells: seq<PackedCell>, source: PackedRun, spans: seq<PackedRun>, bound: nat) {
    forall k | 0 <= k < |spans| :: AsLongAsAllowed(cells, source, spans[k], bound)
  }

  /** Each span lies in some run, and is as long there as allowed. */
  ghost predicate LongInTheirRuns(cells: seq<PackedCell>, runs: seq<PackedRun>, spans: seq<PackedRun>, bound: nat) {
    forall k | 0 <= k < |spans| :: LongInARun(cells, runs, spans[k], bound)
  }

  ghost predicate LongInARun(cells: seq<PackedCell>, runs: seq<PackedRun>, span: PackedRun, bound: nat) {
    exists i :: 0 <= i < |runs| && runs[i].left <= span.left && RunEnd(span) <= RunEnd(runs[i])
                && AsLongAsAllowed(cells, runs[i], span, bound)
  }

  function AtLeastTwo(n: nat): nat { if n < 2 then 2 else n }

  /** The next span of a run: as long as the bound allows, but not ending in half a wide cell. */
  method NextSpan(row: PackedRow, source: PackedRun, bound: nat, cellOffset: nat)
    returns (span: PackedRun)
    requires TextTiles(row.cells, row.text) && |row.text| < TWO_32
    requires RunFits(row.cells, source) && cellOffset < source.cellCount && bound >= 2
    ensures RunFits(row.cells, span) && span.left == source.left + cellOffset
    ensures RunEnd(span) <= RunEnd(source)
    ensures span.styleIndex == source.styleIndex && 0 < span.cellCount <= bound
    ensures RunEnd(span) < RunEnd(source) ==> !SplitsWideCell(row.cells, RunEnd(span))
    ensures AsLongAsAllowed(row.cells, source, span, bound)
  {
    var remaining := source.cellCount - cellOffset;
    var cellCount := if bound < remaining then bound else remaining;
    if cellCount < remaining && cellCount > 1 {
      var boundary := source.left + cellOffset + cellCount - 1;
      if row.cells[boundary].width > 1 {
        cellCount := cellCount - 1;
      }
    }
    var firstColumn := source.left + cellOffset;
    var lastColumn := firstColumn + cellCount - 1;
    var first, last := row.cells[firstColumn], row.cells[lastColumn];
    CellTextInBounds(row, lastColumn);
    OffsetsAscend(row.cells, row.text, firstColumn, lastColumn);
    var end := U32(last.textOffset + last.textLength);
    span := PackedRun(firstColumn, cellCount, source.styleIndex, first.textOffset, end - first.textOffset);
  }

  /** One run in spans of at most `maxCells` cells (two, if the caller asks for one). */
  method ForEachPackedRunSpan(row: PackedRow, source: PackedRun, maxCells: nat)
    returns (complete: bool, spans: seq<PackedRun>)
    requires TextTiles(row.cells, row.text) && |row.text| < TWO_32
    requires RunFits(row.cells, source)
    ensures complete <==> maxCells > 0
    ensures complete ==> Cover(row.cells, spans, source.left, RunEnd(source))
    ensures complete ==> KeepsWideCells(row.cells, spans, source.left, RunEnd(source))
    ensures complete ==> SpanTexts(row.text, spans) == Slice(row.text, source.textOffset, source.textLength)
    ensures complete ==> AllAsLongAsAllowed(row.cells, source, spans, if maxCells < 2 then 2 else maxCells)
    ensures Bounded(spans, if maxCells < 2 then 2 else maxCells, source.styleIndex + 1)
    ensures Bounded(spans, AtLeastTwo(maxCells), source.styleIndex + 1)
  {
    spans := [];
    if maxCells == 0 || source.cellCount == 0 || source.left >= |row.cells|
       || source.cellCount > |row.cells| - source.left {
      return false, [];
    }
    var bound := AtLeastTwo(maxCells);
    var cellOffset := 0;
    while cellOffset < source.cellCount
      invariant cellOffset <= source.cellCount
      invariant Progress(row, source, spans, source.left + cellOffset, bound)
    {
      var span := NextSpan(row, source, bound, cellOffset);
      ProgressSnoc(row, source, spans, span, bound);
      spans := spans + [span];
      cellOffset := cellOffset + span.cellCount;
    }
    complete := true;
    CoverMeansText(row, source, spans);
  }

  /** All runs of a row, each in bounded spans. */
  method ForEachRowSpan(row: PackedRow, styleCount: nat, maxCells: nat)
    returns (complete: bool, spans: seq<PackedRun>)
    requires ValidRow(row, |row.cells|, styleCount) && |row.text| < TWO_32
    ensures complete <==> maxCells > 0
    ensures complete ==> Cover(row.cells, spans, 0, |row.cells|)
    ensures complete ==> SpanTexts(row.text, spans) == row.text
    ensures complete ==> InnerBoundariesKeepWideCells(row.cells, row.runs, spans)
    ensures complete ==> LongInTheirRuns(row.cells, row.runs, spans, if maxCells < 2 then 2 else maxCells)
    ensures Bounded(spans, if maxCells < 2 then 2 else maxCells, styleCount)
  {
    spans := [];
    if maxCells == 0 {
      return false, [];
    }
    ghost var reached := 0;
    for index := 0 to |row.runs|
      invariant reached == if index == 0 then 0 else RunEnd(row.runs[index - 1])
      invariant Cover(row.cells, spans, 0, reached)
      invariant Bounded(spans, AtLeastTwo(maxCells), styleCount)
      invariant InnerBoundariesKeepWideCells(row.cells, row.runs, spans)
      invariant LongInTheirRuns(row.cells, row.runs, spans, AtLeastTwo(maxCells))
    {
      RunPosition(row, styleCount, index);
      var source := row.runs[index];
      var ok, part := ForEachPackedRunSpan(row, source, maxCells);
      if !ok {
        assert false;
      }
      AppendRunSpans(row.cells, spans, part, reached, source, AtLeastTwo(maxCells), styleCount);
      RunKeepsWideCells(row.cells, row.runs, spans, part, index);
      PartIsLong(row.cells, row.runs, part, index, AtLeastTwo(maxCells));
      spans := spans + part;
      reached := RunEnd(source);
    }
    complete := true;
    WholeRowText(row, spans);
  }

  /** A span that does not end where its run ends does not cut a wide cell from its continuation. */
  ghost predicate InnerBoundariesKeepWideCells(cells: seq<PackedCell>, runs: seq<PackedRun>, spans: seq<PackedRun>) {
    forall k | 0 <= k < |spans| && 0 < RunEnd(spans[k]) < |cells| && SplitsWideCell(cells, RunEnd(spans[k])) ::
      EndsARun(runs, RunEnd(spans[k]))
  }

  ghost predicate EndsARun(runs: seq<PackedRun>, column: nat) {
    exists i :: 0 <= i < |runs| && RunEnd(runs[i]) == column
  }

  lemma RunKeepsWideCells(cells: seq<PackedCell>, runs: seq<PackedRun>, spans: seq<PackedRun>, part: seq<PackedRun>,
                          index: nat)
    requires index < |runs| && RunEnd(runs[index]) <= |cells| && InnerBoundariesKeepWideCells(cells, runs, spans)
    requires Cover(cells, part, runs[index].left, RunEnd(runs[index]))
    requires KeepsWideCells(cells, part, runs[index].left, RunEnd(runs[index]))
    ensures InnerBoundariesKeepWideCells(cells, runs, spans + part)
  {
    var all, source := spans + part, runs[index];
    forall k | 0 <= k < |all| && 0 < RunEnd(all[k]) < |cells| && SplitsWideCell(cells, RunEnd(all[k]))
      ensures EndsARun(runs, RunEnd(all[k]))
    {
      if k >= |spans| {
        var i := k - |spans|;
        SpansAscend(cells, part, source.left, RunEnd(source), i);
        SpanEndsWithin(cells, part, source.left, RunEnd(source), i);
        assert RunFits(cells, part[i]);
      }
    }
  }

  lemma PartIsLong(cells: seq<PackedCell>, runs: seq<PackedRun>, part: seq<PackedRun>, index: nat, bound: nat)
    requires index < |runs| && Cover(cells, part, runs[index].left, RunEnd(runs[index]))
    requires AllAsLongAsAllowed(cells, runs[index], part, bound)
    ensures LongInTheirRuns(cells, runs, part, bound)
  {
    forall k | 0 <= k < |part| ensures LongInARun(cells, runs, part[k], bound) {
      SpansAscend(cells, part, runs[index].left, RunEnd(runs[index]), k);
      SpanEndsWithin(cells, part, runs[index].left, RunEnd(runs[index]), k);
    }
  }

  lemma {:induction false} SpanEndsWithin(cells: seq<PackedCell>, spans: seq<PackedRun>, lo: nat, hi: nat, k: nat)
    requires Cover(cells, spans, lo, hi) && k < |spans|
    ensures RunEnd(spans[k]) <= hi
    decreases |spans| - k
  {
    if k + 1 < |spans| {
      SpanEndsWithin(cells, spans, lo, hi, k + 1);
      assert RunFits(cells, spans[k + 1]);
      assert spans[k + 1].left == RunEnd(spans[k]);
    }
  }

  lemma AppendRunSpans(cells: seq<PackedCell>, spans: seq<PackedRun>, part: seq<PackedRun>,
                       reached: nat, source: PackedRun, bound: nat, styleCount: nat)
    requires Cover(cells, spans, 0, reached) && Bounded(spans, bound, styleCount)
    requires Cover(cells, part, reached, RunEnd(source)) && Bounded(part, bound, source.styleIndex + 1)
    requires source.styleIndex < styleCount && reached == source.left
    ensures Cover(cells, spans + part, 0, RunEnd(source)) && Bounded(spans + part, bound, styleCount)
  {
    CoverConcat(cells, spans, part, 0, reached, RunEnd(source));
  }

  lemma WholeRowText(row: PackedRow, spans: seq<PackedRun>)
    requires TextTiles(row.cells, row.text) && Cover(row.cells, spans, 0, |row.cells|)
    ensures SpanTexts(row.text, spans) == row.text
  {
    SpanTextsAreTheCells(row, spans, 0, |row.cells|);
    if |row.cells| > 0 {
      TextOfCells(row, 0, |row.cells|);
    }
  }

  lemma RunPosition(row: PackedRow, styleCount: nat, k: nat)
    requires ValidRow(row, |row.cells|, styleCount) && k < |row.runs|
    ensures RunFits(row.cells, row.runs[k])
    ensures row.runs[k].left == if k == 0 then 0 else RunEnd(row.runs[k - 1])
    ensures row.runs[k].styleIndex < styleCount
  {
    assert RunFits(row.cells, row.runs[k]);
    assert row.runs[k].styleIndex == row.cells[row.runs[k].left].styleIndex;
  }
}
