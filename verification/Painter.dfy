/** The framebuffer, painted cell by cell from frames. */
module Painter {
  import opened Cells
  import opened PackedRows
  import opened PackedGrids
  import opened RunSpans
  import opened Dirty
  import opened Frames

  /** A frame together with the packed rows its reader can visit. */
  datatype Handle = Handle(info: FrameInfo, rowData: seq<PackedRow>, styles: seq<PackedStyle>)

  ghost predicate RowsFit(handle: Handle) {
    && |handle.rowData| == handle.info.rows
    && handle.info.picture == Shown(handle.styles, handle.rowData)
    && forall r | 0 <= r < handle.info.rows ::
         ValidRow(handle.rowData[r], handle.info.columns, |handle.styles|) && |handle.rowData[r].text| < TWO_32
  }

  datatype PaintConfig = PaintConfig(cacheGlyphs: bool, bypassScroll: bool, maxRunCells: nat)

  /** Painting on from `done` to `next`. */
  lemma ExtendPainted(buffer: seq<CellView>, row: seq<CellView>, left: nat, done: nat, next: nat)
    requires |buffer| == |row| && left <= done <= next <= |row|
    ensures var painted := buffer[..left] + row[left..done] + buffer[done..];
            painted[..done] + row[done..next] + painted[next..] == buffer[..left] + row[left..next] + buffer[next..]
  {
  }

  /** Paints `row` between `left` and `right`, span by span; each cell exactly once. */
  method RenderRow(buffer: seq<CellView>, row: seq<CellView>, spans: seq<PackedRun>,
                   left: nat, right: nat, columns: nat, ghost cells: seq<PackedCell>)
    returns (buffer': seq<CellView>, painted: nat)
    requires |buffer| == |row| == |cells| == columns && left < right <= columns
    requires Cover(cells, spans, 0, columns)
    ensures buffer' == buffer[..left] + row[left..right] + buffer[right..]
    ensures painted == right - left
  {
    buffer' := buffer;
    painted := 0;
    ghost var done := left;
    for index := 0 to |spans|
      invariant done == Min(right, Max(left, if index == 0 then 0 else RunEnd(spans[index - 1])))
      invariant left <= done <= right && painted == done - left
      invariant buffer' == buffer[..left] + row[left..done] + buffer[done..]
    {
      var span := spans[index];
      assert RunFits(cells, span);
      assert span.left == if index == 0 then 0 else RunEnd(spans[index - 1]);
      var spanRight := Min(columns, span.left + Max(1, span.cellCount));
      var drawLeft, drawRight := Max(left, span.left), Min(right, spanRight);
      if drawLeft < drawRight {
        ExtendPainted(buffer, row, left, done, drawRight);
        buffer' := buffer'[..drawLeft] + row[drawLeft..drawRight] + buffer'[drawRight..];
        painted := painted + (drawRight - drawLeft);
        done := drawRight;
      }
    }
  }

  class Renderer {
    var framebuffer: Picture
    var framebufferValid: bool
    var fullRepaints: nat
    var partialRepaints: nat
    var paintedCells: nat
    const config: PaintConfig

    constructor (config: PaintConfig)
      ensures framebuffer == [] && !framebufferValid && this.config == config
    {
      this.config := config;
      framebuffer, framebufferValid := [], false;
      fullRepaints, partialRepaints, paintedCells := 0, 0, 0;
    }

    method ScrollFramebuffer(delta: int, columns: nat, rows: nat)
      requires Sized(framebuffer, columns, rows)
      modifies this`framebuffer
      ensures framebuffer == Blit(old(framebuffer), delta)
    {
      if delta == 0 || columns == 0 || rows == 0 {
        assert columns == 0 ==> forall r | 0 <= r < rows :: framebuffer[r] == [];
        return;
      }
      var distance := Min(if delta < 0 then -delta else delta, rows);
      if distance >= rows {
        return;
      }
      if delta > 0 {
        framebuffer := framebuffer[distance..] + framebuffer[rows - distance..];
      } else {
        framebuffer := framebuffer[..distance] + framebuffer[..rows - distance];
      }
    }

    method RenderFrame(handle: Handle, dirty: Region) returns (painted: nat)
      requires RowsFit(handle) && Sized(handle.info.picture, handle.info.columns, handle.info.rows)
      requires Sized(framebuffer, handle.info.columns, handle.info.rows)
      modifies this`framebuffer
      ensures framebuffer
           == Repaint(old(framebuffer), handle.info.picture, handle.info.columns, handle.info.rows, dirty)
      ensures Contains(Whole(handle.info.columns, handle.info.rows), dirty) && !Empty(dirty) ==>
        painted == Area(dirty.bottom - dirty.top, dirty.right - dirty.left)
    {
      hide ValidRow, Shown, RowsFit, Repaint, RepaintRow, Area;

      var info := handle.info;
      ghost var before := framebuffer;
      painted := 0;
      var left, top := Min(dirty.left, info.columns), Min(dirty.top, info.rows);
      var right, bottom := Min(dirty.right, info.columns), Min(dirty.bottom, info.rows);
      if Empty(dirty) || info.columns == 0 || info.rows == 0 || left >= right || top >= bottom {
        NothingToRepaint(before, info.picture, info.columns, info.rows, dirty);
        return;
      }
      AddRow(0, right - left);
      for row := top to bottom
        invariant |framebuffer| == info.rows
        invariant painted == Area(row - top, right - left)
        invariant forall r | 0 <= r < info.rows ::
          framebuffer[r] == RenderedRow(before, info.picture, dirty, top, row, r)
      {
        var line, count := RenderLine(framebuffer[row], handle, row, left, right);
        LineIsRepainted(before[row], info.picture[row], dirty, row, left, right);
        framebuffer := framebuffer[row := line];
        painted := painted + count;
        AddRow(row - top, right - left);
      }
      AllRowsRepainted(before, framebuffer, info, dirty, top, bottom);
    }

    /** One row of a frame over one row of the framebuffer, through bounded spans or whole runs. */
    method RenderLine(buffer: seq<CellView>, handle: Handle, row: nat, left: nat, right: nat)
      returns (line: seq<CellView>, painted: nat)
      requires RowsFit(handle) && WellFormedToPaint(handle.info) && row < handle.info.rows
      requires |buffer| == handle.info.columns && left < right <= handle.info.columns
      ensures line == buffer[..left] + handle.info.picture[row][left..right] + buffer[right..]
      ensures painted == right - left
    {
      var packed := handle.rowData[row];
      var spans := packed.runs;
      RunsCover(packed);
      if config.cacheGlyphs && (!config.bypassScroll || handle.info.scrollDelta == 0) {
        var complete, bounded := ForEachRowSpan(packed, |handle.styles|, AtLeastTwo(config.maxRunCells));
        if complete && bounded != [] {
          spans := bounded;
        }
      }
      line, painted := RenderRow(buffer, ShownRow(handle.styles, packed), spans, left, right,
                                 handle.info.columns, packed.cells);
    }

    /** `rebuilt` says whether the backing bitmap had to be created anew. */
    method PaintFrame(handle: Handle, rebuilt: bool)
      requires RowsFit(handle) && WellFormedToPaint(handle.info)
      requires framebufferValid && !rebuilt && handle.info.changed && !handle.info.fullRepaint ==>
        Sized(framebuffer, handle.info.columns, handle.info.rows)
      modifies this
      ensures framebuffer == Paint(old(framebuffer), old(framebufferValid) && !rebuilt, handle.info)
      ensures framebufferValid
      ensures var info, whole := handle.info, !old(framebufferValid) || rebuilt || handle.info.fullRepaint;
              && fullRepaints == old(fullRepaints) + (if whole then 1 else 0)
              && partialRepaints == old(partialRepaints) + (if !whole && info.changed then 1 else 0)
              && (whole && info.columns > 0 && info.rows > 0 ==>
                    paintedCells == old(paintedCells) + Area(info.rows, info.columns))
              && (!whole && info.changed && !Empty(info.dirty)
                  && Contains(Whole(info.columns, info.rows), info.dirty) ==>
                    paintedCells == old(paintedCells) + Area(info.dirty.bottom - info.dirty.top,
                                                             info.dirty.right - info.dirty.left))
    {
      if rebuilt {
        framebufferValid := false;
      }
      var info := handle.info;
      if !framebufferValid || info.fullRepaint {
        fullRepaints := fullRepaints + 1;
        framebuffer := seq(info.rows, r => seq(info.columns, c => BLANK));
        RepaintEverything(framebuffer, info.picture, info.columns, info.rows);
        var painted := RenderFrame(handle, Whole(info.columns, info.rows));
        paintedCells := paintedCells + painted;
        framebufferValid := true;
      } else if info.changed {
        if info.scrollDelta != 0 {
          ScrollFramebuffer(info.scrollDelta, info.columns, info.rows);
        }
        partialRepaints := partialRepaints + 1;
        var painted := RenderFrame(handle, info.dirty);
        paintedCells := paintedCells + painted;
      }
    }
  }

  /** Row `r` of the framebuffer once the rows `top..reached` have been rendered. */
  function RenderedRow(before: Picture, picture: Picture, dirty: Region, top: nat, reached: nat, r: nat): seq<CellView>
    requires r < |before| && r < |picture| && |before[r]| == |picture[r]|
  {
    if top <= r < reached then RepaintRow(before[r], picture[r], dirty, r) else before[r]
  }

  lemma LineIsRepainted(buffer: seq<CellView>, row: seq<CellView>, dirty: Region, r: nat, left: nat, right: nat)
    requires |buffer| == |row| && dirty.top <= r < dirty.bottom
    requires left == dirty.left <= right == Min(dirty.right, |row|)
    ensures buffer[..left] + row[left..right] + buffer[right..] == RepaintRow(buffer, row, dirty, r)
  {
  }

  function Area(rows: nat, width: nat): nat { rows * width }

  lemma AddRow(rows: nat, width: nat)
    ensures Area(rows + 1, width) == Area(rows, width) + width && Area(0, width) == 0
  {
  }

  lemma AllRowsRepainted(before: Picture, after: Picture, info: FrameInfo, dirty: Region, top: nat, bottom: nat)
    requires Sized(before, info.columns, info.rows) && Sized(info.picture, info.columns, info.rows)
    requires top == dirty.top && bottom == Min(dirty.bottom, info.rows) && |after| == info.rows
    requires forall r | 0 <= r < info.rows :: after[r] == RenderedRow(before, info.picture, dirty, top, bottom, r)
    ensures after == Repaint(before, info.picture, info.columns, info.rows, dirty)
  {
    forall r | 0 <= r < info.rows ensures after[r] == RepaintRow(before[r], info.picture[r], dirty, r) {}
  }

  ghost predicate WellFormedToPaint(info: FrameInfo) { Sized(info.picture, info.columns, info.rows) }

  lemma RunsCover(row: PackedRow)
    requires TilesMaximally(row.cells, row.runs, |row.cells|)
    ensures Cover(row.cells, row.runs, 0, |row.cells|)
  {
  }

  lemma NothingToRepaint(buffer: Picture, picture: Picture, columns: nat, rows: nat, region: Region)
    requires Sized(buffer, columns, rows) && Sized(picture, columns, rows)
    requires forall r, c | 0 <= r < rows && 0 <= c < columns :: !Inside(region, r, c)
    ensures Repaint(buffer, picture, columns, rows, region) == buffer
  {
    forall r | 0 <= r < rows ensures RepaintRow(buffer[r], picture[r], region, r) == buffer[r] {}
  }

  lemma RepaintEverything(buffer: Picture, picture: Picture, columns: nat, rows: nat)
    requires Sized(buffer, columns, rows) && Sized(picture, columns, rows)
    ensures Repaint(buffer, picture, columns, rows, Whole(columns, rows)) == picture
  {
    forall r | 0 <= r < rows ensures RepaintRow(buffer[r], picture[r], Whole(columns, rows), r) == picture[r] {}
  }
}
