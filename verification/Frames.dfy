/** Frames as a renderer sees them: a picture, and how it differs from the one before. */
module Frames {
  import opened Cells
  import opened Dirty

  datatype ScrollKind = NoScroll | ContentScroll | ViewportScroll | MixedScroll
  /** How a frame names the scrolls before it: of the content, of the viewport, or both. */
  ghost function ScrolledBy(content: bool, viewport: bool): ScrollKind {
    if content && viewport then MixedScroll
    else if content then ContentScroll
    else if viewport then ViewportScroll
    else NoScroll
  }

  datatype CursorStyle = Block | Underline | Bar
  datatype Cursor = Cursor(x: nat, y: nat, visible: bool, style: CursorStyle)

  datatype FrameInfo = FrameInfo(
    generation: nat, changed: bool, fullRepaint: bool,
    scrollDelta: int, scrollKind: ScrollKind,
    columns: nat, rows: nat, cursor: Cursor, alternate: bool,
    dirty: Region, spans: seq<Span>, picture: Picture)

  function Whole(columns: nat, rows: nat): Region { Region(0, 0, columns, rows) }

  ghost predicate WellFormed(frame: FrameInfo) {
    && frame.columns > 0 && frame.rows > 0
    && Sized(frame.picture, frame.columns, frame.rows)
    && frame.changed == (frame.fullRepaint || !Empty(frame.dirty))
    && SpansFit(frame.spans, frame.columns, frame.rows)
    && frame.dirty == Hull(frame.spans)
    && (frame.fullRepaint ==>
          && frame.dirty == Whole(frame.columns, frame.rows)
          && FullSpans(frame.spans, frame.columns, frame.rows))
  }

  /** Outside `dirty`, `after` is `before` moved by `delta` rows, and no row comes from off screen. */
  ghost predicate Explains(before: Picture, after: Picture, columns: nat, rows: nat, delta: int, dirty: Region) {
    && Sized(before, columns, rows) && Sized(after, columns, rows)
    && forall r, c | 0 <= r < rows && 0 <= c < columns && !Inside(dirty, r, c) ::
         0 <= r + delta < rows && after[r][c] == before[r + delta][c]
  }

  /** A frame tells a renderer that holds `before` how to reach the frame's picture. */
  ghost predicate Reaches(before: Picture, frame: FrameInfo) {
    && Sized(frame.picture, frame.columns, frame.rows)
    && (frame.fullRepaint
        || Explains(before, frame.picture, frame.columns, frame.rows, frame.scrollDelta, frame.dirty))
  }

  /** `next` is the frame taken right after `frame`. */
  ghost predicate Follows(frame: FrameInfo, next: FrameInfo) {
    && WellFormed(frame) && WellFormed(next)
    && next.generation == frame.generation + (if next.changed then 1 else 0)
    && (!next.fullRepaint ==>
          next.columns == frame.columns && next.rows == frame.rows && next.alternate == frame.alternate)
    && Reaches(frame.picture, next)
    && (!next.changed ==> next.scrollDelta == 0 && next.cursor == frame.cursor)
  }

  /** A run of frames: the first repaints everything, and each follows the one before. */
  ghost predicate Chain(frames: seq<FrameInfo>)
    decreases |frames|
  {
    var n := |frames| - 1;
    if n < 0 then true
    else if n == 0 then WellFormed(frames[0]) && frames[0].fullRepaint
    else Chain(frames[..n]) && Follows(frames[n - 1], frames[n])
  }

  lemma {:induction false} ChainPrefix(frames: seq<FrameInfo>, n: nat)
    requires Chain(frames) && n <= |frames|
    ensures Chain(frames[..n])
    ensures 1 < n ==> Follows(frames[n - 2], frames[n - 1])
    decreases |frames|
  {
    var last := |frames| - 1;
    if n <= last {
      ChainPrefix(frames[..last], n);
      assert frames[..last][..n] == frames[..n];
    } else {
      assert frames[..n] == frames;
    }
  }

  lemma ChainExtends(frames: seq<FrameInfo>, info: FrameInfo)
    requires Chain(frames) && WellFormed(info)
    requires if frames == [] then info.fullRepaint else Follows(frames[|frames| - 1], info)
    ensures Chain(frames + [info]) && (info.fullRepaint ==> info.changed)
  {
    assert (frames + [info])[..|frames|] == frames;
  }

  // ---- Generations ----

  lemma UnchangedFrameShowsTheSame(frame: FrameInfo, next: FrameInfo)
    requires Follows(frame, next) && !next.changed
    ensures next.picture == frame.picture && next.cursor == frame.cursor
    ensures next.columns == frame.columns && next.rows == frame.rows && next.alternate == frame.alternate
  {
    forall r | 0 <= r < next.rows ensures next.picture[r] == frame.picture[r] {
      forall c | 0 <= c < next.columns ensures next.picture[r][c] == frame.picture[r][c] {
        assert !Inside(next.dirty, r, c);
      }
    }
  }

  /** What one step of a run says about the generation. */
  lemma GenerationStep(frames: seq<FrameInfo>, j: nat)
    requires Chain(frames) && 0 < j < |frames|
    ensures var frame, next := frames[j - 1], frames[j];
            && next.generation == frame.generation + (if next.changed then 1 else 0)
            && (!next.changed ==>
                  && next.picture == frame.picture && next.cursor == frame.cursor
                  && next.columns == frame.columns && next.rows == frame.rows && next.alternate == frame.alternate)
  {
    ChainPrefix(frames, j + 1);
    if !frames[j].changed {
      UnchangedFrameShowsTheSame(frames[j - 1], frames[j]);
    }
  }

  /** The generation is a faithful version number over any run of frames. */
  lemma {:induction false} GenerationIsFaithful(frames: seq<FrameInfo>, i: nat, j: nat)
    requires Chain(frames) && i <= j < |frames|
    ensures frames[i].generation <= frames[j].generation
    ensures frames[i].generation == frames[j].generation ==>
      && frames[j].picture == frames[i].picture && frames[j].cursor == frames[i].cursor
      && frames[j].columns == frames[i].columns && frames[j].rows == frames[i].rows
      && frames[j].alternate == frames[i].alternate
    ensures frames[i].generation < frames[j].generation <==>
      exists k :: i < k <= j && frames[k].changed
    decreases j - i
  {
    if i < j {
      GenerationIsFaithful(frames, i, j - 1);
      GenerationStep(frames, j);
    }
  }

  // ---- Painting ----

  /** The framebuffer copied onto itself, `delta` rows up; rows without a source stay as they are. */
  function Blit(buffer: Picture, delta: int): Picture {
    seq(|buffer|, r requires 0 <= r < |buffer| =>
      if 0 <= r + delta < |buffer| then buffer[r + delta] else buffer[r])
  }

  function RepaintRow(buffer: seq<CellView>, row: seq<CellView>, region: Region, r: nat): seq<CellView>
    requires |buffer| == |row|
  {
    seq(|row|, c requires 0 <= c < |row| => if Inside(region, r, c) then row[c] else buffer[c])
  }

  /** The cells of `region` taken from `picture`. */
  ghost function Repaint(buffer: Picture, picture: Picture, columns: nat, rows: nat, region: Region): Picture
    requires Sized(buffer, columns, rows) && Sized(picture, columns, rows)
  {
    seq(rows, r requires 0 <= r < rows => RepaintRow(buffer[r], picture[r], region, r))
  }

  /** One paint: the whole picture, or a blit and the dirty region, or nothing. */
  ghost function Paint(buffer: Picture, valid: bool, frame: FrameInfo): Picture
    requires valid && frame.changed && !frame.fullRepaint ==>
      Sized(buffer, frame.columns, frame.rows) && Sized(frame.picture, frame.columns, frame.rows)
  {
    if !valid || frame.fullRepaint then frame.picture
    else if frame.changed then
      Repaint(if frame.scrollDelta != 0 then Blit(buffer, frame.scrollDelta) else buffer,
              frame.picture, frame.columns, frame.rows, frame.dirty)
    else buffer
  }

  lemma RowReachesThePicture(before: Picture, frame: FrameInfo, r: nat)
    requires Reaches(before, frame) && !frame.fullRepaint && r < frame.rows
    ensures RepaintRow(Blit(before, frame.scrollDelta)[r], frame.picture[r], frame.dirty, r) == frame.picture[r]
  {
    forall c | 0 <= c < frame.columns && !Inside(frame.dirty, r, c)
      ensures frame.picture[r][c] == Blit(before, frame.scrollDelta)[r][c]
    {
    }
  }

  /** Blit and repaint refines a full repaint. */
  lemma PaintReachesThePicture(before: Picture, frame: FrameInfo)
    requires Reaches(before, frame) && frame.changed
    ensures Paint(before, true, frame) == frame.picture
  {
    hide RepaintRow;
    if !frame.fullRepaint {
      var moved := if frame.scrollDelta != 0 then Blit(before, frame.scrollDelta) else before;
      assert moved == Blit(before, frame.scrollDelta);
      forall r | 0 <= r < frame.rows
        ensures RepaintRow(moved[r], frame.picture[r], frame.dirty, r) == frame.picture[r]
      {
        RowReachesThePicture(before, frame, r);
      }
    }
  }

  lemma PaintNext(frame: FrameInfo, next: FrameInfo)
    requires Follows(frame, next)
    ensures Paint(frame.picture, true, next) == next.picture
  {
    if next.changed {
      PaintReachesThePicture(frame.picture, next);
    } else {
      UnchangedFrameShowsTheSame(frame, next);
    }
  }

  /** Painting every frame of a run in order, into a framebuffer that holds nothing at first,
      leaves exactly the newest picture. */
  ghost function PaintAll(frames: seq<FrameInfo>): (shown: Picture)
    requires Chain(frames) && frames != []
    ensures shown == frames[|frames| - 1].picture
    decreases |frames|
  {
    var n := |frames| - 1;
    if n == 0 then Paint([], false, frames[0]) else
      PaintNext(frames[n - 1], frames[n]);
      Paint(PaintAll(frames[..n]), true, frames[n])
  }
}
