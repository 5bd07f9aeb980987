/** The pending frame of the control: taken but not painted yet, merged with what comes after. */
module FrameControl {
  import opened Options
  import opened Cells
  import opened Dirty
  import opened Frames
  import opened Coalescing
  import opened Painter

  /** Dropping an unchanged frame from a run leaves a run. */
  lemma UnchangedFrameCanBeDropped(frame: FrameInfo, idle: FrameInfo, next: FrameInfo)
    requires Follows(frame, idle) && !idle.changed && Follows(idle, next)
    ensures Follows(frame, next)
  {
    UnchangedFrameShowsTheSame(frame, idle);
  }

  ghost predicate FitsGrid(info: FrameInfo) {
    && WellFormedToPaint(info)
    && (!info.fullRepaint ==> !Empty(info.dirty) && Contains(Whole(info.columns, info.rows), info.dirty))
  }

  lemma ChangedFrameFitsGrid(info: FrameInfo)
    requires WellFormed(info) && info.changed
    ensures FitsGrid(info)
  {
    HullIsLeast(info.spans, info.columns, info.rows, NOTHING);
  }

  lemma MergeFitsGrid(pending: FrameInfo, info: FrameInfo)
    requires FitsGrid(pending) && FitsGrid(info) && WellFormed(info)
    requires !info.fullRepaint ==> info.columns == pending.columns && info.rows == pending.rows
    ensures FitsGrid(Merge(pending, info))
  {
  }

  lemma ChainGrows(frames: seq<FrameInfo>, info: FrameInfo)
    requires Chain(frames + [info])
    ensures Chain(frames) && WellFormed(info)
    ensures if frames == [] then info.fullRepaint else Follows(frames[|frames| - 1], info)
    ensures frames != [] ==> Reaches(frames[|frames| - 1].picture, info)
    ensures frames != [] && !info.fullRepaint ==>
      info.columns == frames[|frames| - 1].columns && info.rows == frames[|frames| - 1].rows
  {
    assert (frames + [info])[..|frames|] == frames;
  }

  lemma FullRepaintReaches(before: Picture, info: FrameInfo)
    requires WellFormed(info) && info.fullRepaint
    ensures Reaches(before, info)
  {
  }

  class Control {
    const renderer: Renderer
    var pendingFrame: Option<Handle>
    var pendingInfo: FrameInfo
    var pendingDirty: Region
    var pendingFullRepaint: bool

    /** Every frame taken from the core, oldest first. */
    ghost var taken: seq<FrameInfo>
    /** Every merge since the framebuffer was last known to be right has passed the check. */
    ghost var covered: bool

    ghost predicate Valid()
      reads this, renderer
    {
      && Chain(taken)
      && (pendingFrame.None? && taken != [] ==> renderer.framebufferValid)
      && (pendingFrame.None? && taken != [] && covered ==>
            renderer.framebuffer == taken[|taken| - 1].picture)
      && (pendingFrame.None? && taken != [] ==>
            Sized(renderer.framebuffer, taken[|taken| - 1].columns, taken[|taken| - 1].rows))
      && (taken == [] ==> pendingFrame.None? && !renderer.framebufferValid)
      && (pendingFrame.Some? ==> PendingValid())
    }

    ghost predicate PendingValid()
      requires pendingFrame.Some?
      reads this, renderer
    {
      && Paintable(pendingFrame.value.(info := pendingInfo))
      && pendingInfo.dirty == pendingDirty && pendingInfo.fullRepaint == pendingFullRepaint
    }

    /** Painting this brings the framebuffer to the newest picture (if all merges were covered). */
    ghost predicate Paintable(handle: Handle)
      reads `taken, `covered, renderer
    {
      && taken != [] && RowsFit(handle)
      && var newest, info := taken[|taken| - 1], handle.info;
      && info.changed && FitsGrid(info)
      && info.picture == newest.picture && info.columns == newest.columns && info.rows == newest.rows
      && (!renderer.framebufferValid ==> info.fullRepaint)
      && (!info.fullRepaint ==> Sized(renderer.framebuffer, newest.columns, newest.rows))
      && (covered ==> Reaches(renderer.framebuffer, info))
    }

    constructor (renderer: Renderer, nothing: FrameInfo)
      requires !renderer.framebufferValid
      ensures Valid() && this.renderer == renderer && taken == [] && covered && pendingFrame == None
    {
      this.renderer := renderer;
      pendingFrame, pendingInfo, pendingDirty, pendingFullRepaint := None, nothing, NOTHING, false;
      taken, covered := [], true;
    }

    /** Folds the pending frame into the one just taken. */
    method MergeWithPending(info: FrameInfo) returns (merged: FrameInfo)
      requires pendingInfo.dirty == pendingDirty && pendingInfo.fullRepaint == pendingFullRepaint
      requires info.fullRepaint ==> info.dirty == Whole(info.columns, info.rows)
      ensures merged == Merge(pendingInfo, info) && MergesExactly(pendingInfo, info, merged)
    {
      MergeMergesExactly(pendingInfo, info);
      var dirty, fullRepaint := info.dirty, info.fullRepaint;
      var scrollDelta, scrollKind := info.scrollDelta, info.scrollKind;
      if fullRepaint {
        dirty := Whole(info.columns, info.rows);
      }
      scrollDelta := scrollDelta + pendingInfo.scrollDelta;
      if pendingInfo.scrollKind != NoScroll && scrollKind != NoScroll && pendingInfo.scrollKind != scrollKind {
        scrollKind := MixedScroll;
      } else if scrollKind == NoScroll {
        scrollKind := pendingInfo.scrollKind;
      }
      if pendingFullRepaint {
        dirty := Whole(info.columns, info.rows);
      } else if !Empty(dirty) {
        if !Empty(pendingDirty) {
          dirty := Region(Min(dirty.left, pendingDirty.left), Min(dirty.top, pendingDirty.top),
                          Max(dirty.right, pendingDirty.right), Max(dirty.bottom, pendingDirty.bottom));
        }
      }
      fullRepaint := fullRepaint || pendingFullRepaint;
      merged := info.(scrollDelta := scrollDelta, scrollKind := scrollKind,
                      fullRepaint := fullRepaint, dirty := dirty);
    }

    /** Notes whether the merge passes the check. */
    ghost method CheckMerge(info: FrameInfo)
      requires pendingFrame.Some? && PendingValid()
      requires WellFormed(info) && FitsGrid(info) && Follows(taken[|taken| - 1], info)
      modifies `covered
      ensures covered == (old(covered) && MergeCovers(pendingInfo, info))
      ensures FitsGrid(Merge(pendingInfo, info))
      ensures covered ==> Reaches(renderer.framebuffer, Merge(pendingInfo, info))
    {
      MergeFitsGrid(pendingInfo, info);
      covered := covered && MergeCovers(pendingInfo, info);
      if covered {
        MergeReaches(renderer.framebuffer, pendingInfo, info);
      }
    }

    method RequestFrameRefresh(frame: Handle)
      requires Valid() && Chain(taken + [frame.info]) && RowsFit(frame)
      modifies this
      ensures Valid() && taken == old(taken) + [frame.info]
      ensures !frame.info.changed ==> unchanged(`pendingFrame, `pendingInfo, `covered)
      ensures frame.info.changed ==>
        && pendingFrame == Some(frame)
        && pendingInfo == (if old(pendingFrame.Some?) then Merge(old(pendingInfo), frame.info) else frame.info)
        && covered == (old(covered) && (old(pendingFrame.Some?) ==> MergeCovers(old(pendingInfo), frame.info)))
        && (old(pendingFrame.Some?) ==> MergesExactly(old(pendingInfo), frame.info, pendingInfo))
    {
      hide Chain, Follows, Reaches, MergeCovers, Hull, SpansFit, FullSpans, FitsGrid;
      var info := frame.info;
      ChainGrows(taken, info);
      if !info.changed {
        UnchangedFrameShowsTheSame(taken[|taken| - 1], info);
        taken := taken + [info];
        return;
      }
      ChangedFrameFitsGrid(info);
      if info.fullRepaint {
        FullRepaintReaches(renderer.framebuffer, info);
      }
      var merged := info;
      if pendingFrame.Some? {
        merged := MergeWithPending(info);
        CheckMerge(info);
      }
      taken := taken + [info];
      pendingFrame, pendingInfo := Some(frame), merged;
      pendingFullRepaint, pendingDirty := merged.fullRepaint, merged.dirty;
    }

    /** The frame to paint: the pending one, or else the one taken now. */
    method HandOver(current: Handle) returns (frame: Handle)
      requires Valid()
      requires pendingFrame.None? ==> Chain(taken + [current.info]) && RowsFit(current)
      modifies `pendingFrame, `pendingDirty, `pendingFullRepaint, `taken
      ensures pendingFrame == None && Chain(taken)
      ensures taken == if old(pendingFrame.Some?) then old(taken) else old(taken) + [current.info]
      ensures frame == if old(pendingFrame.Some?) then old(pendingFrame).value.(info := pendingInfo) else current
      ensures if frame.info.changed then Paintable(frame) else Valid()
      ensures !frame.info.changed ==> renderer.framebufferValid && !frame.info.fullRepaint
    {
      hide Chain, Follows, RowsFit, Explains, Hull, SpansFit, FullSpans;
      if pendingFrame.Some? {
        frame := pendingFrame.value.(info := pendingInfo);
        pendingFrame, pendingDirty, pendingFullRepaint := None, NOTHING, false;
      } else {
        frame := current;
        ChainGrows(taken, frame.info);
        if frame.info.changed {
          ChangedFrameFitsGrid(frame.info);
        } else {
          UnchangedFrameShowsTheSame(taken[|taken| - 1], frame.info);
        }
        taken := taken + [frame.info];
      }
    }

    /** Paints the pending frame, or else the frame taken now. */
    method OnPaint(current: Handle, rebuilt: bool)
      requires Valid()
      requires pendingFrame.None? ==> Chain(taken + [current.info]) && RowsFit(current)
      modifies this, renderer
      ensures Valid() && pendingFrame == None
      ensures taken == if old(pendingFrame.Some?) then old(taken) else old(taken) + [current.info]
      ensures renderer.framebufferValid
      ensures old(covered) ==> covered
      ensures covered ==> renderer.framebuffer == taken[|taken| - 1].picture
      ensures (if old(pendingFrame.Some?) then old(pendingFullRepaint) else current.info.fullRepaint) ==> covered
    {
      hide Chain, RowsFit, FitsGrid, Reaches, Sized;
      var frame := HandOver(current);
      if !frame.info.changed {
        return;
      }
      PaintHandle(frame, rebuilt);
    }

    method PaintHandle(frame: Handle, rebuilt: bool)
      requires Chain(taken) && Paintable(frame) && pendingFrame == None
      modifies `covered, renderer
      ensures Valid() && renderer.framebufferValid
      ensures covered == (old(covered) || rebuilt || frame.info.fullRepaint)
      ensures covered ==> renderer.framebuffer == frame.info.picture
    {
      hide Chain, RowsFit, Contains;
      if covered {
        PaintReachesThePicture(renderer.framebuffer, frame.info);
      }
      renderer.PaintFrame(frame, rebuilt);
      covered := covered || rebuilt || frame.info.fullRepaint;
    }
  }
}
