/** Merging a frame that was never painted with the frame taken after it. */
module Coalescing {
  import opened Cells
  import opened Dirty
  import opened Frames

  function MergedKind(pending: ScrollKind, next: ScrollKind): ScrollKind {
    if pending != NoScroll && next != NoScroll && pending != next then MixedScroll
    else if next == NoScroll then pending
    else next
  }

  function MergedDirty(pending: FrameInfo, next: FrameInfo): Region {
    if pending.fullRepaint then Whole(next.columns, next.rows)
    else if !Empty(next.dirty) && !Empty(pending.dirty) then Join(next.dirty, pending.dirty)
    else next.dirty
  }

  /** What is left to paint when `next` replaces the pending frame. */
  function Merge(pending: FrameInfo, next: FrameInfo): FrameInfo {
    next.(scrollDelta := next.scrollDelta + pending.scrollDelta,
          scrollKind := MergedKind(pending.scrollKind, next.scrollKind),
          dirty := MergedDirty(pending, next),
          fullRepaint := next.fullRepaint || pending.fullRepaint)
  }

  /** `earlier`, moved along with a later scroll by `delta`, still lies in `merged`. */
  predicate CoversMoved(earlier: Region, delta: int, merged: Region, rows: nat) {
    var top := if earlier.top - delta < 0 then 0 else earlier.top - delta;
    var bottom := if earlier.bottom - delta < rows then earlier.bottom - delta else rows;
    top < bottom && earlier.left < earlier.right ==>
      merged.left <= earlier.left && merged.top <= top && earlier.right <= merged.right && bottom <= merged.bottom
  }

  /** The check a caller could make before it merges: a full repaint, or the moved box is covered. */
  predicate MergeCovers(pending: FrameInfo, next: FrameInfo) {
    next.fullRepaint || pending.fullRepaint
    || CoversMoved(pending.dirty, next.scrollDelta, MergedDirty(pending, next), next.rows)
  }

  lemma CoversMovedCells(earlier: Region, delta: int, merged: Region, columns: nat, rows: nat)
    requires earlier.right <= columns
    ensures CoversMoved(earlier, delta, merged, rows) <==>
      forall r, c | 0 <= r < rows && 0 <= c < columns && 0 <= r + delta && Inside(earlier, r + delta, c) ::
        Inside(merged, r, c)
  {
    if forall r, c | 0 <= r < rows && 0 <= c < columns && 0 <= r + delta && Inside(earlier, r + delta, c) ::
        Inside(merged, r, c)
    {
      var top := if earlier.top - delta < 0 then 0 else earlier.top - delta;
      var bottom := if earlier.bottom - delta < rows then earlier.bottom - delta else rows;
      if top < bottom && earlier.left < earlier.right {
        assert Inside(earlier, top + delta, earlier.left) && Inside(earlier, bottom - 1 + delta, earlier.right - 1);
        assert Inside(merged, top, earlier.left) && Inside(merged, bottom - 1, earlier.right - 1);
      }
    }
  }

  /** A merge that passes the check tells the renderer how to reach the newest picture. */
  lemma MergeReaches(before: Picture, pending: FrameInfo, next: FrameInfo)
    requires Reaches(before, pending) && pending.changed
    requires Reaches(pending.picture, next) && next.changed
    requires WellFormed(next) && (!next.fullRepaint ==> next.columns == pending.columns && next.rows == pending.rows)
    requires !pending.fullRepaint ==> !Empty(pending.dirty) && pending.dirty.right <= pending.columns
    requires MergeCovers(pending, next)
    ensures Reaches(before, Merge(pending, next))
  {
    var merged := Merge(pending, next);
    if !merged.fullRepaint {
      CoversMovedCells(pending.dirty, next.scrollDelta, merged.dirty, next.columns, next.rows);
      forall r, c | 0 <= r < next.rows && 0 <= c < next.columns && !Inside(merged.dirty, r, c)
        ensures 0 <= r + merged.scrollDelta < next.rows
        ensures next.picture[r][c] == before[r + merged.scrollDelta][c]
      {
        assert !Inside(next.dirty, r, c);
        assert !Inside(pending.dirty, r + next.scrollDelta, c);
      }
    }
  }

  /** Frames without a scroll always merge soundly, and so does every merge into a full repaint. */
  lemma UnscrolledOrFullMergesAreCovered(pending: FrameInfo, next: FrameInfo)
    requires WellFormed(next) && next.changed
    requires pending.fullRepaint || next.fullRepaint || pending.dirty.bottom <= next.rows
    requires next.scrollDelta == 0 || next.fullRepaint || pending.fullRepaint
    ensures MergeCovers(pending, next)
  {
  }

  /** The pending frame after merging `frames[1..]` into `frames[0]`, in order. */
  function MergeAll(frames: seq<FrameInfo>): FrameInfo
    requires frames != []
    decreases |frames|
  {
    var n := |frames| - 1;
    if n == 0 then frames[0] else Merge(MergeAll(frames[..n]), frames[n])
  }

  /** Every merge along the way passes the check. */
  ghost predicate AllCovered(frames: seq<FrameInfo>)
    decreases |frames|
  {
    var n := |frames| - 1;
    n > 0 ==> AllCovered(frames[..n]) && MergeCovers(MergeAll(frames[..n]), frames[n])
  }

  ghost predicate FollowInOrder(first: FrameInfo, frames: seq<FrameInfo>)
    decreases |frames|
  {
    var n := |frames| - 1;
    n >= 0 ==> FollowInOrder(first, frames[..n]) && Follows(if n == 0 then first else frames[n - 1], frames[n])
  }

  /** Coalescing any number of frames and painting once shows what painting each of them shows. */
  lemma {:induction false} CoalescedPaintIsSound(shown: FrameInfo, frames: seq<FrameInfo>)
    requires FollowInOrder(shown, frames) && frames != []
    requires forall i | 0 <= i < |frames| :: frames[i].changed
    requires AllCovered(frames)
    ensures var merged := MergeAll(frames);
            && merged.picture == frames[|frames| - 1].picture
            && Reaches(shown.picture, merged)
            && Paint(shown.picture, true, merged) == frames[|frames| - 1].picture
  {
    MergedReaches(shown, frames);
    PaintReachesThePicture(shown.picture, MergeAll(frames));
  }

  lemma {:induction false} MergedReaches(shown: FrameInfo, frames: seq<FrameInfo>)
    requires FollowInOrder(shown, frames) && frames != []
    requires forall i | 0 <= i < |frames| :: frames[i].changed
    requires AllCovered(frames)
    ensures var merged := MergeAll(frames);
            && merged.changed
            && Reaches(shown.picture, merged)
            && merged.picture == frames[|frames| - 1].picture
            && merged.columns == frames[|frames| - 1].columns && merged.rows == frames[|frames| - 1].rows
            && (!merged.fullRepaint ==>
                  && !Empty(merged.dirty)
                  && Contains(Whole(merged.columns, merged.rows), merged.dirty))
    decreases |frames|
  {
    var n := |frames| - 1;
    var last := frames[n];
    HullIsLeast(last.spans, last.columns, last.rows, NOTHING);
    if n > 0 {
      var front := frames[..n];
      MergedReaches(shown, front);
      MergeReaches(shown.picture, MergeAll(front), last);
    }
  }

  /** Each frame after the first carries no scroll, or makes the merge a full repaint. */
  ghost predicate UnscrolledOrFull(frames: seq<FrameInfo>) {
    forall i | 0 < i < |frames| ::
      frames[i].scrollDelta == 0 || frames[i].fullRepaint || MergeAll(frames[..i]).fullRepaint
  }

  /** Then every merge along the way passes the check. */
  lemma {:induction false} UnscrolledOrFullRunsAreCovered(shown: FrameInfo, frames: seq<FrameInfo>)
    requires FollowInOrder(shown, frames) && UnscrolledOrFull(frames)
    requires forall i | 0 <= i < |frames| :: frames[i].changed
    ensures AllCovered(frames)
    decreases |frames|
  {
    hide Reaches, MergeCovers, SpansFit, FullSpans, Hull;
    var n := |frames| - 1;
    if n > 0 {
      var front := frames[..n];
      assert forall i | 0 < i < n :: front[..i] == frames[..i];
      UnscrolledOrFullRunsAreCovered(shown, front);
      MergedReaches(shown, front);
      UnscrolledOrFullMergesAreCovered(MergeAll(front), frames[n]);
    }
  }

  /** Coalescing any number of frames whose later ones carry no scroll, or that make the merge a full
      repaint, and painting once, shows what painting each of them in order shows. */
  lemma UnscrolledOrFullCoalescingIsSound(shown: FrameInfo, frames: seq<FrameInfo>)
    requires FollowInOrder(shown, frames) && frames != [] && UnscrolledOrFull(frames)
    requires forall i | 0 <= i < |frames| :: frames[i].changed
    ensures Reaches(shown.picture, MergeAll(frames))
    ensures Paint(shown.picture, true, MergeAll(frames)) == PaintInOrder(shown, frames)
  {
    UnscrolledOrFullRunsAreCovered(shown, frames);
    CoalescedPaintIsSound(shown, frames);
  }

  /** The framebuffer after painting the frames one by one: the newest picture. */
  ghost function PaintInOrder(shown: FrameInfo, frames: seq<FrameInfo>): (buffer: Picture)
    requires FollowInOrder(shown, frames)
    ensures buffer == if frames == [] then shown.picture else frames[|frames| - 1].picture
    decreases |frames|
  {
    if frames == [] then shown.picture else
      var n := |frames| - 1;
      PaintNext(if n == 0 then shown else frames[n - 1], frames[n]);
      Paint(PaintInOrder(shown, frames[..n]), true, frames[n])
  }

  // ---- The check is exact ----

  /** Painting the merge of two partial frames is right for every pair of pictures they can describe. */
  ghost predicate AlwaysExact(columns: nat, rows: nat, first: Region, firstDelta: int,
                              second: Region, secondDelta: int) {
    forall p0, p1, p2 |
      Explains(p0, p1, columns, rows, firstDelta, first) && Explains(p1, p2, columns, rows, secondDelta, second) ::
      Repaint(Blit(p0, firstDelta + secondDelta), p2, columns, rows, Join(second, first)) == p2
  }

  /** A dirty region and delta that some pair of pictures can have: no clean cell comes from off screen. */
  ghost predicate Feasible(columns: nat, rows: nat, dirty: Region, delta: int) {
    && !Empty(dirty) && Contains(Whole(columns, rows), dirty)
    && forall r, c | 0 <= r < rows && 0 <= c < columns && !Inside(dirty, r, c) :: 0 <= r + delta < rows
  }

  const INK := CellView(0x23, [0x23], 1, DEFAULT_STYLE)

  ghost function Blanks(columns: nat, rows: nat): Picture {
    seq(rows, r => seq(columns, c => BLANK))
  }

  ghost function Inked(columns: nat, rows: nat, dirty: Region): Picture {
    seq(rows, r requires 0 <= r < rows => seq(columns, c requires 0 <= c < columns =>
      if Inside(dirty, r, c) then INK else BLANK))
  }

  /** `picture` moved by `delta` outside `dirty`, and ink inside. */
  ghost function MovedInk(picture: Picture, columns: nat, rows: nat, delta: int, dirty: Region): Picture
    requires Sized(picture, columns, rows)
  {
    seq(rows, r requires 0 <= r < rows => seq(columns, c requires 0 <= c < columns =>
      if !Inside(dirty, r, c) && 0 <= r + delta < rows then picture[r + delta][c] else INK))
  }

  /** A changed frame that repaints a part of the grid only. */
  ghost predicate Partial(frame: FrameInfo, columns: nat, rows: nat) {
    && frame.changed && !frame.fullRepaint && frame.columns == columns && frame.rows == rows
    && Feasible(columns, rows, frame.dirty, frame.scrollDelta)
  }

  /** Painting the merge once is right, whatever the two frames show. */
  ghost predicate MergeAlwaysPaintsRight(pending: FrameInfo, next: FrameInfo)
    requires Partial(pending, next.columns, next.rows) && Partial(next, next.columns, next.rows)
  {
    forall p0, p1, p2 |
      && Explains(p0, p1, next.columns, next.rows, pending.scrollDelta, pending.dirty)
      && Explains(p1, p2, next.columns, next.rows, next.scrollDelta, next.dirty) ::
      Paint(p0, true, Merge(pending.(picture := p1), next.(picture := p2))) == p2
  }

  lemma PaintingTheMerge(pending: FrameInfo, next: FrameInfo, p0: Picture, p1: Picture, p2: Picture)
    requires Partial(pending, next.columns, next.rows) && Partial(next, next.columns, next.rows)
    requires Sized(p0, next.columns, next.rows) && Sized(p2, next.columns, next.rows)
    ensures Paint(p0, true, Merge(pending.(picture := p1), next.(picture := p2)))
         == Repaint(Blit(p0, pending.scrollDelta + next.scrollDelta), p2, next.columns, next.rows,
                    Join(next.dirty, pending.dirty))
  {
    assert Blit(p0, 0) == p0;
  }

  /** The merge of two partial frames always paints right if and only if the earlier dirty box, moved by the later
      scroll, lies in the join of the two boxes; and that is what the check says. */
  lemma MergeIsSoundExactlyWhenCovered(pending: FrameInfo, next: FrameInfo)
    requires Partial(pending, next.columns, next.rows) && Partial(next, next.columns, next.rows)
    ensures CoversMoved(pending.dirty, next.scrollDelta, Join(next.dirty, pending.dirty), next.rows)
       <==> MergeAlwaysPaintsRight(pending, next)
    ensures MergeCovers(pending, next) <==> MergeAlwaysPaintsRight(pending, next)
  {
    hide Explains, Paint, Repaint, CoversMoved, Join;
    JoinsAreSoundExactlyWhenCovered(next.columns, next.rows, pending.dirty, pending.scrollDelta,
                                    next.dirty, next.scrollDelta);
    forall p0, p1, p2 |
      && Explains(p0, p1, next.columns, next.rows, pending.scrollDelta, pending.dirty)
      && Explains(p1, p2, next.columns, next.rows, next.scrollDelta, next.dirty)
      ensures Sized(p0, next.columns, next.rows) && Sized(p2, next.columns, next.rows)
      ensures Paint(p0, true, Merge(pending.(picture := p1), next.(picture := p2)))
           == Repaint(Blit(p0, pending.scrollDelta + next.scrollDelta), p2, next.columns, next.rows,
                      Join(next.dirty, pending.dirty))
    {
      ExplainsSized(p0, p1, next.columns, next.rows, pending.scrollDelta, pending.dirty);
      ExplainsSized(p1, p2, next.columns, next.rows, next.scrollDelta, next.dirty);
      PaintingTheMerge(pending, next, p0, p1, p2);
    }
    MergedDirtyOfPartials(pending, next);
  }

  lemma ExplainsSized(before: Picture, after: Picture, columns: nat, rows: nat, delta: int, dirty: Region)
    requires Explains(before, after, columns, rows, delta, dirty)
    ensures Sized(before, columns, rows) && Sized(after, columns, rows)
  {
  }

  lemma MergedDirtyOfPartials(pending: FrameInfo, next: FrameInfo)
    requires !pending.fullRepaint && !next.fullRepaint && !Empty(pending.dirty) && !Empty(next.dirty)
    ensures MergedDirty(pending, next) == Join(next.dirty, pending.dirty)
    ensures forall outer ::
      Within(outer, MergedDirty(pending, next)) <==> Within(outer, pending.dirty) && Within(outer, next.dirty)
  {
    hide Within, Join;
    forall outer ensures Within(outer, Join(next.dirty, pending.dirty)) <==>
                         Within(outer, pending.dirty) && Within(outer, next.dirty)
    {
      JoinIsLeast(next.dirty, pending.dirty, outer);
    }
  }

  /** How the kinds of two scrolls combine. */
  ghost predicate KindsCombine(a: ScrollKind, b: ScrollKind, both: ScrollKind) {
    && (a == NoScroll ==> both == b) && (b == NoScroll ==> both == a) && (a == b ==> both == a)
    && (a != NoScroll && b != NoScroll && a != b ==> both == MixedScroll)
  }

  /** The merge adds the scrolls, combines their kinds, repaints everything if either frame does, and otherwise has
      exactly the bounding box of both as dirty region. */
  ghost predicate MergesExactly(pending: FrameInfo, next: FrameInfo, merged: FrameInfo) {
    && merged.scrollDelta == pending.scrollDelta + next.scrollDelta
    && KindsCombine(pending.scrollKind, next.scrollKind, merged.scrollKind)
    && (merged.fullRepaint <==> pending.fullRepaint || next.fullRepaint)
    && (merged.fullRepaint && Within(Whole(next.columns, next.rows), pending.dirty)
        && (next.fullRepaint ==> next.dirty == Whole(next.columns, next.rows)) ==>
          merged.dirty == Whole(next.columns, next.rows))
    && (!merged.fullRepaint && !Empty(pending.dirty) && !Empty(next.dirty) ==>
          forall outer :: Within(outer, merged.dirty) <==> Within(outer, pending.dirty) && Within(outer, next.dirty))
    && merged.picture == next.picture && merged.columns == next.columns && merged.rows == next.rows
    && merged.changed == next.changed && merged.generation == next.generation
  }

  lemma MergeMergesExactly(pending: FrameInfo, next: FrameInfo)
    ensures MergesExactly(pending, next, Merge(pending, next))
  {
    hide Within;
    if !pending.fullRepaint && !next.fullRepaint && !Empty(pending.dirty) && !Empty(next.dirty) {
      MergedDirtyOfPartials(pending, next);
    } else if !pending.fullRepaint && next.fullRepaint && Within(Whole(next.columns, next.rows), pending.dirty)
              && next.dirty == Whole(next.columns, next.rows) {
      JoinWithWhole(pending.dirty, next.columns, next.rows);
    }
  }

  lemma JoinWithWhole(part: Region, columns: nat, rows: nat)
    requires Within(Whole(columns, rows), part)
    ensures !Empty(Whole(columns, rows)) ==> Join(Whole(columns, rows), part) == Whole(columns, rows)
  {
  }

  /** Merging two boxes is sound for all pictures if and only if the first box, moved by the second scroll,
      lies inside the merged box. */
  lemma JoinsAreSoundExactlyWhenCovered(
      columns: nat, rows: nat, first: Region, firstDelta: int, second: Region, secondDelta: int)
    requires Feasible(columns, rows, first, firstDelta) && Feasible(columns, rows, second, secondDelta)
    ensures CoversMoved(first, secondDelta, Join(second, first), rows)
       <==> AlwaysExact(columns, rows, first, firstDelta, second, secondDelta)
  {
    var merged := Join(second, first);
    CoversMovedCells(first, secondDelta, merged, columns, rows);
    if CoversMoved(first, secondDelta, merged, rows) {
      forall p0, p1, p2 | Explains(p0, p1, columns, rows, firstDelta, first)
                       && Explains(p1, p2, columns, rows, secondDelta, second)
        ensures Repaint(Blit(p0, firstDelta + secondDelta), p2, columns, rows, merged) == p2
      {
        CoveredMergeIsExact(columns, rows, first, firstDelta, second, secondDelta, p0, p1, p2);
      }
    } else {
      var r, c :| 0 <= r < rows && 0 <= c < columns && 0 <= r + secondDelta
               && Inside(first, r + secondDelta, c) && !Inside(merged, r, c);
      UncoveredCellIsLost(columns, rows, first, firstDelta, second, secondDelta, r, c);
    }
  }

  /** A cell of the first dirty box that the second scroll moves out of the merged box is not painted. */
  lemma UncoveredCellIsLost(
      columns: nat, rows: nat, first: Region, firstDelta: int, second: Region, secondDelta: int, r: nat, c: nat)
    requires Feasible(columns, rows, first, firstDelta) && Feasible(columns, rows, second, secondDelta)
    requires r < rows && c < columns && 0 <= r + secondDelta
    requires Inside(first, r + secondDelta, c) && !Inside(Join(second, first), r, c)
    ensures !AlwaysExact(columns, rows, first, firstDelta, second, secondDelta)
  {
    var merged := Join(second, first);
    var p0, p1 := Blanks(columns, rows), Inked(columns, rows, first);
    var p2 := MovedInk(p1, columns, rows, secondDelta, second);
    assert Explains(p0, p1, columns, rows, firstDelta, first);
    assert Explains(p1, p2, columns, rows, secondDelta, second);
    var painted := Repaint(Blit(p0, firstDelta + secondDelta), p2, columns, rows, merged);
    assert painted[r][c] == BLANK;
    assert p2[r][c] == INK;
  }

  lemma CoveredMergeIsExact(
      columns: nat, rows: nat, first: Region, firstDelta: int, second: Region, secondDelta: int,
      p0: Picture, p1: Picture, p2: Picture)
    requires Feasible(columns, rows, first, firstDelta) && Feasible(columns, rows, second, secondDelta)
    requires CoversMoved(first, secondDelta, Join(second, first), rows)
    requires Explains(p0, p1, columns, rows, firstDelta, first)
    requires Explains(p1, p2, columns, rows, secondDelta, second)
    ensures Repaint(Blit(p0, firstDelta + secondDelta), p2, columns, rows, Join(second, first)) == p2
  {
    var merged := Join(second, first);
    CoversMovedCells(first, secondDelta, merged, columns, rows);
    var moved := Blit(p0, firstDelta + secondDelta);
    forall r | 0 <= r < rows ensures RepaintRow(moved[r], p2[r], merged, r) == p2[r] {
      forall c | 0 <= c < columns ensures RepaintRow(moved[r], p2[r], merged, r)[c] == p2[r][c] {
        if !Inside(merged, r, c) {
          assert !Inside(second, r, c);
          assert !Inside(first, r + secondDelta, c);
        }
      }
    }
  }

  /** Three one-cell rows scrolled up twice, one row each, and painted once: the middle row is lost. */
  lemma UncoveredMergeLosesARow(pending: FrameInfo, next: FrameInfo)
    requires Partial(pending, 1, 3) && pending.dirty == Region(0, 2, 1, 3) && pending.scrollDelta == 1
    requires Partial(next, 1, 3) && next.dirty == Region(0, 2, 1, 3) && next.scrollDelta == 1
    ensures var p0, p1, p2 := [[BLANK], [BLANK], [BLANK]], [[BLANK], [BLANK], [INK]], [[BLANK], [INK], [INK]];
            && Explains(p0, p1, 1, 3, 1, pending.dirty) && Explains(p1, p2, 1, 3, 1, next.dirty)
            && Paint(p0, true, Merge(pending.(picture := p1), next.(picture := p2))) == [[BLANK], [BLANK], [INK]]
    ensures !MergeAlwaysPaintsRight(pending, next)
  {
    var p0, p1, p2 := [[BLANK], [BLANK], [BLANK]], [[BLANK], [BLANK], [INK]], [[BLANK], [INK], [INK]];
    var merged := Region(0, 2, 1, 3);
    PaintingTheMerge(pending, next, p0, p1, p2);
    assert Join(next.dirty, pending.dirty) == merged;
    var moved := Blit(p0, 2);
    assert moved == p0;
    var painted := Repaint(moved, p2, 1, 3, merged);
    assert painted[0] == [BLANK] && painted[1] == [BLANK] && painted[2] == [INK];
    assert painted[1][0] != p2[1][0];
  }
}
