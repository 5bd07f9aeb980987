/** Recognising a full-screen scroll by comparing the ids of the rows before and after. */
module ScrollDetection {

  ghost predicate MovedUp(previous: seq<nat>, current: seq<nat>, delta: nat)
    requires |previous| == |current|
  {
    forall row, source | 0 <= row && row + delta == source && source < |current| :: current[row] == previous[source]
  }

  ghost predicate MovedDown(previous: seq<nat>, current: seq<nat>, delta: nat)
    requires |previous| == |current|
  {
    MovedUp(current, previous, delta)
  }

  /** Every row that a movement by `delta` keeps on screen has kept its id. */
  ghost predicate Related(previous: seq<nat>, current: seq<nat>, delta: int) {
    && |previous| == |current|
    && if delta >= 0 then MovedUp(previous, current, delta) else MovedDown(previous, current, -delta)
  }

  /** `delta` is the shortest movement that explains the ids (upwards if both do), or 0 if none does. */
  ghost predicate IsShift(previous: seq<nat>, current: seq<nat>, delta: int) {
    if |previous| != |current| then delta == 0 else
      && (delta == 0 || -|current| < delta < |current|)
      && (delta > 0 ==> MovedUp(previous, current, delta))
      && (delta < 0 ==> MovedDown(previous, current, -delta) && !MovedUp(previous, current, -delta))
      && (forall d: nat | 0 < d < (if delta == 0 then |current| else if delta < 0 then -delta else delta) ::
            !MovedUp(previous, current, d) && !MovedDown(previous, current, d))
  }

  /** The result is the shift; if it is not 0 it relates every overlapping row, early break or not. */
  method DetectFullScreenShift(previous: seq<nat>, current: seq<nat>) returns (delta: int)
    ensures IsShift(previous, current, delta)
    ensures delta != 0 ==> Related(previous, current, delta) && -|current| < delta < |current|
  {
    var height := |current|;
    if |previous| != height || height < 2 {
      return 0;
    }
    for distance := 1 to height
      invariant forall d: nat | 0 < d < distance ::
        !MovedUp(previous, current, d) && !MovedDown(previous, current, d)
    {
      var movedUp, movedDown := true, true;
      var row := 0;
      while row < height - distance
        invariant 0 <= row <= height - distance
        invariant movedUp || movedDown
        invariant movedUp ==> forall r, s | 0 <= r < row && r + distance == s :: current[r] == previous[s]
        invariant movedDown ==> forall r, s | 0 <= r < row && r + distance == s :: previous[r] == current[s]
        invariant !movedUp ==> !MovedUp(previous, current, distance)
        invariant !movedDown ==> !MovedDown(previous, current, distance)
      {
        if current[row] != previous[row + distance] {
          movedUp := false;
        }
        if current[row + distance] != previous[row] {
          movedDown := false;
        }
        if !movedUp && !movedDown {
          break;
        }
        row := row + 1;
      }
      if movedUp {
        return distance;
      }
      if movedDown {
        return -distance;
      }
    }
    delta := 0;
  }

  /** Every pair of observations has one shift. */
  ghost function ShiftOf(previous: seq<nat>, current: seq<nat>): (delta: int)
    ensures IsShift(previous, current, delta)
  {
    if |previous| != |current| then 0 else ShortestFrom(previous, current, 1)
  }

  ghost function ShortestFrom(previous: seq<nat>, current: seq<nat>, distance: nat): (delta: int)
    requires |previous| == |current| && 0 < distance
    requires forall d: nat | 0 < d < distance && d < |current| ::
      !MovedUp(previous, current, d) && !MovedDown(previous, current, d)
    ensures IsShift(previous, current, delta)
    decreases |current| - distance
  {
    if distance >= |current| then 0
    else if MovedUp(previous, current, distance) then distance
    else if MovedDown(previous, current, distance) then -(distance as int)
    else ShortestFrom(previous, current, distance + 1)
  }

  lemma ShiftIsUnique(previous: seq<nat>, current: seq<nat>, delta: int)
    requires IsShift(previous, current, delta)
    ensures delta == ShiftOf(previous, current)
  {
    var other := ShiftOf(previous, current);
    var a: nat := if delta < 0 then -delta else delta;
    var b: nat := if other < 0 then -other else other;
    assert a != 0 ==> MovedUp(previous, current, a) || MovedDown(previous, current, a);
    assert b != 0 ==> MovedUp(previous, current, b) || MovedDown(previous, current, b);
  }

  ghost predicate Distinct(ids: seq<nat>) {
    forall i, j | 0 <= i < j < |ids| :: ids[i] != ids[j]
  }

  /** The screen scrolled by exactly `delta`, and the rows it exposed carry ids not seen before. */
  ghost predicate TrueShift(previous: seq<nat>, current: seq<nat>, delta: int) {
    && |previous| == |current|
    && 0 < (if delta < 0 then -delta else delta) < |current|
    && (forall row | 0 <= row < |current| ::
          if 0 <= row + delta < |current| then current[row] == previous[row + delta] else current[row] !in previous)
  }

  /** Detection is complete: a true scroll is reported exactly. */
  lemma TrueShiftIsDetected(previous: seq<nat>, current: seq<nat>, delta: int, detected: int)
    requires Distinct(previous) && Distinct(current) && TrueShift(previous, current, delta)
    requires IsShift(previous, current, detected)
    ensures detected == delta
  {
    var distance := if delta < 0 then -delta else delta;
    NoOtherShift(previous, current, delta, distance);
    if detected != 0 {
      NoOtherShift(previous, current, delta, if detected < 0 then -detected else detected);
    }
    if delta > 0 {
      assert MovedUp(previous, current, distance);
    } else {
      forall row, source | 0 <= row && row + distance == source && source < |current|
        ensures previous[row] == current[source]
      {
        assert current[source] == previous[source + delta];
      }
      assert MovedDown(previous, current, distance);
    }
  }

  /** Only the true movement explains the ids. */
  lemma NoOtherShift(previous: seq<nat>, current: seq<nat>, delta: int, d: nat)
    requires Distinct(previous) && Distinct(current) && TrueShift(previous, current, delta)
    requires 0 < d < |current|
    ensures MovedUp(previous, current, d) ==> d == delta
    ensures MovedDown(previous, current, d) ==> d == -delta
  {
    if MovedUp(previous, current, d) {
      assert current[0] == previous[d];
      assert 0 <= 0 + delta < |current| ==> current[0] == previous[0 + delta];
    }
    if MovedDown(previous, current, d) {
      assert previous[0] == current[d];
      assert 0 <= d + delta < |current| ==> current[d] == previous[d + delta];
    }
  }

  /** A screen whose rows did not move yields no shift. */
  lemma UnmovedScreenHasNoShift(ids: seq<nat>, detected: int)
    requires Distinct(ids) && IsShift(ids, ids, detected)
    ensures detected == 0
  {
    forall d: nat | 0 < d < |ids| ensures !MovedUp(ids, ids, d) {
      assert ids[0] != ids[d];
    }
  }

  function Consecutive(first: nat, rows: nat): seq<nat> { seq(rows, i requires 0 <= i < rows => first + i) }

  /** Rows observed while the viewport was scrolled back, compared with the rows on screen after it has
      returned: whatever was fed in between, and although feeding it moved nothing, `back` is reported. */
  lemma StaleObservationReportsAScroll(first: nat, rows: nat, back: nat, detected: int)
    requires 0 < back < rows
    requires IsShift(Consecutive(first, rows), Consecutive(first + back, rows), detected)
    ensures detected == back
    ensures !IsShift(Consecutive(first + back, rows), Consecutive(first + back, rows), detected)
  {
    var observed, shown := Consecutive(first, rows), Consecutive(first + back, rows);
    TrueShiftIsDetected(observed, shown, back, detected);
    if IsShift(shown, shown, detected) {
      UnmovedScreenHasNoShift(shown, detected);
    }
  }
}
