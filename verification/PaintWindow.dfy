/** Percentiles of the paint times in a ring of the last 256 samples. */
module PaintWindow {

  const WINDOW: nat := 256

  function Insert(x: nat, sorted: seq<nat>): seq<nat> {
    if sorted == [] || x <= sorted[0] then [x] + sorted else [sorted[0]] + Insert(x, sorted[1..])
  }

  function Sort(samples: seq<nat>): seq<nat> {
    if samples == [] then [] else Insert(samples[0], Sort(samples[1..]))
  }

  ghost predicate Ascending(s: seq<nat>) { forall i, j | 0 <= i < j < |s| :: s[i] <= s[j] }

  /** How many samples are at most, and how many are below, `v`. */
  ghost function AtMost(samples: seq<nat>, v: nat): nat {
    if samples == [] then 0 else (if samples[0] <= v then 1 else 0) + AtMost(samples[1..], v)
  }

  ghost function Below(samples: seq<nat>, v: nat): nat { if v == 0 then 0 else AtMost(samples, v - 1) }

  lemma {:induction false} InsertKeepsAll(x: nat, sorted: seq<nat>)
    ensures multiset(Insert(x, sorted)) == multiset(sorted) + multiset{x} && |Insert(x, sorted)| == |sorted| + 1
  {
    if sorted != [] && x > sorted[0] {
      InsertKeepsAll(x, sorted[1..]);
      assert sorted == [sorted[0]] + sorted[1..];
    }
  }

  lemma {:induction false} InsertSorts(x: nat, sorted: seq<nat>)
    requires Ascending(sorted)
    ensures Ascending(Insert(x, sorted))
  {
    if sorted != [] && x > sorted[0] {
      var rest := Insert(x, sorted[1..]);
      InsertSorts(x, sorted[1..]);
      InsertKeepsAll(x, sorted[1..]);
      forall j | 0 <= j < |rest| ensures sorted[0] <= rest[j] {
        assert rest[j] in multiset(rest);
      }
    }
  }

  lemma {:induction false} InsertCounts(x: nat, sorted: seq<nat>, v: nat)
    ensures AtMost(Insert(x, sorted), v) == AtMost(sorted, v) + (if x <= v then 1 else 0)
  {
    if sorted != [] && x > sorted[0] {
      InsertCounts(x, sorted[1..], v);
    }
  }

  lemma {:induction false} SortSorts(samples: seq<nat>)
    ensures Ascending(Sort(samples)) && multiset(Sort(samples)) == multiset(samples)
    ensures |Sort(samples)| == |samples|
    ensures forall v: nat :: AtMost(Sort(samples), v) == AtMost(samples, v)
  {
    if samples != [] {
      SortSorts(samples[1..]);
      InsertSorts(samples[0], Sort(samples[1..]));
      InsertKeepsAll(samples[0], Sort(samples[1..]));
      forall v: nat ensures AtMost(Sort(samples), v) == AtMost(samples, v) {
        InsertCounts(samples[0], Sort(samples[1..]), v);
      }
      assert samples == [samples[0]] + samples[1..];
    }
  }

  lemma {:induction false} AtMostOfConcat(a: seq<nat>, b: seq<nat>, v: nat)
    ensures AtMost(a + b, v) == AtMost(a, v) + AtMost(b, v)
  {
    if a == [] {
      assert a + b == b;
    } else {
      AtMostOfConcat(a[1..], b, v);
      assert (a + b)[1..] == a[1..] + b;
    }
  }

  lemma {:induction false} AtMostGrows(samples: seq<nat>, v: nat, w: nat)
    requires v <= w
    ensures AtMost(samples, v) <= AtMost(samples, w)
  {
    if samples != [] {
      AtMostGrows(samples[1..], v, w);
    }
  }

  /** Of ascending samples, at least the first `k + 1` are at most the one at `k`, and at most the
      first `k` are below it. */
  lemma {:induction false} AscendingCounts(s: seq<nat>, k: nat)
    requires Ascending(s) && k < |s|
    ensures AtMost(s, s[k]) >= k + 1 && Below(s, s[k]) <= k
  {
    if k > 0 {
      AscendingCounts(s[1..], k - 1);
    } else if s[0] > 0 {
      NoneBelow(s, s[0] - 1);
    }
  }

  lemma {:induction false} NoneBelow(s: seq<nat>, v: nat)
    requires forall i | 0 <= i < |s| :: s[i] > v
    ensures AtMost(s, v) == 0
  {
    if s != [] {
      NoneBelow(s[1..], v);
    }
  }

  // ---- Nearest rank ----

  function Rank(count: nat, percent: nat): nat {
    var rank := (count * percent + 99) / 100;
    if rank < 1 then 1 else rank
  }

  lemma PercentOf(count: nat, percent: nat)
    requires percent <= 100
    ensures count * percent <= count * 100
  {
    assert count * 100 == count * percent + count * (100 - percent);
  }

  /** The least rank that covers `percent` of the samples: in bounds, and growing with the percentage. */
  lemma RankIsLeast(count: nat, percent: nat, rank: nat)
    requires 0 < count && percent <= 100
    ensures 1 <= Rank(count, percent) <= count
    ensures 1 <= rank ==> (Rank(count, percent) <= rank <==> rank * 100 >= count * percent)
  {
    PercentOf(count, percent);
    CeilingIsLeast(count * percent, count, rank);
  }

  /** Rounding a hundredth up. */
  lemma CeilingIsLeast(scaled: nat, count: nat, rank: nat)
    requires scaled <= count * 100
    ensures (scaled + 99) / 100 <= count
    ensures (scaled + 99) / 100 <= rank <==> rank * 100 >= scaled
  {
  }

  ghost predicate NearestRank(samples: seq<nat>, percent: nat, v: nat) {
    v in samples && AtMost(samples, v) >= Rank(|samples|, percent) && Below(samples, v) < Rank(|samples|, percent)
  }

  lemma RankGrows(count: nat, p: nat, q: nat)
    requires p <= q
    ensures Rank(count, p) <= Rank(count, q)
  {
    assert count * p <= count * q;
  }

  /** A higher percentage has no lower value. */
  lemma NearestRankGrows(samples: seq<nat>, p: nat, q: nat, v: nat, w: nat)
    requires p <= q && NearestRank(samples, p, v) && NearestRank(samples, q, w)
    ensures v <= w
  {
    RankGrows(|samples|, p, q);
    if w < v {
      AtMostGrows(samples, w, v - 1);
    }
  }

  /** So there is one value for each percentage. */
  lemma NearestRankIsUnique(samples: seq<nat>, percent: nat, v: nat, w: nat)
    requires NearestRank(samples, percent, v) && NearestRank(samples, percent, w)
    ensures v == w
  {
    NearestRankGrows(samples, percent, percent, v, w);
    NearestRankGrows(samples, percent, percent, w, v);
  }

  /** The last 256 durations, or all if there are fewer. */
  function Recent(history: seq<nat>): seq<nat> {
    if |history| <= WINDOW then history else history[|history| - WINDOW..]
  }

  lemma RecentAreTheLast256(history: seq<nat>)
    ensures Recent(history) == if |history| <= 256 then history else history[|history| - 256..]
  {
  }

  lemma RankedIsRecorded(history: seq<nat>, percent: nat, v: nat)
    requires NearestRank(Recent(history), percent, v)
    ensures v in history
  {
  }

  class PaintTimes {
    const samples: array<nat>
    var cursor: nat
    var count: nat
    var total: nat
    var longest: nat
    var p50: nat
    var p95: nat
    var p99: nat

    ghost var history: seq<nat>

    ghost predicate Ring()
      reads `cursor, `count, `history, samples
    {
      && samples.Length == WINDOW
      && cursor == |history| % WINDOW && count == |Recent(history)|
      && (|history| < WINDOW ==> samples[..count] == history)
      && (|history| >= WINDOW ==> samples[cursor..] + samples[..cursor] == Recent(history))
    }

    ghost predicate Valid()
      reads this, samples
    {
      && Ring()
      && (forall d | d in history :: d <= longest) && (history == [] ==> longest == 0)
      && (history != [] ==>
            && longest in history
            && NearestRank(Recent(history), 50, p50)
            && NearestRank(Recent(history), 95, p95)
            && NearestRank(Recent(history), 99, p99)
            && p50 <= p95 <= p99 <= longest)
    }

    constructor ()
      ensures Valid() && history == [] && fresh(samples)
    {
      samples := new nat[WINDOW];
      cursor, count, total, longest, p50, p95, p99 := 0, 0, 0, 0, 0, 0, 0;
      history := [];
    }

    /** Stores one sample over the oldest one. */
    method Store(elapsed: nat)
      requires Ring()
      modifies `cursor, `count, `history, samples
      ensures Ring() && history == old(history) + [elapsed]
    {
      hide Recent;
      RingAdvances(samples[..], history, cursor, elapsed);
      RingIsAll();
      history := history + [elapsed];
      samples[cursor] := elapsed;
      cursor := (cursor + 1) % WINDOW;
      count := if count + 1 < WINDOW then count + 1 else WINDOW;
      RingIsAll();
    }

    lemma RingIsAll()
      requires samples.Length == WINDOW && cursor < WINDOW && count <= WINDOW
      ensures samples[..][..count] == samples[..count]
      ensures samples[..][cursor..] == samples[cursor..] && samples[..][..cursor] == samples[..cursor]
    {
    }

    method RecordPaintDuration(elapsed: nat)
      requires Valid()
      modifies this, samples
      ensures Valid() && history == old(history) + [elapsed] && total == old(total) + elapsed
      ensures var recent := if |history| <= 256 then history else history[|history| - 256..];
              && NearestRank(recent, 50, p50) && NearestRank(recent, 95, p95) && NearestRank(recent, 99, p99)
    {
      hide Ring, NearestRank, AtMost, Sort, Recent, Ascending;
      RecentAreTheLast256(history + [elapsed]);
      total := total + elapsed;
      longest := if longest < elapsed then elapsed else longest;
      Store(elapsed);
      var sorted := SortedPrefix();
      p50 := PaintPercentile(sorted, 50);
      p95 := PaintPercentile(sorted, 95);
      p99 := PaintPercentile(sorted, 99);
      NearestRankGrows(Recent(history), 50, 95, p50, p95);
      NearestRankGrows(Recent(history), 95, 99, p95, p99);
      RankedIsRecorded(history, 99, p99);
    }

    /** The sorted prefix of the ring: the recent durations, in ascending order. */
    method SortedPrefix() returns (sorted: seq<nat>)
      requires Ring()
      ensures |sorted| == |Recent(history)| && Ascending(sorted) && multiset(sorted) == multiset(Recent(history))
      ensures forall v: nat :: AtMost(sorted, v) == AtMost(Recent(history), v)
      ensures history != [] ==> sorted != []
    {
      sorted := Sort(samples[..count]);
      SortSorts(samples[..count]);
      RingCounts();
    }

    /** The stored samples are the recent durations, in another order. */
    lemma RingCounts()
      requires Ring()
      ensures forall v: nat :: AtMost(samples[..count], v) == AtMost(Recent(history), v)
      ensures multiset(samples[..count]) == multiset(Recent(history))
    {
      if |history| >= WINDOW {
        var a, b := samples[..cursor], samples[cursor..];
        assert samples[..count] == a + b;
        forall v: nat ensures AtMost(samples[..count], v) == AtMost(Recent(history), v) {
          AtMostOfConcat(a, b, v);
          AtMostOfConcat(b, a, v);
        }
      }
    }

    method PaintPercentile(sorted: seq<nat>, percent: nat) returns (v: nat)
      requires 0 < |sorted| == |Recent(history)| && percent <= 100 && Ascending(sorted)
      requires multiset(sorted) == multiset(Recent(history))
      requires forall v: nat :: AtMost(sorted, v) == AtMost(Recent(history), v)
      ensures NearestRank(Recent(history), percent, v)
    {
      var rank := Rank(|sorted|, percent);
      RankIsLeast(|sorted|, percent, 1);
      AscendingCounts(sorted, rank - 1);
      v := sorted[rank - 1];
      assert v in multiset(sorted);
    }
  }

  /** One more sample at the cursor, in the ring and in the list of recent durations. */
  lemma RingAdvances(ring: seq<nat>, history: seq<nat>, cursor: nat, elapsed: nat)
    requires |ring| == WINDOW && cursor == |history| % WINDOW
    requires |history| < WINDOW ==> ring[..|history|] == history
    requires |history| >= WINDOW ==> ring[cursor..] + ring[..cursor] == Recent(history)
    ensures var after, next := ring[cursor := elapsed], (cursor + 1) % WINDOW;
            && next == (|history| + 1) % WINDOW
            && |Recent(history + [elapsed])| == (if |Recent(history)| < WINDOW then |Recent(history)| + 1 else WINDOW)
            && |Recent(history)| == (if |history| < WINDOW then |history| else WINDOW)
            && (|history| + 1 < WINDOW ==> after[..|history| + 1] == history + [elapsed])
            && (|history| + 1 >= WINDOW ==> after[next..] + after[..next] == Recent(history + [elapsed]))
  {
    var after, next := ring[cursor := elapsed], (cursor + 1) % WINDOW;
    if |history| >= WINDOW {
      assert Recent(history + [elapsed]) == Recent(history)[1..] + [elapsed];
      Rotates(ring, cursor, elapsed);
    } else if |history| + 1 == WINDOW {
      assert after == history + [elapsed];
    }
  }

  /** Overwriting the oldest sample: the others move up, and the new one is the newest. */
  lemma Rotates(ring: seq<nat>, cursor: nat, elapsed: nat)
    requires |ring| == WINDOW && cursor < WINDOW
    ensures var after, next := ring[cursor := elapsed], (cursor + 1) % WINDOW;
            after[next..] + after[..next] == (ring[cursor..] + ring[..cursor])[1..] + [elapsed]
  {
    var older, newer := ring[..cursor], ring[cursor + 1..];
    var after := ring[cursor := elapsed];
    assert after == older + [elapsed] + newer;
    assert (ring[cursor..] + ring[..cursor])[1..] == newer + older;
    if cursor + 1 < WINDOW {
      assert after[cursor + 1..] == newer && after[..cursor + 1] == older + [elapsed];
    } else {
      assert after[0..] + after[..0] == older + [elapsed] && newer == [];
    }
  }
}
