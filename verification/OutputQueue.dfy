/** The chunk queue between the reader thread and the owner, and what one drain takes from it. */
module OutputQueue {
  import opened Cells

  function Concat(chunks: seq<Text>): Text {
    if chunks == [] then [] else chunks[0] + Concat(chunks[1..])
  }

  lemma {:induction false} ConcatAppends(a: seq<Text>, b: seq<Text>)
    ensures Concat(a + b) == Concat(a) + Concat(b)
  {
    if a == [] {
      assert a + b == b;
    } else {
      ConcatAppends(a[1..], b);
      assert a + b == [a[0]] + (a[1..] + b);
    }
  }

  lemma ConcatOne(chunk: Text)
    ensures Concat([chunk]) == chunk
  {
    assert Concat([chunk]) == chunk + Concat([]);
  }

  /** What a drain of at most `limit` bytes takes, and what it leaves. */
  function Drained(chunks: seq<Text>, limit: nat): (seq<Text>, seq<Text>) {
    if chunks == [] || limit == 0 then ([], chunks)
    else if |chunks[0]| <= limit then
      var rest := Drained(chunks[1..], limit - |chunks[0]|);
      ([chunks[0]] + rest.0, rest.1)
    else ([chunks[0][..limit]], [chunks[0][limit..]] + chunks[1..])
  }

  function Least(a: nat, b: nat): nat { if a < b then a else b }

  /** Exactly the first bytes are taken, in order, and the rest stays. */
  lemma {:induction false} DrainTakesTheFirstBytes(chunks: seq<Text>, limit: nat)
    ensures var all, (taken, left), n := Concat(chunks), Drained(chunks, limit), Least(limit, |Concat(chunks)|);
            Concat(taken) == all[..n] && Concat(left) == all[n..]
  {
    if chunks != [] && limit > 0 {
      if |chunks[0]| <= limit {
        DrainTakesTheFirstBytes(chunks[1..], limit - |chunks[0]|);
        var rest := Drained(chunks[1..], limit - |chunks[0]|);
        assert ([chunks[0]] + rest.0)[1..] == rest.0;
      } else {
        ConcatOne(chunks[0][..limit]);
        assert ([chunks[0][limit..]] + chunks[1..])[1..] == chunks[1..];
      }
    }
  }

  /** At most one chunk is split: the taken chunks are whole but for the last one. */
  lemma {:induction false} DrainSplitsAtMostOneChunk(chunks: seq<Text>, limit: nat) returns (whole: nat)
    ensures whole <= |chunks|
    ensures var (taken, left) := Drained(chunks, limit);
            || (taken == chunks[..whole] && left == chunks[whole..])
            || (whole < |chunks| && |taken| == whole + 1 && taken[..whole] == chunks[..whole]
                && |left| == |chunks| - whole && left[1..] == chunks[whole + 1..]
                && taken[whole] + left[0] == chunks[whole] && taken[whole] != [] && left[0] != [])
  {
    whole := 0;
    if chunks != [] && limit > 0 && |chunks[0]| <= limit {
      var n := DrainSplitsAtMostOneChunk(chunks[1..], limit - |chunks[0]|);
      whole := n + 1;
      assert chunks[..whole] == [chunks[0]] + chunks[1..][..n];
      assert chunks[1..][n..] == chunks[whole..];
    }
  }

  lemma ConcatSnoc(chunks: seq<Text>, chunk: Text)
    ensures Concat(chunks + [chunk]) == Concat(chunks) + chunk
  {
    ConcatAppends(chunks, [chunk]);
    ConcatOne(chunk);
  }

  lemma TakingAWholeChunk(pending: seq<Text>, remaining: seq<Text>, available: nat)
    requires remaining != [] && 0 < available && |remaining[0]| <= available
    ensures var more := Drained(remaining[1..], available - |remaining[0]|);
            && (pending + [remaining[0]]) + more.0 == pending + Drained(remaining, available).0
            && more.1 == Drained(remaining, available).1
  {
    var more := Drained(remaining[1..], available - |remaining[0]|).0;
    assert pending + ([remaining[0]] + more) == (pending + [remaining[0]]) + more;
  }

  lemma SplittingAChunk(pending: seq<Text>, remaining: seq<Text>, available: nat)
    requires remaining != [] && 0 < available < |remaining[0]|
    ensures var left := [remaining[0][available..]] + remaining[1..];
            && (pending + [remaining[0][..available]]) + Drained(left, 0).0 == pending + Drained(remaining, available).0
            && Drained(left, 0).1 == Drained(remaining, available).1
  {
    var left := [remaining[0][available..]] + remaining[1..];
    assert Drained(left, 0) == ([], left);
  }

  /** Draining under the lock: whole chunks move, the last one may be split. */
  method TakeOutput(output: seq<Text>, maxBytes: nat)
    returns (pending: seq<Text>, remaining: seq<Text>, taken: nat)
    ensures (pending, remaining) == Drained(output, maxBytes)
    ensures taken == Least(maxBytes, |Concat(output)|)
    ensures Concat(pending) == Concat(output)[..taken] && Concat(remaining) == Concat(output)[taken..]
  {
    pending, remaining, taken := [], output, 0;
    assert [] + Drained(output, maxBytes).0 == Drained(output, maxBytes).0;
    while remaining != [] && taken < maxBytes
      invariant taken <= maxBytes && taken == |Concat(pending)|
      invariant pending + Drained(remaining, maxBytes - taken).0 == Drained(output, maxBytes).0
      invariant Drained(remaining, maxBytes - taken).1 == Drained(output, maxBytes).1
      decreases |remaining|, maxBytes - taken
    {
      var chunk, available := remaining[0], maxBytes - taken;
      if |chunk| <= available {
        ConcatSnoc(pending, chunk);
        TakingAWholeChunk(pending, remaining, available);
        taken := taken + |chunk|;
        pending, remaining := pending + [chunk], remaining[1..];
      } else {
        ConcatSnoc(pending, chunk[..available]);
        SplittingAChunk(pending, remaining, available);
        pending, remaining := pending + [chunk[..available]], [chunk[available..]] + remaining[1..];
        taken := taken + available;
      }
    }
    assert pending + [] == pending;
    DrainTakesTheFirstBytes(output, maxBytes);
  }
}
