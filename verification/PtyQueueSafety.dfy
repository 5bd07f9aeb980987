/** The byte counter, its bound, and the byte stream, in every interleaving. */
module PtyQueueSafety {
  import opened Cells
  import opened OutputQueue
  import opened PtyTransport

  /** Bytes the reader has put in the queue but not yet added to the counter. */
  function Unadded(reader: Reader): nat {
    match reader
    case CountBytes(n) => n
    case CountEvent(n) => n
    case FetchAdd(n) => n
    case _ => 0
  }

  /** Bytes the owner has taken from the queue but not yet subtracted from the counter. */
  function Unsubtracted(owner: Owner): nat {
    match owner
    case Subtract(n) => n
    case DiscardStore(n) => n
    case StartStoreQueued(n) => n
    case _ => 0
  }

  /** Bytes the reader may still add without looking at the counter again. */
  function Claimed(reader: Reader): nat {
    match reader
    case Poll(capacity) => capacity
    case Read(capacity) => capacity
    case WantLock(chunk) => |chunk|
    case Append(chunk) => |chunk|
    case _ => Unadded(reader)
  }

  /** Bytes read that are not in the queue yet. */
  function InFlight(reader: Reader): Text {
    match reader
    case WantLock(chunk) => chunk
    case Append(chunk) => chunk
    case _ => []
  }

  /** Bytes read that are not in `bytesRead` yet. */
  function Uncounted(reader: Reader): nat {
    if reader.CountBytes? then reader.n else |InFlight(reader)|
  }

  predicate ReaderInside(reader: Reader) {
    || reader.Append? || reader.CountBytes? || reader.CountEvent? || reader.FetchAdd?
    || reader.LoadMaximum? || reader.ExchangeMaximum? || reader.Unlock?
  }

  predicate OwnerInside(owner: Owner) { owner.DiscardStore? || owner.DiscardUnlock? }

  /** `Start` works on the queue only while there is no reader. */
  predicate OwnerAlone(owner: Owner) {
    || owner.StopTake? || owner.StopClose? || owner.StopWait? || owner.StopSignal?
    || owner.StopRecordsCode? || owner.StopRecordsSignal? || owner.StopRecordsValid?
    || owner.StopRunning? || owner.StopState? || owner.StopStore?
    || owner.StartClear? || owner.StartStoreQueued? || owner.StartState? || owner.StartCode? || owner.StartSignal?
    || owner.StartValid? || owner.StartFork? || owner.StartSet? || owner.StartFlag? || owner.StartRunning?
    || owner.StartStateRunning? || owner.StartThread?
  }

  function Bytes(pieces: seq<Piece>): Text {
    if pieces == [] then [] else Bytes(pieces[..|pieces| - 1]) + pieces[|pieces| - 1].bytes
  }

  predicate Joined(s: State) { OwnerAlone(s.owner) ==> s.reader == NoReader }

  predicate Locked(s: State) {
    && (s.out.lock == ReaderHolds <==> ReaderInside(s.reader))
    && (s.out.lock == OwnerHolds <==> OwnerInside(s.owner))
    && Joined(s)
    && (s.owner.DiscardStore? || s.owner.StartStoreQueued? ==> s.out.queue == [])
  }

  /** The counter is the queue plus what the owner has still to subtract, less what the reader has
      still to add, and together with what the reader may add it stays within 1 MiB. */
  predicate Counts(s: State) {
    && s.out.queued + Unadded(s.reader) == |Concat(s.out.queue)| + Unsubtracted(s.owner)
    && Unadded(s.reader) <= |Concat(s.out.queue)|
    && s.out.queued + Claimed(s.reader) <= MAX_QUEUED
    && Claimed(s.reader) <= BUFFER
  }

  /** The maximum is the high-water mark of the counter, once the reader has recorded it. */
  predicate Peaks(s: State) {
    && s.out.queued <= s.out.highWater <= MAX_QUEUED
    && (match s.reader
        case LoadMaximum(value) => s.out.highWater == (if s.out.maxQueued < value then value else s.out.maxQueued)
        case ExchangeMaximum(value, seen) =>
          && s.out.highWater == (if s.out.maxQueued < value then value else s.out.maxQueued)
          && seen == s.out.maxQueued
        case _ => s.out.highWater == s.out.maxQueued)
  }

  /** In order: what left the queue, what is in it, and what the reader holds. */
  predicate Streams(s: State) {
    && s.out.received == Bytes(s.out.pieces) + Concat(s.out.queue) + InFlight(s.reader)
    && |s.out.received| == s.out.bytesRead + Uncounted(s.reader)
  }

  predicate QueueSafe(s: State) { Locked(s) && Counts(s) && Peaks(s) && Streams(s) }

  lemma ReadLoopStepIsSafe(s: State, s': State)
    requires QueueSafe(s) && ReadLoopStep(s, s')
    ensures QueueSafe(s')
  {
    hide Bytes, Concat;
  }

  lemma EnqueueStepIsSafe(s: State, s': State)
    requires QueueSafe(s) && EnqueueStep(s, s')
    ensures QueueSafe(s')
  {
    hide Bytes, Concat;
    if s.reader.Append? {
      ConcatAppends(s.out.queue, [s.reader.chunk]);
      ConcatOne(s.reader.chunk);
    }
  }

  /** After its loop the reader leaves the queue alone. */
  lemma ReaderExitStepIsSafe(s: State, s': State)
    requires QueueSafe(s) && ReaderExitStep(s, s')
    ensures QueueSafe(s')
  {
    hide Bytes, Concat, Reap;
  }

  lemma BytesSnoc(pieces: seq<Piece>, piece: Piece)
    ensures Bytes(pieces + [piece]) == Bytes(pieces) + piece.bytes
  {
    assert (pieces + [piece])[..|pieces|] == pieces;
  }

  /** A drain takes exactly the first bytes, and the rest stays in order. */
  lemma DrainIsSafe(s: State, s': State, limit: nat)
    requires QueueSafe(s) && s.owner == Idle && s.out.lock == Nobody && TakesUpTo(s, s', limit)
    ensures QueueSafe(s')
    ensures var n := Least(limit, |Concat(s.out.queue)|);
            && s'.owner == Subtract(n)
            && s'.out.pieces == s.out.pieces + [Delivered(Concat(s.out.queue)[..n])]
            && Concat(s'.out.queue) == Concat(s.out.queue)[n..]
  {
    hide Claimed, InFlight, Uncounted;
    DrainTakesTheFirstBytes(s.out.queue, limit);
    BytesSnoc(s.out.pieces, Delivered(Concat(Drained(s.out.queue, limit).0)));
  }

  lemma OwnerCallIsSafe(s: State, s': State)
    requires QueueSafe(s) && OwnerCallStep(s, s')
    ensures QueueSafe(s')
  {
    hide Bytes, Concat, Claimed, InFlight, ReaderInside, TakesUpTo;
    if s'.owner.Subtract? {
      var limit: nat :| TakesUpTo(s, s', limit);
      DrainIsSafe(s, s', limit);
    } else if s'.owner.DiscardStore? {
      DiscardIsSafe(s, s');
    } else {
      assert s'.out == s.out && s'.reader == s.reader;
    }
  }

  lemma DiscardIsSafe(s: State, s': State)
    requires QueueSafe(s) && s.owner == Idle && DiscardStep(s, s')
    ensures QueueSafe(s')
  {
    hide Bytes;
    BytesSnoc(s.out.pieces, Dropped(Concat(s.out.queue)));
  }

  lemma OwnerOutputStepIsSafe(s: State, s': State)
    requires QueueSafe(s) && OwnerOutputStep(s, s')
    ensures QueueSafe(s')
  {
    hide Bytes, Claimed, InFlight, Uncounted, ReaderInside;
  }

  lemma OwnerStatusStepIsSafe(s: State, s': State)
    requires QueueSafe(s) && OwnerStatusStep(s, s')
    ensures QueueSafe(s')
  {
    hide Bytes, Concat, Claimed, InFlight, Uncounted, ReaderInside;
  }

  lemma OwnerStopStepIsSafe(s: State, s': State)
    requires QueueSafe(s) && OwnerStopStep(s, s')
    ensures QueueSafe(s')
  {
    hide Bytes, Concat, Reap;
  }

  lemma OwnerPrepareStepIsSafe(s: State, s': State)
    requires QueueSafe(s) && OwnerPrepareStep(s, s')
    ensures QueueSafe(s')
  {
    hide Bytes;
    BytesSnoc(s.out.pieces, Dropped(Concat(s.out.queue)));
  }

  lemma OwnerLaunchStepIsSafe(s: State, s': State)
    requires QueueSafe(s) && (OwnerForkStep(s, s') || OwnerLaunchStep(s, s'))
    ensures QueueSafe(s')
  {
    hide Bytes, Concat;
  }

  lemma InitIsSafe(s: State)
    requires Init(s)
    ensures QueueSafe(s)
  {
  }

  lemma NextIsSafe(s: State, s': State)
    requires QueueSafe(s) && Next(s, s')
    ensures QueueSafe(s')
  {
    hide QueueSafe, ReadLoopStep, EnqueueStep, ReaderExitStep, OwnerCallStep, OwnerOutputStep, OwnerStatusStep;
    hide OwnerStopStep, OwnerPrepareStep, OwnerForkStep, OwnerLaunchStep;
    if ReadLoopStep(s, s') {
      ReadLoopStepIsSafe(s, s');
    } else if EnqueueStep(s, s') {
      EnqueueStepIsSafe(s, s');
    } else if ReaderExitStep(s, s') {
      ReaderExitStepIsSafe(s, s');
    } else if OwnerCallStep(s, s') {
      OwnerCallIsSafe(s, s');
    } else if OwnerOutputStep(s, s') {
      OwnerOutputStepIsSafe(s, s');
    } else if OwnerStatusStep(s, s') {
      OwnerStatusStepIsSafe(s, s');
    } else if OwnerStopStep(s, s') {
      OwnerStopStepIsSafe(s, s');
    } else if OwnerPrepareStep(s, s') {
      OwnerPrepareStepIsSafe(s, s');
    } else if OwnerForkStep(s, s') || OwnerLaunchStep(s, s') {
      OwnerLaunchStepIsSafe(s, s');
    } else {
      EnvironmentIsSafe(s, s');
    }
  }

  lemma EnvironmentIsSafe(s: State, s': State)
    requires QueueSafe(s) && EnvironmentStep(s, s')
    ensures QueueSafe(s')
  {
  }

  /** Every state of every run is safe. */
  lemma {:induction false} RunsAreSafe(run: seq<State>, i: nat)
    requires IsRun(run) && i < |run|
    ensures QueueSafe(run[i])
  {
    hide QueueSafe, Next;
    if i == 0 {
      InitIsSafe(run[0]);
    } else {
      RunsAreSafe(run, i - 1);
      assert Next(run[i - 1], run[i - 1 + 1]);
      NextIsSafe(run[i - 1], run[i]);
    }
  }

  /** The counter never wraps below zero, and neither it, the queue nor the maximum exceeds 1 MiB. */
  lemma CounterStaysInBounds(run: seq<State>, i: nat)
    requires IsRun(run) && i < |run|
    ensures var s := run[i];
            && s.out.queued <= 1048576 && s.out.maxQueued <= 1048576 && |Concat(s.out.queue)| <= 1048576
            && (s.owner.Subtract? ==> s.owner.taken <= s.out.queued)
            && (s.reader.FetchAdd? ==> s.out.queued + s.reader.n <= 1048576)
            && (!s.reader.LoadMaximum? && !s.reader.ExchangeMaximum? ==> s.out.maxQueued == s.out.highWater)
            && (s.reader == NoReader && s.owner == Idle ==> s.out.queued == |Concat(s.out.queue)|)
  {
    hide Concat, Streams;
    RunsAreSafe(run, i);
  }

  /** One step only adds to what was received and to what left the queue; stopping changes neither. */
  lemma HistoryGrows(s: State, s': State)
    requires Next(s, s')
    ensures s.out.received <= s'.out.received && s.out.pieces <= s'.out.pieces
    ensures OwnerStopStep(s, s') ==> s'.out == s.out
  {
    hide Concat;
  }

  /** Over any stretch of a run, the stream is only ever extended; and at its end the bytes read are,
      in order, the bytes delivered or dropped, the bytes queued, and the chunk in the reader's hand. */
  lemma {:induction false} StreamAccounting(run: seq<State>, i: nat, j: nat)
    requires IsRun(run) && i <= j < |run|
    ensures run[i].out.received <= run[j].out.received && run[i].out.pieces <= run[j].out.pieces
    ensures run[j].out.received == Bytes(run[j].out.pieces) + Concat(run[j].out.queue) + InFlight(run[j].reader)
    ensures run[j].reader == NoReader ==>
      run[j].out.received == Bytes(run[j].out.pieces) + Concat(run[j].out.queue)
  {
    hide Next;
    RunsAreSafe(run, j);
    if i < j {
      StreamAccounting(run, i, j - 1);
      assert Next(run[j - 1], run[j - 1 + 1]);
      HistoryGrows(run[j - 1], run[j]);
    }
  }

  /** In any run, each drain delivers exactly the first bytes queued at that moment. */
  lemma TakeOutputDeliversInOrder(run: seq<State>, i: nat, limit: nat)
    requires IsRun(run) && i + 1 < |run| && run[i].owner == Idle && run[i].out.lock == Nobody
    requires TakesUpTo(run[i], run[i + 1], limit)
    ensures var s, s' := run[i], run[i + 1];
            var n := Least(limit, |Concat(s.out.queue)|);
            && s'.owner == Subtract(n)
            && s'.out.pieces == s.out.pieces + [Delivered(Concat(s.out.queue)[..n])]
            && Concat(s'.out.queue) == Concat(s.out.queue)[n..]
  {
    hide Next, QueueSafe, TakesUpTo;
    RunsAreSafe(run, i);
    DrainIsSafe(run[i], run[i + 1], limit);
  }
}
