/** The transport gets on: no thread is ever stuck, and a whole session runs from start to a reported exit. */
module PtyProgress {
  import opened Options
  import opened Cells
  import opened OutputQueue
  import opened PtyTransport
  import PtyQueueSafety
  import PtyLifecycle

  // ---- No thread is stuck ----

  /** A step the reader can take, unless it waits for the lock. */
  function ReaderMove(s: State): State {
    match s.reader
    case CheckStop => s.(reader := if s.life.stopRequested then CheckStopAtEnd else LoadQueued)
    case LoadQueued =>
      s.(reader := if s.out.queued >= MAX_QUEUED then CheckStop else Poll(Least(BUFFER, MAX_QUEUED - s.out.queued)))
    case Poll(capacity) => s.(reader := Read(capacity))
    case Read(_) => s.(reader := CheckStop)
    case WantLock(chunk) => s.(reader := Append(chunk), out := s.out.(lock := ReaderHolds))
    case Append(chunk) => s.(reader := CountBytes(|chunk|), out := s.out.(queue := s.out.queue + [chunk]))
    case CountBytes(n) => s.(reader := CountEvent(n), out := s.out.(bytesRead := s.out.bytesRead + n))
    case CountEvent(n) => s.(reader := FetchAdd(n), out := s.out.(readEvents := s.out.readEvents + 1))
    case FetchAdd(n) =>
      var queued := (s.out.queued + n) % TWO_64;
      s.(reader := LoadMaximum(queued),
         out := s.out.(queued := queued, highWater := if s.out.highWater < queued then queued else s.out.highWater))
    case LoadMaximum(value) => s.(reader := ExchangeMaximum(value, s.out.maxQueued))
    case ExchangeMaximum(value, seen) =>
      if seen >= value || s.out.maxQueued != seen
      then s.(reader := if seen >= value then Unlock else ExchangeMaximum(value, s.out.maxQueued))
      else s.(reader := Unlock, out := s.out.(maxQueued := value))
    case Unlock => s.(reader := CheckStop, out := s.out.(lock := Nobody))
    case CheckStopAtEnd => s.(reader := if s.life.stopRequested then ClearRunning else GetChild)
    case GetChild =>
      s.(reader := if s.life.childPid.Some? then WaitForExit(s.life.childPid.value) else StoreExited)
    case WaitForExit(pid) =>
      if pid !in s.life.kernel.processes then s.(reader := StoreExited)
      else if IsZombie(s.life.kernel, pid) then
        s.(reader := ReaderRecordsCode(pid, s.life.kernel.processes[pid].status),
           life := s.life.(kernel := Reap(s.life.kernel, pid)))
      else s.(reader := CheckStopWhileWaiting(pid))
    case CheckStopWhileWaiting(pid) =>
      s.(reader := if s.life.stopRequested then StoreExited else WaitForExit(pid))
    case ReaderRecordsCode(pid, status) =>
      s.(reader := ReaderRecordsSignal(pid, status),
         life := s.life.(exitCode := CodeOf(status), kernel := Recording(s.life.kernel, s.life.session, status)))
    case ReaderRecordsSignal(pid, status) =>
      s.(reader := ReaderRecordsValid(pid), life := s.life.(exitSignal := SignalOf(status)))
    case ReaderRecordsValid(pid) => s.(reader := MarkReaped(pid), life := s.life.(exitValid := true))
    case MarkReaped(pid) =>
      s.(reader := StoreExited, life := s.life.(childReaped := s.life.childReaped || s.life.childPid == Some(pid)))
    case StoreExited => s.(reader := ClearRunning, life := s.life.(state := Exited))
    case ClearRunning => s.(reader := Finished, life := s.life.(running := false))
    case _ => s
  }

  /** A live reader always has a step to another place, unless it waits for a lock the owner holds. */
  lemma ReaderGetsOn(s: State)
    requires PtyQueueSafety.QueueSafe(s) && s.reader != NoReader && s.reader != Finished
    ensures || (ReaderStep(s, ReaderMove(s)) && ReaderMove(s).reader != s.reader)
            || (s.reader.WantLock? && s.out.lock == OwnerHolds)
  {
    hide Concat, PtyQueueSafety.Bytes;
  }

  /** A step an owner in the middle of an operation can take, unless it waits for the reader to end. A fork fails, and
      a wait for a child that is alive times out. */
  function OwnerMove(s: State): State {
    match s.owner
    case Subtract(taken) =>
      s.(owner := Idle, out := s.out.(queued := (s.out.queued + TWO_64 - taken % TWO_64) % TWO_64))
    case DiscardStore(_) => s.(owner := DiscardUnlock, out := s.out.(queued := 0))
    case DiscardUnlock => s.(owner := Idle, out := s.out.(lock := Nobody))
    case StatusCode(state, reaped) => s.(owner := StatusSignal(state, reaped, s.life.exitCode))
    case StatusSignal(state, reaped, code) => s.(owner := StatusValid(state, reaped, code, s.life.exitSignal))
    case StatusValid(state, reaped, code, signal) =>
      s.(owner := Idle, snapshot := Some(Snapshot(s.life.session, state, code, signal, s.life.exitValid, reaped)))
    case StopSnapshot(next) => s.(owner := StopJoin(next, s.life.childPid))
    case StopJoin(next, child) => s.(owner := StopTake(next, child), reader := NoReader)
    case StopTake(next, child) =>
      s.(owner := StopClose(next, child, s.life.masterFd, s.life.childReaped),
         life := s.life.(masterFd := None, childPid := None))
    case StopClose(next, child, master, reaped) =>
      s.(owner := if child.Some? && !reaped then StopWait(next, child.value, 0) else StopRunning(next),
         life := if master.Some? then s.life.(kernel := Closed(s.life.kernel, master.value)) else s.life)
    case StopWait(next, pid, stage) =>
      if pid !in s.life.kernel.processes then s.(owner := StopRunning(next))
      else if IsZombie(s.life.kernel, pid) then
        s.(owner := StopRecordsCode(next, s.life.kernel.processes[pid].status),
           life := s.life.(kernel := Reap(s.life.kernel, pid)))
      else s.(owner := if stage < 2 then StopSignal(next, pid, stage) else StopRunning(next))
    case StopSignal(next, pid, stage) =>
      s.(owner := StopWait(next, pid, stage + 1),
         life := s.life.(sent := s.life.sent + [if stage == 0 then Term else Kill]))
    case StopRecordsCode(next, status) =>
      s.(owner := StopRecordsSignal(next, status),
         life := s.life.(exitCode := CodeOf(status), kernel := Recording(s.life.kernel, s.life.session, status)))
    case StopRecordsSignal(next, status) =>
      s.(owner := StopRecordsValid(next), life := s.life.(exitSignal := SignalOf(status)))
    case StopRecordsValid(next) => s.(owner := StopRunning(next), life := s.life.(exitValid := true))
    case StopRunning(next) => s.(owner := StopState(next), life := s.life.(running := false))
    case StopState(next) =>
      s.(owner := if s.life.state == Starting || s.life.state == Running then StopStore(next) else After(next))
    case StopStore(next) => s.(owner := After(next), life := s.life.(state := Stopped))
    case StartClear =>
      s.(owner := StartStoreQueued(|Concat(s.out.queue)|),
         out := s.out.(queue := [], pieces := s.out.pieces + [Dropped(Concat(s.out.queue))]),
         life := s.life.(session := s.life.session + 1, sent := []))
    case StartStoreQueued(_) => s.(owner := StartState, out := s.out.(queued := 0))
    case StartState => s.(owner := StartCode, life := s.life.(state := Starting))
    case StartCode => s.(owner := StartSignal, life := s.life.(exitCode := -1))
    case StartSignal => s.(owner := StartValid, life := s.life.(exitSignal := 0))
    case StartValid => s.(owner := StartFork, life := s.life.(exitValid := false))
    case StartFork => s.(owner := Idle, life := s.life.(state := Failed))
    case StartSet(fd, pid) =>
      s.(owner := StartFlag, life := s.life.(masterFd := Some(fd), childPid := Some(pid), childReaped := false))
    case StartFlag => s.(owner := StartRunning, life := s.life.(stopRequested := false))
    case StartRunning => s.(owner := StartStateRunning, life := s.life.(running := true))
    case StartStateRunning => s.(owner := StartThread, life := s.life.(state := Running))
    case StartThread => s.(owner := Idle, reader := CheckStop, life := s.life.(readerFd := s.life.masterFd))
    case Idle => s
  }

  /** An owner in the middle of an operation always has a step to another place, unless it waits for a live reader. */
  lemma OwnerGetsOn(s: State)
    requires PtyQueueSafety.Locked(s) && s.owner != Idle
    ensures || (OwnerStep(s, OwnerMove(s)) && OwnerMove(s).owner != s.owner)
            || (s.owner.StopJoin? && s.reader != NoReader && s.reader != Finished)
  {
    hide Concat;
  }

  /** In every state of every run: a live reader can go on unless the owner holds the lock, an owner that is not idle
      can go on unless it waits for a live reader, and an owner that holds the lock can. */
  lemma NobodyIsStuck(run: seq<State>, i: nat)
    requires IsRun(run) && i < |run|
    ensures var s := run[i];
            && (s.reader != NoReader && s.reader != Finished ==>
                  (exists s' :: ReaderStep(s, s') && s'.reader != s.reader)
                  || (s.out.lock == OwnerHolds && exists s' :: OwnerStep(s, s') && s'.owner != s.owner))
            && (s.owner != Idle ==>
                  (exists s' :: OwnerStep(s, s') && s'.owner != s.owner)
                  || (s.owner.StopJoin? && exists s' :: ReaderStep(s, s') && s'.reader != s.reader))
  {
    hide Next, ReaderStep, OwnerStep, ReaderMove, OwnerMove;
    var s := run[i];
    PtyQueueSafety.RunsAreSafe(run, i);
    if s.owner != Idle {
      OwnerGetsOn(s);
    }
    if s.reader != NoReader && s.reader != Finished {
      ReaderGetsOn(s);
    }
  }

  // ---- A whole session ----

  ghost predicate Reachable(s: State) { exists run :: IsRun(run) && run[|run| - 1] == s }

  lemma ReachNext(s: State, s': State)
    requires Reachable(s) && Next(s, s')
    ensures Reachable(s')
  {
    hide Next, Init;
    var run :| IsRun(run) && run[|run| - 1] == s;
    var longer := run + [s'];
    forall i | 0 <= i && i + 1 < |longer| ensures Next(longer[i], longer[i + 1]) {
      if i + 1 < |run| {
        assert Next(run[i], run[i + 1]);
      }
    }
    assert IsRun(longer) && longer[|longer| - 1] == s';
  }

  const FIRST := State(
    Output(Nobody, [], 0, 0, 0, 0, [], 0, [], 0),
    Life(false, false, Stopped, -1, 0, false, None, None, false, 0, Kernel(map[], map[], map[], [], []), None, []),
    NoReader, Idle, None)

  lemma FirstIsReachable()
    ensures Reachable(FIRST)
  {
    assert IsRun([FIRST]) && [FIRST][0] == FIRST;
  }

  lemma RunIsNotEmpty(run: seq<State>)
    requires IsRun(run)
    ensures run != []
  {
  }

  lemma ReachableIsSafe(s: State)
    requires Reachable(s)
    ensures PtyQueueSafety.QueueSafe(s)
  {
    hide PtyQueueSafety.QueueSafe;
    var run :| IsRun(run) && run[|run| - 1] == s;
    PtyQueueSafety.RunsAreSafe(run, |run| - 1);
  }

  lemma OwnerReaches(s: State)
    requires Reachable(s) && s.owner != Idle
    requires s.owner.StopJoin? ==> s.reader == NoReader || s.reader == Finished
    ensures Reachable(OwnerMove(s))
  {
    ReachableIsSafe(s);
    hide OwnerMove, Reachable, OwnerStep, ReaderStep;
    OwnerGetsOn(s);
    ReachNext(s, OwnerMove(s));
  }

  lemma ReaderReaches(s: State)
    requires Reachable(s) && s.reader != NoReader && s.reader != Finished && s.out.lock != OwnerHolds
    ensures Reachable(ReaderMove(s))
  {
    hide ReaderMove, Reachable, OwnerStep, ReaderStep;
    ReachableIsSafe(s);
    ReaderGetsOn(s);
    ReachNext(s, ReaderMove(s));
  }

  // Start is called on a new transport.

  const CLEARING := FIRST.(owner := StartClear, life := FIRST.life.(stopRequested := true))

  const STOPPING := FIRST.(owner := StopTake(StartAgain, None), life := FIRST.life.(stopRequested := true))

  lemma StoppingIsReachable()
    ensures Reachable(STOPPING)
  {
    hide Reachable;
    FirstIsReachable();
    var s := FIRST.(owner := StopSnapshot(StartAgain), life := FIRST.life.(stopRequested := true));
    assert OwnerCallStep(FIRST, s);
    ReachNext(FIRST, s);
    OwnerReaches(s);
    s := OwnerMove(s);
    OwnerReaches(s);
    assert OwnerMove(s) == STOPPING;
  }

  lemma ClearingIsReachable()
    ensures Reachable(CLEARING)
  {
    hide Reachable;
    StoppingIsReachable();
    var s := STOPPING;
    OwnerReaches(s);
    s := OwnerMove(s);
    OwnerReaches(s);
    s := OwnerMove(s);
    OwnerReaches(s);
    s := OwnerMove(s);
    OwnerReaches(s);
    assert OwnerMove(s) == CLEARING;
  }

  /** Nothing has been read yet. */
  const EMPTY := FIRST.out.(pieces := [Dropped([])])

  const FORKING := FIRST.(
    owner := StartFork, out := EMPTY, life := FIRST.life.(stopRequested := true, state := Starting, session := 1))

  lemma ForkingIsReachable()
    ensures Reachable(FORKING)
  {
    hide Reachable;
    ClearingIsReachable();
    var s := CLEARING;
    OwnerReaches(s);
    s := OwnerMove(s);
    OwnerReaches(s);
    s := OwnerMove(s);
    OwnerReaches(s);
    s := OwnerMove(s);
    OwnerReaches(s);
    s := OwnerMove(s);
    OwnerReaches(s);
    s := OwnerMove(s);
    OwnerReaches(s);
    assert OwnerMove(s) == FORKING;
  }

  /** The session's child is process 1, on descriptor 0. */
  const LIVE := Life(
    false, true, Running, -1, 0, false, Some(0), Some(1), false, 1,
    Kernel(map[0 := 1], map[1 := Alive(1)], map[], [], []), Some(0), [])

  /** A session that is running, with an idle owner. */
  function Live(out: Output, reader: Reader): State { State(out, LIVE, reader, Idle, None) }

  const FORKED := FORKING.(owner := StartSet(0, 1), life := FORKING.life.(kernel := LIVE.kernel))

  lemma ForkedIsReachable()
    ensures Reachable(FORKED)
  {
    hide Reachable, ReaderStep, OwnerStopStep, OwnerCallStep;
    ForkingIsReachable();
    assert Fork(FORKING.life.kernel, 1, 0, 1) == LIVE.kernel;
    assert OwnerForkStep(FORKING, FORKED);
    ReachNext(FORKING, FORKED);
  }

  /** The session's fields are set, and its reader is about to be started. */
  const SET := FORKED.(owner := StartRunning, life := LIVE.(running := false, state := Starting, readerFd := None))

  lemma SetIsReachable()
    ensures Reachable(SET)
  {
    hide Reachable, Next;
    ForkedIsReachable();
    OwnerReaches(FORKED);
    OwnerReaches(OwnerMove(FORKED));
    assert OwnerMove(OwnerMove(FORKED)) == SET;
  }

  lemma LiveIsReachable()
    ensures Reachable(Live(EMPTY, CheckStop))
  {
    hide Reachable, Next;
    SetIsReachable();
    var s := SET;
    OwnerReaches(s);
    s := OwnerMove(s);
    OwnerReaches(s);
    s := OwnerMove(s);
    OwnerReaches(s);
    assert OwnerMove(s) == Live(EMPTY, CheckStop);
  }

  // The reader reads a chunk and queues it.

  /** The chunk has been read, and is not queued yet. */
  function InHand(chunk: Text): Output { EMPTY.(received := chunk, chunksRead := 1) }

  function Queued(chunk: Text): Output {
    Output(Nobody, [chunk], |chunk|, |chunk|, |chunk|, 1, chunk, 1, [Dropped([])], |chunk|)
  }

  lemma ChunkIsRead(chunk: Text)
    requires 0 < |chunk| <= 8192
    ensures Reachable(Live(InHand(chunk), WantLock(chunk)))
  {
    hide Reachable;
    LiveIsReachable();
    var s := Live(EMPTY, CheckStop);
    ReaderReaches(s);
    s := ReaderMove(s);
    ReaderReaches(s);
    s := ReaderMove(s);
    ReaderReaches(s);
    s := ReaderMove(s);
    assert s == Live(EMPTY, Read(8192)) && [] + chunk == chunk;
    var s' := Live(InHand(chunk), WantLock(chunk));
    assert ReadLoopStep(s, s');
    ReachNext(s, s');
  }

  /** The chunk is in the queue, and counted as bytes and as an event; the queue counter is next. */
  function Appended(chunk: Text): Output {
    InHand(chunk).(lock := ReaderHolds, queue := [chunk], bytesRead := |chunk|, readEvents := 1)
  }

  lemma ChunkIsAppended(chunk: Text)
    requires 0 < |chunk| <= 8192
    ensures Reachable(Live(Appended(chunk), FetchAdd(|chunk|)))
  {
    hide Reachable;
    ChunkIsRead(chunk);
    var s := Live(InHand(chunk), WantLock(chunk));
    ReaderReaches(s);
    s := ReaderMove(s);
    ReaderReaches(s);
    s := ReaderMove(s);
    ReaderReaches(s);
    s := ReaderMove(s);
    ReaderReaches(s);
    assert ReaderMove(s) == Live(Appended(chunk), FetchAdd(|chunk|));
  }

  lemma ChunkIsQueued(chunk: Text)
    requires 0 < |chunk| <= 8192
    ensures Reachable(Live(Queued(chunk), CheckStop))
  {
    hide Reachable;
    ChunkIsAppended(chunk);
    var s := Live(Appended(chunk), FetchAdd(|chunk|));
    ReaderReaches(s);
    s := ReaderMove(s);
    ReaderReaches(s);
    s := ReaderMove(s);
    ReaderReaches(s);
    s := ReaderMove(s);
    ReaderReaches(s);
    assert ReaderMove(s) == Live(Queued(chunk), CheckStop);
  }

  // The terminal reports its end, the child ends, and the reader waits for it.

  lemma EndIsSeen(chunk: Text)
    requires 0 < |chunk| <= 8192
    ensures Reachable(Live(Queued(chunk), WaitForExit(1)))
  {
    hide Reachable;
    ChunkIsQueued(chunk);
    var s := Live(Queued(chunk), CheckStop);
    ReaderReaches(s);
    s := ReaderMove(s);
    ReaderReaches(s);
    s := ReaderMove(s);
    var s' := Live(Queued(chunk), CheckStopAtEnd);
    assert ReadLoopStep(s, s');
    ReachNext(s, s');
    ReaderReaches(s');
    s' := ReaderMove(s');
    ReaderReaches(s');
    assert ReaderMove(s') == Live(Queued(chunk), WaitForExit(1));
  }

  /** The session after its child was reaped. */
  function Over(status: Status): Life {
    Life(false, false, Exited, CodeOf(status), SignalOf(status), true, Some(0), Some(1), true, 1,
         Kernel(map[0 := 1], map[], map[1 := status], [1], [(1, status)]), Some(0), [])
  }

  lemma ChildIsReaped(chunk: Text, status: Status)
    requires 0 < |chunk| <= 8192
    ensures Reachable(Live(Queued(chunk), ReaderRecordsCode(1, status)).(
      life := LIVE.(kernel := Over(status).kernel.(recorded := []))))
  {
    hide Reachable;
    EndIsSeen(chunk);
    var s := Live(Queued(chunk), WaitForExit(1));
    var s' := s.(life := LIVE.(kernel := Ended(LIVE.kernel, 1, status)));
    assert ProcessEnds(s, s', 1, status);
    assert EnvironmentStep(s, s');
    ReachNext(s, s');
    ReaderReaches(s');
    assert LIVE.kernel.processes[1 := Zombie(1, status)] - {1} == map[];
    assert ReaderMove(s').life.kernel == Over(status).kernel.(recorded := []);
  }

  lemma ReaderEnds(chunk: Text, status: Status)
    requires 0 < |chunk| <= 8192
    ensures Reachable(State(Queued(chunk), Over(status), Finished, Idle, None))
  {
    hide Reachable;
    ChildIsReaped(chunk, status);
    var s := Live(Queued(chunk), ReaderRecordsCode(1, status)).(
      life := LIVE.(kernel := Over(status).kernel.(recorded := [])));
    ReaderReaches(s);
    s := ReaderMove(s);
    ReaderReaches(s);
    s := ReaderMove(s);
    ReaderReaches(s);
    s := ReaderMove(s);
    ReaderReaches(s);
    s := ReaderMove(s);
    ReaderReaches(s);
    s := ReaderMove(s);
    ReaderReaches(s);
    assert ReaderMove(s) == State(Queued(chunk), Over(status), Finished, Idle, None);
  }

  // The owner takes the chunk and asks for the status.

  function Taken(chunk: Text): Output {
    Queued(chunk).(queue := [], queued := 0, pieces := [Dropped([]), Delivered(chunk)])
  }

  lemma DrainOne(chunk: Text)
    requires chunk != []
    ensures Drained([chunk], |chunk|) == ([chunk], []) && Concat([chunk]) == chunk
  {
    var chunks := [chunk];
    assert chunks[1..] == [];
    var rest := Drained(chunks[1..], 0);
    assert [chunk] + rest.0 == [chunk];
    assert Drained(chunks, |chunk|) == ([chunk] + rest.0, rest.1);
    ConcatOne(chunk);
  }

  lemma ChunkIsDelivered(chunk: Text, status: Status)
    requires 0 < |chunk| <= 8192
    ensures Reachable(State(Taken(chunk), Over(status), Finished, Idle, None))
  {
    hide Reachable, ReaderStep;
    ReaderEnds(chunk, status);
    var s := State(Queued(chunk), Over(status), Finished, Idle, None);
    var s' := s.(owner := Subtract(|chunk|), out := Taken(chunk).(queued := |chunk|));
    DrainOne(chunk);
    assert TakesUpTo(s, s', |chunk|);
    assert OwnerCallStep(s, s');
    ReachNext(s, s');
    OwnerReaches(s');
    assert OwnerMove(s') == State(Taken(chunk), Over(status), Finished, Idle, None);
  }

  lemma StatusIsTaken(chunk: Text, status: Status, snapshot: Snapshot)
    requires 0 < |chunk| <= 8192 && snapshot == Snapshot(1, Exited, CodeOf(status), SignalOf(status), true, true)
    ensures Reachable(State(Taken(chunk), Over(status), Finished, Idle, Some(snapshot)))
  {
    hide Reachable, ReaderStep;
    ChunkIsDelivered(chunk, status);
    var s := State(Taken(chunk), Over(status), Finished, Idle, None);
    var s' := s.(owner := StatusCode(Exited, true));
    assert OwnerCallStep(s, s');
    ReachNext(s, s');
    OwnerReaches(s');
    s' := OwnerMove(s');
    OwnerReaches(s');
    s' := OwnerMove(s');
    OwnerReaches(s');
    assert OwnerMove(s') == State(Taken(chunk), Over(status), Finished, Idle, Some(snapshot));
  }

  /** However a child ends and whatever it wrote, there is a run of a new transport that delivers what it wrote, and
      whose last status says Exited with the code, or with -1 and the signal. */
  lemma SomeRunDeliversAndReportsTheExit(chunk: Text, status: Status)
    requires 0 < |chunk| <= 8192
    ensures exists run :: IsRun(run) && Tells(run[|run| - 1], chunk, status)
  {
    hide Next, Init;
    var code := if status.ExitedWith? then status.code else -1;
    var signal := if status.ExitedWith? then 0 else status.signal;
    var snapshot := Snapshot(1, Exited, code, signal, true, true);
    StatusIsTaken(chunk, status, snapshot);
    var s := State(Taken(chunk), Over(status), Finished, Idle, Some(snapshot));
    assert Tells(s, chunk, status);
  }

  /** The only bytes delivered are the chunk, nothing is queued, and the last status is how the child ended. */
  predicate Tells(s: State, chunk: Text, status: Status) {
    && s.out.received == chunk && s.out.pieces == [Dropped([]), Delivered(chunk)] && s.out.queue == []
    && s.snapshot.Some? && s.snapshot.value.state == Exited && s.snapshot.value.valid && s.snapshot.value.reaped
    && (match status
        case ExitedWith(code) => s.snapshot.value.code == code && s.snapshot.value.signal == 0
        case SignaledWith(signal) => s.snapshot.value.code == -1 && s.snapshot.value.signal == signal)
  }
}
