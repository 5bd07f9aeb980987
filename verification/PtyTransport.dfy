/** The PTY transport: a reader thread, an owner thread and a child process, step by step.
    Sections under the I/O lock are single steps; so are the loads and stores of each atomic. */
module PtyTransport {
  import opened Options
  import opened Cells
  import opened OutputQueue

  const MAX_QUEUED: nat := 0x10_0000
  const BUFFER: nat := 8192
  const TWO_64: nat := 0x1_0000_0000_0000_0000

  datatype TransportState = Stopped | Starting | Running | Exited | Failed

  /** How a process ended. */
  datatype Status = ExitedWith(code: int) | SignaledWith(signal: int)

  function CodeOf(status: Status): int { if status.ExitedWith? then status.code else -1 }
  function SignalOf(status: Status): int { if status.ExitedWith? then 0 else status.signal }

  // ---- Shared state ----

  datatype Holder = Nobody | ReaderHolds | OwnerHolds

  /** Bytes that left the queue: handed to a caller, or thrown away. */
  datatype Piece = Delivered(bytes: Text) | Dropped(bytes: Text)

  /** The output queue. `received`, `chunksRead`, `pieces` and `highWater` are history: all bytes ever read, all
      bytes that ever left the queue, and the largest value the counter ever had. */
  datatype Output = Output(
    lock: Holder, queue: seq<Text>, queued: nat, maxQueued: nat, bytesRead: nat, readEvents: nat,
    received: Text, chunksRead: nat, pieces: seq<Piece>, highWater: nat)

  datatype Process = Alive(session: nat) | Zombie(session: nat, status: Status)

  /** The operating system's side. `died`, `waited` and `recorded` are history: how each session's
      child ended, whose child was reaped, and which statuses were recorded. */
  datatype Kernel = Kernel(
    files: map<nat, nat>, processes: map<nat, Process>,
    died: map<nat, Status>, waited: seq<nat>, recorded: seq<(nat, Status)>)

  datatype Signal = Term | Kill

  /** The lifecycle fields, the number of the session they are about, the descriptor that the reader
      thread was given, and (history) the signals that `Stop` sent to the session's child. */
  datatype Life = Life(
    stopRequested: bool, running: bool, state: TransportState,
    exitCode: int, exitSignal: int, exitValid: bool,
    masterFd: Option<nat>, childPid: Option<nat>, childReaped: bool,
    session: nat, kernel: Kernel, readerFd: Option<nat>, sent: seq<Signal>)

  // ---- Program counters ----

  datatype Reader =
    | NoReader
    | CheckStop
    | LoadQueued
    | Poll(capacity: nat)
    | Read(capacity: nat)
    | WantLock(chunk: Text)
    | Append(chunk: Text)
    | CountBytes(n: nat)
    | CountEvent(n: nat)
    | FetchAdd(n: nat)
    | LoadMaximum(value: nat)
    | ExchangeMaximum(value: nat, seen: nat)
    | Unlock
    | CheckStopAtEnd
    | GetChild
    | WaitForExit(pid: nat)
    | CheckStopWhileWaiting(pid: nat)
    | ReaderRecordsCode(pid: nat, status: Status)
    | ReaderRecordsSignal(pid: nat, status: Status)
    | ReaderRecordsValid(pid: nat)
    | MarkReaped(pid: nat)
    | StoreExited
    | ClearRunning
    | Finished

  datatype Then = Return | StartAgain

  datatype Owner =
    | Idle
    | Subtract(taken: nat)
    | DiscardStore(dropped: nat)
    | DiscardUnlock
    | StatusCode(state: TransportState, reaped: bool)
    | StatusSignal(state: TransportState, reaped: bool, code: int)
    | StatusValid(state: TransportState, reaped: bool, code: int, signal: int)
    | StopSnapshot(next: Then)
    | StopJoin(next: Then, child: Option<nat>)
    | StopTake(next: Then, child: Option<nat>)
    | StopClose(next: Then, child: Option<nat>, master: Option<nat>, reaped: bool)
    | StopWait(next: Then, pid: nat, stage: nat)
    | StopSignal(next: Then, pid: nat, stage: nat)
    | StopRecordsCode(next: Then, status: Status)
    | StopRecordsSignal(next: Then, status: Status)
    | StopRecordsValid(next: Then)
    | StopRunning(next: Then)
    | StopState(next: Then)
    | StopStore(next: Then)
    | StartClear
    | StartStoreQueued(dropped: nat)
    | StartState
    | StartCode
    | StartSignal
    | StartValid
    | StartFork
    | StartSet(fd: nat, pid: nat)
    | StartFlag
    | StartRunning
    | StartStateRunning
    | StartThread

  /** What `GetStatus` returned last; `reaped` says whether the child had been reaped by then. */
  datatype Snapshot = Snapshot(session: nat, state: TransportState, code: int, signal: int, valid: bool, reaped: bool)

  datatype State = State(out: Output, life: Life, reader: Reader, owner: Owner, snapshot: Option<Snapshot>)

  predicate Init(s: State) {
    && s.out == Output(Nobody, [], 0, 0, 0, 0, [], 0, [], 0)
    && s.life == Life(false, false, Stopped, -1, 0, false, None, None, false, 0,
                      Kernel(map[], map[], map[], [], []), None, [])
    && s.reader == NoReader && s.owner == Idle && s.snapshot == None
  }

  // ---- The reader thread ----

  /** A waitpid without blocking: it reaps a zombie, and finds nothing to do otherwise. */
  function Reap(kernel: Kernel, pid: nat): Kernel
    requires pid in kernel.processes
  {
    kernel.(processes := kernel.processes - {pid}, waited := kernel.waited + [kernel.processes[pid].session])
  }

  predicate IsZombie(kernel: Kernel, pid: nat) { pid in kernel.processes && kernel.processes[pid].Zombie? }

  function Closed(kernel: Kernel, fd: nat): Kernel { kernel.(files := kernel.files - {fd}) }

  function Fork(kernel: Kernel, session: nat, fd: nat, pid: nat): Kernel {
    kernel.(files := kernel.files[fd := session], processes := kernel.processes[pid := Alive(session)])
  }

  function Recording(kernel: Kernel, session: nat, status: Status): Kernel {
    kernel.(recorded := kernel.recorded + [(session, status)])
  }

  /** The reader's steps up to the next chunk. */
  predicate ReadLoopStep(s: State, s': State) {
    match s.reader
    case CheckStop => s' == s.(reader := if s.life.stopRequested then CheckStopAtEnd else LoadQueued)
    case LoadQueued =>
      s' == s.(reader := if s.out.queued >= MAX_QUEUED then CheckStop
                         else Poll(Least(BUFFER, MAX_QUEUED - s.out.queued)))
    case Poll(capacity) =>
      // Nothing yet or interrupted; broken; or ready.
      s' == s.(reader := CheckStop) || s' == s.(reader := CheckStopAtEnd) || s' == s.(reader := Read(capacity))
    case Read(capacity) =>
      || s' == s.(reader := CheckStop) || s' == s.(reader := CheckStopAtEnd)
      || (s'.reader.WantLock? && 0 < |s'.reader.chunk| <= capacity
          && s' == s.(reader := s'.reader,
                      out := s.out.(received := s.out.received + s'.reader.chunk, chunksRead := s.out.chunksRead + 1)))
    case _ => false
  }

  /** The reader's steps with a chunk in hand. */
  predicate EnqueueStep(s: State, s': State) {
    match s.reader
    case WantLock(chunk) =>
      s.out.lock == Nobody && s' == s.(reader := Append(chunk), out := s.out.(lock := ReaderHolds))
    case Append(chunk) =>
      s' == s.(reader := CountBytes(|chunk|), out := s.out.(queue := s.out.queue + [chunk]))
    case CountBytes(n) => s' == s.(reader := CountEvent(n), out := s.out.(bytesRead := s.out.bytesRead + n))
    case CountEvent(n) => s' == s.(reader := FetchAdd(n), out := s.out.(readEvents := s.out.readEvents + 1))
    case FetchAdd(n) =>
      var queued := (s.out.queued + n) % TWO_64;
      s' == s.(reader := LoadMaximum(queued),
               out := s.out.(queued := queued,
                             highWater := if s.out.highWater < queued then queued else s.out.highWater))
    case LoadMaximum(value) => s' == s.(reader := ExchangeMaximum(value, s.out.maxQueued))
    case ExchangeMaximum(value, seen) =>
      if seen >= value then s' == s.(reader := Unlock)
      else
        // A weak exchange may fail although the values agree.
        || (s.out.maxQueued == seen && s' == s.(reader := Unlock, out := s.out.(maxQueued := value)))
        || s' == s.(reader := ExchangeMaximum(value, s.out.maxQueued))
    case Unlock => s' == s.(reader := CheckStop, out := s.out.(lock := Nobody))
    case _ => false
  }

  /** The reader's steps after its loop: it waits for the child, unless a stop was requested. */
  predicate ReaderWaitStep(s: State, s': State) {
    match s.reader
    case CheckStopAtEnd => s' == s.(reader := if s.life.stopRequested then ClearRunning else GetChild)
    case GetChild =>
      s' == s.(reader := if s.life.childPid.Some? then WaitForExit(s.life.childPid.value) else StoreExited)
    case WaitForExit(pid) =>
      if pid !in s.life.kernel.processes then s' == s.(reader := StoreExited)
      else if IsZombie(s.life.kernel, pid) then
        s' == s.(reader := ReaderRecordsCode(pid, s.life.kernel.processes[pid].status),
                 life := s.life.(kernel := Reap(s.life.kernel, pid)))
      else s' == s.(reader := CheckStopWhileWaiting(pid))
    case CheckStopWhileWaiting(pid) =>
      s' == s.(reader := if s.life.stopRequested then StoreExited else WaitForExit(pid))
    case _ => false
  }

  /** The reader records how the child ended. */
  predicate ReaderRecordStep(s: State, s': State) {
    match s.reader
    case ReaderRecordsCode(pid, status) =>
      s' == s.(reader := ReaderRecordsSignal(pid, status),
               life := s.life.(exitCode := CodeOf(status), kernel := Recording(s.life.kernel, s.life.session, status)))
    case ReaderRecordsSignal(pid, status) =>
      s' == s.(reader := ReaderRecordsValid(pid), life := s.life.(exitSignal := SignalOf(status)))
    case ReaderRecordsValid(pid) => s' == s.(reader := MarkReaped(pid), life := s.life.(exitValid := true))
    case MarkReaped(pid) =>
      s' == s.(reader := StoreExited,
               life := s.life.(childReaped := s.life.childReaped || s.life.childPid == Some(pid)))
    case _ => false
  }

  predicate ReaderLeaveStep(s: State, s': State) {
    match s.reader
    case StoreExited => s' == s.(reader := ClearRunning, life := s.life.(state := Exited))
    case ClearRunning => s' == s.(reader := Finished, life := s.life.(running := false))
    case _ => false
  }

  // ---- The owner thread ----

  function After(next: Then): Owner { if next == Return then Idle else StartClear }

  /** An idle owner starts an operation; draining happens under the lock, in one step. */
  ghost predicate OwnerCallStep(s: State, s': State) {
    s.owner == Idle &&
    (|| (s'.owner.Subtract? && s.out.lock == Nobody && TakeStep(s, s'))
     || DiscardStep(s, s')
     || s' == s.(owner := StatusCode(s.life.state, s.life.session in s.life.kernel.waited))
     || s' == s.(owner := StopSnapshot(Return), life := s.life.(stopRequested := true))
     || s' == s.(owner := StopSnapshot(StartAgain), life := s.life.(stopRequested := true)))
  }

  predicate DiscardStep(s: State, s': State) {
    && s.out.lock == Nobody
    && s' == s.(owner := DiscardStore(|Concat(s.out.queue)|),
                out := s.out.(lock := OwnerHolds, queue := [],
                              pieces := s.out.pieces + [Dropped(Concat(s.out.queue))]))
  }

  ghost predicate TakeStep(s: State, s': State) {
    exists limit: nat :: TakesUpTo(s, s', limit)
  }

  ghost predicate TakesUpTo(s: State, s': State, limit: nat) {
    var (taken, left) := Drained(s.out.queue, limit);
    s' == s.(owner := Subtract(|Concat(taken)|),
             out := s.out.(queue := left, pieces := s.out.pieces + [Delivered(Concat(taken))]))
  }

  /** The rest of draining and discarding. */
  predicate OwnerOutputStep(s: State, s': State) {
    match s.owner
    case Subtract(taken) =>
      s' == s.(owner := Idle, out := s.out.(queued := (s.out.queued + TWO_64 - taken % TWO_64) % TWO_64))
    case DiscardStore(dropped) => s' == s.(owner := DiscardUnlock, out := s.out.(queued := 0))
    case DiscardUnlock => s' == s.(owner := Idle, out := s.out.(lock := Nobody))
    case _ => false
  }

  /** The rest of taking a status snapshot, one load at a time. */
  predicate OwnerStatusStep(s: State, s': State) {
    match s.owner
    case StatusCode(state, reaped) => s' == s.(owner := StatusSignal(state, reaped, s.life.exitCode))
    case StatusSignal(state, reaped, code) => s' == s.(owner := StatusValid(state, reaped, code, s.life.exitSignal))
    case StatusValid(state, reaped, code, signal) =>
      s' == s.(owner := Idle,
               snapshot := Some(Snapshot(s.life.session, state, code, signal, s.life.exitValid, reaped)))
    case _ => false
  }

  /** Stop waits for the reader to end, and takes terminal and child away. */
  predicate OwnerJoinStep(s: State, s': State) {
    match s.owner
    case StopSnapshot(next) => s' == s.(owner := StopJoin(next, s.life.childPid))
    case StopJoin(next, child) =>
      (s.reader == NoReader || s.reader == Finished) && s' == s.(owner := StopTake(next, child), reader := NoReader)
    case StopTake(next, child) =>
      s' == s.(owner := StopClose(next, child, s.life.masterFd, s.life.childReaped),
               life := s.life.(masterFd := None, childPid := None))
    case StopClose(next, child, master, reaped) =>
      s' == s.(owner := if child.Some? && !reaped then StopWait(next, child.value, 0) else StopRunning(next),
               life := if master.Some? then s.life.(kernel := Closed(s.life.kernel, master.value)) else s.life)
    case _ => false
  }

  /** Stop waits for a child the reader did not reap: politely, then after TERM, then after KILL. */
  predicate OwnerWaitStep(s: State, s': State) {
    match s.owner
    case StopWait(next, pid, stage) =>
      if pid !in s.life.kernel.processes then s' == s.(owner := StopRunning(next))
      else if IsZombie(s.life.kernel, pid) then
        s' == s.(owner := StopRecordsCode(next, s.life.kernel.processes[pid].status),
                 life := s.life.(kernel := Reap(s.life.kernel, pid)))
      else
        // Time left, or the stage has timed out.
        s' == s || s' == s.(owner := if stage < 2 then StopSignal(next, pid, stage) else StopRunning(next))
    case StopSignal(next, pid, stage) =>
      s' == s.(owner := StopWait(next, pid, stage + 1),
               life := s.life.(sent := s.life.sent + [if stage == 0 then Term else Kill]))
    case StopRecordsCode(next, status) =>
      s' == s.(owner := StopRecordsSignal(next, status),
               life := s.life.(exitCode := CodeOf(status), kernel := Recording(s.life.kernel, s.life.session, status)))
    case StopRecordsSignal(next, status) =>
      s' == s.(owner := StopRecordsValid(next), life := s.life.(exitSignal := SignalOf(status)))
    case StopRecordsValid(next) => s' == s.(owner := StopRunning(next), life := s.life.(exitValid := true))
    case _ => false
  }

  predicate OwnerStoppedStep(s: State, s': State) {
    match s.owner
    case StopRunning(next) => s' == s.(owner := StopState(next), life := s.life.(running := false))
    case StopState(next) =>
      s' == s.(owner := if s.life.state == Starting || s.life.state == Running then StopStore(next) else After(next))
    case StopStore(next) => s' == s.(owner := After(next), life := s.life.(state := Stopped))
    case _ => false
  }

  predicate OwnerStopStep(s: State, s': State) {
    OwnerJoinStep(s, s') || OwnerWaitStep(s, s') || OwnerStoppedStep(s, s')
  }

  /** Start clears what the last session left. */
  predicate OwnerPrepareStep(s: State, s': State) {
    match s.owner
    case StartClear =>
      s.out.lock == Nobody
      && s' == s.(owner := StartStoreQueued(|Concat(s.out.queue)|),
                  out := s.out.(queue := [], pieces := s.out.pieces + [Dropped(Concat(s.out.queue))]),
                  life := s.life.(session := s.life.session + 1, sent := []))
    case StartStoreQueued(dropped) => s' == s.(owner := StartState, out := s.out.(queued := 0))
    case StartState => s' == s.(owner := StartCode, life := s.life.(state := Starting))
    case StartCode => s' == s.(owner := StartSignal, life := s.life.(exitCode := -1))
    case StartSignal => s' == s.(owner := StartValid, life := s.life.(exitSignal := 0))
    case StartValid => s' == s.(owner := StartFork, life := s.life.(exitValid := false))
    case _ => false
  }

  /** Start forks a child with a terminal, or fails. */
  predicate OwnerForkStep(s: State, s': State) {
    match s.owner
    case StartFork =>
      || s' == s.(owner := Idle, life := s.life.(state := Failed))
      || (s'.owner.StartSet? && s'.owner.fd !in s.life.kernel.files && s'.owner.pid !in s.life.kernel.processes
          && s' == s.(owner := s'.owner,
                      life := s.life.(kernel := Fork(s.life.kernel, s.life.session, s'.owner.fd, s'.owner.pid))))
    case _ => false
  }

  /** Start launches the reader. */
  predicate OwnerLaunchStep(s: State, s': State) {
    match s.owner
    case StartSet(fd, pid) =>
      s' == s.(owner := StartFlag, life := s.life.(masterFd := Some(fd), childPid := Some(pid), childReaped := false))
    case StartFlag => s' == s.(owner := StartRunning, life := s.life.(stopRequested := false))
    case StartRunning => s' == s.(owner := StartStateRunning, life := s.life.(running := true))
    case StartStateRunning => s' == s.(owner := StartThread, life := s.life.(state := Running))
    case StartThread =>
      s' == s.(owner := Idle, reader := CheckStop, life := s.life.(readerFd := s.life.masterFd))
    case _ => false
  }

  predicate OwnerStartStep(s: State, s': State) {
    OwnerPrepareStep(s, s') || OwnerForkStep(s, s') || OwnerLaunchStep(s, s')
  }

  // ---- The environment ----

  /** A process ends on its own or by a signal. */
  function Ended(kernel: Kernel, pid: nat, status: Status): Kernel
    requires pid in kernel.processes
  {
    var session := kernel.processes[pid].session;
    kernel.(processes := kernel.processes[pid := Zombie(session, status)], died := kernel.died[session := status])
  }

  predicate ProcessEnds(s: State, s': State, pid: nat, status: Status) {
    && pid in s.life.kernel.processes && s.life.kernel.processes[pid].Alive?
    && s' == s.(life := s.life.(kernel := Ended(s.life.kernel, pid, status)))
  }

  predicate ReaderStep(s: State, s': State) { ReadLoopStep(s, s') || EnqueueStep(s, s') || ReaderExitStep(s, s') }

  predicate ReaderExitStep(s: State, s': State) {
    ReaderWaitStep(s, s') || ReaderRecordStep(s, s') || ReaderLeaveStep(s, s')
  }

  ghost predicate OwnerStep(s: State, s': State) {
    || OwnerCallStep(s, s') || OwnerOutputStep(s, s') || OwnerStatusStep(s, s')
    || OwnerStopStep(s, s') || OwnerStartStep(s, s')
  }

  ghost predicate EnvironmentStep(s: State, s': State) { exists pid, status :: ProcessEnds(s, s', pid, status) }

  ghost predicate Next(s: State, s': State) { ReaderStep(s, s') || OwnerStep(s, s') || EnvironmentStep(s, s') }

  /** Any interleaving, from the first state on. */
  ghost predicate IsRun(run: seq<State>) {
    run != [] && Init(run[0]) && forall i | 0 <= i && i + 1 < |run| :: Next(run[i], run[i + 1])
  }
}
