/** The child's lifecycle, shared between the two threads, in every interleaving. */
module PtyLifecycle {
  import opened Options
  import opened PtyTransport
  import PtyQueueSafety

  // ---- The world: processes, and what was waited for and recorded ----

  ghost predicate Distinct(sessions: seq<nat>) {
    forall i, j | 0 <= i < j < |sessions| :: sessions[i] != sessions[j]
  }

  ghost predicate DistinctRecords(records: seq<(nat, Status)>) {
    forall i, j | 0 <= i < j < |records| :: records[i].0 != records[j].0
  }

  /** Every session has at most one process; a process that is still there was not waited for. */
  ghost predicate ProcessesOk(kernel: Kernel, session: nat) {
    && (forall p, q | p in kernel.processes && q in kernel.processes
                      && kernel.processes[p].session == kernel.processes[q].session :: p == q)
    && (forall p | p in kernel.processes ::
          && kernel.processes[p].session <= session
          && kernel.processes[p].session !in kernel.waited
          && (kernel.processes[p].Alive? ==> kernel.processes[p].session !in kernel.died)
          && (kernel.processes[p].Zombie? ==>
                DiedWith(kernel, kernel.processes[p].session, kernel.processes[p].status)))
  }

  /** Each child is waited for at most once, its status recorded at most once, and it is its own. */
  ghost predicate WaitedOnce(kernel: Kernel, session: nat) {
    && Distinct(kernel.waited) && DistinctRecords(kernel.recorded)
    && (forall other | other in kernel.waited :: other <= session && other in kernel.died)
    && (forall record | record in kernel.recorded :: record.0 in kernel.waited && DiedWith(kernel, record.0, record.1))
    && (forall other | other in kernel.died :: other <= session)
  }

  ghost predicate World(kernel: Kernel, session: nat) { ProcessesOk(kernel, session) && WaitedOnce(kernel, session) }

  predicate DiedWith(kernel: Kernel, session: nat, status: Status) {
    session in kernel.died && kernel.died[session] == status
  }

  /** The session's own child has not been waited for. */
  predicate Unreaped(life: Life, pid: nat) {
    && pid in life.kernel.processes && life.kernel.processes[pid].session == life.session
    && life.session !in life.kernel.waited
  }

  ghost predicate FreshSession(kernel: Kernel, session: nat) {
    && session !in kernel.waited && session !in kernel.died
    && forall p | p in kernel.processes :: kernel.processes[p].session != session
  }

  ghost predicate IsRecorded(kernel: Kernel, session: nat) {
    exists i :: 0 <= i < |kernel.recorded| && kernel.recorded[i].0 == session
  }

  // ---- What the operating system's steps keep ----

  lemma ReapKeepsWorld(kernel: Kernel, session: nat, pid: nat)
    requires World(kernel, session) && IsZombie(kernel, pid)
    ensures var own := kernel.processes[pid].session;
            && World(Reap(kernel, pid), session) && DiedWith(kernel, own, kernel.processes[pid].status)
            && own in Reap(kernel, pid).waited && !IsRecorded(Reap(kernel, pid), own)
  {
    var own := kernel.processes[pid].session;
    var after := Reap(kernel, pid);
    assert own in after.waited by { assert after.waited[|kernel.waited|] == own; }
    assert forall other :: other in after.waited <==> other in kernel.waited || other == own;
    forall i | 0 <= i < |kernel.recorded| ensures kernel.recorded[i].0 != own {
      assert kernel.recorded[i] in kernel.recorded;
    }
  }

  lemma RecordKeepsWorld(kernel: Kernel, session: nat, status: Status)
    requires World(kernel, session) && session in kernel.waited
    requires DiedWith(kernel, session, status) && !IsRecorded(kernel, session)
    ensures World(Recording(kernel, session, status), session)
    ensures IsRecorded(Recording(kernel, session, status), session)
  {
    var after := Recording(kernel, session, status);
    assert after.recorded[|kernel.recorded|].0 == session;
    assert forall record | record in after.recorded :: record in kernel.recorded || record == (session, status);
  }

  lemma EndKeepsWorld(kernel: Kernel, session: nat, pid: nat, status: Status)
    requires World(kernel, session) && pid in kernel.processes && kernel.processes[pid].Alive?
    ensures World(Ended(kernel, pid, status), session)
    ensures kernel.processes[pid].session !in kernel.died
  {
  }

  lemma ForkKeepsWorld(kernel: Kernel, session: nat, fd: nat, pid: nat)
    requires World(kernel, session) && FreshSession(kernel, session) && pid !in kernel.processes
    ensures World(Fork(kernel, session, fd, pid), session)
  {
  }

  lemma CloseKeepsWorld(kernel: Kernel, session: nat, fd: nat)
    requires World(kernel, session)
    ensures World(Closed(kernel, fd), session)
  {
  }

  lemma NewSessionIsFresh(kernel: Kernel, session: nat)
    requires World(kernel, session)
    ensures World(kernel, session + 1) && FreshSession(kernel, session + 1)
  {
  }

  predicate OpenFile(life: Life, fd: nat) { fd in life.kernel.files && life.kernel.files[fd] == life.session }

  // ---- Where the threads are ----

  predicate ReaderRecords(reader: Reader) {
    reader.ReaderRecordsCode? || reader.ReaderRecordsSignal? || reader.ReaderRecordsValid?
  }

  predicate OwnerRecords(owner: Owner) {
    owner.StopRecordsCode? || owner.StopRecordsSignal? || owner.StopRecordsValid?
  }

  /** The reader will not touch the exit fields again. */
  predicate Settled(reader: Reader) { reader.ClearRunning? || reader.Finished? || reader.NoReader? }

  predicate MayBeReaped(reader: Reader) { reader.StoreExited? || Settled(reader) }

  predicate Stopping(owner: Owner) {
    || owner.StopSnapshot? || owner.StopJoin? || owner.StopTake? || owner.StopClose? || owner.StopWait?
    || owner.StopSignal? || OwnerRecords(owner) || owner.StopRunning? || owner.StopState? || owner.StopStore?
  }

  predicate Preparing(owner: Owner) {
    || owner.StartClear? || owner.StartStoreQueued? || owner.StartState? || owner.StartCode? || owner.StartSignal?
    || owner.StartValid? || owner.StartFork? || owner.StartSet?
  }

  predicate Launching(owner: Owner) {
    owner.StartFlag? || owner.StartRunning? || owner.StartStateRunning? || owner.StartThread?
  }

  predicate ShowsStarting(owner: Owner) {
    || owner.StartCode? || owner.StartSignal? || owner.StartValid? || owner.StartFork? || owner.StartSet?
    || owner.StartFlag? || owner.StartRunning? || owner.StartStateRunning?
  }

  predicate NotRunning(owner: Owner) {
    owner.StopState? || owner.StopStore? || Preparing(owner) || owner.StartFlag? || owner.StartRunning?
  }

  function PidOf(reader: Reader): Option<nat> {
    match reader
    case WaitForExit(pid) => Some(pid)
    case CheckStopWhileWaiting(pid) => Some(pid)
    case ReaderRecordsCode(pid, _) => Some(pid)
    case ReaderRecordsSignal(pid, _) => Some(pid)
    case ReaderRecordsValid(pid) => Some(pid)
    case MarkReaped(pid) => Some(pid)
    case _ => None
  }

  // ---- The invariant ----

  /** Who holds the terminal and the child. */
  ghost predicate Held(s: State) {
    var life := s.life;
    && PtyQueueSafety.Joined(s)
    && (life.masterFd.Some? <==> life.childPid.Some?)
    && (life.masterFd.Some? ==> OpenFile(life, life.masterFd.value))
    && (s.reader != NoReader || Launching(s.owner) ==> life.childPid.Some?)
    && (s.reader != NoReader ==> life.readerFd == life.masterFd)
    && (PidOf(s.reader).Some? ==> PidOf(s.reader) == life.childPid)
    && (life.childPid.Some? ==>
          if life.childReaped || ReaderRecords(s.reader) || s.reader.MarkReaped? then life.session in life.kernel.waited
          else Unreaped(life, life.childPid.value))
    && (life.childReaped && life.childPid.Some? ==> MayBeReaped(s.reader) && !Launching(s.owner))
  }

  /** What the owner knows while it stops or starts a session. */
  ghost predicate OwnerKnows(owner: Owner, life: Life) {
    match owner
    case StopJoin(_, child) => child == life.childPid
    case StopTake(_, child) => child == life.childPid
    case StopClose(_, child, master, reaped) =>
      && life.childPid.None?
      && (master.Some? ==> OpenFile(life, master.value))
      && (child.Some? && !reaped ==> Unreaped(life, child.value))
    case StopWait(_, pid, _) => life.childPid.None? && Unreaped(life, pid)
    case StopSignal(_, pid, _) => life.childPid.None? && Unreaped(life, pid)
    case StopSnapshot(_) => true
    case Idle => true
    case Subtract(_) => true
    case DiscardStore(_) => true
    case DiscardUnlock => true
    case StatusCode(_, _) => true
    case StatusSignal(_, _, _) => true
    case StatusValid(_, _, _, _) => true
    case StartSet(fd, pid) => life.childPid.None? && OpenFile(life, fd) && Unreaped(life, pid)
    case StartFlag => true
    case StartRunning => true
    case StartStateRunning => true
    case StartThread => true
    case StartClear => life.childPid.None?
    case StartStoreQueued(_) => life.childPid.None? && FreshSession(life.kernel, life.session)
    case StartState => life.childPid.None? && FreshSession(life.kernel, life.session)
    case StartCode => life.childPid.None? && FreshSession(life.kernel, life.session)
    case StartSignal => life.childPid.None? && FreshSession(life.kernel, life.session)
    case StartValid => life.childPid.None? && FreshSession(life.kernel, life.session)
    case StartFork => life.childPid.None? && FreshSession(life.kernel, life.session)
    case _ => life.childPid.None?
  }

  /** The exit fields carry the status of this session's child. */
  ghost predicate Final(life: Life) {
    && life.session in life.kernel.died && life.exitValid && IsRecorded(life.kernel, life.session)
    && life.exitCode == CodeOf(life.kernel.died[life.session])
    && life.exitSignal == SignalOf(life.kernel.died[life.session])
  }

  ghost predicate ReapedUnrecorded(life: Life, status: Status) {
    && life.session in life.kernel.waited && DiedWith(life.kernel, life.session, status)
    && !IsRecorded(life.kernel, life.session)
  }

  ghost predicate CodeRecorded(life: Life, status: Status) {
    && DiedWith(life.kernel, life.session, status) && IsRecorded(life.kernel, life.session)
    && life.exitCode == CodeOf(status)
  }

  /** The three stores of an exit status, by whichever thread reaped the child. */
  ghost predicate Records(s: State) {
    var life := s.life;
    && (match s.reader
        case ReaderRecordsCode(_, status) => ReapedUnrecorded(life, status)
        case ReaderRecordsSignal(_, status) =>
          CodeRecorded(life, status)
        case ReaderRecordsValid(_) => Final(life.(exitValid := true))
        case _ => true)
    && (match s.owner
        case StopRecordsCode(_, status) => ReapedUnrecorded(life, status)
        case StopRecordsSignal(_, status) =>
          CodeRecorded(life, status)
        case StopRecordsValid(_) => Final(life.(exitValid := true))
        case _ => true)
    && (life.session in life.kernel.waited && !ReaderRecords(s.reader) && !OwnerRecords(s.owner) ==> Final(life))
  }

  /** What the state says: it is Exited only when the reader is done, and unless a stop was requested,
      only when the child is reaped; without a reader and outside Stop and Start nothing is running. */
  ghost predicate States(s: State) {
    var life := s.life;
    && (Stopping(s.owner) || Preparing(s.owner) || s.owner.StartFlag? ==> life.stopRequested)
    && (!Settled(s.reader) || s.owner.StartThread? ==> life.state == Running)
    && (ShowsStarting(s.owner) ==> life.state == Starting)
    && (s.reader.StoreExited? && !life.stopRequested ==> life.session in life.kernel.waited)
    && (life.state == Exited && !life.stopRequested ==> life.session in life.kernel.waited)
    && (NotRunning(s.owner) ==> !life.running)
    && (s.reader == NoReader && !Stopping(s.owner) && !Preparing(s.owner) && !Launching(s.owner) ==>
          !life.running && life.state != Starting && life.state != Running && life.childPid.None?)
  }

  /** A snapshot that shows Exited after the child was reaped carries its final status: the exit code and no
      signal, or code -1 and the signal that ended it. */
  ghost predicate SnapshotFinal(kernel: Kernel, snapshot: Snapshot) {
    snapshot.state == Exited && snapshot.reaped ==>
      && snapshot.session in kernel.waited && snapshot.session in kernel.died && snapshot.valid
      && match kernel.died[snapshot.session]
         case ExitedWith(code) => snapshot.code == code && snapshot.signal == 0
         case SignaledWith(signal) => snapshot.code == -1 && snapshot.signal == signal
  }

  ghost predicate Snapshots(s: State) {
    && (s.snapshot.Some? ==> SnapshotFinal(s.life.kernel, s.snapshot.value))
    && (match s.owner
        case StatusCode(state, reaped) =>
          state == Exited ==> && Settled(s.reader) && (reaped ==> s.life.session in s.life.kernel.waited)
        case StatusSignal(state, reaped, code) =>
          state == Exited ==> && Settled(s.reader) && (reaped ==> s.life.session in s.life.kernel.waited)
                              && code == s.life.exitCode
        case StatusValid(state, reaped, code, signal) =>
          state == Exited ==> && Settled(s.reader) && (reaped ==> s.life.session in s.life.kernel.waited)
                              && code == s.life.exitCode && signal == s.life.exitSignal
        case _ => true)
  }

  ghost predicate LifeSafe(s: State) {
    && World(s.life.kernel, s.life.session) && Held(s) && OwnerKnows(s.owner, s.life)
    && Records(s) && States(s) && Snapshots(s)
  }

  lemma InitIsSafe(s: State)
    requires Init(s)
    ensures LifeSafe(s)
  {
  }

  predicate InLoop(reader: Reader) {
    PidOf(reader).None? && !MayBeReaped(reader) && !reader.GetChild?
  }

  lemma LoopStepStaysInLoop(s: State, s': State)
    requires ReadLoopStep(s, s') || EnqueueStep(s, s')
    ensures InLoop(s.reader) && InLoop(s'.reader)
    ensures s'.life == s.life && s'.owner == s.owner && s'.snapshot == s.snapshot
  {
  }

  lemma ReadLoopStepIsSafe(s: State, s': State)
    requires LifeSafe(s) && (ReadLoopStep(s, s') || EnqueueStep(s, s'))
    ensures LifeSafe(s')
  {
    hide World, OwnerKnows, FreshSession, IsRecorded, Final, Unreaped, OpenFile, ReadLoopStep, EnqueueStep;
    LoopStepStaysInLoop(s, s');
  }

  lemma ReaderWaitStepIsSafe(s: State, s': State)
    requires LifeSafe(s) && ReaderWaitStep(s, s')
    ensures LifeSafe(s')
  {
    hide World, FreshSession, IsRecorded;
    if s.reader.WaitForExit? && IsZombie(s.life.kernel, s.reader.pid) {
      ReapKeepsWorld(s.life.kernel, s.life.session, s.reader.pid);
    }
  }

  lemma ReaderRecordStepKeepsHeld(s: State, s': State)
    requires LifeSafe(s) && ReaderRecordStep(s, s')
    ensures World(s'.life.kernel, s'.life.session) && Held(s') && OwnerKnows(s'.owner, s'.life)
  {
    hide World, FreshSession, IsRecorded, Stopping, Preparing, Snapshots, States;
    if s.reader.ReaderRecordsCode? {
      RecordKeepsWorld(s.life.kernel, s.life.session, s.reader.status);
    }
  }

  lemma ReaderRecordStepKeepsRecords(s: State, s': State)
    requires LifeSafe(s) && ReaderRecordStep(s, s')
    ensures Records(s') && States(s') && Snapshots(s')
  {
    hide World, IsRecorded, Stopping, Preparing, OwnerKnows, Unreaped, OpenFile;
    if s.reader.ReaderRecordsCode? {
      RecordKeepsWorld(s.life.kernel, s.life.session, s.reader.status);
    }
  }

  lemma ReaderRecordStepIsSafe(s: State, s': State)
    requires LifeSafe(s) && ReaderRecordStep(s, s')
    ensures LifeSafe(s')
  {
    hide World, Held, OwnerKnows, Records, States, Snapshots, ReaderRecordStep;
    ReaderRecordStepKeepsHeld(s, s');
    ReaderRecordStepKeepsRecords(s, s');
  }

  lemma ReaderLeaveStepIsSafe(s: State, s': State)
    requires LifeSafe(s) && ReaderLeaveStep(s, s')
    ensures LifeSafe(s')
  {
    hide World, FreshSession, IsRecorded;
  }

  /** What a call changes: nothing here, or it requests a stop. */
  lemma CallShape(s: State, s': State)
    requires OwnerCallStep(s, s')
    ensures s.owner == Idle && s'.reader == s.reader && s'.snapshot == s.snapshot
    ensures || (s'.life == s.life.(stopRequested := true) && s'.owner.StopSnapshot?)
            || (s'.life == s.life && (s'.owner.Subtract? || s'.owner.DiscardStore?
                || s'.owner == StatusCode(s.life.state, s.life.session in s.life.kernel.waited)))
  {
  }

  lemma OwnerCallKeepsHeld(s: State, s': State)
    requires LifeSafe(s) && OwnerCallStep(s, s')
    ensures World(s'.life.kernel, s'.life.session) && Held(s') && OwnerKnows(s'.owner, s'.life)
  {
    hide World, FreshSession, IsRecorded, PidOf, OwnerCallStep, Records, Snapshots, States;
    CallShape(s, s');
  }

  lemma OwnerCallKeepsRecords(s: State, s': State)
    requires LifeSafe(s) && OwnerCallStep(s, s')
    ensures Records(s') && States(s') && Snapshots(s')
  {
    hide World, FreshSession, IsRecorded, PidOf, OwnerCallStep, OwnerKnows, Unreaped, OpenFile;
    CallShape(s, s');
  }

  lemma OwnerCallIsSafe(s: State, s': State)
    requires LifeSafe(s) && OwnerCallStep(s, s')
    ensures LifeSafe(s')
  {
    hide World, Held, OwnerKnows, Records, States, Snapshots, OwnerCallStep;
    OwnerCallKeepsHeld(s, s');
    OwnerCallKeepsRecords(s, s');
  }

  lemma OutputShape(s: State, s': State)
    requires OwnerOutputStep(s, s')
    ensures s'.life == s.life && s'.reader == s.reader && s'.snapshot == s.snapshot
    ensures s.owner.Subtract? || s.owner.DiscardStore? || s.owner.DiscardUnlock?
    ensures s'.owner == Idle || s'.owner == DiscardUnlock
  {
  }

  lemma OwnerOutputKeepsHeld(s: State, s': State)
    requires LifeSafe(s) && OwnerOutputStep(s, s')
    ensures World(s'.life.kernel, s'.life.session) && Held(s') && OwnerKnows(s'.owner, s'.life)
  {
    hide World, FreshSession, IsRecorded, Unreaped, OpenFile, Records, Snapshots, States, OwnerOutputStep;
    OutputShape(s, s');
  }

  lemma OwnerOutputKeepsRecords(s: State, s': State)
    requires LifeSafe(s) && OwnerOutputStep(s, s')
    ensures Records(s') && States(s') && Snapshots(s')
  {
    hide World, Held, OwnerKnows, IsRecorded, Final, OwnerOutputStep;
    OutputShape(s, s');
  }

  lemma OwnerOutputIsSafe(s: State, s': State)
    requires LifeSafe(s) && OwnerOutputStep(s, s')
    ensures LifeSafe(s')
  {
    hide World, Held, OwnerKnows, Records, States, Snapshots, OwnerOutputStep;
    OwnerOutputKeepsHeld(s, s');
    OwnerOutputKeepsRecords(s, s');
  }

  lemma StatusShape(s: State, s': State)
    requires OwnerStatusStep(s, s')
    ensures s'.life == s.life && s'.reader == s.reader
    ensures s.owner.StatusCode? || s.owner.StatusSignal? || s.owner.StatusValid?
    ensures s'.owner == Idle || s'.owner.StatusSignal? || s'.owner.StatusValid?
  {
  }

  lemma OwnerStatusKeepsHeld(s: State, s': State)
    requires LifeSafe(s) && OwnerStatusStep(s, s')
    ensures World(s'.life.kernel, s'.life.session) && Held(s') && OwnerKnows(s'.owner, s'.life) && States(s')
  {
    hide World, FreshSession, Unreaped, OpenFile, Records, Snapshots, OwnerStatusStep;
    StatusShape(s, s');
  }

  lemma OwnerStatusKeepsRecords(s: State, s': State)
    requires LifeSafe(s) && OwnerStatusStep(s, s')
    ensures Records(s') && Snapshots(s')
  {
    hide World, IsRecorded, Held, OwnerKnows, States;
  }

  lemma OwnerStatusIsSafe(s: State, s': State)
    requires LifeSafe(s) && OwnerStatusStep(s, s')
    ensures LifeSafe(s')
  {
    hide World, Held, OwnerKnows, Records, States, Snapshots, OwnerStatusStep;
    OwnerStatusKeepsHeld(s, s');
    OwnerStatusKeepsRecords(s, s');
  }

  lemma OwnerJoinStepKeepsHeld(s: State, s': State)
    requires LifeSafe(s) && OwnerJoinStep(s, s')
    ensures World(s'.life.kernel, s'.life.session) && Held(s') && OwnerKnows(s'.owner, s'.life)
  {
    hide World, FreshSession, Records, Snapshots, States;
    if s.owner.StopClose? && s.owner.master.Some? {
      CloseKeepsWorld(s.life.kernel, s.life.session, s.owner.master.value);
    }
  }

  lemma JoinShape(s: State, s': State)
    requires OwnerJoinStep(s, s')
    ensures var life := s'.life.(masterFd := s.life.masterFd, childPid := s.life.childPid);
            life == s.life.(kernel := life.kernel)
    ensures s'.life.kernel == s.life.kernel.(files := s'.life.kernel.files) && s'.snapshot == s.snapshot
    ensures Stopping(s.owner) && !OwnerRecords(s.owner) && Stopping(s'.owner) && !OwnerRecords(s'.owner)
    ensures !NotRunning(s'.owner)
    ensures s'.reader == s.reader || (s'.reader == NoReader && s.reader == Finished)
  {
  }

  lemma OwnerJoinStepKeepsRecords(s: State, s': State)
    requires LifeSafe(s) && OwnerJoinStep(s, s')
    ensures Records(s') && States(s') && Snapshots(s')
  {
    hide World, Held, OwnerKnows, OwnerJoinStep;
    JoinShape(s, s');
  }

  lemma OwnerJoinStepIsSafe(s: State, s': State)
    requires LifeSafe(s) && OwnerJoinStep(s, s')
    ensures LifeSafe(s')
  {
    hide World, Held, OwnerKnows, Records, States, Snapshots, OwnerJoinStep;
    OwnerJoinStepKeepsHeld(s, s');
    OwnerJoinStepKeepsRecords(s, s');
  }

  lemma OwnerWaitStepIsSafe(s: State, s': State)
    requires LifeSafe(s) && OwnerWaitStep(s, s')
    ensures LifeSafe(s')
  {
    hide World, FreshSession, IsRecorded, OpenFile, Settled, PidOf;
    if s.owner.StopWait? && IsZombie(s.life.kernel, s.owner.pid) {
      ReapKeepsWorld(s.life.kernel, s.life.session, s.owner.pid);
    } else if s.owner.StopRecordsCode? {
      RecordKeepsWorld(s.life.kernel, s.life.session, s.owner.status);
    }
  }

  lemma OwnerStoppedStepKeepsHeld(s: State, s': State)
    requires LifeSafe(s) && OwnerStoppedStep(s, s')
    ensures World(s'.life.kernel, s'.life.session) && Held(s') && OwnerKnows(s'.owner, s'.life)
  {
    hide World, FreshSession, IsRecorded, Records, Snapshots, States;
  }

  lemma OwnerStoppedStepKeepsRecords(s: State, s': State)
    requires LifeSafe(s) && OwnerStoppedStep(s, s')
    ensures Records(s') && States(s') && Snapshots(s')
  {
    hide World, FreshSession, IsRecorded, Unreaped, OpenFile, CodeOf, SignalOf;
  }

  lemma OwnerStoppedStepIsSafe(s: State, s': State)
    requires LifeSafe(s) && OwnerStoppedStep(s, s')
    ensures LifeSafe(s')
  {
    hide World, Held, OwnerKnows, Records, States, Snapshots, OwnerStoppedStep;
    OwnerStoppedStepKeepsHeld(s, s');
    OwnerStoppedStepKeepsRecords(s, s');
  }

  lemma OwnerPrepareStepKeepsHeld(s: State, s': State)
    requires LifeSafe(s) && OwnerPrepareStep(s, s')
    ensures World(s'.life.kernel, s'.life.session) && Held(s') && OwnerKnows(s'.owner, s'.life)
  {
    hide World, IsRecorded, Records, Snapshots, States;
    if s.owner.StartClear? {
      NewSessionIsFresh(s.life.kernel, s.life.session);
    }
  }

  lemma OwnerPrepareStepKeepsRecords(s: State, s': State)
    requires LifeSafe(s) && OwnerPrepareStep(s, s')
    ensures Records(s') && States(s') && Snapshots(s')
  {
    hide World, IsRecorded, Unreaped, OpenFile;
    if s.owner.StartClear? {
      NewSessionIsFresh(s.life.kernel, s.life.session);
    }
  }

  lemma OwnerPrepareStepIsSafe(s: State, s': State)
    requires LifeSafe(s) && OwnerPrepareStep(s, s')
    ensures LifeSafe(s')
  {
    hide World, Held, OwnerKnows, Records, States, Snapshots, OwnerPrepareStep;
    OwnerPrepareStepKeepsHeld(s, s');
    OwnerPrepareStepKeepsRecords(s, s');
  }

  lemma OwnerForkStepKeepsHeld(s: State, s': State)
    requires LifeSafe(s) && OwnerForkStep(s, s')
    ensures World(s'.life.kernel, s'.life.session) && Held(s') && OwnerKnows(s'.owner, s'.life)
  {
    hide World, IsRecorded, Final, Snapshots;
    if s'.owner.StartSet? {
      ForkKeepsWorld(s.life.kernel, s.life.session, s'.owner.fd, s'.owner.pid);
    }
  }

  lemma OwnerForkStepKeepsRecords(s: State, s': State)
    requires LifeSafe(s) && OwnerForkStep(s, s')
    ensures Records(s') && States(s') && Snapshots(s')
  {
    hide World, OpenFile, FreshSession, Unreaped, CodeOf, SignalOf;
  }

  lemma OwnerForkStepIsSafe(s: State, s': State)
    requires LifeSafe(s) && OwnerForkStep(s, s')
    ensures LifeSafe(s')
  {
    hide World, Held, OwnerKnows, Records, States, Snapshots, OwnerForkStep;
    OwnerForkStepKeepsHeld(s, s');
    OwnerForkStepKeepsRecords(s, s');
  }

  lemma OwnerLaunchStepKeepsHeld(s: State, s': State)
    requires LifeSafe(s) && OwnerLaunchStep(s, s')
    ensures World(s'.life.kernel, s'.life.session) && Held(s') && OwnerKnows(s'.owner, s'.life)
  {
    hide World, IsRecorded, Final, Snapshots, FreshSession;
  }

  lemma OwnerLaunchStepKeepsRecords(s: State, s': State)
    requires LifeSafe(s) && OwnerLaunchStep(s, s')
    ensures Records(s') && States(s') && Snapshots(s')
  {
    hide World, OpenFile, FreshSession, Unreaped, CodeOf, SignalOf, IsRecorded;
  }

  lemma OwnerLaunchStepIsSafe(s: State, s': State)
    requires LifeSafe(s) && OwnerLaunchStep(s, s')
    ensures LifeSafe(s')
  {
    hide World, Held, OwnerKnows, Records, States, Snapshots, OwnerLaunchStep;
    OwnerLaunchStepKeepsHeld(s, s');
    OwnerLaunchStepKeepsRecords(s, s');
  }

  lemma EnvironmentIsSafe(s: State, s': State)
    requires LifeSafe(s) && EnvironmentStep(s, s')
    ensures LifeSafe(s')
  {
    hide World, Held, OwnerKnows, Records, States, Snapshots;
    var pid, status :| ProcessEnds(s, s', pid, status);
    EndKeepsHeld(s, s', pid, status);
    EndKeepsRecords(s, s', pid, status);
  }

  lemma EndKeepsHeld(s: State, s': State, pid: nat, status: Status)
    requires LifeSafe(s) && ProcessEnds(s, s', pid, status)
    ensures World(s'.life.kernel, s'.life.session) && Held(s') && OwnerKnows(s'.owner, s'.life)
  {
    hide World, Records, Snapshots, States, PtyQueueSafety.OwnerAlone, ReaderRecords, PidOf, MayBeReaped, Launching;
    EndKeepsWorld(s.life.kernel, s.life.session, pid, status);
  }

  lemma EndKeepsRecords(s: State, s': State, pid: nat, status: Status)
    requires LifeSafe(s) && ProcessEnds(s, s', pid, status)
    ensures Records(s') && States(s') && Snapshots(s')
  {
    hide World, OwnerKnows, Stopping, Preparing, Launching, Settled, ReaderRecords, OwnerRecords;
    EndKeepsWorld(s.life.kernel, s.life.session, pid, status);
  }

  lemma NextIsSafe(s: State, s': State)
    requires LifeSafe(s) && Next(s, s')
    ensures LifeSafe(s')
  {
    hide LifeSafe, ReadLoopStep, EnqueueStep, ReaderWaitStep, ReaderRecordStep, ReaderLeaveStep;
    hide OwnerCallStep, OwnerOutputStep, OwnerStatusStep, OwnerJoinStep, OwnerWaitStep, OwnerStoppedStep;
    hide OwnerPrepareStep, OwnerForkStep, OwnerLaunchStep, EnvironmentStep;
    if ReadLoopStep(s, s') || EnqueueStep(s, s') {
      ReadLoopStepIsSafe(s, s');
    } else if ReaderWaitStep(s, s') {
      ReaderWaitStepIsSafe(s, s');
    } else if ReaderRecordStep(s, s') {
      ReaderRecordStepIsSafe(s, s');
    } else if ReaderLeaveStep(s, s') {
      ReaderLeaveStepIsSafe(s, s');
    } else if OwnerCallStep(s, s') {
      OwnerCallIsSafe(s, s');
    } else if OwnerOutputStep(s, s') {
      OwnerOutputIsSafe(s, s');
    } else if OwnerStatusStep(s, s') {
      OwnerStatusIsSafe(s, s');
    } else if OwnerJoinStep(s, s') {
      OwnerJoinStepIsSafe(s, s');
    } else if OwnerWaitStep(s, s') {
      OwnerWaitStepIsSafe(s, s');
    } else if OwnerStoppedStep(s, s') {
      OwnerStoppedStepIsSafe(s, s');
    } else if OwnerPrepareStep(s, s') {
      OwnerPrepareStepIsSafe(s, s');
    } else if OwnerForkStep(s, s') {
      OwnerForkStepIsSafe(s, s');
    } else if OwnerLaunchStep(s, s') {
      OwnerLaunchStepIsSafe(s, s');
    } else {
      EnvironmentIsSafe(s, s');
    }
  }

  /** Every state of every run is safe. */
  lemma {:induction false} RunsAreSafe(run: seq<State>, i: nat)
    requires IsRun(run) && i < |run|
    ensures LifeSafe(run[i])
  {
    hide LifeSafe, Next;
    if i == 0 {
      InitIsSafe(run[0]);
    } else {
      RunsAreSafe(run, i - 1);
      assert Next(run[i - 1], run[i - 1 + 1]);
      NextIsSafe(run[i - 1], run[i]);
    }
  }

  // ---- What every run keeps ----

  /** Every child is waited for at most once and its status recorded at most once, and it is its own. */
  lemma ChildrenAreReapedOnce(run: seq<State>, i: nat)
    requires IsRun(run) && i < |run|
    ensures var kernel := run[i].life.kernel;
            && Distinct(kernel.waited) && DistinctRecords(kernel.recorded)
            && forall record | record in kernel.recorded ::
                 record.0 in kernel.waited && DiedWith(kernel, record.0, record.1)
  {
    hide Next;
    RunsAreSafe(run, i);
  }

  /** TERM and KILL go to a child of this session that has not been waited for. */
  lemma SignalsGoToTheOwnUnreapedChild(run: seq<State>, i: nat)
    requires IsRun(run) && i < |run| && run[i].owner.StopSignal?
    ensures Unreaped(run[i].life, run[i].owner.pid)
  {
    hide Next;
    RunsAreSafe(run, i);
  }

  /** The terminal is open while the reader may use it, and the owner closes it only once, after. */
  lemma TheReaderUsesAnOpenTerminal(run: seq<State>, i: nat)
    requires IsRun(run) && i < |run|
    ensures var life := run[i].life;
            && (run[i].reader != NoReader ==> life.readerFd.Some? && OpenFile(life, life.readerFd.value))
            && (run[i].owner.StopClose? && run[i].owner.master.Some? ==>
                  run[i].reader == NoReader && OpenFile(life, run[i].owner.master.value))
  {
    hide Next;
    RunsAreSafe(run, i);
  }

  lemma StopEnds(s: State, s': State)
    requires LifeSafe(s) && Next(s, s') && Stopping(s.owner) && !Stopping(s'.owner)
    ensures s'.life.state != Starting && s'.life.state != Running && !s'.life.running
    ensures s'.life.masterFd.None? && s'.life.childPid.None? && s'.reader == NoReader
  {
    hide World, Records, Snapshots, Unreaped, OpenFile, FreshSession;
    hide ReadLoopStep, EnqueueStep, OwnerCallStep, OwnerOutputStep, OwnerStatusStep, OwnerStartStep;
    if ReaderStep(s, s') {
      assert s'.owner == s.owner by { ReaderLeavesOwner(s, s'); }
      assert false;
    } else if OwnerStep(s, s') {
      assert OwnerStopStep(s, s') by { OnlyStopStepsStop(s, s'); }
    }
  }

  lemma ReaderLeavesOwner(s: State, s': State)
    requires ReaderStep(s, s')
    ensures s'.owner == s.owner
  {
  }

  lemma OnlyStopStepsStop(s: State, s': State)
    requires OwnerStep(s, s') && Stopping(s.owner)
    ensures OwnerStopStep(s, s')
  {
  }

  /** Whenever Stop ends, nothing is starting or running, and terminal, child and reader are gone. */
  lemma AfterStopNothingRuns(run: seq<State>, i: nat)
    requires IsRun(run) && i + 1 < |run|
    requires Stopping(run[i].owner) && !Stopping(run[i + 1].owner)
    ensures var life := run[i + 1].life;
            && life.state != Starting && life.state != Running && !life.running
            && life.masterFd.None? && life.childPid.None? && run[i + 1].reader == NoReader
  {
    hide LifeSafe, Next;
    RunsAreSafe(run, i);
    assert Next(run[i], run[i + 1]);
    StopEnds(run[i], run[i + 1]);
  }

  /** A snapshot showing Exited after the child was reaped carries its final status; and as long as
      no stop was requested, Exited means that the child has been reaped. */
  lemma ExitedSnapshotsAreFinal(run: seq<State>, i: nat)
    requires IsRun(run) && i < |run|
    ensures run[i].snapshot.Some? ==> SnapshotFinal(run[i].life.kernel, run[i].snapshot.value)
    ensures run[i].life.state == Exited && !run[i].life.stopRequested ==>
      run[i].life.session in run[i].life.kernel.waited
  {
    hide Next;
    RunsAreSafe(run, i);
  }
}
