/** What the transport's threads do, beyond what they must not do: in every interleaving they get on, the reader
    reports how its session ended, and Stop goes as far as it has to. */
module PtyDuties {
  import opened Options
  import opened Cells
  import opened OutputQueue
  import opened PtyTransport
  import PtyQueueSafety
  import PtyLifecycle

  /** The signals sent by the time the wait has reached `stage`: TERM, then KILL. */
  function SentBy(stage: nat): seq<Signal> {
    if stage == 0 then [] else if stage == 1 then [Term] else [Term, Kill]
  }

  /** Chunks read whose event is not counted yet. */
  function UncountedEvent(reader: Reader): nat {
    if reader.WantLock? || reader.Append? || reader.CountBytes? || reader.CountEvent? then 1 else 0
  }

  /** A reader that is done without a stop has stored Exited; it runs until it says otherwise, never asks for nothing,
      and counts every chunk. */
  predicate ReaderDuties(s: State) {
    && ((s.reader.ClearRunning? || s.reader.Finished?) && !s.life.stopRequested ==> s.life.state == Exited)
    && (s.reader != NoReader ==> (s.life.running <==> !s.reader.Finished?))
    && (s.owner.StartStateRunning? || s.owner.StartThread? ==> s.life.running)
    && (s.reader.Poll? || s.reader.Read? ==> 0 < s.reader.capacity <= 8192)
    && s.out.readEvents + UncountedEvent(s.reader) == s.out.chunksRead
  }

  /** Signals are sent in order as the wait goes on, and to this session's child only. */
  predicate OwnerDuties(s: State) {
    && (s.owner.StopStore? ==> s.life.state == Starting || s.life.state == Running)
    && (s.owner.StartThread? ==> s.life.state == Running)
    && (s.life.childPid.Some? || (PtyLifecycle.Preparing(s.owner) && !s.owner.StartClear?) ==> s.life.sent == [])
    && (match s.owner
        case StopClose(_, child, _, reaped) => child.Some? && !reaped ==> s.life.sent == []
        case StopWait(_, _, stage) => stage <= 2 && s.life.sent == SentBy(stage)
        case StopSignal(_, _, stage) => stage < 2 && s.life.sent == SentBy(stage)
        case _ => true)
  }

  predicate Duties(s: State) { ReaderDuties(s) && OwnerDuties(s) }

  lemma InitKeepsDuties(s: State)
    requires Init(s)
    ensures Duties(s)
  {
  }

  lemma ReadLoopKeepsDuties(s: State, s': State)
    requires PtyLifecycle.Held(s) && Duties(s) && (ReadLoopStep(s, s') || EnqueueStep(s, s'))
    ensures Duties(s')
  {
    hide PtyLifecycle.OpenFile, PtyLifecycle.Unreaped, PtyLifecycle.MayBeReaped, PtyLifecycle.ReaderRecords;
  }

  lemma ReaderExitKeepsDuties(s: State, s': State)
    requires PtyLifecycle.Held(s) && PtyLifecycle.States(s) && Duties(s) && ReaderExitStep(s, s')
    ensures Duties(s')
  {
    hide PtyLifecycle.OpenFile, PtyLifecycle.Unreaped, SentBy;
  }

  lemma OwnerCallKeepsDuties(s: State, s': State)
    requires Duties(s) && OwnerCallStep(s, s')
    ensures Duties(s')
  {
    hide Drained, Concat;
  }

  lemma OwnerOutputKeepsDuties(s: State, s': State)
    requires Duties(s) && (OwnerOutputStep(s, s') || OwnerStatusStep(s, s'))
    ensures Duties(s')
  {
  }

  lemma OwnerStopKeepsDuties(s: State, s': State)
    requires PtyLifecycle.Held(s) && PtyLifecycle.OwnerKnows(s.owner, s.life) && Duties(s) && OwnerStopStep(s, s')
    ensures Duties(s')
  {
  }

  lemma OwnerStartKeepsDuties(s: State, s': State)
    requires PtyLifecycle.Held(s) && PtyLifecycle.OwnerKnows(s.owner, s.life) && PtyLifecycle.States(s)
    requires Duties(s) && OwnerStartStep(s, s')
    ensures Duties(s')
  {
    hide Concat;
  }

  lemma EnvironmentKeepsDuties(s: State, s': State)
    requires Duties(s) && EnvironmentStep(s, s')
    ensures Duties(s')
  {
  }

  lemma NextKeepsDuties(s: State, s': State)
    requires PtyLifecycle.LifeSafe(s) && Duties(s) && Next(s, s')
    ensures Duties(s')
  {
    hide Duties, PtyLifecycle.Held, PtyLifecycle.OwnerKnows, PtyLifecycle.States;
    hide ReadLoopStep, EnqueueStep, ReaderExitStep, OwnerCallStep, OwnerOutputStep, OwnerStatusStep;
    hide OwnerStopStep, OwnerStartStep, EnvironmentStep;
    if ReadLoopStep(s, s') || EnqueueStep(s, s') {
      ReadLoopKeepsDuties(s, s');
    } else if ReaderExitStep(s, s') {
      ReaderExitKeepsDuties(s, s');
    } else if OwnerCallStep(s, s') {
      OwnerCallKeepsDuties(s, s');
    } else if OwnerOutputStep(s, s') || OwnerStatusStep(s, s') {
      OwnerOutputKeepsDuties(s, s');
    } else if OwnerStopStep(s, s') {
      OwnerStopKeepsDuties(s, s');
    } else if OwnerStartStep(s, s') {
      OwnerStartKeepsDuties(s, s');
    } else {
      EnvironmentKeepsDuties(s, s');
    }
  }

  lemma {:induction false} RunsKeepDuties(run: seq<State>, i: nat)
    requires IsRun(run) && i < |run|
    ensures Duties(run[i])
  {
    hide Duties, Next;
    if i == 0 {
      InitKeepsDuties(run[0]);
    } else {
      RunsKeepDuties(run, i - 1);
      PtyLifecycle.RunsAreSafe(run, i - 1);
      assert Next(run[i - 1], run[i - 1 + 1]);
      NextKeepsDuties(run[i - 1], run[i]);
    }
  }

  // ---- What every run does ----

  /** A reader that has ended without a stop has left the state Exited, and the child reaped; as long as it has not
      ended, the session is running. */
  lemma EndedReadersShowExited(run: seq<State>, i: nat)
    requires IsRun(run) && i < |run|
    ensures run[i].reader == Finished && !run[i].life.stopRequested ==>
      run[i].life.state == Exited && run[i].life.session in run[i].life.kernel.waited && !run[i].life.running
    ensures run[i].reader != NoReader && run[i].reader != Finished ==> run[i].life.running
  {
    hide Next;
    RunsKeepDuties(run, i);
    PtyLifecycle.RunsAreSafe(run, i);
  }

  /** Stop leaves a child behind only after TERM and KILL, in this order. */
  lemma StopGivesUpLast(run: seq<State>, i: nat)
    requires IsRun(run) && i + 1 < |run| && run[i].owner.StopWait? && run[i + 1].owner.StopRunning?
    requires run[i].owner.pid in run[i].life.kernel.processes
    ensures run[i].life.sent == [Term, Kill]
  {
    hide IsRun, ReaderDuties;
    RunsKeepDuties(run, i);
    NextOfRun(run, i);
  }

  lemma NextOfRun(run: seq<State>, i: nat)
    requires IsRun(run) && i + 1 < |run|
    ensures Next(run[i], run[i + 1])
  {
  }

  /** Stop keeps the state of a session that has ended or failed, and makes any other Stopped. */
  lemma StopKeepsTheOutcome(run: seq<State>, i: nat)
    requires IsRun(run) && i + 1 < |run| && OwnerStopStep(run[i], run[i + 1])
    ensures var before, after := run[i].life.state, run[i + 1].life.state;
            && (before == Exited || before == Failed || before == Stopped ==> after == before)
            && (!PtyLifecycle.Stopping(run[i + 1].owner) ==> after == Exited || after == Failed || after == Stopped)
  {
    hide Next, IsRun, ReaderDuties;
    RunsKeepDuties(run, i);
    OutcomeKept(run[i], run[i + 1]);
  }

  lemma OutcomeKept(s: State, s': State)
    requires OwnerDuties(s) && OwnerStopStep(s, s')
    ensures var before, after := s.life.state, s'.life.state;
            && (before == Exited || before == Failed || before == Stopped ==> after == before)
            && (!PtyLifecycle.Stopping(s'.owner) ==> after == Exited || after == Failed || after == Stopped)
  {
  }

  /** Start ends with a reader for a running session, or with a failed one without reader, terminal and child. */
  lemma StartEndsRunningOrFailed(run: seq<State>, i: nat)
    requires IsRun(run) && i + 1 < |run| && OwnerStartStep(run[i], run[i + 1]) && run[i + 1].owner == Idle
    ensures var s := run[i + 1];
            || (s.life.state == Running && s.life.running && s.reader == CheckStop && s.life.childPid.Some?)
            || (s.life.state == Failed && !s.life.running && s.reader == NoReader
                && s.life.childPid.None? && s.life.masterFd.None?)
  {
    hide Next, IsRun;
    RunsKeepDuties(run, i);
    PtyLifecycle.RunsAreSafe(run, i);
  }

  /** Every chunk read is one event. */
  lemma EventsCountChunks(run: seq<State>, i: nat)
    requires IsRun(run) && i < |run|
    ensures run[i].out.chunksRead - 1 <= run[i].out.readEvents <= run[i].out.chunksRead
    ensures run[i].reader == NoReader || run[i].reader == CheckStop ==> run[i].out.readEvents == run[i].out.chunksRead
  {
    hide Next;
    RunsKeepDuties(run, i);
  }
}
