/** What a stop can count on: the worker leaves its loop within a bounded number of its own steps,
    beginning at most one more call, and exactly which waits can still be confirmed. */
module PipelineProgress {
  import opened PipelineTasks

  // ---------------------------------------------------------------------
  // The worker once the run flag is clear
  // ---------------------------------------------------------------------

  /** How many steps of its own lie between the worker and its end. */
  function StepsToEnd(pc: WorkerPc): (n: nat)
    ensures n <= 11
  {
    match pc
    case PauseCheck => 11
    case Counting => 10
    case Entering(_) => 9
    case Announced(_) => 8
    case Calling(_) => 7
    case Returned(_, _) => 6
    case Recording(_, _) => 5
    case Tallying(_) => 4
    case Head => 3
    case Left => 2
    case Signalling => 1
    case WorkerGone => 0
  }

  lemma WorkerSetsBit(l: Local, choice: nat)
    ensures var m := WorkerAct(l, choice);
            && m.flags.pitchRunning == l.flags.pitchRunning && m.flags.audioRunning == l.flags.audioRunning
            && (l.pc.WorkerGone? ==> m == l)
            && (l.flags.pitchStopped ==> m.flags.pitchStopped)
            && (!l.pc.WorkerGone? && m.pc.WorkerGone? ==> m.flags.pitchStopped)
  {
    match l.pc
    case Head => case PauseCheck => case Counting => case Entering(_) => case Announced(_) => case Calling(_) =>
    case Returned(_, _) => case Recording(_, _) => case Tallying(_) =>
    case Left => case Signalling => case WorkerGone =>
  }

  lemma WorkerActProgresses(l: Local, choice: nat)
    requires !l.flags.pitchRunning && !l.pc.WorkerGone?
    ensures StepsToEnd(WorkerAct(l, choice).pc) < StepsToEnd(l.pc)
  {
    match l.pc
    case Head => case PauseCheck => case Counting => case Entering(_) => case Announced(_) => case Calling(_) =>
    case Returned(_, _) => case Recording(_, _) => case Tallying(_) =>
    case Left => case Signalling => case WorkerGone =>
  }

  /** What every step but setting the run flag leaves alone. */
  lemma CoordinatorLeavesWorkers(s: State, step: Step)
    requires !step.FlagPitch?
    ensures var t := CoordinatorStep(s, step);
            && (!s.flags.pitchRunning ==> !t.flags.pitchRunning)
            && (!step.BeginStart? && s.flags.pitchStopped ==> t.flags.pitchStopped)
            && (!step.BeginStart? && s.flags.audioStopped ==> t.flags.audioStopped)
            && t.workers == (if step == CreatePitch(true) then s.workers + [Head] else s.workers)
            && t.audio == (if step == CreateAudio(true) then s.audio + [InRun] else s.audio)
  {
    match step
    case BeginStart => case InitDriver(_) => case CreateAudio(_) => case FlagPitch => case SkipPitch =>
    case CreatePitch(_) => case FailStopAudio => case FailDeinit => case RequestPitchStop =>
    case RequestAudioStop => case SeeStopped => case GiveUp => case FinishStop(_) => case LateDeinit =>
    case ResetRecords => case AudioTest(_) => case AudioSignal(_) => case WorkerStep(_, _) =>
    case SetPause => case ObserveQuiet => case ClearPause =>
  }

  predicate OwnStep(step: Step, i: nat) {
    step.WorkerStep? && step.i == i
  }

  lemma OnlyGoneAtEnd(pc: WorkerPc)
    ensures StepsToEnd(pc) == 0 <==> pc.WorkerGone?
  {
  }

  lemma StepProgresses(cfg: Config, s: State, step: Step, i: nat)
    requires !s.flags.pitchRunning && !step.FlagPitch? && i < |s.workers|
    ensures var t := Act(cfg, s, step);
            && !t.flags.pitchRunning && i < |t.workers|
            && (if OwnStep(step, i)
                then StepsToEnd(s.workers[i]) > 0 ==> StepsToEnd(t.workers[i]) < StepsToEnd(s.workers[i])
                else t.workers[i] == s.workers[i])
            && (s.workers[i].WorkerGone? ==> t.workers[i].WorkerGone?)
            && (!step.BeginStart? && s.flags.pitchStopped ==> t.flags.pitchStopped)
            && (!s.workers[i].WorkerGone? && t.workers[i].WorkerGone? ==> t.flags.pitchStopped)
  {
    hide CoordinatorStep, CoordinatorCan, WorkerAct, StepsToEnd;
    match step
    case AudioTest(_) => case AudioSignal(_) =>
    case WorkerStep(j, choice) =>
      if j < |s.workers| {
        WorkerSetsBit(LocalOf(s, j), choice);
        if !s.workers[j].WorkerGone? {
          WorkerActProgresses(LocalOf(s, j), choice);
        }
        OnlyGoneAtEnd(s.workers[j]);
      }
    case _ =>
      CoordinatorLeavesWorkers(s, step);
  }

  predicate NoFlag(steps: seq<Step>) {
    forall k :: 0 <= k < |steps| ==> !steps[k].FlagPitch?
  }

  predicate NoStart(steps: seq<Step>) {
    forall k :: 0 <= k < |steps| ==> !steps[k].BeginStart?
  }

  function OwnSteps(steps: seq<Step>, i: nat): nat {
    if steps == [] then 0 else (if OwnStep(steps[0], i) then 1 else 0) + OwnSteps(steps[1..], i)
  }

  /** With the run flag clear, eleven of a worker's own steps, whatever happens between them, the pause
      flag included, take it out of its loop and to its end; and unless a start clears it again,
      the bit it leaves behind is set. */
  lemma {:induction false} WorkerEnds(cfg: Config, s: State, steps: seq<Step>, i: nat)
    requires i < |s.workers| && !s.flags.pitchRunning && NoFlag(steps)
    requires OwnSteps(steps, i) >= 11 || OwnSteps(steps, i) >= StepsToEnd(s.workers[i])
    ensures var t := After(cfg, s, steps);
            && i < |t.workers| && t.workers[i].WorkerGone?
            && (NoStart(steps) && (s.flags.pitchStopped || !s.workers[i].WorkerGone?) ==> t.flags.pitchStopped)
    decreases |steps|
  {
    hide Act, StepsToEnd;
    OnlyGoneAtEnd(s.workers[i]);
    if steps != [] {
      assert !steps[0].FlagPitch?;
      StepProgresses(cfg, s, steps[0], i);
      var t := Act(cfg, s, steps[0]);
      OnlyGoneAtEnd(t.workers[i]);
      WorkerEnds(cfg, t, steps[1..], i);
    }
  }

  ghost predicate InCall(s: State, i: nat) {
    i < |s.workers| && s.workers[i].Calling?
  }

  /** How many calls a worker begins in the course of a schedule. */
  ghost function CallsBegun(cfg: Config, s: State, steps: seq<Step>, i: nat): nat
    decreases |steps|
  {
    if steps == [] then 0
    else
      var t := Act(cfg, s, steps[0]);
      (if !InCall(s, i) && InCall(t, i) then 1 else 0) + CallsBegun(cfg, t, steps[1..], i)
  }

  /** Between finding the run flag set and its call. */
  predicate BeforeCall(pc: WorkerPc) {
    pc.PauseCheck? || PastCheck(pc)
  }

  ghost predicate MayBegin(s: State, i: nat) {
    i < |s.workers| && BeforeCall(s.workers[i])
  }

  lemma WorkerActBegins(l: Local, choice: nat)
    requires !l.flags.pitchRunning
    ensures var m := WorkerAct(l, choice);
            && !m.flags.pitchRunning
            && (BeforeCall(m.pc) ==> BeforeCall(l.pc))
            && (m.pc.Calling? ==> BeforeCall(l.pc))
  {
    match l.pc
    case Head => case PauseCheck => case Counting => case Entering(_) => case Announced(_) => case Calling(_) =>
    case Returned(_, _) => case Recording(_, _) => case Tallying(_) =>
    case Left => case Signalling => case WorkerGone =>
  }

  lemma StepBegins(cfg: Config, s: State, step: Step, i: nat)
    requires !s.flags.pitchRunning && !step.FlagPitch?
    ensures var t := Act(cfg, s, step);
            && !t.flags.pitchRunning
            && (MayBegin(t, i) ==> MayBegin(s, i))
            && (InCall(t, i) && !InCall(s, i) ==> MayBegin(s, i) && !MayBegin(t, i))
  {
    hide CoordinatorStep, CoordinatorCan, WorkerAct;
    match step
    case AudioTest(_) => case AudioSignal(_) =>
    case WorkerStep(j, choice) =>
      if j < |s.workers| {
        WorkerActBegins(LocalOf(s, j), choice);
      }
    case _ =>
      CoordinatorLeavesWorkers(s, step);
  }

  /** With the run flag clear, and until it is set again, a worker begins at most one more call: the one
      for which it had already found the flag set. */
  lemma {:induction false} AtMostOneMoreCall(cfg: Config, s: State, steps: seq<Step>, i: nat)
    requires !s.flags.pitchRunning && NoFlag(steps)
    ensures CallsBegun(cfg, s, steps, i) <= if MayBegin(s, i) then 1 else 0
    decreases |steps|
  {
    hide Act, MayBegin, InCall;
    if steps != [] {
      assert !steps[0].FlagPitch?;
      StepBegins(cfg, s, steps[0], i);
      AtMostOneMoreCall(cfg, Act(cfg, s, steps[0]), steps[1..], i);
    }
  }

  // ---------------------------------------------------------------------
  // Which waits can be confirmed
  // ---------------------------------------------------------------------

  /** Each of the two bits is set or has a task left that will set it. */
  ghost predicate BitsCome(s: State) {
    && (s.flags.audioStopped || !AudioAllGone(s))
    && (s.flags.pitchStopped || !WorkersAllGone(s))
  }

  /** The wait ends in confirmation under some schedule. */
  ghost predicate CanConfirm(cfg: Config, s: State) {
    exists steps :: NoGiveUp(steps) && After(cfg, s, steps).coordinator.Confirmed?
  }

  predicate NoGiveUp(steps: seq<Step>) {
    forall k :: 0 <= k < |steps| ==> !steps[k].GiveUp?
  }

  /** What the coordinator has asked for by the time it waits. */
  ghost predicate Requested(s: State) {
    && (s.coordinator.PitchStopRequested? || s.coordinator.Waiting? ==> !s.flags.pitchRunning)
    && (s.coordinator.Waiting? ==> !s.flags.audioRunning)
  }

  lemma RequestedKept(cfg: Config, s: State, step: Step)
    requires Requested(s)
    ensures Requested(Act(cfg, s, step))
  {
    hide WorkerAct;
    match step
    case WorkerStep(i, choice) =>
      if i < |s.workers| {
        WorkerSetsBit(LocalOf(s, i), choice);
      }
    case _ =>
  }

  lemma {:induction false} RequestedAlways(cfg: Config, s: State, steps: seq<Step>)
    requires Requested(s)
    ensures Requested(After(cfg, s, steps))
    decreases |steps|
  {
    hide Act, Requested;
    if steps != [] {
      RequestedKept(cfg, s, steps[0]);
      RequestedAlways(cfg, Act(cfg, s, steps[0]), steps[1..]);
    }
  }

  lemma InitiallyRequested()
    ensures Requested(INITIAL_STATE)
  {
  }

  /** An audio task that is left signals once its run flag is clear. */
  lemma AudioSignals(cfg: Config, s: State) returns (steps: seq<Step>)
    requires !s.flags.audioRunning && (s.flags.audioStopped || !AudioAllGone(s))
    ensures NoGiveUp(steps)
    ensures var t := After(cfg, s, steps);
            t.flags == s.flags.(audioStopped := true) && t.coordinator == s.coordinator && t.workers == s.workers
  {
    hide After, Act;
    if s.flags.audioStopped {
      steps := [];
      NothingDone(cfg, s);
    } else {
      var i :| 0 <= i < |s.audio| && !s.audio[i].AudioGone?;
      steps := [AudioTest(i), AudioSignal(i)];
      AfterTwo(cfg, s, AudioTest(i), AudioSignal(i));
      AudioEnds(cfg, s, i);
    }
  }

  lemma NothingDone(cfg: Config, s: State)
    ensures After(cfg, s, []) == s
  {
  }

  lemma AudioEnds(cfg: Config, s: State, i: nat)
    requires i < |s.audio| && !s.audio[i].AudioGone? && !s.flags.audioRunning
    ensures var t := Act(cfg, Act(cfg, s, AudioTest(i)), AudioSignal(i));
            t.flags == s.flags.(audioStopped := true) && t.coordinator == s.coordinator && t.workers == s.workers
  {
  }

  /** So does a worker, by its own steps. */
  lemma WorkerSignalsOnItsOwn(cfg: Config, s: State) returns (steps: seq<Step>)
    requires !s.flags.pitchRunning && (s.flags.pitchStopped || !WorkersAllGone(s))
    ensures NoGiveUp(steps)
    ensures var t := After(cfg, s, steps);
            t.flags.pitchStopped && t.flags.audioStopped == s.flags.audioStopped && t.coordinator == s.coordinator
  {
    hide After;
    if s.flags.pitchStopped {
      steps := [];
      NothingDone(cfg, s);
    } else {
      var i :| 0 <= i < |s.workers| && !s.workers[i].WorkerGone?;
      steps := Turns(i, 11);
      TurnsAreOwn(i, 11);
      WorkerEnds(cfg, s, steps, i);
      TurnsLeave(cfg, s, i, 11);
    }
  }

  function Turns(i: nat, n: nat): seq<Step> {
    if n == 0 then [] else [WorkerStep(i, 0)] + Turns(i, n - 1)
  }

  lemma {:induction false} TurnsAreOwn(i: nat, n: nat)
    ensures OwnSteps(Turns(i, n), i) == n
    ensures forall k :: 0 <= k < |Turns(i, n)| ==> OwnStep(Turns(i, n)[k], i)
  {
    if n > 0 {
      TurnsAreOwn(i, n - 1);
      assert Turns(i, n)[1..] == Turns(i, n - 1);
    }
  }

  lemma {:induction false} TurnsLeave(cfg: Config, s: State, i: nat, n: nat)
    ensures var t := After(cfg, s, Turns(i, n));
            t.flags.audioStopped == s.flags.audioStopped && t.coordinator == s.coordinator
    decreases n
  {
    hide Act;
    if n > 0 {
      TurnLeaves(cfg, s, i);
      assert Turns(i, n)[1..] == Turns(i, n - 1);
      TurnsLeave(cfg, Act(cfg, s, WorkerStep(i, 0)), i, n - 1);
    }
  }

  lemma TurnLeaves(cfg: Config, s: State, i: nat)
    ensures var t := Act(cfg, s, WorkerStep(i, 0));
            t.flags.audioStopped == s.flags.audioStopped && t.coordinator == s.coordinator
  {
    hide WorkerAct;
    if i < |s.workers| {
      WorkerSignals(LocalOf(s, i), 0);
    }
  }

  lemma BitsComeConfirms(cfg: Config, s: State) returns (steps: seq<Step>)
    requires s.coordinator.Waiting? && Requested(s) && BitsCome(s)
    ensures NoGiveUp(steps) && After(cfg, s, steps).coordinator.Confirmed?
  {
    hide After, Act;
    var first := AudioSignals(cfg, s);
    var t := After(cfg, s, first);
    var second := WorkerSignalsOnItsOwn(cfg, t);
    var u := After(cfg, t, second);
    steps := first + (second + [SeeStopped]);
    AfterConcat(cfg, s, first, second + [SeeStopped]);
    AfterConcat(cfg, t, second, [SeeStopped]);
    AfterOne(cfg, u, SeeStopped);
    StopCompletes(cfg, u);
  }

  /** Waiting for a bit that nobody is left to set. */
  ghost predicate WaitsInVain(s: State) {
    s.coordinator.Waiting? && !BitsCome(s)
  }

  lemma VainKept(cfg: Config, s: State, step: Step)
    requires WaitsInVain(s) && !step.GiveUp?
    ensures WaitsInVain(Act(cfg, s, step))
  {
    hide WorkerAct, CoordinatorStep;
    match step
    case AudioTest(_) => case AudioSignal(_) =>
    case WorkerStep(i, choice) =>
      if i < |s.workers| {
        WorkerSignals(LocalOf(s, i), choice);
      }
    case _ =>
  }

  lemma {:induction false} VainLasts(cfg: Config, s: State, steps: seq<Step>)
    requires WaitsInVain(s) && NoGiveUp(steps)
    ensures WaitsInVain(After(cfg, s, steps))
    decreases |steps|
  {
    hide Act, WaitsInVain;
    if steps != [] {
      assert !steps[0].GiveUp?;
      VainKept(cfg, s, steps[0]);
      VainLasts(cfg, Act(cfg, s, steps[0]), steps[1..]);
    }
  }

  /** In every configuration and every reachable wait: some schedule confirms it, workers included,
      exactly if each bit is already set or has a task left to set it. */
  lemma ConfirmedIffBitsCome(cfg: Config, before: seq<Step>)
    requires After(cfg, INITIAL_STATE, before).coordinator.Waiting?
    ensures var s := After(cfg, INITIAL_STATE, before);
            CanConfirm(cfg, s) <==> BitsCome(s)
  {
    hide After, Act, BitsCome;
    var s := After(cfg, INITIAL_STATE, before);
    InitiallyRequested();
    RequestedAlways(cfg, INITIAL_STATE, before);
    if BitsCome(s) {
      var steps := BitsComeConfirms(cfg, s);
    }
    if steps :| NoGiveUp(steps) && After(cfg, s, steps).coordinator.Confirmed? {
      if !BitsCome(s) {
        VainLasts(cfg, s, steps);
      }
    }
  }

  /** A start that returned true leaves both bits to come. */
  ghost predicate StartLeavesBits(s: State) {
    var c := s.coordinator;
    && (c.AudioCreated? || c.PitchFlagged? || c.Up? ==> s.flags.audioStopped || !AudioAllGone(s))
    && (c.Up? ==> s.flags.pitchStopped || !WorkersAllGone(s))
  }

  lemma CoordinatorKeepsBits(s: State, step: Step, cfg: Config)
    requires CoordinatorCan(cfg, s, step)
    ensures var t := CoordinatorStep(s, step);
            && (StartLeavesBits(s) ==> StartLeavesBits(t))
            && (BitsCome(s) && !step.BeginStart? ==> BitsCome(t))
  {
    if step == CreateAudio(true) {
      assert (s.audio + [InRun])[|s.audio|] == InRun;
    }
    if step == CreatePitch(true) {
      assert (s.workers + [Head])[|s.workers|] == Head;
    }
  }

  lemma TasksKeepBits(cfg: Config, s: State, step: Step)
    requires step.AudioTest? || step.AudioSignal? || step.WorkerStep?
    ensures var t := Act(cfg, s, step);
            && t.coordinator == s.coordinator
            && (s.flags.audioStopped || !AudioAllGone(s) ==> t.flags.audioStopped || !AudioAllGone(t))
            && (s.flags.pitchStopped || !WorkersAllGone(s) ==> t.flags.pitchStopped || !WorkersAllGone(t))
  {
    hide WorkerAct;
    match step
    case WorkerStep(i, choice) =>
      if i < |s.workers| {
        WorkerMoveKeepsBits(s, i, choice);
      }
    case _ =>
      AudioMoveKeepsBits(s, step);
  }

  lemma AudioMoveKeepsBits(s: State, step: Step)
    ensures var t := AudioMove(s, step);
            && (s.flags.audioStopped || !AudioAllGone(s) ==> t.flags.audioStopped || !AudioAllGone(t))
            && t.flags.pitchStopped == s.flags.pitchStopped && t.workers == s.workers
  {
    if !AudioAllGone(s) && !AudioMove(s, step).flags.audioStopped {
      var k :| 0 <= k < |s.audio| && !s.audio[k].AudioGone?;
      assert !AudioMove(s, step).audio[k].AudioGone?;
    }
  }

  lemma WorkerMoveKeepsBits(s: State, i: nat, choice: nat)
    requires i < |s.workers|
    ensures var t := WorkerMove(s, i, choice);
            && t.audio == s.audio && t.flags.audioStopped == s.flags.audioStopped
            && (s.flags.pitchStopped || !WorkersAllGone(s) ==> t.flags.pitchStopped || !WorkersAllGone(t))
  {
    hide WorkerAct;
    var t := WorkerMove(s, i, choice);
    WorkerSignals(LocalOf(s, i), choice);
    WorkerSetsBit(LocalOf(s, i), choice);
    if !WorkersAllGone(s) && !t.flags.pitchStopped {
      var k :| 0 <= k < |s.workers| && !s.workers[k].WorkerGone?;
      assert !t.workers[k].WorkerGone?;
    }
  }

  lemma BitsKept(cfg: Config, s: State, step: Step)
    ensures var t := Act(cfg, s, step);
            && (StartLeavesBits(s) ==> StartLeavesBits(t))
            && (BitsCome(s) && !step.BeginStart? ==> BitsCome(t))
  {
    hide CoordinatorStep, CoordinatorCan;
    if step.AudioTest? || step.AudioSignal? || step.WorkerStep? {
      hide Act, AudioAllGone, WorkersAllGone;
      TasksKeepBits(cfg, s, step);
    } else {
      hide BitsCome, StartLeavesBits;
      if CoordinatorCan(cfg, s, step) {
        CoordinatorKeepsBits(s, step, cfg);
      }
    }
  }

  lemma {:induction false} StartLeavesBitsAlways(cfg: Config, s: State, steps: seq<Step>)
    requires StartLeavesBits(s)
    ensures StartLeavesBits(After(cfg, s, steps))
    decreases |steps|
  {
    hide Act, StartLeavesBits;
    if steps != [] {
      BitsKept(cfg, s, steps[0]);
      StartLeavesBitsAlways(cfg, Act(cfg, s, steps[0]), steps[1..]);
    }
  }

  lemma {:induction false} BitsComeUntilStart(cfg: Config, s: State, steps: seq<Step>)
    requires BitsCome(s) && NoStart(steps)
    ensures BitsCome(After(cfg, s, steps))
    decreases |steps|
  {
    hide Act, BitsCome;
    if steps != [] {
      assert !steps[0].BeginStart?;
      BitsKept(cfg, s, steps[0]);
      BitsComeUntilStart(cfg, Act(cfg, s, steps[0]), steps[1..]);
    }
  }

  lemma InitiallyBits()
    ensures StartLeavesBits(INITIAL_STATE)
  {
  }

  /** After a start that returned true, and until the next start, every wait of every stop can be
      confirmed, in every configuration. */
  lemma StopOfStartedCanConfirm(cfg: Config, before: seq<Step>, later: seq<Step>)
    requires After(cfg, INITIAL_STATE, before).coordinator.Up? && NoStart(later)
    requires After(cfg, After(cfg, INITIAL_STATE, before), later).coordinator.Waiting?
    ensures CanConfirm(cfg, After(cfg, After(cfg, INITIAL_STATE, before), later))
  {
    hide After, Act, CanConfirm;
    var s := After(cfg, INITIAL_STATE, before);
    InitiallyBits();
    StartLeavesBitsAlways(cfg, INITIAL_STATE, before);
    BitsComeUntilStart(cfg, s, later);
    AfterConcat(cfg, INITIAL_STATE, before, later);
    ConfirmedIffBitsCome(cfg, before + later);
  }

  /** A stop where nothing was started waits in vain. */
  lemma StopOfNothingWaitsInVain(cfg: Config)
    ensures var s := After(cfg, INITIAL_STATE, [RequestPitchStop, RequestAudioStop]);
            s.coordinator.Waiting? && !CanConfirm(cfg, s)
  {
    hide After, Act;
    var steps := [RequestPitchStop, RequestAudioStop];
    AfterTwo(cfg, INITIAL_STATE, RequestPitchStop, RequestAudioStop);
    StopIsRequested(cfg, INITIAL_STATE);
    ConfirmedIffBitsCome(cfg, steps);
  }

  // ---------------------------------------------------------------------
  // Once the driver is down
  // ---------------------------------------------------------------------

  /** Audio tasks find their run flag clear. */
  ghost predicate DownIsStopped(s: State) {
    !s.flags.driverUp ==> !s.flags.audioRunning
  }

  /** The driver is down whenever the coordinator is idle and up while a start is under way or done. */
  ghost predicate DriverFollows(s: State) {
    && (s.coordinator.Idle? ==> !s.flags.driverUp)
    && (Starting(s.coordinator) || s.coordinator.Up? ==> s.flags.driverUp && s.flags.audioRunning)
  }

  lemma CoordinatorFollows(cfg: Config, s: State, step: Step)
    requires DriverFollows(s) && DownIsStopped(s) && CoordinatorCan(cfg, s, step)
    ensures DriverFollows(CoordinatorStep(s, step)) && DownIsStopped(CoordinatorStep(s, step))
  {
    match step
    case BeginStart => case InitDriver(_) => case CreateAudio(_) => case FlagPitch => case SkipPitch =>
    case CreatePitch(_) => case FailStopAudio => case FailDeinit => case RequestPitchStop =>
    case RequestAudioStop => case SeeStopped => case GiveUp => case FinishStop(_) => case LateDeinit =>
    case ResetRecords => case SetPause => case ObserveQuiet => case ClearPause => case _ =>
  }

  lemma DriverFollowsKept(cfg: Config, s: State, step: Step)
    requires DriverFollows(s) && DownIsStopped(s)
    ensures DriverFollows(Act(cfg, s, step)) && DownIsStopped(Act(cfg, s, step))
  {
    hide WorkerAct, CoordinatorStep, CoordinatorCan;
    match step
    case AudioTest(_) => case AudioSignal(_) =>
    case WorkerStep(i, choice) =>
      if i < |s.workers| {
        WorkerSignals(LocalOf(s, i), choice);
        WorkerSetsBit(LocalOf(s, i), choice);
      }
    case _ =>
      if CoordinatorCan(cfg, s, step) {
        CoordinatorFollows(cfg, s, step);
      }
  }

  lemma {:induction false} DriverFollowsOn(cfg: Config, s: State, steps: seq<Step>)
    requires DriverFollows(s) && DownIsStopped(s)
    ensures DriverFollows(After(cfg, s, steps)) && DownIsStopped(After(cfg, s, steps))
    decreases |steps|
  {
    hide Act, DriverFollows, DownIsStopped;
    if steps != [] {
      DriverFollowsKept(cfg, s, steps[0]);
      DriverFollowsOn(cfg, Act(cfg, s, steps[0]), steps[1..]);
    }
  }

  lemma InitiallyDown()
    ensures DriverFollows(INITIAL_STATE) && DownIsStopped(INITIAL_STATE)
  {
  }

  /** In every configuration and every reachable state: a start that failed after getting the driver, or
      a stop that deinitialises, leaves it down; a start under way or done has it up; and whoever
      takes it down clears the audio task's run flag with it. */
  lemma DriverAlwaysFollows(cfg: Config, steps: seq<Step>)
    ensures var s := After(cfg, INITIAL_STATE, steps);
            && (s.coordinator.Idle? ==> !s.flags.driverUp)
            && (Starting(s.coordinator) || s.coordinator.Up? ==> s.flags.driverUp && s.flags.audioRunning)
            && (!s.flags.driverUp ==> !s.flags.audioRunning)
  {
    hide After;
    InitiallyDown();
    DriverFollowsOn(cfg, INITIAL_STATE, steps);
  }

  // ---------------------------------------------------------------------
  // Start and stop on their own
  // ---------------------------------------------------------------------

  /** How a start goes. */
  datatype Course = NoChannels | NoDriver | NoAudioTask | NoPitchTask | WithoutPitch | WithPitch

  function StartSteps(course: Course): seq<Step> {
    match course
    case NoChannels => [BeginStart, InitDriver(RefusedChannels)]
    case NoDriver => [BeginStart, InitDriver(FailedLater)]
    case NoAudioTask => [BeginStart, InitDriver(Ready), CreateAudio(false)]
    case NoPitchTask =>
      [BeginStart, InitDriver(Ready), CreateAudio(true)]
      + ([FlagPitch, CreatePitch(false), FailStopAudio] + [FailDeinit])
    case WithoutPitch => [BeginStart, InitDriver(Ready), CreateAudio(true)] + [SkipPitch]
    case WithPitch => [BeginStart, InitDriver(Ready), CreateAudio(true)] + [FlagPitch, CreatePitch(true)]
  }

  /** A start leaves this: the two courses that succeed, a fresh audio task, and a worker if one was
      asked for, all flagged to run and none of them signalled; a refused one changes nothing but
      the bits; any other leaves the driver down. */
  ghost predicate StartLeaves(s: State, course: Course, t: State) {
    var f, succeeds := t.flags, course.WithoutPitch? || course.WithPitch?;
    && t.returned == [] && t.tally == NO_TALLY && t.log == s.log && t.window == s.window
    && f.pause == s.flags.pause && f.inCall == s.flags.inCall && !f.audioStopped
    && t.audio == (if succeeds || course.NoPitchTask? then s.audio + [InRun] else s.audio)
    && t.workers == (if course.WithPitch? then s.workers + [Head] else s.workers)
    && f.driverUp == f.audioRunning == succeeds
    && f.pitchStopped == course.WithoutPitch?
    && (course.WithPitch? ==> f.pitchRunning) && (course.NoPitchTask? ==> !f.pitchRunning)
    && t.coordinator == (if succeeds then Up else if course.NoChannels? then Refused else Idle)
  }

  lemma EarlyFailure(cfg: Config, s: State, course: Course)
    requires CoordinatorCan(cfg, s, BeginStart) && !s.flags.driverUp && !s.flags.audioRunning
    requires course.NoChannels? || course.NoDriver? || course.NoAudioTask?
    ensures StartLeaves(s, course, After(cfg, s, StartSteps(course)))
  {
    hide After, WorkerMove;
    match course
    case NoChannels => AfterTwo(cfg, s, BeginStart, InitDriver(RefusedChannels));
    case NoDriver => AfterTwo(cfg, s, BeginStart, InitDriver(FailedLater));
    case NoAudioTask => AfterThree(cfg, s, BeginStart, InitDriver(Ready), CreateAudio(false));
  }

  lemma AudioTaskCreated(cfg: Config, s: State)
    requires CoordinatorCan(cfg, s, BeginStart) && !s.flags.driverUp
    ensures After(cfg, s, [BeginStart, InitDriver(Ready), CreateAudio(true)])
         == s.(coordinator := AudioCreated, audio := s.audio + [InRun], tally := NO_TALLY, returned := [],
               flags := s.flags.(audioStopped := false, pitchStopped := false, driverUp := true, audioRunning := true))
  {
    hide After, WorkerMove;
    AfterThree(cfg, s, BeginStart, InitDriver(Ready), CreateAudio(true));
  }

  lemma PitchFailure(cfg: Config, s: State)
    requires CoordinatorCan(cfg, s, BeginStart) && !s.flags.driverUp && cfg.pitchCreationMayFail
    ensures StartLeaves(s, NoPitchTask, After(cfg, s, StartSteps(NoPitchTask)))
  {
    hide After, WorkerMove;
    var up, fail := [BeginStart, InitDriver(Ready), CreateAudio(true)], [FlagPitch, CreatePitch(false), FailStopAudio];
    var t := After(cfg, s, up);
    AudioTaskCreated(cfg, s);
    AfterConcat(cfg, s, up, fail + [FailDeinit]);
    AfterConcat(cfg, t, fail, [FailDeinit]);
    AfterThree(cfg, t, FlagPitch, CreatePitch(false), FailStopAudio);
    AfterOne(cfg, After(cfg, t, fail), FailDeinit);
  }

  lemma Success(cfg: Config, s: State, course: Course)
    requires CoordinatorCan(cfg, s, BeginStart) && !s.flags.driverUp
    requires course.WithoutPitch? || course.WithPitch?
    ensures StartLeaves(s, course, After(cfg, s, StartSteps(course)))
  {
    hide After, WorkerMove;
    var up := [BeginStart, InitDriver(Ready), CreateAudio(true)];
    var t := After(cfg, s, up);
    AudioTaskCreated(cfg, s);
    if course.WithoutPitch? {
      AfterConcat(cfg, s, up, [SkipPitch]);
      AfterOne(cfg, t, SkipPitch);
    } else {
      AfterConcat(cfg, s, up, [FlagPitch, CreatePitch(true)]);
      AfterTwo(cfg, t, FlagPitch, CreatePitch(true));
    }
  }

  lemma UninterruptedStart(cfg: Config, s: State, course: Course)
    requires CoordinatorCan(cfg, s, BeginStart) && !s.flags.driverUp && !s.flags.audioRunning
    requires course.NoPitchTask? ==> cfg.pitchCreationMayFail
    ensures StartLeaves(s, course, After(cfg, s, StartSteps(course)))
  {
    hide StartLeaves, After, StartSteps, CoordinatorCan;
    match course
    case NoPitchTask => PitchFailure(cfg, s);
    case WithoutPitch => Success(cfg, s, course);
    case WithPitch => Success(cfg, s, course);
    case _ => EarlyFailure(cfg, s, course);
  }

  /** What a stop of finished tasks leaves: run flags and, if asked for, the driver down; nothing else. */
  lemma UninterruptedStop(cfg: Config, s: State, deinit: bool)
    requires BetweenCalls(s.coordinator) && s.flags.audioStopped && s.flags.pitchStopped
    ensures After(cfg, s, [RequestPitchStop, RequestAudioStop] + [SeeStopped, FinishStop(deinit)])
         == s.(coordinator := if deinit then Idle else StoppedUp,
               flags := s.flags.(pitchRunning := false, audioRunning := false,
                                 driverUp := s.flags.driverUp && !deinit))
  {
    hide After, Act;
    var request, finish := [RequestPitchStop, RequestAudioStop], [SeeStopped, FinishStop(deinit)];
    AfterConcat(cfg, s, request, finish);
    AfterTwo(cfg, s, RequestPitchStop, RequestAudioStop);
    StopIsRequested(cfg, s);
    var t := After(cfg, s, request);
    AfterTwo(cfg, t, SeeStopped, FinishStop(deinit));
    StopCompletes(cfg, t);
    StopKeepsDriver(cfg, t.(coordinator := Confirmed));
  }

  lemma StopKeepsDriver(cfg: Config, s: State)
    requires s.coordinator.Confirmed?
    ensures Act(cfg, s, FinishStop(false)) == s.(coordinator := StoppedUp)
  {
  }

  // ---------------------------------------------------------------------
  // A refused start can leave the driver up for good
  // ---------------------------------------------------------------------

  /** The driver is up, its tasks are gone, and a refused start has cleared the bits they left. */
  ghost predicate Abandoned(s: State) {
    ShutOut(s) && AudioAllGone(s) && WorkersAllGone(s) && !s.flags.audioStopped
  }

  lemma AbandonedKept(cfg: Config, s: State, step: Step)
    requires !cfg.occupiedInitMaySucceed && !cfg.mayDeinitAfterTimeout && Abandoned(s)
    ensures Abandoned(Act(cfg, s, step))
  {
    hide WorkerAct;
    match step
    case WorkerStep(i, choice) =>
      if i < |s.workers| {
        GoneStaysGone(LocalOf(s, i), choice);
        assert s.workers[i := WorkerGone] == s.workers;
      }
    case AudioTest(_) => case AudioSignal(_) =>
    case _ =>
  }

  lemma {:induction false} AbandonedLasts(cfg: Config, s: State, steps: seq<Step>)
    requires !cfg.occupiedInitMaySucceed && !cfg.mayDeinitAfterTimeout && Abandoned(s)
    ensures Abandoned(After(cfg, s, steps))
    decreases |steps|
  {
    hide Act, Abandoned;
    if steps != [] {
      AbandonedKept(cfg, s, steps[0]);
      AbandonedLasts(cfg, Act(cfg, s, steps[0]), steps[1..]);
    }
  }

  /** If the tasks of a timed-out stop signal before the next start and that start is refused, its
      clearing of the bits is final: no later stop is ever confirmed, no later start succeeds and the
      driver is never released. */
  lemma RefusedStartAbandons(cfg: Config) returns (before: seq<Step>)
    requires cfg.mayRestartAfterTimeout && !cfg.occupiedInitMaySucceed && !cfg.mayDeinitAfterTimeout
    ensures var s := After(cfg, INITIAL_STATE, before);
            && s.coordinator.Refused? && AudioAllGone(s) && WorkersAllGone(s)
            && forall later ::
                 var t := After(cfg, s, later);
                 t.flags.driverUp && !t.coordinator.Up? && !t.coordinator.Confirmed?
  {
    hide After, Act;
    var first := OneMoreAudioTask(cfg, INITIAL_STATE);
    var s1 := After(cfg, INITIAL_STATE, first);
    var signal, refuse := [GiveUp, AudioTest(0), AudioSignal(0)], [BeginStart, InitDriver(RefusedChannels)];
    before := first + (signal + refuse);
    AfterConcat(cfg, INITIAL_STATE, first, signal + refuse);
    AfterConcat(cfg, s1, signal, refuse);
    AfterThree(cfg, s1, GiveUp, AudioTest(0), AudioSignal(0));
    GivesUp(cfg, s1);
    var s2 := s1.(coordinator := TimedOut);
    LastTaskSignals(cfg, s2);
    var s3 := After(cfg, s1, signal);
    AfterTwo(cfg, s3, BeginStart, InitDriver(RefusedChannels));
    StartRefused(cfg, s3);
    var s := After(cfg, s3, refuse);
    forall later
      ensures var t := After(cfg, s, later);
              t.flags.driverUp && !t.coordinator.Up? && !t.coordinator.Confirmed?
    {
      AbandonedLasts(cfg, s, later);
    }
  }

  lemma GivesUp(cfg: Config, s: State)
    requires s.coordinator.Waiting? && !s.flags.audioStopped
    ensures Act(cfg, s, GiveUp) == s.(coordinator := TimedOut)
  {
  }

  lemma StartRefused(cfg: Config, s: State)
    requires s.coordinator.TimedOut? && cfg.mayRestartAfterTimeout
    ensures var t := Act(cfg, Act(cfg, s, BeginStart), InitDriver(RefusedChannels));
            && t.coordinator.Refused? && t.audio == s.audio && t.workers == s.workers
            && !t.flags.audioStopped && t.flags.driverUp == s.flags.driverUp
  {
  }
}
