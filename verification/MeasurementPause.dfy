/** The handshake that quiets the pitch worker around a measurement: what setting the
    pause flag bounds, and exactly when seeing in-call clear means the worker is quiet. */
module MeasurementPause {
  import opened PipelineTasks
  import opened PipelineProgress

  ghost predicate SomePastCheck(workers: seq<WorkerPc>) {
    exists i :: 0 <= i < |workers| && PastCheck(workers[i])
  }

  ghost predicate SomeCalling(workers: seq<WorkerPc>) {
    exists i :: 0 <= i < |workers| && workers[i].Calling?
  }

  /** Where the latest start's worker is. */
  function Current(s: State): WorkerPc {
    if s.workers == [] then WorkerGone else s.workers[|s.workers| - 1]
  }

  predicate HandshakeAt(pc: WorkerPc, f: Flags, w: Window) {
    && (MarkedInCall(pc) <==> f.inCall)
    && (f.pause ==>
          && w.calls <= 1 && w.callsAfterSaw == 0
          && (PastCheck(pc) ==> w.calls == 0 && !w.saw))
  }

  ghost predicate Handshake(s: State) {
    HandshakeAt(Current(s), s.flags, s.window)
  }

  lemma WorkerActKeepsHandshake(l: Local, choice: nat)
    requires HandshakeAt(l.pc, l.flags, l.window)
    ensures var m := WorkerAct(l, choice);
            HandshakeAt(m.pc, m.flags, m.window)
  {
    match l.pc
    case Head => case PauseCheck => case Counting => case Entering(_) => case Announced(_) => case Calling(_) =>
    case Returned(_, _) => case Recording(_, _) => case Tallying(_) =>
    case Left => case Signalling => case WorkerGone =>
  }

  /** Only the newest worker can be anywhere but gone. */
  lemma OnlyCurrent(s: State)
    requires EarlierWorkersGone(s)
    ensures SomePastCheck(s.workers) <==> PastCheck(Current(s))
    ensures SomeCalling(s.workers) <==> Current(s).Calling?
  {
    if s.workers != [] {
      assert s.workers[|s.workers| - 1] == Current(s);
    }
  }

  /** All that the handshake needs to know of every other step. */
  lemma StartStopLeavesHandshake(s: State, step: Step)
    requires !step.SetPause? && !step.ObserveQuiet? && !step.ClearPause?
    ensures var t := CoordinatorStep(s, step);
            && t.flags.inCall == s.flags.inCall && t.flags.pause == s.flags.pause && t.window == s.window
            && t.workers == if step == CreatePitch(true) then s.workers + [Head] else s.workers
  {
    match step
    case BeginStart => case InitDriver(_) => case CreateAudio(_) => case FlagPitch => case SkipPitch =>
    case CreatePitch(_) => case FailStopAudio => case FailDeinit => case RequestPitchStop =>
    case RequestAudioStop => case SeeStopped => case GiveUp => case FinishStop(_) => case LateDeinit =>
    case ResetRecords => case AudioTest(_) => case AudioSignal(_) => case WorkerStep(_, _) =>
    case SetPause => case ObserveQuiet => case ClearPause =>
  }

  /** Marking the moment in-call was seen clear, or turning the flag. */
  lemma MeasurementKeepsHandshake(s: State, step: Step)
    requires EarlierWorkersGone(s) && Handshake(s)
    requires step.SetPause? || (step.ObserveQuiet? && !s.flags.inCall) || step.ClearPause?
    ensures Handshake(CoordinatorStep(s, step))
  {
  }

  lemma NewWorkerKeepsHandshake(s: State, t: State)
    requires Handshake(s)
    requires t.flags.inCall == s.flags.inCall && t.flags.pause == s.flags.pause && t.window == s.window
    requires t.workers == s.workers || (t.workers == s.workers + [Head] && WorkersAllGone(s))
    ensures Handshake(t)
  {
  }

  lemma NoneBeforeCreation(cfg: Config, s: State)
    requires OneWorker(cfg, s) && s.coordinator.PitchFlagged?
    ensures WorkersAllGone(s)
  {
  }

  lemma CoordinatorKeepsHandshake(cfg: Config, s: State, step: Step)
    requires OneAtATime(cfg) && OneWorker(cfg, s) && Handshake(s) && CoordinatorCan(cfg, s, step)
    ensures Handshake(CoordinatorStep(s, step))
  {
    hide Handshake, OneWorker, CoordinatorStep;
    if step.SetPause? || step.ObserveQuiet? || step.ClearPause? {
      OnlyLatestWorker(cfg, s);
      MeasurementKeepsHandshake(s, step);
    } else {
      StartStopLeavesHandshake(s, step);
      if step == CreatePitch(true) {
        NoneBeforeCreation(cfg, s);
      }
      NewWorkerKeepsHandshake(s, CoordinatorStep(s, step));
    }
  }

  lemma AudioKeepsHandshake(s: State, step: Step)
    requires Handshake(s)
    ensures Handshake(AudioMove(s, step))
  {
  }

  lemma WorkerKeepsHandshake(s: State, i: nat, choice: nat)
    requires EarlierWorkersGone(s) && Handshake(s) && i < |s.workers|
    ensures Handshake(WorkerMove(s, i, choice))
  {
    hide WorkerAct, HandshakeAt;
    if i < |s.workers| - 1 {
      assert s.workers[i] == WorkerGone;
      GoneStaysGone(LocalOf(s, i), choice);
    } else {
      WorkerActKeepsHandshake(LocalOf(s, i), choice);
    }
  }

  lemma HandshakeKept(cfg: Config, s: State, step: Step)
    requires OneAtATime(cfg) && OneWorker(cfg, s) && Handshake(s)
    ensures Handshake(Act(cfg, s, step))
  {
    hide OneWorker, Handshake, CoordinatorStep, CoordinatorCan, AudioMove, WorkerMove;
    match step
    case AudioTest(_) => AudioKeepsHandshake(s, step);
    case AudioSignal(_) => AudioKeepsHandshake(s, step);
    case WorkerStep(i, choice) =>
      if i < |s.workers| {
        OnlyLatestWorker(cfg, s);
        WorkerKeepsHandshake(s, i, choice);
      }
    case _ =>
      if CoordinatorCan(cfg, s, step) {
        CoordinatorKeepsHandshake(cfg, s, step);
      }
  }

  lemma {:induction false} HandshakeAlways(cfg: Config, s: State, steps: seq<Step>)
    requires OneAtATime(cfg) && OneWorker(cfg, s) && Handshake(s)
    ensures OneWorker(cfg, After(cfg, s, steps)) && Handshake(After(cfg, s, steps))
    decreases |steps|
  {
    hide Act, OneWorker, Handshake;
    if steps != [] {
      OneWorkerKept(cfg, s, steps[0]);
      HandshakeKept(cfg, s, steps[0]);
      HandshakeAlways(cfg, Act(cfg, s, steps[0]), steps[1..]);
    }
  }

  /** What setting the pause flag is meant to bound: from then until it is cleared at most one
      call begins, and none once a worker has read the flag as set. */
  ghost predicate PauseBounds(s: State) {
    s.flags.pause ==> s.window.calls <= 1 && s.window.callsAfterSaw == 0
  }

  /** A start with a pitch worker. */
  lemma StartWithWorker(cfg: Config, s: State) returns (steps: seq<Step>)
    requires CoordinatorCan(cfg, s, BeginStart) && (!s.flags.driverUp || cfg.occupiedInitMaySucceed)
    ensures var t := After(cfg, s, steps);
            && t.coordinator == Up && t.workers == s.workers + [Head] && t.window == s.window
            && t.flags.pitchRunning && !t.flags.audioStopped
            && t.flags.pause == s.flags.pause && t.flags.inCall == s.flags.inCall
  {
    hide After, WorkerMove;
    var up, pitch := [BeginStart, InitDriver(Ready), CreateAudio(true)], [FlagPitch, CreatePitch(true)];
    steps := up + pitch;
    AfterConcat(cfg, s, up, pitch);
    AfterThree(cfg, s, BeginStart, InitDriver(Ready), CreateAudio(true));
    AfterTwo(cfg, After(cfg, s, up), FlagPitch, CreatePitch(true));
  }

  lemma StopTimesOut(cfg: Config, s: State) returns (steps: seq<Step>)
    requires s.coordinator == Up && !s.flags.audioStopped
    requires cfg.mayDeinitAfterTimeout || cfg.occupiedInitMaySucceed
    ensures var t := After(cfg, s, steps);
            && t.coordinator == TimedOut && t.workers == s.workers && t.window == s.window
            && t.flags.pause == s.flags.pause && (!t.flags.driverUp || cfg.occupiedInitMaySucceed)
  {
    hide After, WorkerMove;
    var stop, deinit := [RequestPitchStop, RequestAudioStop, GiveUp], [LateDeinit];
    steps := stop + deinit;
    AfterConcat(cfg, s, stop, deinit);
    AfterThree(cfg, s, RequestPitchStop, RequestAudioStop, GiveUp);
    AfterOne(cfg, After(cfg, s, stop), LateDeinit);
  }

  /** A worker whose flags let it through reaches the point past its check. */
  lemma WorkerPasses(cfg: Config, s: State, i: nat) returns (steps: seq<Step>)
    requires i < |s.workers| && s.workers[i] == Head && s.flags.pitchRunning && !s.flags.pause
    ensures After(cfg, s, steps) == s.(workers := s.workers[i := Counting])
  {
    hide After;
    var step := WorkerStep(i, 0);
    steps := [step, step];
    AfterTwo(cfg, s, step, step);
    var t := s.(workers := s.workers[i := PauseCheck]);
    assert Act(cfg, s, step) == t;
    assert t.workers[i := Counting] == s.workers[i := Counting];
  }

  /** From there it begins its call. */
  lemma WorkerCalls(cfg: Config, s: State, i: nat) returns (steps: seq<Step>)
    requires i < |s.workers| && s.workers[i] == Counting
    ensures var t := After(cfg, s, steps);
            && t.workers == s.workers[i := Calling(false)] && t.flags.pause == s.flags.pause
            && t.window.calls == s.window.calls + 1
  {
    hide After, Began;
    var step := WorkerStep(i, 0);
    steps := [step, step, step];
    AfterThree(cfg, s, step, step, step);
    var t1 := Act(cfg, s, step);
    assert t1.workers == s.workers[i := Entering(false)];
    var t2 := Act(cfg, t1, step);
    assert t2.workers == s.workers[i := Announced(false)];
  }

  /** Two workers past their checks when the pause flag is set both begin a call. */
  lemma TwoWorkersExceed(cfg: Config, s: State) returns (steps: seq<Step>)
    requires s.workers == [Counting, Counting] && s.coordinator == Up && !s.flags.pause
    ensures !PauseBounds(After(cfg, s, steps))
  {
    hide After, Act;
    SetsPause(cfg, s);
    var t := Act(cfg, s, SetPause);
    AfterOne(cfg, s, SetPause);
    var first := WorkerCalls(cfg, t, 0);
    var t1 := After(cfg, t, first);
    var second := WorkerCalls(cfg, t1, 1);
    steps := [SetPause] + (first + second);
    AfterConcat(cfg, s, [SetPause], first + second);
    AfterConcat(cfg, t, first, second);
  }

  lemma SetsPause(cfg: Config, s: State)
    requires BetweenCalls(s.coordinator) && !s.flags.pause
    ensures var t := Act(cfg, s, SetPause);
            t.flags.pause && t.window.calls == 0 && t.workers == s.workers
  {
  }

  /** A start that succeeds after a stop that timed out gives two workers at once. */
  lemma RestartDoublesWorkers(cfg: Config) returns (steps: seq<Step>)
    requires !OneAtATime(cfg)
    ensures !PauseBounds(After(cfg, INITIAL_STATE, steps))
  {
    hide After, Act;
    var first := StartWithWorker(cfg, INITIAL_STATE);
    var s1 := After(cfg, INITIAL_STATE, first);
    assert s1.workers == [Head];
    var pass := WorkerPasses(cfg, s1, 0);
    var s2 := After(cfg, s1, pass);
    var stop := StopTimesOut(cfg, s2);
    var s3 := After(cfg, s2, stop);
    var again := StartWithWorker(cfg, s3);
    var s4 := After(cfg, s3, again);
    assert s4.workers == [Counting, Head];
    var pass' := WorkerPasses(cfg, s4, 1);
    var s5 := After(cfg, s4, pass');
    var exceed := TwoWorkersExceed(cfg, s5);
    steps := first + (pass + (stop + (again + (pass' + exceed))));
    AfterConcat(cfg, INITIAL_STATE, first, pass + (stop + (again + (pass' + exceed))));
    AfterConcat(cfg, s1, pass, stop + (again + (pass' + exceed)));
    AfterConcat(cfg, s2, stop, again + (pass' + exceed));
    AfterConcat(cfg, s3, again, pass' + exceed);
    AfterConcat(cfg, s4, pass', exceed);
  }

  /** In every interleaving the pause flag bounds the calls, exactly when no start can succeed
      after a stop that timed out. */
  lemma PauseBoundsCallsIff(cfg: Config)
    ensures (forall steps :: PauseBounds(After(cfg, INITIAL_STATE, steps))) <==> OneAtATime(cfg)
  {
    hide After, OneWorker;
    if OneAtATime(cfg) {
      InitialOneWorker(cfg);
      forall steps ensures PauseBounds(After(cfg, INITIAL_STATE, steps)) {
        HandshakeAlways(cfg, INITIAL_STATE, steps);
      }
    } else {
      var steps := RestartDoublesWorkers(cfg);
      assert !PauseBounds(After(cfg, INITIAL_STATE, steps));
    }
  }

  /** With the pause flag set, and until it is cleared, a worker begins at most one more call, and none
      unless it had already read the flag as clear: in every configuration. */
  lemma {:induction false} PausedWorkerCalls(cfg: Config, s: State, steps: seq<Step>, i: nat)
    requires s.flags.pause && KeepsPause(steps)
    ensures CallsBegun(cfg, s, steps, i) <= if i < |s.workers| && PastCheck(s.workers[i]) then 1 else 0
    decreases |steps|
  {
    hide Act, InCall, PastCheck;
    if steps != [] {
      assert !steps[0].ClearPause?;
      PausedStepBegins(cfg, s, steps[0], i);
      PausedWorkerCalls(cfg, Act(cfg, s, steps[0]), steps[1..], i);
    }
  }

  lemma PausedActBegins(l: Local, choice: nat)
    requires l.flags.pause
    ensures var m := WorkerAct(l, choice);
            m.flags.pause && (PastCheck(m.pc) ==> PastCheck(l.pc)) && (m.pc.Calling? ==> PastCheck(l.pc))
  {
    match l.pc
    case Head => case PauseCheck => case Counting => case Entering(_) => case Announced(_) => case Calling(_) =>
    case Returned(_, _) => case Recording(_, _) => case Tallying(_) =>
    case Left => case Signalling => case WorkerGone =>
  }

  lemma PausedStepBegins(cfg: Config, s: State, step: Step, i: nat)
    requires s.flags.pause && !step.ClearPause?
    ensures var t := Act(cfg, s, step);
            var past, past' := i < |s.workers| && PastCheck(s.workers[i]), i < |t.workers| && PastCheck(t.workers[i]);
            && t.flags.pause && (past' ==> past)
            && (InCall(t, i) && !InCall(s, i) ==> past && !past')
  {
    hide CoordinatorStep, CoordinatorCan, WorkerAct;
    match step
    case AudioTest(_) => case AudioSignal(_) =>
    case WorkerStep(j, choice) =>
      if j < |s.workers| {
        PausedActBegins(LocalOf(s, j), choice);
      }
    case _ =>
      CoordinatorLeavesPause(s, step);
  }

  /** Clearing the flag lets a running worker call again. */
  lemma ClearingResumes(cfg: Config, s: State, i: nat) returns (steps: seq<Step>)
    requires BetweenCalls(s.coordinator) && i < |s.workers| && s.workers[i] == Head && s.flags.pitchRunning
    ensures After(cfg, s, steps).workers == s.workers[i := Calling(false)]
  {
    hide After, Act;
    ClearsPause(cfg, s);
    var t := Act(cfg, s, ClearPause);
    AfterOne(cfg, s, ClearPause);
    var pass := WorkerPasses(cfg, t, i);
    var u := After(cfg, t, pass);
    var call := WorkerCalls(cfg, u, i);
    steps := [ClearPause] + (pass + call);
    AfterConcat(cfg, s, [ClearPause], pass + call);
    AfterConcat(cfg, t, pass, call);
    assert s.workers[i := Counting][i := Calling(false)] == s.workers[i := Calling(false)];
  }

  lemma ClearsPause(cfg: Config, s: State)
    requires BetweenCalls(s.coordinator)
    ensures Act(cfg, s, ClearPause) == s.(flags := s.flags.(pause := false))
  {
  }

  /** In-call is set exactly while the worker is between its two writes of it, call included. */
  lemma InCallIff(cfg: Config, steps: seq<Step>)
    requires OneAtATime(cfg)
    ensures var s := After(cfg, INITIAL_STATE, steps);
            s.flags.inCall <==> MarkedInCall(Current(s))
  {
    hide After, OneWorker;
    InitialOneWorker(cfg);
    HandshakeAlways(cfg, INITIAL_STATE, steps);
  }

  // ---------------------------------------------------------------------
  // Does in-call come to read clear?
  // ---------------------------------------------------------------------

  /** How many steps of its own the worker can make before it rests for as long as the pause lasts. */
  function StepsToRest(pc: WorkerPc): (n: nat)
    ensures n <= 7
  {
    match pc
    case Counting => 7
    case Entering(_) => 6
    case Announced(_) => 5
    case Calling(_) => 4
    case Returned(_, _) => 3
    case Recording(_, _) => 2
    case Tallying(_) => 1
    case _ => 0
  }

  /** The same for the worker of a number that need not exist yet. */
  function Unrest(s: State, j: nat): nat {
    if j < |s.workers| then StepsToRest(s.workers[j]) else 0
  }

  lemma WorkerActRests(l: Local, choice: nat)
    requires l.flags.pause
    ensures var m := WorkerAct(l, choice);
            m.flags.pause && StepsToRest(m.pc) == if StepsToRest(l.pc) == 0 then 0 else StepsToRest(l.pc) - 1
  {
    match l.pc
    case Head => case PauseCheck => case Counting => case Entering(_) => case Announced(_) => case Calling(_) =>
    case Returned(_, _) => case Recording(_, _) => case Tallying(_) =>
    case Left => case Signalling => case WorkerGone =>
  }

  lemma CoordinatorLeavesPause(s: State, step: Step)
    requires s.flags.pause && !step.ClearPause?
    ensures var t := CoordinatorStep(s, step);
            t.flags.pause && t.workers == if step == CreatePitch(true) then s.workers + [Head] else s.workers
  {
    match step
    case BeginStart => case InitDriver(_) => case CreateAudio(_) => case FlagPitch => case SkipPitch =>
    case CreatePitch(_) => case FailStopAudio => case FailDeinit => case RequestPitchStop =>
    case RequestAudioStop => case SeeStopped => case GiveUp => case FinishStop(_) => case LateDeinit =>
    case ResetRecords => case AudioTest(_) => case AudioSignal(_) => case WorkerStep(_, _) =>
    case SetPause => case ObserveQuiet => case ClearPause =>
  }

  lemma StepRests(cfg: Config, s: State, step: Step, j: nat)
    requires s.flags.pause && !step.ClearPause?
    ensures var t := Act(cfg, s, step);
            && t.flags.pause
            && (if OwnStep(step, j) then Unrest(t, j) < Unrest(s, j) || Unrest(t, j) == Unrest(s, j) == 0
                else Unrest(t, j) <= Unrest(s, j))
  {
    hide CoordinatorStep, CoordinatorCan, WorkerAct;
    match step
    case AudioTest(_) => case AudioSignal(_) =>
    case WorkerStep(i, choice) =>
      if i < |s.workers| {
        WorkerActRests(LocalOf(s, i), choice);
      }
    case _ =>
      CoordinatorLeavesPause(s, step);
  }

  lemma {:induction false} ComesToRest(cfg: Config, s: State, steps: seq<Step>, j: nat)
    requires s.flags.pause && KeepsPause(steps) && OwnSteps(steps, j) >= Unrest(s, j)
    ensures Unrest(After(cfg, s, steps), j) == 0
    decreases |steps|
  {
    hide Act, Unrest;
    if steps != [] {
      assert !steps[0].ClearPause?;
      StepRests(cfg, s, steps[0], j);
      ComesToRest(cfg, Act(cfg, s, steps[0]), steps[1..], j);
    }
  }

  /** Every worker that is left makes seven steps of its own. */
  ghost predicate GivenTurns(s: State, steps: seq<Step>) {
    forall j: nat :: j < |s.workers| && !s.workers[j].WorkerGone? ==> OwnSteps(steps, j) >= 7
  }

  /** While the pause lasts, seven steps of the worker's own, whatever comes between them, suffice for
      in-call to read clear and the worker to be out of its call, even if it is started anew. */
  lemma InCallClears(cfg: Config, before: seq<Step>, steps: seq<Step>)
    requires OneAtATime(cfg) && After(cfg, INITIAL_STATE, before).flags.pause && KeepsPause(steps)
    requires GivenTurns(After(cfg, INITIAL_STATE, before), steps)
    ensures var t := After(cfg, After(cfg, INITIAL_STATE, before), steps);
            !t.flags.inCall && !PastCheck(Current(t)) && !Current(t).Calling?
  {
    hide After, Act, OwnSteps, MarkedInCall, PastCheck;
    var s := After(cfg, INITIAL_STATE, before);
    var t := After(cfg, s, steps);
    AfterConcat(cfg, INITIAL_STATE, before, steps);
    InCallIff(cfg, before + steps);
    RestIsClear(Current(t));
    if t.workers != [] {
      ComesToRest(cfg, s, steps, |t.workers| - 1);
    }
  }

  lemma RestIsClear(pc: WorkerPc)
    ensures StepsToRest(pc) == 0 ==> !MarkedInCall(pc) && !PastCheck(pc) && !pc.Calling?
  {
  }

  // ---------------------------------------------------------------------
  // Is the worker quiet once in-call reads clear?
  // ---------------------------------------------------------------------

  predicate KeepsPause(steps: seq<Step>) {
    forall i :: 0 <= i < |steps| ==> !steps[i].ClearPause?
  }

  /** No call is in progress, and none begins while the pause lasts. */
  ghost predicate StaysQuiet(cfg: Config, s: State) {
    forall steps :: KeepsPause(steps) ==> !SomeCalling(After(cfg, s, steps).workers)
  }

  ghost predicate CleanPause(cfg: Config, s: State) {
    OneWorker(cfg, s) && s.flags.pause && !SomePastCheck(s.workers) && !SomeCalling(s.workers)
  }

  lemma CleanPauseKept(cfg: Config, s: State, step: Step)
    requires OneAtATime(cfg) && CleanPause(cfg, s) && !step.ClearPause?
    ensures CleanPause(cfg, Act(cfg, s, step))
  {
    OneWorkerKept(cfg, s, step);
    hide OneWorker;
    if step.WorkerStep? {
      if step.i < |s.workers| {
        CleanWorkerMove(cfg, s, step.i, step.choice);
      }
    } else {
      var t := Act(cfg, s, step);
      assert t.flags.pause && (t.workers == s.workers || t.workers == s.workers + [Head]);
    }
  }

  lemma CleanWorkerMove(cfg: Config, s: State, i: nat, choice: nat)
    requires CleanPause(cfg, s) && i < |s.workers|
    ensures var t := WorkerMove(s, i, choice);
            t.flags.pause && !SomePastCheck(t.workers) && !SomeCalling(t.workers)
  {
    hide WorkerAct, OneWorker;
    PausedWorkerAct(LocalOf(s, i), choice);
  }

  lemma PausedWorkerAct(l: Local, choice: nat)
    requires l.flags.pause && !PastCheck(l.pc) && !l.pc.Calling?
    ensures var m := WorkerAct(l, choice);
            m.flags.pause && !PastCheck(m.pc) && !m.pc.Calling?
  {
    match l.pc
    case Head => case PauseCheck => case Counting => case Entering(_) => case Announced(_) => case Calling(_) =>
    case Returned(_, _) => case Recording(_, _) => case Tallying(_) =>
    case Left => case Signalling => case WorkerGone =>
  }

  lemma {:induction false} CleanPauseLasts(cfg: Config, s: State, steps: seq<Step>)
    requires OneAtATime(cfg) && CleanPause(cfg, s) && KeepsPause(steps)
    ensures CleanPause(cfg, After(cfg, s, steps))
    decreases |steps|
  {
    hide Act, CleanPause;
    if steps != [] {
      assert !steps[0].ClearPause?;
      CleanPauseKept(cfg, s, steps[0]);
      CleanPauseLasts(cfg, Act(cfg, s, steps[0]), steps[1..]);
    }
  }

  /** A worker past its check goes on to its call whatever the pause flag says now. */
  lemma PastCheckCalls(cfg: Config, s: State, i: nat) returns (steps: seq<Step>)
    requires i < |s.workers| && PastCheck(s.workers[i])
    ensures KeepsPause(steps) && SomeCalling(After(cfg, s, steps).workers)
    decreases if s.workers[i].Counting? then 2 else if s.workers[i].Entering? then 1 else 0
  {
    hide After, Began;
    var step := WorkerStep(i, 0);
    var t := Act(cfg, s, step);
    AfterOne(cfg, s, step);
    if s.workers[i].Announced? {
      steps := [step];
      assert t.workers[i].Calling?;
    } else {
      var rest := PastCheckCalls(cfg, t, i);
      steps := [step] + rest;
      AfterConcat(cfg, s, [step], rest);
    }
  }

  /** The coordinator's wait for in-call to clear leaves the worker quiet for the whole
      window exactly when no worker was, at that moment, between reading the pause flag
      and marking its call. */
  lemma QuietIffNonePastCheck(cfg: Config, steps: seq<Step>)
    requires OneAtATime(cfg)
    requires CoordinatorCan(cfg, After(cfg, INITIAL_STATE, steps), ObserveQuiet)
    ensures var s := After(cfg, INITIAL_STATE, steps);
            StaysQuiet(cfg, Act(cfg, s, ObserveQuiet)) <==> !SomePastCheck(s.workers)
  {
    hide After, OneWorker;
    InitialOneWorker(cfg);
    HandshakeAlways(cfg, INITIAL_STATE, steps);
    var s := After(cfg, INITIAL_STATE, steps);
    var q := Act(cfg, s, ObserveQuiet);
    if i :| 0 <= i < |s.workers| && PastCheck(s.workers[i]) {
      var rest := PastCheckCalls(cfg, q, i);
      assert SomeCalling(After(cfg, q, rest).workers);
    } else {
      OneWorkerKept(cfg, s, ObserveQuiet);
      OnlyLatestWorker(cfg, s);
      OnlyCurrent(s);
      assert CleanPause(cfg, q);
      forall rest | KeepsPause(rest)
        ensures !SomeCalling(After(cfg, q, rest).workers)
      {
        CleanPauseLasts(cfg, q, rest);
      }
    }
  }

  /** A worker that has just found the run flag set and will read the pause flag next. */
  lemma WorkerAtCheck(cfg: Config) returns (steps: seq<Step>)
    ensures var s := After(cfg, INITIAL_STATE, steps);
            s.workers == [PauseCheck] && s.coordinator == Up && !s.flags.pause && !s.flags.inCall
  {
    hide After, Act;
    var start := StartWithWorker(cfg, INITIAL_STATE);
    var s := After(cfg, INITIAL_STATE, start);
    steps := start + [WorkerStep(0, 0)];
    AfterConcat(cfg, INITIAL_STATE, start, [WorkerStep(0, 0)]);
    AfterOne(cfg, s, WorkerStep(0, 0));
    WorkerFindsRunFlag(cfg, s);
  }

  lemma WorkerFindsRunFlag(cfg: Config, s: State)
    requires s.workers == [Head] && s.flags.pitchRunning
    ensures Act(cfg, s, WorkerStep(0, 0)) == s.(workers := [PauseCheck])
  {
  }

  /** That moment is reachable: the coordinator sees in-call clear, and a call runs inside the pause. */
  lemma QuietCanFail(cfg: Config) returns (before: seq<Step>, inside: seq<Step>)
    ensures KeepsPause(inside)
    ensures var s := After(cfg, INITIAL_STATE, before);
            && CoordinatorCan(cfg, s, ObserveQuiet) && s.flags.pause
            && SomeCalling(After(cfg, Act(cfg, s, ObserveQuiet), inside).workers)
  {
    hide After, Began;
    var first := WorkerAtCheck(cfg);
    var check := [WorkerStep(0, 0), SetPause];
    before := first + check;
    AfterConcat(cfg, INITIAL_STATE, first, check);
    var s := After(cfg, INITIAL_STATE, first);
    AfterTwo(cfg, s, WorkerStep(0, 0), SetPause);
    var t := After(cfg, s, check);
    assert t.workers == [Counting] && !t.flags.inCall && t.flags.pause;
    inside := PastCheckCalls(cfg, Act(cfg, t, ObserveQuiet), 0);
  }
}
