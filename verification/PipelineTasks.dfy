/** The audio pipeline's tasks as an interleaving transition system: a coordinator that
    starts and stops them, the audio task of each start, and the pitch worker of each
    start. One step is one access to the state they share. */
module PipelineTasks {

  /** Which of the situations the source does not guard against a run may contain: a start
      after a stop that timed out, a deinit after one, a pitch task that cannot be created,
      and a driver initialisation that succeeds although the controller's channels are
      still allocated. */
  datatype Config = Config(
    mayRestartAfterTimeout: bool, mayDeinitAfterTimeout: bool, pitchCreationMayFail: bool,
    occupiedInitMaySucceed: bool)

  datatype Coordinator =
    | Idle                  // nothing started, or stopped and deinitialised
    | Cleared               // event bits cleared, counters reset
    | Refused               // start returned false: no channels to be had
    | DriverReady
    | AudioCreated
    | PitchFlagged
    | Up                    // start returned true
    | PitchFailed | FailedWait
    | PitchStopRequested
    | Waiting
    | Confirmed             // both bits seen
    | StoppedUp             // stop returned true and left the driver to its caller
    | TimedOut              // stop returned false

  datatype AudioPc = InRun | LeftRun | AudioGone

  datatype WorkerPc =
    | Head                  // about to test the run flag
    | PauseCheck            // about to read the pause flag
    | Counting
    | Entering(hotspot: bool)
    | Announced(hotspot: bool)
    | Calling(hotspot: bool)
    | Returned(hotspot: bool, processed: nat)
    | Recording(hotspot: bool, processed: nat)
    | Tallying(processed: nat)
    | Left
    | Signalling
    | WorkerGone

  /** Read the pause flag as clear and has not begun its call. */
  predicate PastCheck(w: WorkerPc) {
    w.Counting? || w.Entering? || w.Announced?
  }

  predicate MarkedInCall(w: WorkerPc) {
    w.Announced? || w.Calling? || w.Returned?
  }

  datatype Flags = Flags(
    pitchRunning: bool, audioRunning: bool, pause: bool, inCall: bool,
    audioStopped: bool, pitchStopped: bool, driverUp: bool)

  datatype Tally = Tally(
    iterations: nat, wakeups: nat, yielded: nat, runCalls: nat, hopsRequested: nat, hopsProcessed: nat,
    zeroHop: nat, oneHop: nat, multiHop: nat, maximumHops: nat)

  datatype Log = Log(index: nat, records: seq<nat>, drops: nat)

  /** What happened since the pause flag was last set: calls begun, whether a worker has
      read the flag as set, and calls begun after that. */
  datatype Window = Window(calls: nat, saw: bool, callsAfterSaw: nat)

  datatype State = State(
    coordinator: Coordinator, audio: seq<AudioPc>, workers: seq<WorkerPc>, flags: Flags,
    tally: Tally, returned: seq<nat>, log: Log, window: Window)

  const MAXIMUM_HOPS := 4
  const RECORD_CAPACITY := 512

  const NO_TALLY := Tally(0, 0, 0, 0, 0, 0, 0, 0, 0, 0)

  const INITIAL_STATE :=
    State(Idle, [], [], Flags(false, false, false, false, false, false, false),
          NO_TALLY, [], Log(0, [], 0), Window(0, false, 0))

  /** How `AudioI2s::init` ends: the channels are refused at once and nothing else is touched,
      or a later call fails and it cleans up after itself. */
  datatype InitOutcome = Ready | RefusedChannels | FailedLater

  datatype Step =
    // the coordinator
    | BeginStart
    | InitDriver(outcome: InitOutcome)
    | CreateAudio(ok: bool)
    | FlagPitch
    | SkipPitch
    | CreatePitch(ok: bool)
    | FailStopAudio
    | FailDeinit
    | RequestPitchStop
    | RequestAudioStop
    | SeeStopped
    | GiveUp
    | FinishStop(deinit: bool)
    | LateDeinit
    | SetPause
    | ObserveQuiet
    | ClearPause
    | ResetRecords
    // audio task i
    | AudioTest(i: nat)
    | AudioSignal(i: nat)
    // pitch worker i
    | WorkerStep(i: nat, choice: nat)

  /** Where the coordinator can be while it is in neither start nor stop. */
  predicate BetweenCalls(c: Coordinator) {
    c.Idle? || c.Refused? || c.Up? || c.StoppedUp? || c.TimedOut?
  }

  predicate CoordinatorCan(cfg: Config, s: State, step: Step) {
    var c := s.coordinator;
    match step
    case BeginStart => c.Idle? || c.Refused? || c.StoppedUp? || (c.TimedOut? && cfg.mayRestartAfterTimeout)
    case InitDriver(outcome) =>
      c.Cleared? && (outcome.RefusedChannels? || !s.flags.driverUp || cfg.occupiedInitMaySucceed)
    case CreateAudio(_) => c.DriverReady?
    case FlagPitch => c.AudioCreated?
    case SkipPitch => c.AudioCreated?
    case CreatePitch(ok) => c.PitchFlagged? && (ok || cfg.pitchCreationMayFail)
    case FailStopAudio => c.PitchFailed?
    case FailDeinit => c.FailedWait?
    case RequestPitchStop => BetweenCalls(c)
    case RequestAudioStop => c.PitchStopRequested?
    case SeeStopped => c.Waiting? && s.flags.audioStopped && s.flags.pitchStopped
    case GiveUp => c.Waiting? && !(s.flags.audioStopped && s.flags.pitchStopped)
    case FinishStop(_) => c.Confirmed?
    case LateDeinit => c.StoppedUp? || (c.TimedOut? && cfg.mayDeinitAfterTimeout)
    case SetPause => BetweenCalls(c)
    case ObserveQuiet => BetweenCalls(c) && s.flags.pause && !s.flags.inCall
    case ClearPause => BetweenCalls(c) || c.PitchStopRequested?
    case ResetRecords => BetweenCalls(c)
    case AudioTest(_) => false
    case AudioSignal(_) => false
    case WorkerStep(_, _) => false
  }

  function Deinit(f: Flags): Flags {
    f.(driverUp := false, audioRunning := false)
  }

  function CoordinatorStep(s: State, step: Step): State {
    var f := s.flags;
    match step
    case BeginStart =>
      s.(coordinator := Cleared, flags := f.(audioStopped := false, pitchStopped := false),
         tally := NO_TALLY, returned := [])
    case InitDriver(outcome) =>
      (match outcome
       case Ready => s.(coordinator := DriverReady, flags := f.(driverUp := true, audioRunning := true))
       case RefusedChannels => s.(coordinator := Refused)
       case FailedLater => s.(coordinator := Idle, flags := Deinit(f)))
    case CreateAudio(ok) =>
      if ok then s.(coordinator := AudioCreated, audio := s.audio + [InRun])
      else s.(coordinator := Idle, flags := Deinit(f))
    case FlagPitch => s.(coordinator := PitchFlagged, flags := f.(pitchRunning := true))
    case SkipPitch => s.(coordinator := Up, flags := f.(pitchStopped := true))
    case CreatePitch(ok) =>
      if ok then s.(coordinator := Up, workers := s.workers + [Head])
      else s.(coordinator := PitchFailed, flags := f.(pitchRunning := false))
    case FailStopAudio => s.(coordinator := FailedWait, flags := f.(audioRunning := false))
    case FailDeinit => s.(coordinator := Idle, flags := Deinit(f))
    case RequestPitchStop => s.(coordinator := PitchStopRequested, flags := f.(pitchRunning := false))
    case RequestAudioStop => s.(coordinator := Waiting, flags := f.(audioRunning := false))
    case SeeStopped => s.(coordinator := Confirmed)
    case GiveUp => s.(coordinator := TimedOut)
    case FinishStop(deinit) =>
      if deinit then s.(coordinator := Idle, flags := Deinit(f)) else s.(coordinator := StoppedUp)
    case LateDeinit =>
      s.(coordinator := if s.coordinator.StoppedUp? then Idle else s.coordinator, flags := Deinit(f))
    case SetPause =>
      if f.pause then s
      else s.(flags := f.(pause := true), window := Window(0, false, 0))
    case ObserveQuiet => s
    case ClearPause => s.(flags := f.(pause := false))
    case ResetRecords => s.(log := Log(0, [], 0))
    case AudioTest(_) => s
    case AudioSignal(_) => s
    case WorkerStep(_, _) => s
  }

  function AudioMove(s: State, step: Step): State {
    match step
    case AudioTest(i) =>
      if i < |s.audio| && s.audio[i].InRun? && !s.flags.audioRunning then s.(audio := s.audio[i := LeftRun]) else s
    case AudioSignal(i) =>
      if i < |s.audio| && s.audio[i].LeftRun?
      then s.(audio := s.audio[i := AudioGone], flags := s.flags.(audioStopped := true)) else s
    case _ => s
  }

  function Max(a: nat, b: nat): nat {
    if a < b then b else a
  }

  function Began(t: Tally): Tally {
    t.(wakeups := t.wakeups + 1, iterations := t.iterations + 1, runCalls := t.runCalls + 1,
       hopsRequested := t.hopsRequested + MAXIMUM_HOPS)
  }

  function Ended(t: Tally, processed: nat): Tally {
    t.(hopsProcessed := t.hopsProcessed + processed,
       zeroHop := t.zeroHop + if processed == 0 then 1 else 0,
       oneHop := t.oneHop + if processed == 1 then 1 else 0,
       multiHop := t.multiHop + if processed > 1 then 1 else 0,
       maximumHops := Max(t.maximumHops, processed),
       yielded := t.yielded + 1)
  }

  function Recorded(l: Log, processed: nat): Log {
    if l.index < RECORD_CAPACITY
    then Log(l.index + 1, l.records + [processed % 256], l.drops)
    else Log(l.index + 1, l.records, l.drops + 1)
  }

  function BeginCall(w: Window): Window {
    w.(calls := w.calls + 1, callsAfterSaw := w.callsAfterSaw + if w.saw then 1 else 0)
  }

  /** A worker and the shared state it touches. */
  datatype Local = Local(pc: WorkerPc, flags: Flags, tally: Tally, returned: seq<nat>, log: Log, window: Window)

  /** A worker's next step; the choice stands for what it reads or is told from outside. */
  function WorkerAct(l: Local, choice: nat): Local {
    var Local(pc, f, t, r, log, w) := l;
    match pc
    case Head => Local(if f.pitchRunning then PauseCheck else Left, f, t, r, log, w)
    case PauseCheck =>
      if f.pause then Local(Head, f, t, r, log, w.(saw := true)) else Local(Counting, f, t, r, log, w)
    case Counting => Local(Entering(choice != 0), f, Began(t), r, log, w)
    case Entering(h) => Local(Announced(h), f.(inCall := true), t, r, log, w)
    case Announced(h) => Local(Calling(h), f, t, r, log, BeginCall(w))
    case Calling(h) => Local(Returned(h, choice), f, t, r + [choice], log, w)
    case Returned(h, p) => Local(Recording(h, p), f.(inCall := false), t, r, log, w)
    case Recording(h, p) => Local(Tallying(p), f, t, r, if h then Recorded(log, p) else log, w)
    case Tallying(p) => Local(Head, f, Ended(t, p), r, log, w)
    case Left => Local(Signalling, f.(inCall := false), t, r, log, w)
    case Signalling => Local(WorkerGone, f.(pitchStopped := true), t, r, log, w)
    case WorkerGone => l
  }

  function LocalOf(s: State, i: nat): Local
    requires i < |s.workers|
  {
    Local(s.workers[i], s.flags, s.tally, s.returned, s.log, s.window)
  }

  function WorkerMove(s: State, i: nat, choice: nat): State
    requires i < |s.workers|
  {
    var l := WorkerAct(LocalOf(s, i), choice);
    State(s.coordinator, s.audio, s.workers[i := l.pc], l.flags, l.tally, l.returned, l.log, l.window)
  }

  /** One step of the system; a step that cannot be taken changes nothing. */
  ghost function Act(cfg: Config, s: State, step: Step): State {
    match step
    case AudioTest(_) => AudioMove(s, step)
    case AudioSignal(_) => AudioMove(s, step)
    case WorkerStep(i, choice) => if i < |s.workers| then WorkerMove(s, i, choice) else s
    case _ => if CoordinatorCan(cfg, s, step) then CoordinatorStep(s, step) else s
  }

  /** The state after a schedule. */
  ghost function After(cfg: Config, s: State, steps: seq<Step>): State
    decreases |steps|
  {
    if steps == [] then s else After(cfg, Act(cfg, s, steps[0]), steps[1..])
  }

  // ---------------------------------------------------------------------
  // Teardown
  // ---------------------------------------------------------------------

  ghost predicate AudioAllGone(s: State) {
    forall i :: 0 <= i < |s.audio| ==> s.audio[i].AudioGone?
  }

  ghost predicate WorkersAllGone(s: State) {
    forall i :: 0 <= i < |s.workers| ==> s.workers[i].WorkerGone?
  }

  /** The driver is torn down only when every task of every start has left its loop. */
  ghost predicate Safe(s: State) {
    !s.flags.driverUp ==>
      && (forall i :: 0 <= i < |s.audio| ==> !s.audio[i].InRun?)
      && (forall i :: 0 <= i < |s.workers| ==> LeftLoop(s.workers[i]))
  }

  predicate LeftLoop(w: WorkerPc) {
    w.Left? || w.Signalling? || w.WorkerGone?
  }

  /** Only the workers of the latest start can be live. */
  ghost predicate EarlierWorkersGone(s: State) {
    forall i :: 0 <= i < |s.workers| - 1 ==> s.workers[i].WorkerGone?
  }

  ghost predicate EarlierAudioGone(s: State) {
    forall i :: 0 <= i < |s.audio| - 1 ==> s.audio[i].AudioGone?
  }

  /** No deinit follows a timed-out stop, no pitch task creation fails, and a start that follows
      a timed-out stop finds the controller refused. */
  predicate Sound(cfg: Config) {
    && !cfg.mayDeinitAfterTimeout && !cfg.pitchCreationMayFail
    && !(cfg.mayRestartAfterTimeout && cfg.occupiedInitMaySucceed)
  }

  /** Tasks of a timed-out stop may be live, behind a controller nobody gets. */
  ghost predicate Stranded(cfg: Config, s: State) {
    s.flags.driverUp && cfg.mayRestartAfterTimeout
  }

  /** Past the start of the driver and before the end of start. */
  predicate Starting(c: Coordinator) {
    c.DriverReady? || c.AudioCreated? || c.PitchFlagged?
  }

  ghost predicate Lifecycle(cfg: Config, s: State) {
    var c, f := s.coordinator, s.flags;
    var allGone := AudioAllGone(s) && WorkersAllGone(s);
    && !c.PitchFailed? && !c.FailedWait?
    && EarlierAudioGone(s) && EarlierWorkersGone(s)
    && (!allGone || Starting(c) ==> f.driverUp)
    && (f.audioStopped ==> AudioAllGone(s))
    && (f.pitchStopped ==> WorkersAllGone(s))
    && (c.Idle? || c.DriverReady? || c.Confirmed? || c.StoppedUp? ==> allGone)
    && (c.Refused? ==> allGone || Stranded(cfg, s))
    && (c.Cleared? ==> (allGone && !f.audioStopped && !f.pitchStopped) || Stranded(cfg, s))
    && (c.DriverReady? ==> !f.audioStopped)
    && (Starting(c) ==> !f.pitchStopped && WorkersAllGone(s))
  }

  lemma StartKeepsLifecycle(cfg: Config, s: State, step: Step)
    requires Sound(cfg) && Lifecycle(cfg, s) && CoordinatorCan(cfg, s, step)
    requires step.BeginStart? || step.InitDriver?
    ensures Lifecycle(cfg, CoordinatorStep(s, step))
  {
  }

  lemma CreationKeepsLifecycle(cfg: Config, s: State, step: Step)
    requires Sound(cfg) && Lifecycle(cfg, s) && CoordinatorCan(cfg, s, step)
    requires step.CreateAudio? || step.FlagPitch? || step.SkipPitch? || step.CreatePitch?
             || step.FailStopAudio? || step.FailDeinit?
    ensures Lifecycle(cfg, CoordinatorStep(s, step))
  {
  }

  lemma StopKeepsLifecycle(cfg: Config, s: State, step: Step)
    requires Sound(cfg) && Lifecycle(cfg, s) && CoordinatorCan(cfg, s, step)
    requires step.RequestPitchStop? || step.RequestAudioStop? || step.SeeStopped? || step.GiveUp?
             || step.FinishStop? || step.LateDeinit?
    ensures Lifecycle(cfg, CoordinatorStep(s, step))
  {
  }

  lemma MeasurementKeepsLifecycle(cfg: Config, s: State, step: Step)
    requires Lifecycle(cfg, s)
    requires step.SetPause? || step.ObserveQuiet? || step.ClearPause? || step.ResetRecords?
    ensures Lifecycle(cfg, CoordinatorStep(s, step))
  {
  }

  lemma CoordinatorKeepsLifecycle(cfg: Config, s: State, step: Step)
    requires Sound(cfg) && Lifecycle(cfg, s) && CoordinatorCan(cfg, s, step)
    ensures Lifecycle(cfg, CoordinatorStep(s, step))
  {
    hide Lifecycle, CoordinatorStep, Sound;
    if step.BeginStart? || step.InitDriver? {
      StartKeepsLifecycle(cfg, s, step);
    } else if step.CreateAudio? || step.FlagPitch? || step.SkipPitch? || step.CreatePitch?
           || step.FailStopAudio? || step.FailDeinit? {
      CreationKeepsLifecycle(cfg, s, step);
    } else if step.SetPause? || step.ObserveQuiet? || step.ClearPause? || step.ResetRecords? {
      MeasurementKeepsLifecycle(cfg, s, step);
    } else {
      StopKeepsLifecycle(cfg, s, step);
    }
  }

  lemma AudioKeepsLifecycle(cfg: Config, s: State, step: Step)
    requires Lifecycle(cfg, s)
    ensures Lifecycle(cfg, AudioMove(s, step))
  {
  }

  lemma WorkerKeepsLifecycle(cfg: Config, s: State, i: nat, choice: nat)
    requires Lifecycle(cfg, s) && i < |s.workers|
    ensures Lifecycle(cfg, WorkerMove(s, i, choice))
  {
    hide WorkerAct;
    WorkerSignals(LocalOf(s, i), choice);
  }

  /** All that teardown needs to know of a worker's step. */
  lemma WorkerSignals(l: Local, choice: nat)
    ensures var m := WorkerAct(l, choice);
            && m.flags.driverUp == l.flags.driverUp && m.flags.audioStopped == l.flags.audioStopped
            && (l.pc.WorkerGone? ==> m == l)
            && (m.flags.pitchStopped ==> l.flags.pitchStopped || m.pc.WorkerGone?)
  {
    match l.pc
    case Head => case PauseCheck => case Counting => case Entering(_) => case Announced(_) => case Calling(_) =>
    case Returned(_, _) => case Recording(_, _) => case Tallying(_) =>
    case Left => case Signalling => case WorkerGone =>
  }

  lemma GoneStaysGone(l: Local, choice: nat)
    requires l.pc.WorkerGone?
    ensures WorkerAct(l, choice) == l
  {
  }

  lemma LifecycleKept(cfg: Config, s: State, step: Step)
    requires Sound(cfg) && Lifecycle(cfg, s)
    ensures Lifecycle(cfg, Act(cfg, s, step))
  {
    hide Lifecycle, CoordinatorStep, CoordinatorCan, AudioMove, WorkerMove;
    match step
    case AudioTest(_) => AudioKeepsLifecycle(cfg, s, step);
    case AudioSignal(_) => AudioKeepsLifecycle(cfg, s, step);
    case WorkerStep(i, choice) =>
      if i < |s.workers| {
        WorkerKeepsLifecycle(cfg, s, i, choice);
      }
    case _ =>
      if CoordinatorCan(cfg, s, step) {
        CoordinatorKeepsLifecycle(cfg, s, step);
      }
  }

  lemma {:induction false} LifecycleAlways(cfg: Config, s: State, steps: seq<Step>)
    requires Sound(cfg) && Lifecycle(cfg, s)
    ensures Lifecycle(cfg, After(cfg, s, steps))
    decreases |steps|
  {
    hide Act, Lifecycle;
    if steps != [] {
      LifecycleKept(cfg, s, steps[0]);
      LifecycleAlways(cfg, Act(cfg, s, steps[0]), steps[1..]);
    }
  }

  lemma InitialLifecycle(cfg: Config)
    ensures Lifecycle(cfg, INITIAL_STATE)
  {
  }

  lemma {:induction false} AfterConcat(cfg: Config, s: State, a: seq<Step>, b: seq<Step>)
    ensures After(cfg, s, a + b) == After(cfg, After(cfg, s, a), b)
    decreases |a|
  {
    hide Act;
    if a == [] {
      assert a + b == b;
    } else {
      assert (a + b)[1..] == a[1..] + b;
      AfterConcat(cfg, Act(cfg, s, a[0]), a[1..], b);
    }
  }

  lemma AfterOne(cfg: Config, s: State, x: Step)
    ensures After(cfg, s, [x]) == Act(cfg, s, x)
  {
    assert [x][1..] == [];
  }

  lemma AfterTwo(cfg: Config, s: State, x: Step, y: Step)
    ensures After(cfg, s, [x, y]) == Act(cfg, Act(cfg, s, x), y)
  {
    hide Act, After;
    assert [x, y] == [x] + [y];
    AfterConcat(cfg, s, [x], [y]);
    AfterOne(cfg, s, x);
    AfterOne(cfg, Act(cfg, s, x), y);
  }

  lemma AfterThree(cfg: Config, s: State, x: Step, y: Step, z: Step)
    ensures After(cfg, s, [x, y, z]) == Act(cfg, Act(cfg, Act(cfg, s, x), y), z)
  {
    hide Act, After;
    assert [x, y, z] == [x] + [y, z];
    AfterConcat(cfg, s, [x], [y, z]);
    AfterOne(cfg, s, x);
    AfterTwo(cfg, Act(cfg, s, x), y, z);
  }

  /** A start whose pitch task cannot be created tears the driver down without having
      seen the audio task stop. */
  lemma FailedCreationIsUnsafe(cfg: Config) returns (steps: seq<Step>)
    requires cfg.pitchCreationMayFail
    ensures !Safe(After(cfg, INITIAL_STATE, steps))
  {
    hide After;
    var up, failed, down :=
      [BeginStart, InitDriver(Ready), CreateAudio(true)],
      [FlagPitch, CreatePitch(false), FailStopAudio],
      [FailDeinit];
    steps := up + (failed + down);
    AfterConcat(cfg, INITIAL_STATE, up, failed + down);
    AfterThree(cfg, INITIAL_STATE, BeginStart, InitDriver(Ready), CreateAudio(true));
    var s1 := After(cfg, INITIAL_STATE, up);
    assert s1.audio == [InRun] && s1.coordinator == AudioCreated;
    AfterConcat(cfg, s1, failed, down);
    AfterThree(cfg, s1, FlagPitch, CreatePitch(false), FailStopAudio);
    var s2 := After(cfg, s1, failed);
    assert s2.audio == [InRun] && s2.coordinator == FailedWait;
    AfterOne(cfg, s2, FailDeinit);
    var s3 := After(cfg, s2, down);
    assert s3.audio[0].InRun? && !s3.flags.driverUp;
  }

  /** A start and a stop without a pitch worker, up to the request to stop. */
  lemma OneMoreAudioTask(cfg: Config, s: State) returns (steps: seq<Step>)
    requires CoordinatorCan(cfg, s, BeginStart) && WorkersAllGone(s)
    requires !s.flags.driverUp || cfg.occupiedInitMaySucceed
    ensures var t := After(cfg, s, steps);
            && t.coordinator == Waiting && t.audio == s.audio + [InRun] && t.workers == s.workers
            && !t.flags.audioStopped && t.flags.pitchStopped && !t.flags.audioRunning && t.flags.driverUp
  {
    hide After;
    var up, down :=
      [BeginStart, InitDriver(Ready), CreateAudio(true)],
      [SkipPitch, RequestPitchStop, RequestAudioStop];
    steps := up + down;
    AfterConcat(cfg, s, up, down);
    AfterThree(cfg, s, BeginStart, InitDriver(Ready), CreateAudio(true));
    AfterThree(cfg, After(cfg, s, up), SkipPitch, RequestPitchStop, RequestAudioStop);
  }

  lemma OldTaskOutlived(cfg: Config, s: State) returns (steps: seq<Step>)
    requires s.coordinator == Waiting && s.audio == [InRun, InRun]
    requires !s.flags.audioRunning && s.flags.pitchStopped
    ensures !Safe(After(cfg, s, steps))
  {
    hide After, Act;
    var last, down := [AudioTest(1), AudioSignal(1), SeeStopped], [FinishStop(true)];
    steps := last + down;
    AfterConcat(cfg, s, last, down);
    AfterThree(cfg, s, AudioTest(1), AudioSignal(1), SeeStopped);
    NewTaskSignals(cfg, s);
    var gone := s.(audio := [InRun, AudioGone], flags := s.flags.(audioStopped := true));
    StopCompletes(cfg, gone);
    AfterOne(cfg, gone.(coordinator := Confirmed), FinishStop(true));
    assert After(cfg, s, steps).audio[0] == InRun;
  }

  lemma NewTaskSignals(cfg: Config, s: State)
    requires s.audio == [InRun, InRun] && !s.flags.audioRunning
    ensures Act(cfg, Act(cfg, s, AudioTest(1)), AudioSignal(1))
         == s.(audio := [InRun, AudioGone], flags := s.flags.(audioStopped := true))
  {
    assert Act(cfg, s, AudioTest(1)) == s.(audio := [InRun, LeftRun]);
  }

  lemma StopCompletes(cfg: Config, s: State)
    requires s.coordinator == Waiting && s.flags.audioStopped && s.flags.pitchStopped
    ensures Act(cfg, s, SeeStopped) == s.(coordinator := Confirmed)
    ensures Act(cfg, s.(coordinator := Confirmed), FinishStop(true))
         == s.(coordinator := Idle, flags := Deinit(s.flags))
  {
  }

  /** Starting again after a stop that timed out lets the new audio task's bit pass for
      that of the old one, which is still running when the driver goes down: provided that
      init succeeds although the old run's channels are still allocated. */
  lemma RestartIsUnsafe(cfg: Config) returns (steps: seq<Step>)
    requires cfg.mayRestartAfterTimeout && cfg.occupiedInitMaySucceed
    ensures !Safe(After(cfg, INITIAL_STATE, steps))
  {
    hide After;
    var first := OneMoreAudioTask(cfg, INITIAL_STATE);
    var s1 := After(cfg, INITIAL_STATE, first);
    var s2 := Act(cfg, s1, GiveUp);
    assert s2.audio == [InRun];
    var second := OneMoreAudioTask(cfg, s2);
    var s3 := After(cfg, s2, second);
    assert s3.audio == [InRun, InRun];
    var rest := OldTaskOutlived(cfg, s3);
    steps := first + ([GiveUp] + (second + rest));
    AfterConcat(cfg, INITIAL_STATE, first, [GiveUp] + (second + rest));
    AfterConcat(cfg, s1, [GiveUp], second + rest);
    AfterOne(cfg, s1, GiveUp);
    AfterConcat(cfg, s2, second, rest);
  }

  /** A caller that stops without deinit, ignores that the stop timed out and deinitialises the
      driver itself takes it down under a running task. */
  lemma DeinitAfterTimeoutIsUnsafe(cfg: Config) returns (steps: seq<Step>)
    requires cfg.mayDeinitAfterTimeout
    ensures !Safe(After(cfg, INITIAL_STATE, steps))
  {
    hide After, WorkerMove, BetweenCalls;
    var first := OneMoreAudioTask(cfg, INITIAL_STATE);
    var s1 := After(cfg, INITIAL_STATE, first);
    var s2 := s1.(coordinator := TimedOut);
    assert Act(cfg, s1, GiveUp) == s2;
    steps := first + [GiveUp, LateDeinit];
    AfterConcat(cfg, INITIAL_STATE, first, [GiveUp, LateDeinit]);
    AfterTwo(cfg, s1, GiveUp, LateDeinit);
    assert Act(cfg, s2, LateDeinit) == s2.(flags := Deinit(s2.flags));
    assert s2.audio[0].InRun?;
  }

  /** In every interleaving the driver is torn down only after every task has left its loop,
      exactly when no deinit follows a timed-out stop, no pitch task creation fails, and no start
      that follows a timed-out stop gets the occupied controller. */
  lemma TeardownSafeIff(cfg: Config)
    ensures (forall steps :: Safe(After(cfg, INITIAL_STATE, steps)))
       <==> !cfg.mayDeinitAfterTimeout && !cfg.pitchCreationMayFail
            && !(cfg.mayRestartAfterTimeout && cfg.occupiedInitMaySucceed)
  {
    hide After, Lifecycle;
    if Sound(cfg) {
      InitialLifecycle(cfg);
      forall steps ensures Safe(After(cfg, INITIAL_STATE, steps)) {
        LifecycleAlways(cfg, INITIAL_STATE, steps);
        LifecycleIsSafe(cfg, After(cfg, INITIAL_STATE, steps));
      }
    } else {
      var steps: seq<Step>;
      if cfg.mayDeinitAfterTimeout {
        steps := DeinitAfterTimeoutIsUnsafe(cfg);
      } else if cfg.pitchCreationMayFail {
        steps := FailedCreationIsUnsafe(cfg);
      } else {
        steps := RestartIsUnsafe(cfg);
      }
      assert !Safe(After(cfg, INITIAL_STATE, steps));
    }
  }

  lemma LifecycleIsSafe(cfg: Config, s: State)
    requires Lifecycle(cfg, s)
    ensures Safe(s)
  {
  }

  /** The wait of any stop cannot be satisfied by an old bit, and one that gives up leaves the
      driver to the tasks that are still there. */
  lemma StoppedBitsAreCurrent(cfg: Config, steps: seq<Step>)
    requires Sound(cfg)
    ensures var s := After(cfg, INITIAL_STATE, steps);
            && (s.flags.audioStopped ==> AudioAllGone(s))
            && (s.flags.pitchStopped ==> WorkersAllGone(s))
            && (s.coordinator.TimedOut? ==> s.flags.driverUp || (AudioAllGone(s) && WorkersAllGone(s)))
            && (s.coordinator.Confirmed? ==> AudioAllGone(s) && WorkersAllGone(s))
  {
    hide After;
    InitialLifecycle(cfg);
    LifecycleAlways(cfg, INITIAL_STATE, steps);
  }

  // ---------------------------------------------------------------------
  // What a timed-out stop costs where the occupied controller is refused
  // ---------------------------------------------------------------------

  /** The driver is up, and the coordinator between a stop that timed out and one that succeeds. */
  ghost predicate ShutOut(s: State) {
    s.flags.driverUp
    && (s.coordinator.TimedOut? || s.coordinator.Cleared? || s.coordinator.Refused?
        || s.coordinator.PitchStopRequested? || s.coordinator.Waiting?)
  }

  lemma CoordinatorKeepsShutOut(cfg: Config, s: State, step: Step)
    requires !cfg.occupiedInitMaySucceed && !cfg.mayDeinitAfterTimeout && ShutOut(s)
    requires CoordinatorCan(cfg, s, step)
    ensures var t := CoordinatorStep(s, step);
            ShutOut(t) || t.coordinator.Confirmed?
  {
  }

  lemma ShutOutKept(cfg: Config, s: State, step: Step)
    requires !cfg.occupiedInitMaySucceed && !cfg.mayDeinitAfterTimeout && ShutOut(s)
    ensures var t := Act(cfg, s, step);
            ShutOut(t) || t.coordinator.Confirmed?
  {
    hide WorkerAct, CoordinatorStep, CoordinatorCan;
    match step
    case AudioTest(_) => case AudioSignal(_) =>
    case WorkerStep(i, choice) =>
      if i < |s.workers| {
        WorkerSignals(LocalOf(s, i), choice);
      }
    case _ =>
      if CoordinatorCan(cfg, s, step) {
        CoordinatorKeepsShutOut(cfg, s, step);
      }
  }

  /** Some stop succeeds on the way. */
  ghost predicate StopSucceeds(cfg: Config, s: State, steps: seq<Step>) {
    exists k: nat :: k <= |steps| && After(cfg, s, steps[..k]).coordinator.Confirmed?
  }

  lemma {:induction false} ShutOutLasts(cfg: Config, s: State, steps: seq<Step>)
    requires !cfg.occupiedInitMaySucceed && !cfg.mayDeinitAfterTimeout && ShutOut(s)
    ensures ShutOut(After(cfg, s, steps)) || StopSucceeds(cfg, s, steps)
    decreases |steps|
  {
    hide Act, ShutOut;
    if steps != [] {
      var t := Act(cfg, s, steps[0]);
      ShutOutKept(cfg, s, steps[0]);
      if t.coordinator.Confirmed? {
        AfterOne(cfg, s, steps[0]);
        assert steps[..1] == [steps[0]];
      } else {
        ShutOutLasts(cfg, t, steps[1..]);
        if k: nat :| k <= |steps[1..]| && After(cfg, t, steps[1..][..k]).coordinator.Confirmed? {
          assert steps[..k + 1][1..] == steps[1..][..k];
          assert After(cfg, s, steps[..k + 1]).coordinator.Confirmed?;
        }
      }
    }
  }

  /** After a stop that timed out the driver stays up and no start succeeds, until a later stop does. */
  lemma NoStartAfterTimeout(cfg: Config, s: State, later: seq<Step>)
    requires !cfg.occupiedInitMaySucceed && !cfg.mayDeinitAfterTimeout
    requires s.coordinator == TimedOut && s.flags.driverUp
    ensures var t := After(cfg, s, later);
            (t.flags.driverUp && !t.coordinator.Up?) || StopSucceeds(cfg, s, later)
  {
    hide After;
    ShutOutLasts(cfg, s, later);
  }

  /** Stopping again does release it, once the tasks have signalled, and the next start succeeds. */
  lemma StoppingAgainReleases(cfg: Config) returns (before: seq<Step>, again: seq<Step>, start: seq<Step>)
    ensures var s := After(cfg, INITIAL_STATE, before);
            var t := After(cfg, s, again);
            var u := After(cfg, t, start);
            && s.coordinator == TimedOut && s.flags.driverUp
            && t.coordinator == Idle && !t.flags.driverUp && AudioAllGone(t)
            && u.coordinator == Up && u.flags.driverUp
  {
    hide After, WorkerMove;
    before, again, start := [], [], [];
    var first := OneMoreAudioTask(cfg, INITIAL_STATE);
    var waiting := After(cfg, INITIAL_STATE, first);
    before := first + [GiveUp];
    AfterConcat(cfg, INITIAL_STATE, first, [GiveUp]);
    AfterOne(cfg, waiting, GiveUp);
    var s := waiting.(coordinator := TimedOut);
    assert Act(cfg, waiting, GiveUp) == s;
    again := TaskSignalsThenStop(cfg, s);
    var t := After(cfg, s, again);
    start := StartsUp(cfg, t);
  }

  lemma TaskSignalsThenStop(cfg: Config, s: State) returns (steps: seq<Step>)
    requires s.coordinator == TimedOut && s.audio == [InRun] && WorkersAllGone(s)
    requires !s.flags.audioRunning && s.flags.pitchStopped
    ensures var t := After(cfg, s, steps);
            t.coordinator == Idle && !t.flags.driverUp && AudioAllGone(t) && WorkersAllGone(t)
  {
    hide After, Act;
    var signal, stop := [AudioTest(0), AudioSignal(0)], [RequestPitchStop, RequestAudioStop];
    var finish := [SeeStopped, FinishStop(true)];
    steps := signal + (stop + finish);
    AfterConcat(cfg, s, signal, stop + finish);
    AfterTwo(cfg, s, AudioTest(0), AudioSignal(0));
    LastTaskSignals(cfg, s);
    var gone := After(cfg, s, signal);
    AfterConcat(cfg, gone, stop, finish);
    AfterTwo(cfg, gone, RequestPitchStop, RequestAudioStop);
    StopIsRequested(cfg, gone);
    var waiting := After(cfg, gone, stop);
    AfterTwo(cfg, waiting, SeeStopped, FinishStop(true));
    StopCompletes(cfg, waiting);
  }

  lemma LastTaskSignals(cfg: Config, s: State)
    requires s.audio == [InRun] && !s.flags.audioRunning
    ensures Act(cfg, Act(cfg, s, AudioTest(0)), AudioSignal(0))
         == s.(audio := [AudioGone], flags := s.flags.(audioStopped := true))
  {
    assert Act(cfg, s, AudioTest(0)) == s.(audio := [LeftRun]);
  }

  lemma StopIsRequested(cfg: Config, s: State)
    requires BetweenCalls(s.coordinator)
    ensures Act(cfg, Act(cfg, s, RequestPitchStop), RequestAudioStop)
         == s.(coordinator := Waiting, flags := s.flags.(pitchRunning := false, audioRunning := false))
  {
  }

  lemma StartsUp(cfg: Config, s: State) returns (steps: seq<Step>)
    requires s.coordinator == Idle && !s.flags.driverUp
    ensures After(cfg, s, steps).coordinator == Up && After(cfg, s, steps).flags.driverUp
  {
    hide After, WorkerMove;
    var up, skip := [BeginStart, InitDriver(Ready), CreateAudio(true)], [SkipPitch];
    steps := up + skip;
    AfterConcat(cfg, s, up, skip);
    AfterThree(cfg, s, BeginStart, InitDriver(Ready), CreateAudio(true));
    AfterOne(cfg, After(cfg, s, up), SkipPitch);
  }

  // ---------------------------------------------------------------------
  // One worker at a time
  // ---------------------------------------------------------------------

  /** No start succeeds between a timed-out stop and the end of its tasks. */
  predicate OneAtATime(cfg: Config) {
    cfg.mayRestartAfterTimeout ==> !cfg.occupiedInitMaySucceed && !cfg.mayDeinitAfterTimeout
  }

  /** Where a completed stop, or none at all, lies before and no worker has been created since. */
  predicate NoWorkerYet(c: Coordinator) {
    || c.Idle? || c.DriverReady? || c.AudioCreated? || c.PitchFlagged? || c.PitchFailed? || c.FailedWait?
    || c.Confirmed? || c.StoppedUp?
  }

  ghost predicate OneWorker(cfg: Config, s: State) {
    var c, f := s.coordinator, s.flags;
    && EarlierWorkersGone(s)
    && (!WorkersAllGone(s) && cfg.mayRestartAfterTimeout ==> f.driverUp)
    && (Starting(c) ==> f.driverUp && !f.pitchStopped)
    && (f.pitchStopped ==> WorkersAllGone(s))
    && (NoWorkerYet(c) ==> WorkersAllGone(s))
    && (c.Refused? ==> WorkersAllGone(s) || Stranded(cfg, s))
    && (c.Cleared? ==> (WorkersAllGone(s) && !f.pitchStopped) || Stranded(cfg, s))
  }

  lemma StartKeepsOneWorker(cfg: Config, s: State, step: Step)
    requires OneAtATime(cfg) && OneWorker(cfg, s) && CoordinatorCan(cfg, s, step)
    requires step.BeginStart? || step.InitDriver?
    ensures OneWorker(cfg, CoordinatorStep(s, step))
  {
  }

  lemma CreationKeepsOneWorker(cfg: Config, s: State, step: Step)
    requires OneAtATime(cfg) && OneWorker(cfg, s) && CoordinatorCan(cfg, s, step)
    requires step.CreateAudio? || step.FlagPitch? || step.SkipPitch? || step.CreatePitch?
             || step.FailStopAudio? || step.FailDeinit?
    ensures OneWorker(cfg, CoordinatorStep(s, step))
  {
  }

  lemma StopKeepsOneWorker(cfg: Config, s: State, step: Step)
    requires OneAtATime(cfg) && OneWorker(cfg, s) && CoordinatorCan(cfg, s, step)
    requires step.RequestPitchStop? || step.RequestAudioStop? || step.SeeStopped? || step.GiveUp?
             || step.FinishStop? || step.LateDeinit?
    ensures OneWorker(cfg, CoordinatorStep(s, step))
  {
  }

  lemma MeasurementKeepsOneWorker(cfg: Config, s: State, step: Step)
    requires OneWorker(cfg, s)
    requires step.SetPause? || step.ObserveQuiet? || step.ClearPause? || step.ResetRecords?
    ensures OneWorker(cfg, CoordinatorStep(s, step))
  {
  }

  lemma CoordinatorKeepsOneWorker(cfg: Config, s: State, step: Step)
    requires OneAtATime(cfg) && OneWorker(cfg, s) && CoordinatorCan(cfg, s, step)
    ensures OneWorker(cfg, CoordinatorStep(s, step))
  {
    hide OneWorker, CoordinatorStep;
    if step.BeginStart? || step.InitDriver? {
      StartKeepsOneWorker(cfg, s, step);
    } else if step.CreateAudio? || step.FlagPitch? || step.SkipPitch? || step.CreatePitch?
           || step.FailStopAudio? || step.FailDeinit? {
      CreationKeepsOneWorker(cfg, s, step);
    } else if step.SetPause? || step.ObserveQuiet? || step.ClearPause? || step.ResetRecords? {
      MeasurementKeepsOneWorker(cfg, s, step);
    } else {
      StopKeepsOneWorker(cfg, s, step);
    }
  }

  lemma AudioKeepsOneWorker(cfg: Config, s: State, step: Step)
    requires OneWorker(cfg, s)
    ensures OneWorker(cfg, AudioMove(s, step))
  {
  }

  lemma WorkerKeepsOneWorker(cfg: Config, s: State, i: nat, choice: nat)
    requires OneWorker(cfg, s) && i < |s.workers|
    ensures OneWorker(cfg, WorkerMove(s, i, choice))
  {
    hide WorkerAct;
    WorkerSignals(LocalOf(s, i), choice);
  }

  lemma OneWorkerKept(cfg: Config, s: State, step: Step)
    requires OneAtATime(cfg) && OneWorker(cfg, s)
    ensures OneWorker(cfg, Act(cfg, s, step))
  {
    hide OneWorker, CoordinatorStep, CoordinatorCan, AudioMove, WorkerMove;
    match step
    case AudioTest(_) => AudioKeepsOneWorker(cfg, s, step);
    case AudioSignal(_) => AudioKeepsOneWorker(cfg, s, step);
    case WorkerStep(i, choice) =>
      if i < |s.workers| {
        WorkerKeepsOneWorker(cfg, s, i, choice);
      }
    case _ =>
      if CoordinatorCan(cfg, s, step) {
        CoordinatorKeepsOneWorker(cfg, s, step);
      }
  }

  lemma InitialOneWorker(cfg: Config)
    ensures OneWorker(cfg, INITIAL_STATE)
  {
  }

  lemma OnlyLatestWorker(cfg: Config, s: State)
    requires OneWorker(cfg, s)
    ensures EarlierWorkersGone(s)
  {
  }
}
