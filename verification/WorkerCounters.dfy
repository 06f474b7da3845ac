/** The pitch worker's counters over every run: at each loop boundary they describe
    exactly the calls made since the last start. */
module WorkerCounters {
  import opened PipelineTasks
  import opened MeasurementPause

  /** The counters of completed passes that returned these hop counts. */
  function TallyOf(returned: seq<nat>): Tally {
    if returned == [] then NO_TALLY
    else Ended(Began(TallyOf(returned[..|returned| - 1])), returned[|returned| - 1])
  }

  /** Between two passes, or outside the loop. */
  predicate AtBoundary(pc: WorkerPc) {
    pc.Head? || pc.PauseCheck? || pc.Counting? || pc.Left? || pc.Signalling? || pc.WorkerGone?
  }

  predicate InCallOrBefore(pc: WorkerPc) {
    pc.Entering? || pc.Announced? || pc.Calling?
  }

  predicate Counted(pc: WorkerPc, t: Tally, returned: seq<nat>) {
    if AtBoundary(pc) then t == TallyOf(returned)
    else if InCallOrBefore(pc) then t == Began(TallyOf(returned))
    else
      && returned != []
      && pc.processed == returned[|returned| - 1]
      && t == Began(TallyOf(returned[..|returned| - 1]))
  }

  predicate LogCounted(l: Log) {
    l.index == |l.records| + l.drops && |l.records| <= RECORD_CAPACITY
    && (l.drops > 0 ==> |l.records| == RECORD_CAPACITY)
  }

  ghost predicate CountersFit(s: State) {
    Counted(Current(s), s.tally, s.returned) && LogCounted(s.log)
  }

  lemma NoPass()
    ensures TallyOf([]) == NO_TALLY
  {
  }

  lemma LastPass(returned: seq<nat>)
    requires returned != []
    ensures TallyOf(returned) == Ended(Began(TallyOf(returned[..|returned| - 1])), returned[|returned| - 1])
  {
  }

  lemma WorkerActCounts(l: Local, choice: nat)
    requires Counted(l.pc, l.tally, l.returned) && LogCounted(l.log)
    ensures var m := WorkerAct(l, choice);
            Counted(m.pc, m.tally, m.returned) && LogCounted(m.log)
  {
    hide Began, Ended, TallyOf;
    match l.pc
    case Calling(h) =>
      assert (l.returned + [choice])[..|l.returned|] == l.returned;
    case Tallying(p) =>
      LastPass(l.returned);
    case _ =>
  }

  lemma WorkerMoveCounts(s: State, i: nat, choice: nat)
    requires EarlierWorkersGone(s) && CountersFit(s) && i < |s.workers|
    ensures CountersFit(WorkerMove(s, i, choice))
  {
    hide WorkerAct, Counted, LogCounted;
    if i < |s.workers| - 1 {
      assert s.workers[i] == WorkerGone;
      GoneStaysGone(LocalOf(s, i), choice);
    } else {
      WorkerActCounts(LocalOf(s, i), choice);
    }
  }

  lemma CoordinatorCounts(cfg: Config, s: State, step: Step)
    requires !cfg.mayRestartAfterTimeout && OneWorker(cfg, s) && CountersFit(s) && CoordinatorCan(cfg, s, step)
    ensures CountersFit(CoordinatorStep(s, step))
  {
    hide TallyOf;
    NoPass();
  }

  lemma CountersKept(cfg: Config, s: State, step: Step)
    requires !cfg.mayRestartAfterTimeout && OneWorker(cfg, s) && CountersFit(s)
    ensures CountersFit(Act(cfg, s, step))
  {
    hide OneWorker, Counted, LogCounted, CoordinatorStep, CoordinatorCan, WorkerMove;
    match step
    case AudioTest(_) =>
    case AudioSignal(_) =>
    case WorkerStep(i, choice) =>
      if i < |s.workers| {
        OnlyLatestWorker(cfg, s);
        WorkerMoveCounts(s, i, choice);
      }
    case _ =>
      if CoordinatorCan(cfg, s, step) {
        CoordinatorCounts(cfg, s, step);
      }
  }

  lemma {:induction false} CountersAlways(cfg: Config, s: State, steps: seq<Step>)
    requires !cfg.mayRestartAfterTimeout && OneWorker(cfg, s) && CountersFit(s)
    ensures CountersFit(After(cfg, s, steps))
    decreases |steps|
  {
    hide Act, OneWorker, CountersFit;
    if steps != [] {
      OneWorkerKept(cfg, s, steps[0]);
      CountersKept(cfg, s, steps[0]);
      CountersAlways(cfg, Act(cfg, s, steps[0]), steps[1..]);
    }
  }

  // ---------------------------------------------------------------------
  // The call records
  // ---------------------------------------------------------------------

  /** The hop counts of the calls that a schedule records, in order. */
  ghost function RecordedCalls(cfg: Config, s: State, steps: seq<Step>): seq<nat>
    decreases |steps|
  {
    if steps == [] then []
    else RecordedBy(s, steps[0]) + RecordedCalls(cfg, Act(cfg, s, steps[0]), steps[1..])
  }

  /** A worker past its call, with recording on when it began. */
  function RecordedBy(s: State, step: Step): seq<nat> {
    if step.WorkerStep? && step.i < |s.workers| && s.workers[step.i].Recording? && s.workers[step.i].hotspot
    then [s.workers[step.i].processed]
    else []
  }

  function LowBytes(hops: seq<nat>): (s: seq<nat>)
    ensures |s| == |hops|
  {
    seq(|hops|, i requires 0 <= i < |hops| => hops[i] % 256)
  }

  predicate NoReset(steps: seq<Step>) {
    forall k :: 0 <= k < |steps| ==> !steps[k].ResetRecords?
  }

  /** What is kept of more calls: those that still find room among the 512, one byte of each. */
  ghost predicate LogAfter(before: Log, calls: seq<nat>, after: Log) {
    var room := if before.index < 512 then 512 - before.index else 0;
    var kept := if |calls| < room then |calls| else room;
    && after.index == before.index + |calls|
    && after.records == before.records + LowBytes(calls[..kept])
    && after.drops == before.drops + |calls| - kept
  }

  lemma WorkerActLogs(l: Local, choice: nat)
    ensures var m := WorkerAct(l, choice).log;
            m == if l.pc.Recording? && l.pc.hotspot then Recorded(l.log, l.pc.processed) else l.log
  {
    hide Recorded;
    match l.pc
    case Head => case PauseCheck => case Counting => case Entering(_) => case Announced(_) => case Calling(_) =>
    case Returned(_, _) => case Recording(_, _) => case Tallying(_) =>
    case Left => case Signalling => case WorkerGone =>
  }

  lemma CoordinatorLeavesLog(s: State, step: Step)
    requires !step.ResetRecords?
    ensures CoordinatorStep(s, step).log == s.log
  {
    match step
    case BeginStart => case InitDriver(_) => case CreateAudio(_) => case FlagPitch => case SkipPitch =>
    case CreatePitch(_) => case FailStopAudio => case FailDeinit => case RequestPitchStop =>
    case RequestAudioStop => case SeeStopped => case GiveUp => case FinishStop(_) => case LateDeinit =>
    case ResetRecords => case AudioTest(_) => case AudioSignal(_) => case WorkerStep(_, _) =>
    case SetPause => case ObserveQuiet => case ClearPause =>
  }

  lemma StepLogs(cfg: Config, s: State, step: Step)
    requires !step.ResetRecords?
    ensures LogAfter(s.log, RecordedBy(s, step), Act(cfg, s, step).log)
  {
    hide CoordinatorStep, CoordinatorCan, WorkerAct, LogAfter;
    NoneLogged(s.log);
    match step
    case AudioTest(_) => case AudioSignal(_) =>
    case WorkerStep(i, choice) =>
      if i < |s.workers| {
        WorkerActLogs(LocalOf(s, i), choice);
        if s.workers[i].Recording? {
          OneLogged(s.log, s.workers[i].processed);
        }
      }
    case _ =>
      CoordinatorLeavesLog(s, step);
  }

  lemma NoneLogged(l: Log)
    ensures LogAfter(l, [], l)
  {
    assert l.records + LowBytes([]) == l.records;
  }

  lemma OneLogged(l: Log, processed: nat)
    ensures LogAfter(l, [processed], Recorded(l, processed))
  {
    assert LowBytes([processed]) == [processed % 256];
    assert l.records + LowBytes([]) == l.records;
    assert [processed][..1] == [processed] && [processed][..0] == [];
  }

  lemma LogsCompose(a: Log, x: seq<nat>, b: Log, y: seq<nat>, c: Log)
    requires LogAfter(a, x, b) && LogAfter(b, y, c)
    ensures LogAfter(a, x + y, c)
  {
    var room := if a.index < 512 then 512 - a.index else 0;
    var kept := if |x| < room then |x| else room;
    var room' := if b.index < 512 then 512 - b.index else 0;
    var kept' := if |y| < room' then |y| else room';
    assert (x + y)[..kept + kept'] == x[..kept] + y[..kept'];
    assert LowBytes(x[..kept] + y[..kept']) == LowBytes(x[..kept]) + LowBytes(y[..kept']);
    assert a.records + LowBytes(x[..kept]) + LowBytes(y[..kept'])
        == a.records + (LowBytes(x[..kept]) + LowBytes(y[..kept']));
  }

  /** In every interleaving and every configuration, between two resets, the records are the hop counts of
      the first 512 recorded calls, in order and modulo 256; the index counts all of them and
      the drops the rest. */
  lemma {:induction false} RecordsAreFirstCalls(cfg: Config, s: State, steps: seq<Step>)
    requires NoReset(steps)
    ensures LogAfter(s.log, RecordedCalls(cfg, s, steps), After(cfg, s, steps).log)
    decreases |steps|
  {
    hide Act, LogAfter, RecordedBy;
    if steps == [] {
      NoneLogged(s.log);
    } else {
      assert !steps[0].ResetRecords?;
      var t := Act(cfg, s, steps[0]);
      StepLogs(cfg, s, steps[0]);
      RecordsAreFirstCalls(cfg, t, steps[1..]);
      LogsCompose(s.log, RecordedBy(s, steps[0]), t.log, RecordedCalls(cfg, t, steps[1..]), After(cfg, s, steps).log);
    }
  }

  /** So after a reset they are those of the calls recorded since. */
  lemma RecordsSinceReset(cfg: Config, s: State, steps: seq<Step>)
    requires BetweenCalls(s.coordinator) && NoReset(steps)
    ensures var calls := RecordedCalls(cfg, Act(cfg, s, ResetRecords), steps);
            var log := After(cfg, s, [ResetRecords] + steps).log;
            && log.index == |calls|
            && log.records == LowBytes(if |calls| < 512 then calls else calls[..512])
            && log.drops == |calls| - |log.records|
  {
    hide After, Act, RecordedCalls;
    var calls := RecordedCalls(cfg, Act(cfg, s, ResetRecords), steps);
    AfterConcat(cfg, s, [ResetRecords], steps);
    AfterOne(cfg, s, ResetRecords);
    ResetEmpties(cfg, s);
    RecordsAreFirstCalls(cfg, Act(cfg, s, ResetRecords), steps);
    assert calls[..|calls|] == calls;
    assert forall r: seq<nat> :: [] + r == r;
  }

  lemma ResetEmpties(cfg: Config, s: State)
    requires BetweenCalls(s.coordinator)
    ensures Act(cfg, s, ResetRecords).log == Log(0, [], 0)
  {
  }

  function Sum(s: seq<nat>): nat {
    if s == [] then 0 else Sum(s[..|s| - 1]) + s[|s| - 1]
  }

  /** How many entries are in lo..hi inclusive. */
  function CountIn(s: seq<nat>, lo: nat, hi: nat): nat {
    if s == [] then 0
    else CountIn(s[..|s| - 1], lo, hi) + if lo <= s[|s| - 1] <= hi then 1 else 0
  }

  ghost predicate IsMaximum(s: seq<nat>, m: nat) {
    (forall i :: 0 <= i < |s| ==> s[i] <= m) && (s == [] ==> m == 0) && (s != [] ==> m in s)
  }

  predicate Describes(t: Tally, returned: seq<nat>) {
    && t.iterations == t.wakeups == t.yielded == t.runCalls == |returned|
    && t.runCalls == t.zeroHop + t.oneHop + t.multiHop
    && t.zeroHop == CountIn(returned, 0, 0) && t.oneHop == CountIn(returned, 1, 1)
    && t.hopsRequested == MAXIMUM_HOPS * t.runCalls
    && t.hopsProcessed == Sum(returned)
  }

  lemma OnePassDescribes(t: Tally, returned: seq<nat>, p: nat)
    requires Describes(t, returned)
    ensures Describes(Ended(Began(t), p), returned + [p])
    ensures Ended(Began(t), p).maximumHops == Max(t.maximumHops, p)
  {
    assert (returned + [p])[..|returned|] == returned;
  }

  lemma RaisedMaximum(returned: seq<nat>, m: nat, p: nat)
    requires IsMaximum(returned, m)
    ensures IsMaximum(returned + [p], Max(m, p))
  {
    assert (returned + [p])[|returned|] == p;
  }

  lemma {:induction false} TallyDescribes(returned: seq<nat>)
    ensures Describes(TallyOf(returned), returned) && IsMaximum(returned, TallyOf(returned).maximumHops)
    decreases |returned|
  {
    if returned != [] {
      hide Describes, IsMaximum, Began, Ended, Max;
      var front, p := returned[..|returned| - 1], returned[|returned| - 1];
      TallyDescribes(front);
      OnePassDescribes(TallyOf(front), front, p);
      RaisedMaximum(front, TallyOf(front).maximumHops, p);
      assert returned == front + [p];
    }
  }

  /** In every interleaving without starts after timed-out stops, whenever the worker is at a
      loop boundary. (Such a start resets the counters under the old worker.) */
  lemma CountersDescribeCalls(cfg: Config, steps: seq<Step>)
    requires !cfg.mayRestartAfterTimeout
    ensures var s := After(cfg, INITIAL_STATE, steps);
            && (AtBoundary(Current(s)) ==>
                  Describes(s.tally, s.returned) && IsMaximum(s.returned, s.tally.maximumHops))
            && s.log.index == |s.log.records| + s.log.drops
            && (s.log.drops > 0 ==> |s.log.records| == RECORD_CAPACITY)
  {
    hide After, OneWorker, TallyOf, Describes, IsMaximum;
    NoPass();
    InitialOneWorker(cfg);
    CountersAlways(cfg, INITIAL_STATE, steps);
    TallyDescribes(After(cfg, INITIAL_STATE, steps).returned);
  }
}
