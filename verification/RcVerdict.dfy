/** The release-candidate verdict: the pass rule of one measured run, and the large
    conjunction folded over the matrix, the repeated worst case and the stability runs. */
module RcVerdict {

  const FIFO_CAPACITY := 2048
  const REPEATS := 3

  datatype Definition = Definition(representative: bool, vocal: bool)

  /** What one run measures, when its pipeline starts. */
  datatype Measurement = Measurement(
    started: bool, wallSeconds: real, totalMsPerS: real, fifoDrops: nat, fifoCurrent: nat, fifoMaximum: nat,
    backlogMaxMs: real, backlogFirstMs: real, backlogLastMs: real, growthStreak: nat, pitchAgeMaxMs: real,
    transportClean: bool, teardownClean: bool)

  datatype CaseResult = CaseResult(
    totalMsPerS: real, fifoDrops: nat, transportClean: bool, teardownClean: bool, healthPass: bool, pass: bool)

  /** A result nobody filled in. */
  const NO_RESULT := CaseResult(0.0, 0, false, false, false, false)

  /** The limits a measured run has to keep. */
  predicate KeepsLimits(m: Measurement, measuredSeconds: nat) {
    && measuredSeconds as real <= m.wallSeconds
    && m.fifoDrops == 0 && m.fifoCurrent <= 2046 && m.fifoMaximum <= 2046
    && m.backlogMaxMs <= 50.0 && m.pitchAgeMaxMs <= 50.0
    && (m.growthStreak <= 4 || m.backlogLastMs - m.backlogFirstMs <= 5.0)
    && m.transportClean && m.teardownClean
  }

  /** A run that started, kept them, and left time over in every second. */
  predicate Passes(m: Measurement, measuredSeconds: nat) {
    m.started && KeepsLimits(m, measuredSeconds) && m.totalMsPerS <= 1000.0
  }

  /** `b4b6_run_case`. */
  function RunCase(m: Measurement, measuredSeconds: nat): (r: CaseResult)
    ensures r.healthPass <==> m.started && KeepsLimits(m, measuredSeconds)
    ensures r.pass <==> Passes(m, measuredSeconds)
    ensures m.started ==> r.totalMsPerS == m.totalMsPerS && r.fifoDrops == m.fifoDrops
                          && r.transportClean == m.transportClean && r.teardownClean == m.teardownClean
    ensures !m.started ==> r.totalMsPerS == 0.0 && r.fifoDrops == 0 && !r.transportClean && !r.teardownClean
  {
    if !m.started then NO_RESULT
    else
      var trendBounded := !(m.growthStreak >= 5 && m.backlogLastMs > m.backlogFirstMs + 5.0);
      var fifoBounded := m.fifoDrops == 0 && m.fifoCurrent < FIFO_CAPACITY - 1 && m.fifoMaximum < FIFO_CAPACITY - 1;
      var backlogBounded := m.backlogMaxMs <= 50.0 && trendBounded;
      var pitchAgeHealthy := m.pitchAgeMaxMs <= 50.0;
      var health :=
        m.wallSeconds >= measuredSeconds as real && fifoBounded && backlogBounded && pitchAgeHealthy
        && m.transportClean && m.teardownClean;
      CaseResult(m.totalMsPerS, m.fifoDrops, m.transportClean, m.teardownClean, health,
                 health && m.totalMsPerS <= 1000.0)
  }

  datatype Verdict = Verdict(
    allCasesPass: bool, allTransportClean: bool, allTeardownClean: bool, hardRealtime: bool,
    productionHeadroom: bool, totalDrops: nat)

  const CLEAN := Verdict(true, true, true, true, true, 0)

  /** The flags after one more result; headroom is asked only of some. */
  function Fold(v: Verdict, r: CaseResult, headroom: bool): Verdict {
    Verdict(v.allCasesPass && r.pass, v.allTransportClean && r.transportClean,
            v.allTeardownClean && r.teardownClean, v.hardRealtime && r.totalMsPerS <= 1000.0,
            v.productionHeadroom && (headroom ==> r.totalMsPerS <= 900.0), v.totalDrops + r.fifoDrops)
  }

  /** The first of the first k non-vocal cases with the highest load, or none. */
  ghost predicate IsWorstSynthetic(definitions: seq<Definition>, results: seq<CaseResult>, k: nat, w: int)
    requires k <= |definitions| == |results|
  {
    && -1 <= w < k
    && (w == -1 ==> forall i :: 0 <= i < k ==> definitions[i].vocal)
    && (w >= 0 ==>
          && !definitions[w].vocal
          && (forall i :: 0 <= i < k && !definitions[i].vocal ==> results[i].totalMsPerS <= results[w].totalMsPerS)
          && (forall i :: 0 <= i < w && !definitions[i].vocal ==> results[i].totalMsPerS < results[w].totalMsPerS))
  }

  /** The last of the first k vocal cases, or none. */
  ghost predicate IsLastVocal(definitions: seq<Definition>, k: nat, v: int)
    requires k <= |definitions|
  {
    && -1 <= v < k
    && (v >= 0 ==> definitions[v].vocal)
    && (forall i :: v < i < k ==> !definitions[i].vocal)
  }

  ghost predicate AllPass(results: seq<CaseResult>) {
    forall i :: 0 <= i < |results| ==> results[i].pass
  }

  ghost predicate Headroom(definitions: seq<Definition>, results: seq<CaseResult>)
    requires |definitions| == |results|
  {
    forall i :: 0 <= i < |results| && definitions[i].representative ==> results[i].totalMsPerS <= 900.0
  }

  /** The other flags, over all results. */
  ghost predicate FlagsFold(v: Verdict, results: seq<CaseResult>) {
    && (v.allTransportClean <==> forall i :: 0 <= i < |results| ==> results[i].transportClean)
    && (v.allTeardownClean <==> forall i :: 0 <= i < |results| ==> results[i].teardownClean)
    && (v.hardRealtime <==> forall i :: 0 <= i < |results| ==> results[i].totalMsPerS <= 1000.0)
    && v.totalDrops == Drops(results)
  }

  function Drops(results: seq<CaseResult>): nat {
    if results == [] then 0 else Drops(results[..|results| - 1]) + results[|results| - 1].fifoDrops
  }

  lemma NextFlags(v: Verdict, results: seq<CaseResult>, r: CaseResult, headroom: bool)
    requires FlagsFold(v, results)
    ensures FlagsFold(Fold(v, r, headroom), results + [r])
  {
    var all := results + [r];
    assert all[..|results|] == results;
    assert all[|results|] == r;
    assert forall i :: 0 <= i < |results| ==> results[i] == all[i];
  }

  /** What the folded flags are worth: while every case has passed, all but headroom are still good. */
  ghost predicate Implied(v: Verdict) {
    v.allCasesPass ==> v.allTransportClean && v.allTeardownClean && v.hardRealtime && v.totalDrops == 0
  }

  ghost predicate AllHealthy(results: seq<CaseResult>) {
    forall i :: 0 <= i < |results| ==> Healthy(results[i])
  }

  /** What every result a run can return satisfies. */
  predicate Healthy(r: CaseResult) {
    && (r.pass ==> r.healthPass && r.totalMsPerS <= 1000.0)
    && (r.healthPass ==> r.fifoDrops == 0 && r.transportClean && r.teardownClean)
  }

  /** Runs every case of the matrix. */
  method RunMatrix(matrix: seq<Measurement>, measureSeconds: nat) returns (results: seq<CaseResult>)
    ensures |results| == |matrix| && AllHealthy(results)
    ensures forall i :: 0 <= i < |matrix| ==> results[i] == RunCase(matrix[i], measureSeconds)
  {
    results := [];
    for i := 0 to |matrix|
      invariant |results| == i && AllHealthy(results)
      invariant forall j :: 0 <= j < i ==> results[j] == RunCase(matrix[j], measureSeconds)
    {
      results := results + [RunCase(matrix[i], measureSeconds)];
    }
  }

  lemma NextImplied(v: Verdict, r: CaseResult, headroom: bool)
    requires Implied(v) && Healthy(r)
    ensures Implied(Fold(v, r, headroom))
  {
  }

  lemma NothingFolded()
    ensures FlagsFold(CLEAN, []) && Implied(CLEAN) && AllPass([]) && Headroom([], [])
  {
  }

  /** Folds the flags over the matrix and finds the worst synthetic and the vocal case. */
  method FoldMatrix(definitions: seq<Definition>, results: seq<CaseResult>)
    returns (v: Verdict, worst: int, vocal: int)
    requires |definitions| == |results| && AllHealthy(results)
    ensures v.allCasesPass <==> AllPass(results)
    ensures v.productionHeadroom <==> Headroom(definitions, results)
    ensures FlagsFold(v, results)
    ensures Implied(v)
    ensures IsWorstSynthetic(definitions, results, |results|, worst)
    ensures IsLastVocal(definitions, |results|, vocal)
  {
    hide FlagsFold, Implied, AllPass, Headroom, Healthy;
    v, worst, vocal := CLEAN, -1, -1;
    NothingFolded();
    assert results[..0] == [] && definitions[..0] == [];
    for i := 0 to |results|
      invariant v.allCasesPass <==> AllPass(results[..i])
      invariant v.productionHeadroom <==> Headroom(definitions[..i], results[..i])
      invariant FlagsFold(v, results[..i])
      invariant Implied(v)
      invariant IsWorstSynthetic(definitions, results, i, worst)
      invariant IsLastVocal(definitions, i, vocal)
    {
      var candidate := results[i];
      if !definitions[i].vocal && (worst == -1 || candidate.totalMsPerS > results[worst].totalMsPerS) {
        worst := i;
      }
      if definitions[i].vocal {
        vocal := i;
      }
      OneMore(definitions, results, i);
      NextImplied(v, candidate, definitions[i].representative);
      NextFlags(v, results[..i], candidate, definitions[i].representative);
      assert results[..i + 1] == results[..i] + [candidate];
      v := Fold(v, candidate, definitions[i].representative);
    }
    assert results[..|results|] == results && definitions[..|results|] == definitions;
  }

  lemma OneMore(definitions: seq<Definition>, results: seq<CaseResult>, i: nat)
    requires |definitions| == |results| && i < |results|
    ensures AllPass(results[..i + 1]) <==> AllPass(results[..i]) && results[i].pass
    ensures Headroom(definitions[..i + 1], results[..i + 1])
       <==> Headroom(definitions[..i], results[..i])
            && (definitions[i].representative ==> results[i].totalMsPerS <= 900.0)
  {
    if AllPass(results[..i + 1]) {
      forall j | 0 <= j < i ensures results[..i][j].pass {
        assert results[..i + 1][j].pass;
      }
      assert results[..i + 1][i].pass;
    }
    if Headroom(definitions[..i + 1], results[..i + 1]) {
      forall j | 0 <= j < i && definitions[..i][j].representative ensures results[..i][j].totalMsPerS <= 900.0 {
        assert definitions[..i + 1][j].representative;
      }
      assert definitions[..i + 1][i] == definitions[i];
    }
  }

  method FoldRepeats(before: Verdict, repeats: seq<Measurement>, measureSeconds: nat) returns (v: Verdict)
    requires Implied(before)
    ensures Implied(v) && v.productionHeadroom == before.productionHeadroom
    ensures v.allCasesPass <==>
              before.allCasesPass && forall j :: 0 <= j < |repeats| ==> Passes(repeats[j], measureSeconds)
  {
    hide RunCase, KeepsLimits;
    v := before;
    for i := 0 to |repeats|
      invariant Implied(v) && v.productionHeadroom == before.productionHeadroom
      invariant v.allCasesPass <==>
        before.allCasesPass && forall j :: 0 <= j < i ==> Passes(repeats[j], measureSeconds)
    {
      RunCaseHealthy(repeats[i], measureSeconds);
      v := Fold(v, RunCase(repeats[i], measureSeconds), false);
    }
  }

  lemma NoResultHealthy()
    ensures Healthy(NO_RESULT)
  {
  }

  lemma RunCaseHealthy(m: Measurement, seconds: nat)
    ensures Healthy(RunCase(m, seconds))
  {
  }

  /** The whole conjunction, once both stability runs are in. */
  function Conjunction(before: Verdict, worstStability: CaseResult, vocalStability: CaseResult): bool {
    var v := Fold(Fold(before, worstStability, false), vocalStability, true);
    && v.allCasesPass && v.hardRealtime && v.productionHeadroom && v.totalDrops == 0
    && worstStability.healthPass && vocalStability.healthPass
    && v.allTransportClean && v.allTeardownClean
  }

  lemma ConjunctionReduces(before: Verdict, a: CaseResult, b: CaseResult)
    requires Implied(before) && Healthy(a) && Healthy(b)
    ensures Conjunction(before, a, b)
       <==> before.allCasesPass && a.pass && b.pass && before.productionHeadroom && b.totalMsPerS <= 900.0
  {
  }

  /** Every run of the matrix, the repeats and the stability tests passes, and there is both a
      synthetic and a vocal case to repeat. */
  ghost predicate EveryRunPasses(definitions: seq<Definition>, matrix: seq<Measurement>, repeats: seq<Measurement>,
                                 worstRun: Measurement, vocalRun: Measurement,
                                 measureSeconds: nat, stabilitySeconds: nat) {
    && (exists i :: 0 <= i < |definitions| && definitions[i].vocal)
    && (exists i :: 0 <= i < |definitions| && !definitions[i].vocal)
    && (forall i :: 0 <= i < |matrix| ==> Passes(matrix[i], measureSeconds))
    && (forall i :: 0 <= i < |repeats| ==> Passes(repeats[i], measureSeconds))
    && Passes(worstRun, stabilitySeconds)
    && Passes(vocalRun, stabilitySeconds)
  }

  /** The runs that stand for production, and the vocal stability run, measured a tenth less. */
  ghost predicate LeavesHeadroom(definitions: seq<Definition>, matrix: seq<Measurement>, vocalRun: Measurement)
    requires |definitions| == |matrix|
  {
    && (forall i :: 0 <= i < |matrix| && definitions[i].representative ==> matrix[i].totalMsPerS <= 900.0)
    && vocalRun.totalMsPerS <= 900.0
  }

  /** The verdict. For every set of cases and every outcome of the runs it is the conjunction of
      three things: the configuration matches, every run passes, and the loads that must leave
      headroom do. Hard real time, the drops, the transport, the teardowns and both stability
      flags decide nothing on their own. */
  method Qualify(configMatches: bool, definitions: seq<Definition>, matrix: seq<Measurement>,
                 repeats: seq<Measurement>, worstRun: Measurement, vocalRun: Measurement,
                 measureSeconds: nat, stabilitySeconds: nat)
    returns (qualified: bool)
    requires |definitions| == |matrix| && |repeats| == REPEATS
    ensures qualified <==>
              && configMatches
              && EveryRunPasses(definitions, matrix, repeats, worstRun, vocalRun, measureSeconds, stabilitySeconds)
              && LeavesHeadroom(definitions, matrix, vocalRun)
  {
    hide RunCase, Fold, Conjunction, Implied, Healthy, KeepsLimits;
    if !configMatches {
      return false;
    }
    var results := RunMatrix(matrix, measureSeconds);
    var v, worst, vocal := FoldMatrix(definitions, results);
    if worst >= 0 {
      v := FoldRepeats(v, repeats, measureSeconds);
    }
    var worstStability, vocalStability := NO_RESULT, NO_RESULT;
    if worst >= 0 {
      worstStability := RunCase(worstRun, stabilitySeconds);
    }
    if vocal >= 0 {
      vocalStability := RunCase(vocalRun, stabilitySeconds);
    }
    qualified := Conjunction(v, worstStability, vocalStability);
    RunCaseHealthy(worstRun, stabilitySeconds);
    RunCaseHealthy(vocalRun, stabilitySeconds);
    NoResultHealthy();
    ConjunctionReduces(v, worstStability, vocalStability);
  }
}
