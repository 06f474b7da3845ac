/** Runs of true values in a mask, extracted in the three ways the scripts do it, and the
    one list of runs all three are about. */
module Segmentation {

  /** A half-open range of indices. */
  datatype Run = Run(start: nat, end: nat)

  /** The runs are the maximal stretches of true: in order, apart, and covering exactly the true entries. */
  ghost predicate AreRuns(mask: seq<bool>, runs: seq<Run>) {
    && (forall i :: 0 <= i < |runs| ==> runs[i].start < runs[i].end <= |mask|)
    && (forall i, j :: 0 <= i < j < |runs| ==> runs[i].end < runs[j].start)
    && (forall k :: 0 <= k < |mask| ==> (mask[k] <==> Covered(runs, k)))
  }

  predicate Covered(runs: seq<Run>, k: int) {
    exists i :: 0 <= i < |runs| && runs[i].start <= k < runs[i].end
  }

  /** The run that is still open after k entries. */
  predicate EndsAt(runs: seq<Run>, k: nat) {
    runs != [] && runs[|runs| - 1].end == k
  }

  /** The runs of the first k entries. */
  function RunsUpTo(mask: seq<bool>, k: nat): seq<Run>
    requires k <= |mask|
  {
    if k == 0 then []
    else
      var before := RunsUpTo(mask, k - 1);
      if !mask[k - 1] then before
      else if EndsAt(before, k - 1) then before[..|before| - 1] + [Run(before[|before| - 1].start, k)]
      else before + [Run(k - 1, k)]
  }

  function Runs(mask: seq<bool>): seq<Run> {
    RunsUpTo(mask, |mask|)
  }

  lemma {:induction false} RunsUpToAreRuns(mask: seq<bool>, k: nat)
    requires k <= |mask|
    ensures AreRuns(mask[..k], RunsUpTo(mask, k))
    ensures k > 0 ==> (EndsAt(RunsUpTo(mask, k), k) <==> mask[k - 1])
    decreases k
  {
    if k > 0 {
      hide AreRuns;
      RunsUpToAreRuns(mask, k - 1);
      var before := RunsUpTo(mask, k - 1);
      assert mask[..k][..k - 1] == mask[..k - 1];
      assert mask[..k][k - 1] == mask[k - 1];
      if mask[k - 1] {
        if EndsAt(before, k - 1) {
          ExtendLast(mask[..k], before, k);
        } else {
          AppendRun(mask[..k], before, k);
        }
      } else {
        NoRun(mask[..k], before, k);
      }
    } else {
      assert mask[..0] == [];
    }
  }

  lemma NoRun(mask: seq<bool>, before: seq<Run>, k: nat)
    requires |mask| == k > 0 && !mask[k - 1] && AreRuns(mask[..k - 1], before)
    ensures AreRuns(mask, before) && !EndsAt(before, k)
  {
    forall j | 0 <= j < k ensures mask[j] <==> Covered(before, j) {
      if j < k - 1 {
        assert mask[..k - 1][j] <==> Covered(before, j);
      }
    }
  }

  lemma ExtendLast(mask: seq<bool>, before: seq<Run>, k: nat)
    requires |mask| == k > 0 && mask[k - 1]
    requires AreRuns(mask[..k - 1], before) && EndsAt(before, k - 1)
    ensures AreRuns(mask, before[..|before| - 1] + [Run(before[|before| - 1].start, k)])
  {
    var n := |before| - 1;
    var now := before[..n] + [Run(before[n].start, k)];
    forall j | 0 <= j < k ensures mask[j] <==> Covered(now, j) {
      if j < k - 1 {
        assert mask[..k - 1][j] <==> Covered(before, j);
        if i :| 0 <= i < |before| && before[i].start <= j < before[i].end {
          assert now[i].start <= j < now[i].end;
        }
        if i :| 0 <= i < |now| && now[i].start <= j < now[i].end {
          assert before[i].start <= j < before[i].end;
        }
      } else {
        assert now[n].start <= j < now[n].end;
      }
    }
  }

  lemma AppendRun(mask: seq<bool>, before: seq<Run>, k: nat)
    requires |mask| == k > 0 && mask[k - 1]
    requires AreRuns(mask[..k - 1], before) && !EndsAt(before, k - 1)
    ensures AreRuns(mask, before + [Run(k - 1, k)])
  {
    var now := before + [Run(k - 1, k)];
    var n := |before|;
    if n > 0 {
      assert before[n - 1].end < k - 1;
    }
    forall i | 0 <= i < n ensures before[i].end < k - 1 {
      if i < n - 1 {
        assert before[i].end < before[n - 1].start;
      }
    }
    forall j | 0 <= j < k ensures mask[j] <==> Covered(now, j) {
      if j < k - 1 {
        assert mask[..k - 1][j] <==> Covered(before, j);
        if i :| 0 <= i < |before| && before[i].start <= j < before[i].end {
          assert now[i].start <= j < now[i].end;
        }
        if i :| 0 <= i < |now| && now[i].start <= j < now[i].end {
          assert i < n && before[i].start <= j < before[i].end;
        }
      } else {
        assert now[n].start <= j < now[n].end;
      }
    }
  }

  lemma RunsAreRuns(mask: seq<bool>)
    ensures AreRuns(mask, Runs(mask))
  {
    RunsUpToAreRuns(mask, |mask|);
    assert mask[..|mask|] == mask;
  }

  /** Painting the runs back rebuilds the mask. */
  function Paint(runs: seq<Run>, length: nat): (mask: seq<bool>)
    ensures |mask| == length
  {
    seq(length, k => Covered(runs, k))
  }

  lemma PaintRuns(mask: seq<bool>)
    ensures Paint(Runs(mask), |mask|) == mask
  {
    RunsAreRuns(mask);
  }

  lemma StartNoLater(mask: seq<bool>, a: seq<Run>, b: seq<Run>, i: nat)
    requires AreRuns(mask, a) && AreRuns(mask, b) && i < |a| && i <= |b| && a[..i] == b[..i]
    ensures i < |b| && b[i].start <= a[i].start
  {
    var k := a[i].start;
    assert Covered(a, k);
    assert mask[k] && Covered(b, k);
    forall j | 0 <= j < i ensures b[j].end < k {
      assert a[..i][j] == b[..i][j];
    }
    var j :| 0 <= j < |b| && b[j].start <= k < b[j].end;
    if j > i {
      assert b[i].end < b[j].start;
    }
  }

  lemma EndNoEarlier(mask: seq<bool>, a: seq<Run>, b: seq<Run>, i: nat)
    requires AreRuns(mask, a) && AreRuns(mask, b) && i < |a| && i < |b| && a[i].start == b[i].start
    ensures a[i].end >= b[i].end
  {
    EndNotCovered(mask, a, i);
    if a[i].end < b[i].end {
      assert Covered(b, a[i].end);
    }
  }

  lemma EndNotCovered(mask: seq<bool>, runs: seq<Run>, i: nat)
    requires AreRuns(mask, runs) && i < |runs|
    ensures !Covered(runs, runs[i].end)
  {
  }

  lemma {:induction false} SamePrefix(mask: seq<bool>, a: seq<Run>, b: seq<Run>, i: nat)
    requires AreRuns(mask, a) && AreRuns(mask, b) && i <= |a|
    ensures i <= |b| && a[..i] == b[..i]
  {
    if i > 0 {
      SamePrefix(mask, a, b, i - 1);
      StartNoLater(mask, a, b, i - 1);
      StartNoLater(mask, b, a, i - 1);
      EndNoEarlier(mask, a, b, i - 1);
      EndNoEarlier(mask, b, a, i - 1);
      assert a[..i] == a[..i - 1] + [a[i - 1]];
      assert b[..i] == b[..i - 1] + [b[i - 1]];
    }
  }

  /** There is only one such list of runs. */
  lemma RunsUnique(mask: seq<bool>, runs: seq<Run>)
    requires AreRuns(mask, runs)
    ensures runs == Runs(mask)
  {
    var all := Runs(mask);
    RunsAreRuns(mask);
    SamePrefix(mask, runs, all, |runs|);
    SamePrefix(mask, all, runs, |all|);
    assert runs == runs[..|runs|] && all == all[..|all|];
  }

  // ---------------------------------------------------------------------
  // active_regions: differences of the padded mask
  // ---------------------------------------------------------------------

  function Level(mask: seq<bool>, k: int): int {
    if 0 <= k < |mask| && mask[k] then 1 else 0
  }

  /** `np.diff` of the mask with a false entry at either end. */
  function Edges(mask: seq<bool>): (e: seq<int>)
    ensures |e| == |mask| + 1
  {
    seq(|mask| + 1, k => Level(mask, k) - Level(mask, k - 1))
  }

  /** `np.flatnonzero(edge == v)`, looking at the first k edges. */
  function Where(edges: seq<int>, v: int, k: nat): seq<nat>
    requires k <= |edges|
  {
    if k == 0 then [] else Where(edges, v, k - 1) + if edges[k - 1] == v then [k - 1] else []
  }

  /** `zip` stops with the shorter list. */
  function Zip(starts: seq<nat>, ends: seq<nat>): seq<Run> {
    if starts == [] || ends == [] then []
    else [Run(starts[0], ends[0])] + Zip(starts[1..], ends[1..])
  }

  function AtLeast(runs: seq<Run>, minimum: int): seq<Run> {
    if runs == [] then []
    else (if runs[0].end - runs[0].start >= minimum then [runs[0]] else []) + AtLeast(runs[1..], minimum)
  }

  function ActiveRegions(mask: seq<bool>, minimum: int): seq<Run> {
    var edges := Edges(mask);
    AtLeast(Zip(Where(edges, 1, |edges|), Where(edges, -1, |edges|)), minimum)
  }

  function StartsOf(runs: seq<Run>): seq<nat> {
    seq(|runs|, i requires 0 <= i < |runs| => runs[i].start)
  }

  function EndsOf(runs: seq<Run>): seq<nat> {
    seq(|runs|, i requires 0 <= i < |runs| => runs[i].end)
  }

  /** The runs that ended before k. */
  function ClosedBy(runs: seq<Run>, k: nat): seq<Run> {
    if EndsAt(runs, k) then runs[..|runs| - 1] else runs
  }

  lemma OneMoreRun(runs: seq<Run>, r: Run)
    ensures StartsOf(runs + [r]) == StartsOf(runs) + [r.start]
    ensures EndsOf(runs + [r]) == EndsOf(runs) + [r.end]
    ensures EndsAt(runs + [r], r.end) && ClosedBy(runs + [r], r.end) == runs
  {
    assert (runs + [r])[..|runs|] == runs;
  }

  /** What edge number k says about the runs before it and the next entry. */
  lemma EdgeAt(mask: seq<bool>, k: nat)
    requires k <= |mask|
    ensures var ended := EndsAt(RunsUpTo(mask, k), k);
            Edges(mask)[k] == Level(mask, k) - if ended then 1 else 0
  {
    RunsUpToAreRuns(mask, k);
  }

  lemma NoRunsYet()
    ensures StartsOf([]) == [] && EndsOf(ClosedBy([], 0)) == []
  {
  }

  lemma {:induction false} EdgesSoFar(mask: seq<bool>, k: nat)
    requires k <= |mask|
    ensures var runs := RunsUpTo(mask, k);
            && Where(Edges(mask), 1, k) == StartsOf(runs)
            && Where(Edges(mask), -1, k) == EndsOf(ClosedBy(runs, k))
    decreases k
  {
    hide Edges, StartsOf, EndsOf, ClosedBy, EndsAt;
    if k > 0 {
      var before := RunsUpTo(mask, k - 1);
      EdgesSoFar(mask, k - 1);
      EdgeAt(mask, k - 1);
      RunsStep(mask, k);
    } else {
      NoRunsYet();
    }
  }

  /** One more entry, as seen by the starts and the ends. */
  lemma RunsStep(mask: seq<bool>, k: nat)
    requires 0 < k <= |mask|
    ensures var before, now := RunsUpTo(mask, k - 1), RunsUpTo(mask, k);
            var ended := EndsAt(before, k - 1);
            && StartsOf(now) == StartsOf(before) + (if mask[k - 1] && !ended then [k - 1] else [])
            && EndsOf(ClosedBy(now, k))
               == EndsOf(ClosedBy(before, k - 1)) + if !mask[k - 1] && ended then [k - 1] else []
  {
    hide StartsOf, EndsOf;
    var before := RunsUpTo(mask, k - 1);
    RunsUpToAreRuns(mask, k - 1);
    if EndsAt(before, k - 1) {
      var n := |before| - 1;
      assert before == before[..n] + [before[n]];
      OneMoreRun(before[..n], before[n]);
      OneMoreRun(before[..n], Run(before[n].start, k));
    } else {
      OneMoreRun(before, Run(k - 1, k));
    }
  }

  lemma {:induction false} ZipParts(runs: seq<Run>)
    ensures Zip(StartsOf(runs), EndsOf(runs)) == runs
    decreases |runs|
  {
    if runs != [] {
      ZipParts(runs[1..]);
      assert StartsOf(runs)[1..] == StartsOf(runs[1..]);
      assert EndsOf(runs)[1..] == EndsOf(runs[1..]);
    }
  }

  /** Pairing the rising with the falling edges gives the runs. */
  lemma ActiveRegionsAreLongRuns(mask: seq<bool>, minimum: int)
    ensures ActiveRegions(mask, minimum) == AtLeast(Runs(mask), minimum)
  {
    hide StartsOf, EndsOf, Zip, AtLeast, Edges;
    var n, edges, runs := |mask|, Edges(mask), Runs(mask);
    EdgesSoFar(mask, n);
    EdgeAt(mask, n);
    if EndsAt(runs, n) {
      assert runs == runs[..|runs| - 1] + [runs[|runs| - 1]];
      OneMoreRun(runs[..|runs| - 1], runs[|runs| - 1]);
    }
    assert Where(edges, 1, n + 1) == StartsOf(runs) + [] == StartsOf(runs);
    assert EndsOf(runs) + [] == EndsOf(runs);
    assert Where(edges, -1, n + 1) == EndsOf(runs);
    ZipParts(runs);
  }

  ghost predicate InOrder(runs: seq<Run>) {
    forall i, j :: 0 <= i < j < |runs| ==> runs[i].start < runs[j].start
  }

  lemma RunsInOrder(mask: seq<bool>)
    ensures InOrder(Runs(mask))
    ensures forall r: Run :: r in Runs(mask) ==> r.start < r.end <= |mask|
  {
    RunsAreRuns(mask);
    var runs := Runs(mask);
    forall i, j | 0 <= i < j < |runs| ensures runs[i].start < runs[j].start {
      assert runs[i].end < runs[j].start;
    }
  }

  lemma {:induction false} AtLeastIff(runs: seq<Run>, minimum: int)
    requires InOrder(runs)
    ensures forall r: Run :: r in AtLeast(runs, minimum) <==> r in runs && r.end - r.start >= minimum
    ensures InOrder(AtLeast(runs, minimum))
    decreases |runs|
  {
    if runs != [] {
      AtLeastIff(runs[1..], minimum);
      assert runs == [runs[0]] + runs[1..];
      var rest := AtLeast(runs[1..], minimum);
      forall i | 0 <= i < |rest| ensures runs[0].start < rest[i].start {
        assert rest[i] in runs[1..];
      }
    }
  }

  /** For every mask and minimum, active_regions returns, in order, exactly the runs of at least that
      many entries. */
  lemma ActiveRegionsIff(mask: seq<bool>, minimum: int)
    ensures forall r: Run :: r in ActiveRegions(mask, minimum) <==> r in Runs(mask) && r.end - r.start >= minimum
    ensures InOrder(ActiveRegions(mask, minimum))
  {
    hide AtLeast, Where, Zip;
    ActiveRegionsAreLongRuns(mask, minimum);
    RunsInOrder(mask);
    AtLeastIff(Runs(mask), minimum);
  }

  /** With a minimum of one or less it returns every run. */
  lemma ActiveRegionsOfOne(mask: seq<bool>, minimum: int)
    requires minimum <= 1
    ensures ActiveRegions(mask, minimum) == Runs(mask)
  {
    hide ActiveRegions, Runs;
    ActiveRegionsIff(mask, minimum);
    RunsInOrder(mask);
    SameRuns(ActiveRegions(mask, minimum), Runs(mask));
  }

  /** Lists in order with the same runs are the same. */
  lemma {:induction false} SameRuns(a: seq<Run>, b: seq<Run>)
    requires InOrder(a) && InOrder(b)
    ensures (forall r: Run :: r in a <==> r in b) ==> a == b
    decreases |a|
  {
    if a == [] || b == [] {
      assert a != [] ==> a[0] in a;
      assert b != [] ==> b[0] in b;
    } else if forall r: Run :: r in a <==> r in b {
      assert a[0] in b && b[0] in a;
      assert a[0] == b[0];
      forall r: Run ensures r in a[1..] <==> r in b[1..] {
        assert r in a[1..] <==> r in a && r != a[0];
        assert r in b[1..] <==> r in b && r != b[0];
      }
      SameRuns(a[1..], b[1..]);
      assert a == [a[0]] + a[1..] && b == [b[0]] + b[1..];
    }
  }

  // ---------------------------------------------------------------------
  // The two scanners
  // ---------------------------------------------------------------------

  /** The same runs with the last index included, as the episode lists give them. */
  function Inclusive(runs: seq<Run>): seq<(nat, int)> {
    seq(|runs|, i requires 0 <= i < |runs| => (runs[i].start, runs[i].end - 1))
  }

  /** An entry is true exactly if some episode includes it. */
  lemma InclusiveCovers(mask: seq<bool>, k: nat)
    requires k < |mask|
    ensures var episodes := Inclusive(Runs(mask));
            mask[k] <==> exists i :: 0 <= i < |episodes| && episodes[i].0 <= k <= episodes[i].1
  {
    hide Runs;
    RunsAreRuns(mask);
    var runs, episodes := Runs(mask), Inclusive(Runs(mask));
    if i :| 0 <= i < |runs| && runs[i].start <= k < runs[i].end {
      assert episodes[i].0 <= k <= episodes[i].1;
    }
    if i :| 0 <= i < |episodes| && episodes[i].0 <= k <= episodes[i].1 {
      assert runs[i].start <= k < runs[i].end;
    }
  }

  /** What a scanner that has closed some runs, and perhaps opened one, has seen. */
  ghost predicate Scanned(mask: seq<bool>, k: nat, closed: seq<Run>, inRun: bool, start: nat)
    requires k <= |mask|
  {
    if inRun then start < k && RunsUpTo(mask, k) == closed + [Run(start, k)]
    else RunsUpTo(mask, k) == closed && !EndsAt(closed, k)
  }

  lemma ScanStep(mask: seq<bool>, k: nat, closed: seq<Run>, inRun: bool, start: nat)
    requires k < |mask| && Scanned(mask, k, closed, inRun, start)
    ensures mask[k] && !inRun ==> Scanned(mask, k + 1, closed, true, k)
    ensures mask[k] && inRun ==> Scanned(mask, k + 1, closed, true, start)
    ensures !mask[k] && inRun ==> Scanned(mask, k + 1, closed + [Run(start, k)], false, start)
    ensures !mask[k] && !inRun ==> Scanned(mask, k + 1, closed, false, start)
  {
    RunsUpToAreRuns(mask, k);
    RunsUpToAreRuns(mask, k + 1);
    if inRun {
      var before := RunsUpTo(mask, k);
      assert EndsAt(before, k);
      assert before[..|before| - 1] == closed;
    }
  }

  /** The scanner of the pitch-tracker states, closing a run that reaches the last row. */
  method Episodes(mask: seq<bool>) returns (episodes: seq<(nat, int)>)
    ensures episodes == Inclusive(Runs(mask))
  {
    episodes := [];
    var inEpisode, start := false, 0;
    ghost var closed: seq<Run> := [];
    for i := 0 to |mask|
      invariant Scanned(mask, i, closed, inEpisode, start)
      invariant episodes == Inclusive(closed)
    {
      ScanStep(mask, i, closed, inEpisode, start);
      if mask[i] && !inEpisode {
        inEpisode := true;
        start := i;
      } else if !mask[i] && inEpisode {
        inEpisode := false;
        episodes := episodes + [(start, i - 1)];
        closed := closed + [Run(start, i)];
      }
    }
    if inEpisode {
      episodes := episodes + [(start, |mask| - 1)];
    }
  }

  predicate Keeps(keep: nat -> bool, r: Run) {
    r.start <= r.end && keep(r.end - r.start)
  }

  /** The runs whose length passes a test. */
  function Keep(runs: seq<Run>, keep: nat -> bool): seq<Run> {
    if runs == [] then []
    else
      var n := |runs| - 1;
      Keep(runs[..n], keep) + if Keeps(keep, runs[n]) then [runs[n]] else []
  }

  lemma KeepNext(runs: seq<Run>, r: Run, keep: nat -> bool)
    requires r.start <= r.end
    ensures Keep(runs + [r], keep) == Keep(runs, keep) + if keep(r.end - r.start) then [r] else []
  {
    hide Keep;
    var all, n := runs + [r], |runs|;
    assert all[..n] == runs && all[n] == r && |all| == n + 1;
    KeepLast(all, keep);
  }

  lemma KeepLast(runs: seq<Run>, keep: nat -> bool)
    requires runs != []
    ensures var n := |runs| - 1;
            Keep(runs, keep) == Keep(runs[..n], keep) + if Keeps(keep, runs[n]) then [runs[n]] else []
  {
  }

  lemma NothingScanned(mask: seq<bool>, keep: nat -> bool)
    ensures Keep([], keep) == [] && Scanned(mask, 0, [], false, 0)
  {
  }

  /** The dropout scanner: runs are reported when they end, so one that reaches the last
      frame is not, and the others are filtered by duration. */
  method Dips(mask: seq<bool>, keep: nat -> bool) returns (events: seq<Run>)
    ensures events == Keep(ClosedBy(Runs(mask), |mask|), keep)
  {
    hide RunsUpTo, Keep;
    NothingScanned(mask, keep);
    events := [];
    var inEvent, start := false, 0;
    ghost var closed: seq<Run> := [];
    for k := 0 to |mask|
      invariant Scanned(mask, k, closed, inEvent, start)
      invariant events == Keep(closed, keep)
    {
      ScanStep(mask, k, closed, inEvent, start);
      if mask[k] && !inEvent {
        inEvent := true;
        start := k;
      } else if !mask[k] && inEvent {
        inEvent := false;
        if keep(k - start) {
          events := events + [Run(start, k)];
        }
        KeepNext(closed, Run(start, k), keep);
        closed := closed + [Run(start, k)];
      }
    }
    if inEvent {
      OneMoreRun(closed, Run(start, |mask|));
    }
  }

  lemma OneMoreInOrder(runs: seq<Run>, r: Run)
    requires InOrder(runs) && forall f :: f in runs ==> f.start < r.start
    ensures InOrder(runs + [r])
    ensures forall f: Run :: f in runs + [r] <==> f in runs || f == r
  {
    forall i | 0 <= i < |runs| ensures runs[i].start < r.start {
      assert runs[i] in runs;
    }
  }

  lemma FrontInOrder(runs: seq<Run>)
    requires InOrder(runs) && runs != []
    ensures var n := |runs| - 1;
            && InOrder(runs[..n]) && runs == runs[..n] + [runs[n]]
            && forall f :: f in runs[..n] ==> f in runs && f.start < runs[n].start
  {
  }

  lemma {:induction false} KeptIff(runs: seq<Run>, keep: nat -> bool, r: Run)
    ensures r in Keep(runs, keep) <==> r in runs && Keeps(keep, r)
    decreases |runs|
  {
    if runs != [] {
      hide Keep, Keeps;
      var n := |runs| - 1;
      KeptIff(runs[..n], keep, r);
      KeepLast(runs, keep);
      assert runs == runs[..n] + [runs[n]];
    }
  }

  lemma {:induction false} KeptInOrder(runs: seq<Run>, keep: nat -> bool)
    requires InOrder(runs)
    ensures InOrder(Keep(runs, keep))
    decreases |runs|
  {
    if runs != [] {
      var n := |runs| - 1;
      FrontInOrder(runs);
      KeptInOrder(runs[..n], keep);
      forall f: Run | f in Keep(runs[..n], keep) ensures f.start < runs[n].start {
        KeptIff(runs[..n], keep, f);
      }
      hide InOrder;
      OneMoreInOrder(Keep(runs[..n], keep), runs[n]);
    }
  }

  /** Of runs that end by m, those that end before it. */
  lemma ClosedIff(runs: seq<Run>, m: nat)
    requires forall i :: 0 <= i < |runs| ==> runs[i].start < runs[i].end <= m
    requires forall i, j :: 0 <= i < j < |runs| ==> runs[i].end < runs[j].start
    ensures forall r: Run :: r in ClosedBy(runs, m) <==> r in runs && r.end < m
  {
    if runs != [] {
      var n := |runs| - 1;
      forall i | 0 <= i < n ensures runs[i].end < m {
        assert runs[i].end < runs[n].start;
      }
    }
  }

  lemma ClosedRuns(mask: seq<bool>)
    ensures forall r: Run :: r in ClosedBy(Runs(mask), |mask|) <==> r in Runs(mask) && r.end < |mask|
    ensures InOrder(ClosedBy(Runs(mask), |mask|))
  {
    hide RunsUpTo;
    RunsAreRuns(mask);
    RunsInOrder(mask);
    ClosedIff(Runs(mask), |mask|);
  }

  /** The dropout scanner reports, in order, exactly the runs that end before the last entry and have
      a length that passes the test. */
  lemma DipsIff(mask: seq<bool>, keep: nat -> bool)
    ensures var events := Keep(ClosedBy(Runs(mask), |mask|), keep);
            && (forall r: Run :: r in events
                  <==> r in Runs(mask) && r.start <= r.end < |mask| && keep(r.end - r.start))
            && InOrder(events)
  {
    hide Keep, ClosedBy, Runs;
    var closed := ClosedBy(Runs(mask), |mask|);
    ClosedRuns(mask);
    KeptInOrder(closed, keep);
    forall r: Run
      ensures r in Keep(closed, keep) <==> r in Runs(mask) && r.start <= r.end < |mask| && keep(r.end - r.start)
    {
      KeptIff(closed, keep, r);
    }
  }

  /** The dropout scanner loses a run exactly when the mask ends in one. */
  lemma DipsLoseTrailingRun(mask: seq<bool>)
    ensures ClosedBy(Runs(mask), |mask|) == Runs(mask) <==> mask == [] || !mask[|mask| - 1]
  {
    if mask != [] {
      hide AreRuns, RunsUpTo;
      RunsUpToAreRuns(mask, |mask|);
      assert EndsAt(Runs(mask), |mask|) ==> |ClosedBy(Runs(mask), |mask|)| < |Runs(mask)|;
    }
  }
}
